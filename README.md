# Alina wake-word listener: a verified model of its bookkeeping

Alina listens to a microphone, scores each 128-sample window with a small recurrent
network, and when the score crosses a threshold hands the last seconds of audio to a speech
recogniser; a transcript that starts with the wake word "алина" is offered to a set of
skills, each a regular expression paired with an executable or a shared library. An
offline trainer cuts labelled recordings into spectrogram samples and trains the network.

This project models the index, counter and layout logic of that system in Dafny, with the
audio device, the recogniser, the regular-expression engine, the Fourier magnitudes and the
network itself as parameters:

- `sound_reader.dfy` (module `SoundReader`): the capture ring buffer `SoundBuffer` as a
  class over an `array<int16>` with its `start`/`end` cursors. The device is a stream of
  interleaved 16-bit values; ghost sequences record the samples handed out (`past`) and
  the unread ones (`unread`), and the invariant `Valid` ties every unread sample and the
  retained history to its slot.
- `fft.dfy` (module `Fft`): the bit reversal `rev`, the in-place swap loop and the
  recursive `do_fft` over a generic element type, with the butterfly as a parameter.
- `skills.dfy` (module `Skills`): `check_and_apply`, the argument vectors of `FileSkill`
  and `SoSkill`, the copies of the submatches and the cleanup loop.
- `main_loop.dfy` (module `MainLoop`): skill discovery, the 128-sample window and its
  64-sample hop, the `sr_offset` history counter, the detection step, the phrase loop that
  feeds the recogniser, and the dispatch of the final transcript.
- `train.dfy` (module `Train`): the spectrogram frame loop, `get_treshold` over an
  abstract `nth_element`, the sliding counter and cutting of `split`, and the sizing of the
  loss array of one training epoch.
- `alina_net.dfy` (module `AlinaNet`): the weight file as 21 byte arrays written back to
  back, `add_data`, the batching of `train_epoch` (reset, per-frame loss head, one loss
  and one optimiser step per full batch) and the running maximum of `apply_to`. The cell,
  the probability head, the loss and the optimiser step are the fields of an `Rnn` value.
- `wrappers.dfy` (`Option`) and `arith.dfy` (`Min` and division facts) are shared helpers.

Where the code and the system's design description differ, the model follows the code:
the wake notification fires on every hop whose score is above the threshold, not only on
the rising edge (main.cpp:161-164); every skill whose expression matches the transcript
runs, the skills loop has no break (main.cpp:99-100); and the whole match, group 0, is
passed to both kinds of skill (skills.hpp:37, 68). The three defects under "## Findings"
stay as written in the operations that use them (the frame loop, the threshold, the
`SoSkill` cleanup); the corrected versions are proved beside them.

## Model

| member | source | states |
|---|---|---|
| SoundReader.Unread | sound_reader.hpp:90-92 | `max_samples` is below `size` and is the number of steps from `start` round the ring to `end` |
| SoundReader.UnreadUnique | sound_reader.hpp:90-92 | no other count below `size` leads from `start` to `end`, so `max_samples` is exactly the unread count |
| SoundReader.WrapIsMod | sound_reader.hpp:35 | the reduction used for the cursors agrees with `% size` |
| SoundReader.HistorySpan | sound_reader.hpp:106-109 | the history span lies inside the array and starts `n` slots behind `start`; for `n >= 1` it holds 1 to `n` slots, ends exactly at `start` when it starts below it, and otherwise runs to the end of the array |
| SoundReader.SelectRate | sound_reader.hpp:65-71 | the rate is a multiple of the required rate, at least it and at least the device minimum, and the smallest such; success exactly when it does not exceed the device maximum |
| SoundReader.DecimationCount | sound_reader.hpp:19-33 | a request for `budget * step / channels` frames yields exactly `budget` samples, and none exactly when the budget is zero |
| SoundReader.SoundBuffer.constructor | sound_reader.hpp:65-72 | an empty buffer with both cursors at 0 and `step = rate / required_rate * channels` |
| SoundReader.SoundBuffer.Open | sound_reader.hpp:43-86 | the rate of `SelectRate`; a buffer exactly when the rate is supported, empty and with the step of that rate |
| SoundReader.SoundBuffer.CapturedAt | sound_reader.hpp:33-34 | the `k`-th stored sample is device value `k * step` |
| SoundReader.SoundBuffer.MaxSamples | sound_reader.hpp:90-92 | the count is the number of unread samples and never exceeds `size - history` |
| SoundReader.SoundBuffer.ReadSome | sound_reader.hpp:18-40 | fails exactly when the write budget `size - history - max_samples()` is zero; otherwise fills the buffer to `size - history` unread samples, appending only, and keeps the invariant, so no unread or retained slot is overwritten |
| SoundReader.SoundBuffer.CopyFrames | sound_reader.hpp:33-36 | the copy loop appends `count` samples, the next device values taken every `step`-th, and keeps the ring layout |
| SoundReader.SoundBuffer.Store | sound_reader.hpp:34-35 | one stored sample is appended to the unread ones and the layout is kept |
| SoundReader.SoundBuffer.GetSamples | sound_reader.hpp:93-105 | succeeds exactly when `n <= size - history`; the chunk starts at the old `start`, holds `n` samples when they fit before the end of the array and `size - start` otherwise, `start` moves past it (wrapping to 0), and the samples handed out grow by exactly the chunk, so successive chunks are the written samples in order |
| SoundReader.SoundBuffer.Advance | sound_reader.hpp:97-104 | handing out `c` samples from `start` appends exactly those slots to the samples handed out and moves `start` on modulo `size` |
| SoundReader.SoundBuffer.LayoutAfterAdvance | sound_reader.hpp:97-104 | moving `start` on leaves every unread and retained sample in its slot |
| SoundReader.SoundBuffer.GetHistory | sound_reader.hpp:106-109 | the span of `HistorySpan`; when the `n` samples behind `start` are retained, its slots hold the oldest of them in capture order |
| SoundReader.SoundBuffer.HistoryIsRetained | sound_reader.hpp:106-109 | the history span's slots hold the samples handed out there |
| Fft.CountrZero | fft.hpp:32 | for a power of two `n`, `2^p == n` |
| Fft.Rev | fft.hpp:33-39 | the bit loop computes the `p`-bit reversal |
| Fft.BitsRoundTrip | fft.hpp:33-39 | reading back the low `p` bits of `x < 2^p` gives `x` |
| Fft.FromBitsRoundTrip | fft.hpp:33-39 | the bits of the number a bit string denotes are that string |
| Fft.ReverseIsHighFirst | fft.hpp:33-39 | `rev(x)` reads the bits of `x` most significant first |
| Fft.ReverseBits | fft.hpp:33-39 | `rev(x)` is the number of the reversed bits of `x` |
| Fft.ReverseBound | fft.hpp:33-39 | `rev(x) < 2^p` |
| Fft.ReverseInvolution | fft.hpp:33-39 | `rev(rev(x)) == x` for every `x < 2^p` |
| Fft.BitReversed | fft.hpp:40-45 | element `k` of the permuted sequence is element `rev(k)` of the input |
| Fft.BitReversedTwice | fft.hpp:40-45 | the permutation is its own inverse |
| Fft.BitReversePermute | fft.hpp:40-45 | after the swap loop `a'[i] == a[rev(i)]` for every `i` |
| Fft.FftAtLocal | fft.hpp:10-28 | the transform of a segment depends only on that segment |
| Fft.PassAt | fft.hpp:20-26 | after `i` butterfly steps each pair `(k, n/2 + k)` with `k < i` holds its butterfly of the original values and every other element is untouched |
| Fft.Butterflies | fft.hpp:18-26 | the butterfly loop computes the full pass over the segment |
| Fft.HalvesAt | fft.hpp:16-17 | after both recursive calls, positions `k` and `n/2 + k` hold element `k` of the transforms of the two halves |
| Fft.ButterflyTop | fft.hpp:20-23 | the pass leaves element `k` of the whole transform at `k` |
| Fft.ButterflyBottom | fft.hpp:20-24 | the pass leaves element `n/2 + k` of the whole transform at `n/2 + k` |
| Fft.LevelStep | fft.hpp:16-26 | two half transforms followed by the pass transform the whole segment and change nothing outside it |
| Fft.DoFft | fft.hpp:10-28 | `do_fft` replaces the segment by its transform and leaves the rest of the array as it was; `n == 1` changes nothing |
| Fft.Transform | fft.hpp:30-47 | element `j` of the result is element `j` of the transform of the bit-reversed input |
| Skills.CopySub | skills.hpp:38-42 | the fresh array holds exactly that argument |
| Skills.BuildArgs | skills.hpp:35-45 | after the head, one fresh copy per submatch in order, then null; no two copies share storage |
| Skills.Cleanup | skills.hpp:51-53 | `delete[]` reaches entries `1 .. len-2` of the vector, in order |
| Skills.FileApply | skills.hpp:34-54 | runs `path` with `[path, m[0], ..., null]` and frees exactly the copies |
| Skills.SoApplyAsWritten | skills.hpp:66-81 | calls `run` with `[m[0], ..., null]` and frees positions 1 to `k-1` only: the copy of group 0 at position 0 is never freed |
| Skills.SoApply | skills.hpp:66-81 | with the cleanup starting at position 0, every copy `m[0], ..., m[k-1]` is freed |
| Skills.CheckAndApply | skills.hpp:15-23 | true exactly when the whole string matches, and the skill's call is made exactly then, with the submatches of that match; a `FileSkill` frees every copy, a `SoSkill` (as written) every copy but that of group 0 |
| MainLoop.SkillFor | main.cpp:58-67 | only `.re` names yield a skill; a `FileSkill` for `skills/b` when `b` is listed, else a `SoSkill` for `skills/b.so` when `b.so` is listed, else none |
| MainLoop.FilterMapKeeps | main.cpp:57-68 | the skills are those of the names that yield one, each from its own name, in listing order, and no other name contributes |
| MainLoop.DiscoverSkills | main.cpp:56-69 | the discovery loop collects exactly those skills in sorted listing order |
| MainLoop.TakeChunk | main.cpp:110-114 | a turn of the fill loop copies 1 to `want` next samples in capture order into the window and changes nothing else in it |
| MainLoop.FillWindow | main.cpp:108-115 | the window holds the next 128 samples in capture order |
| MainLoop.Scale | main.cpp:112 | a sample is divided by `32767`: multiplying back gives the sample, `32767` maps to `1`, and only `-32768` maps below `-1` |
| MainLoop.Hop | main.cpp:121-134 | the old upper half moves down, the upper half receives the next 64 samples in order, `sr_offset` becomes `min(HISTORY_LEN, sr_offset + 64)` and the recogniser is notified exactly when that reaches `MAX_SR_CHUNCK` |
| MainLoop.Detect | main.cpp:159-167 | the new state is `res > treshold`, the notification fires exactly in that state, and `h` is zeroed exactly on a fall from true to false |
| MainLoop.NextChunk | main.cpp:86-93 | after `lag` detector hops and the wait, `sr_offset` stays within `[0, HISTORY_LEN]`; the clamp discards exactly the overshoot of `sr_offset + 64 * lag` past `HISTORY_LEN`; for a filled history, the chunk is the captured audio starting that many samples past where the previous turn stopped, and the new `sr_offset` counts what is left after it |
| MainLoop.PhraseLoop | main.cpp:83-94 | the loop stops at the first final result or once ten seconds are fed; every sample captured since `sr_offset` samples back is fed, discarded by the clamp or still waiting; with nothing discarded the audio fed is contiguous, and nothing is discarded when the detector never hops while the recogniser is busy |
| MainLoop.HasKeywordIsPrefix | main.cpp:96-98 | the `substr` comparison is a prefix test for the wake word |
| MainLoop.FirstWake | main.cpp:97-102 | the first alternative starting with the wake word, and none before it does |
| MainLoop.Dispatch | main.cpp:96-104 | only the first alternative starting with the wake word is used; every skill is tried on it, each runs exactly when its expression matches, and the state is cleared |
| Train.FramesAsWritten | train.cpp:26-32 | every frame the loop emits has its whole 128-sample window inside the input: more than 128 samples remain at its start |
| Train.FramesAsWrittenFit | train.cpp:26-45 | as written the frame loop never writes past the `L/64 - 1` allocated frames, leaves at most one unwritten, and leaves the last one unwritten exactly when `L` is a multiple of 64 of at least 128 |
| Train.FramesAsWrittenLeavesLastFrame | train.cpp:26-33 | 192 samples get two frames allocated and one written |
| Train.Frames | train.cpp:26-33 | every frame's window lies inside the samples |
| Train.FramesFillAllocation | train.cpp:26-45 | with the last full window taken, the loop fills exactly the allocated frames |
| Train.Spectrogram | train.cpp:23-34 | while more than 128 samples remain, frame `j` is the bins `[from, to)` of the window `64 * j` samples in, written to slot `outStart + j`; no other slot changes |
| Train.RegionFrames | train.cpp:90-91 | a labelled region gets `(reg1 - reg0) / 64 - 1` frames; those the loop reaches hold the bins `[3, 43)` of their window, and the last one stays zero exactly when the length is a multiple of 64 of at least 128 |
| Train.NthPlaced | train.cpp:39-40 | what `nth_element` leaves at position `n` is the `n`-th order statistic |
| Train.OrderStatMonotone | train.cpp:36-42 | order statistics grow with their position |
| Train.SelectedStats | train.cpp:36-41 | after the two `nth_element` calls, position `low` held the `size/10`-th order statistic after the first and position `high` holds the `size/10*9`-th; what the second leaves at `low` is at most that and at least the least power |
| Train.ThresholdAsWritten | train.cpp:36-42 | `get_treshold` as written lies between the least power and the `size/10*9`-th order statistic |
| Train.ThresholdAsWrittenUndershoots | train.cpp:36-42 | as written the threshold can fall below the low order statistic |
| Train.Threshold | train.cpp:36-42 | with `*low` read before the second selection, the threshold lies between the `size/10`-th and the `size/10*9`-th order statistics |
| Train.InitialSum | train.cpp:52-58 | `cur_sum` starts as the loud frames among the first 100 less 100 times those among the next 10 |
| Train.SlideScore | train.cpp:60-63 | one step of `cur_sum` moves both counted windows one frame on |
| Train.CutIsLoud | train.cpp:64 | a cut means at least 46 loud frames among the 100 and none among the last 10 |
| Train.CutsSpaced | train.cpp:59-70 | cut points are such frames, each at least 70 frames after the one before |
| Train.CutIntoAppend | train.cpp:64-69 | cutting at a later point extends the samples by the segment between the last two points |
| Train.CutSegments | train.cpp:59-71 | the cutting loop appends exactly the segments between consecutive cut points, from frame 0 |
| Train.Split | train.cpp:44-72 | the recording gets `size/64 - 1` frames, those the frame loop reaches holding their bins and any other still zero, the selections of `get_treshold` keep the `nth_element` contract, frames are marked loud against the threshold as written, and the samples appended are the segments between the cut points |
| Train.TrainingEpoch | train.cpp:143-145 | the loss array has `|dataset| / 20` entries and after `train_epoch(0, 20, ...)` holds exactly the epoch's batch losses |
| AlinaNet.ConcatPlaces | alina_net.cpp:238-262 | each array sits at its offset in the saved file, whole |
| AlinaNet.SavedLength | alina_net.cpp:238-262 | every saved file has the same length, the sum of the array sizes |
| AlinaNet.ChunkBounds | alina_net.cpp:264-288 | a read takes at most the array's size, and all of it when the file is long enough |
| AlinaNet.LoadStep | alina_net.cpp:264-288 | one `in.read` moves the load on by one array |
| AlinaNet.LoadKeepsShape | alina_net.cpp:264-288 | loading keeps every array at its size, whatever the file's length |
| AlinaNet.LoadSavedAt | alina_net.cpp:238-288 | loading a saved file restores each array |
| AlinaNet.SaveLoadRoundTrip | alina_net.cpp:238-288 | loading a saved file restores every array, whatever they held before |
| AlinaNet.ShortFileKeeps | alina_net.cpp:264-288 | an array past the end of a short file keeps its old bytes |
| AlinaNet.LoadArrays | alina_net.cpp:264-288 | the read loop computes the load array by array |
| AlinaNet.Blocks | alina_net.cpp:121-124 | `s` blocks of `code_size` values each |
| AlinaNet.BlocksRoundTrip | alina_net.cpp:121-124 | the blocks put back together are the first `s * code_size` values of `arr` |
| AlinaNet.FeedCounts | alina_net.cpp:153-185 | the hidden state runs through every frame; the loss head is counted exactly at frames with `!y or j + 50 >= size`, `min(size, 50)` of a positive example and all of a negative one |
| AlinaNet.FeedExample | alina_net.cpp:153-185 | the frame loop over one example computes `Feed` |
| AlinaNet.BatchCarriesHidden | alina_net.cpp:143-185 | within a batch the hidden state is carried from one example to the next, from zero |
| AlinaNet.Mean | alina_net.cpp:196 | the loss of a batch is undefined exactly when its counter is zero, and otherwise times the counter gives the loss sum |
| AlinaNet.BatchLossNaN | alina_net.cpp:196 | a batch's loss `l / cnt` is undefined exactly when none of its examples has a frame |
| AlinaNet.LossCount | alina_net.cpp:186-197 | one loss per full batch: `n / seq` of them |
| AlinaNet.StepsKeepShape | alina_net.cpp:197 | an optimiser that keeps array sizes keeps the weights shaped through any number of steps |
| AlinaNet.EpochClose | alina_net.cpp:186-198 | an iteration at a batch's last example appends the batch's mean loss and takes its step |
| AlinaNet.EpochGrow | alina_net.cpp:143-185 | an iteration at any other example grows the batch in progress |
| AlinaNet.EpochUpToAt | alina_net.cpp:143-199 | after `i` iterations the loop state accounts for every batch begun so far |
| AlinaNet.EpochMeetsSpec | alina_net.cpp:143-199 | run to the end the loop writes exactly the batch losses and leaves the weights after one step per full batch |
| AlinaNet.EpochLoop | alina_net.cpp:143-199 | the example loop computes the batch losses in order and the weights after the steps |
| AlinaNet.RunEpoch | alina_net.cpp:143-199 | the losses go to the front of the array, `n / seq` of them, and the rest is untouched |
| AlinaNet.Probs | alina_net.cpp:207-232 | one probability per step, from a zero hidden state |
| AlinaNet.Peak | alina_net.cpp:206-233 | the running maximum from 0 bounds every probability and is 0 or one of them |
| AlinaNet.Net.constructor | alina_net.cpp:63-71 | zero weights of the right sizes and an empty training set |
| AlinaNet.Net.Init | alina_net.cpp:99-118 | fresh weights and an empty training set |
| AlinaNet.Net.SaveToFile | alina_net.cpp:238-262 | the file is the 21 arrays in order, with no header |
| AlinaNet.Net.LoadFromFile | alina_net.cpp:264-288 | the weights become the load of the file over the old ones; the training set is unchanged |
| AlinaNet.Net.AddData | alina_net.cpp:120-126 | exactly one `(blocks, y)` example is appended; the weights are unchanged |
| AlinaNet.Net.TrainEpoch | alina_net.cpp:132-201 | over the first `n` examples (all for 0): one loss per full batch written in order, the rest of the array untouched, one optimiser step per full batch, and the weights keep their shape |
| AlinaNet.Net.ApplyTo | alina_net.cpp:203-236 | from a zero hidden state the result is the maximum of 0 and the step probabilities; a non-null `out` receives exactly the `s` probabilities in step order |

## Left out

- The ALSA calls of the `SoundBuffer` constructor and of `read_some` are not modelled. The device is a stream of interleaved values that grants every request in full.
- SoundReader.SoundBuffer.ReadSome: a partial `snd_pcm_mmap_begin` grant is not modelled, because it would shift the decimation phase; the contract covers full grants only.
- SoundReader.HistorySpan: requires `n <= size`. The source reads past the array for larger `n`, and its only caller passes at most `HISTORY_LEN`.
- SoundReader.SelectRate: `unsigned` rates are unbounded integers, so a 32-bit wrap of `rate += required_rate` is not modelled.
- Fft.Rev: `ans |= bit << (p - 1 - i)` is modelled as addition, because each step sets a bit below every bit set so far. `x >> i` is `i` halvings.
- Fft.DoFft: the complex arithmetic and the twiddle factor `w = w0^i` are inside the butterfly parameters. No floating point is modelled.
- Threads, mutexes and condition variables in main.cpp are not modelled. The recogniser's wait is sequential: the detector hops until enough history is waiting.
- MainLoop.PhraseLoop: the recogniser reads its chunk after releasing the lock (main.cpp:92-93), while the detector may overwrite it; the model copies the chunk when it is taken.
- MainLoop.NextChunk, MainLoop.PhraseLoop: the chunk and the accounting are tied to the captured audio only for a filled history (`sr_offset <= ` samples handed out). At start-up `sr_offset` is `HISTORY_LEN` before that much audio exists, and the source then hands over slots that were never written.
- The Vosk recogniser and JSON parsing are not modelled: `accept` is a function of the audio fed so far, and the alternatives are a list of strings.
- `std::regex` is not modelled: a matcher returns the submatches of a full match, or none.
- `fork`, `execvp`, `waitpid`, `dlopen` and `dlsym` are not modelled. Each apply returns the call it makes instead.
- Skills.SoApplyAsWritten: requires at least one submatch. A successful full match always has group 0, and with none the cleanup iterators would cross.
- The int16-to-float scaling in MainLoop.Scale is over the reals. The FFT of the window, the magnitudes, the mean normalisation, the `powers` deque and `power_sum` of the detector hop (main.cpp:135-157) are not modelled. `apply_once` is the parameter `res`.
- Reading `.re` files is not modelled; the expression is the parameter `expressionOf`. The listing is given already sorted, and `binary_search` is membership.
- Train.Split: requires at least 110 frames. `split` reads `powers[100..110)` unconditionally, and for fewer than 64 samples `size / 64 - 1` wraps round.
- Train.Spectrogram: the magnitudes of the window's transform are the parameter `mag`.
- Train.RegionFrames: requires a region of at least 64 samples running forwards. `WINDOW_SIZE` is `unsigned`, so the count `(reg1 - reg0) / 64 - 1` is computed in `unsigned` and wraps: a shorter forward region asks for 4294967295 frames and the allocation throws, and a backward region asks for a huge positive count (67108862 for a length of -1).
- A default-constructed tensor (Train.ZeroFrame) and a tensor fresh from the allocator (the hidden state `h` after AlinaNet.Reset, alina_net.cpp:139, 147) are taken to hold zeros; the tensor library and its allocator are not part of this model.
- Training I/O, the random train/validation split, `shuffle` (alina_net.cpp:128-130) and the report mean at train.cpp:147 are not modelled.
- The network internals are not modelled. The layers, GRU cell, cross-entropy loss, backward pass and RMSProp are the fields of `Rnn`, and the optimiser's running state is not modelled.
- AlinaNet.Net.TrainEpoch: the weights are a value, replaced by each step, rather than tensors updated in place.
- AlinaNet.RunEpoch: losses are written to the array after the example loop rather than one per batch as it goes. The final contents are the same.
- AlinaNet.Net.LoadFromFile: a file that cannot be opened reads as empty and changes nothing.
- AlinaNet.Mean: a float `0 / 0` is NaN, modelled as `None`.

## Findings

| source | as written | input that shows it | evidently intended | confidence | as-written member | corrected member |
|---|---|---|---|---|---|---|
| skills.hpp:78-80 | the `SoSkill` cleanup starts at the second entry, but its vector has no path in front, so the copy of group 0 is never freed | any match, e.g. one submatch: vector `[copy, null]`, nothing freed | free from the first entry, as the vector holds only copies | high, not executed | Skills.SoApplyAsWritten | Skills.SoApply |
| train.cpp:26 | `while (last - first > WINDOW_SIZE)` skips the last full window when the length is a multiple of 64, leaving the last allocated frame unwritten | 192 samples: 2 frames allocated, 1 written | `>=`, which fills exactly the `L/64 - 1` allocated frames | medium, not executed | Train.FramesAsWrittenLeavesLastFrame | Train.FramesFillAllocation |
| train.cpp:39-41 | `*low` is read after the second `nth_element`, which may move another value to position `low` | ten powers `[0, 100 × 8, 110]`: the value at position 1 may become 0, giving 22, below the order statistic 100 | read `*low` before the second selection, giving a value between the two order statistics | medium, not executed | Train.ThresholdAsWrittenUndershoots | Train.Threshold |
