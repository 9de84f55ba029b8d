/** The keyword network's library (alina_net.cpp): its parameters and their file format,
    the training set, the batching of a training epoch, and the scoring of a recording.

    The network itself is opaque (`Rnn`): `cell` is the input layers l1-l3 followed by
    the GRU cell and yields the next hidden state; `prob` is the output layers l4-l6 with
    the softmax and yields the keyword probability; `loss` is the output layers with the
    weighted cross-entropy term; `step` is the backward pass and the optimiser step that
    follow a full batch. All four read the weights, which are the bytes of the 21
    parameter arrays. Files are byte sequences; a file that cannot be opened reads as
    empty. */
module AlinaNet {
  import opened Wrappers
  import opened Arith

  const CODE_SIZE: nat := 40
  const HIDDEN_SIZE: nat := 128
  const LINEAR_SIZE: nat := 128
  const FLOAT_BYTES: nat := 4
  /** A positive example carries the loss on its last 50 frames only. */
  const TAIL: nat := 50
  const PARAMS: nat := 21

  /** Byte sizes of the parameter arrays in file order: l1.W, l1.b, l2.W, l2.b, l3.W,
      l3.b, l4.W, l4.b, l5.W, l5.b, l6.W, l6.b, then the cell's Wr, Ur, br, Wz, Uz, bz,
      Wh, Uh, bh. */
  const SIZES: seq<nat> := [
    FLOAT_BYTES * CODE_SIZE * LINEAR_SIZE, FLOAT_BYTES * LINEAR_SIZE,
    FLOAT_BYTES * LINEAR_SIZE * LINEAR_SIZE, FLOAT_BYTES * LINEAR_SIZE,
    FLOAT_BYTES * LINEAR_SIZE * LINEAR_SIZE, FLOAT_BYTES * LINEAR_SIZE,
    FLOAT_BYTES * HIDDEN_SIZE * LINEAR_SIZE, FLOAT_BYTES * LINEAR_SIZE,
    FLOAT_BYTES * LINEAR_SIZE * LINEAR_SIZE, FLOAT_BYTES * LINEAR_SIZE,
    FLOAT_BYTES * LINEAR_SIZE * 2, FLOAT_BYTES * 2,
    FLOAT_BYTES * LINEAR_SIZE * HIDDEN_SIZE, FLOAT_BYTES * HIDDEN_SIZE * HIDDEN_SIZE, FLOAT_BYTES * HIDDEN_SIZE,
    FLOAT_BYTES * LINEAR_SIZE * HIDDEN_SIZE, FLOAT_BYTES * HIDDEN_SIZE * HIDDEN_SIZE, FLOAT_BYTES * HIDDEN_SIZE,
    FLOAT_BYTES * LINEAR_SIZE * HIDDEN_SIZE, FLOAT_BYTES * HIDDEN_SIZE * HIDDEN_SIZE, FLOAT_BYTES * HIDDEN_SIZE]

  /** The weights: the bytes of each parameter array. */
  type Weights = seq<seq<bv8>>

  /** `w` holds one array of `sizes[k]` bytes for each parameter `k`. */
  predicate Shaped(sizes: seq<nat>, w: Weights)
  {
    |w| == |sizes| && forall k :: 0 <= k < |sizes| ==> |w[k]| == sizes[k]
  }

  /** `b` has as many arrays as `a`, each of the same size. */
  predicate SameShape(a: Weights, b: Weights)
  {
    |a| == |b| && forall k :: 0 <= k < |a| ==> |a[k]| == |b[k]|
  }

  /** One training example: its frames of `CODE_SIZE` values and its label. */
  datatype Example = Example(frames: seq<seq<real>>, positive: bool)

  datatype Rnn = Rnn(
    cell: (Weights, seq<real>, seq<real>) -> seq<real>,
    prob: (Weights, seq<real>) -> real,
    loss: (Weights, seq<real>, bool) -> real,
    step: (Weights, seq<Example>) -> Weights)

  /** `step` updates the values of the parameter arrays in place: their number and
      sizes stay. */
  ghost predicate KeepsShape(r: Rnn)
  {
    forall w, batch :: SameShape(w, r.step(w, batch))
  }

  // ---------------------------------------------------------------- weight file

  /** The parameter arrays written one after another, with nothing in between. */
  function Concat(c: seq<seq<bv8>>): seq<bv8>
  {
    if c == [] then [] else Concat(c[..|c| - 1]) + c[|c| - 1]
  }

  /** Where parameter `k` starts in a file of arrays of `sizes[0]`, `sizes[1]`, ...
      bytes. */
  function Offset(sizes: seq<nat>, k: nat): nat
    requires k <= |sizes|
  {
    if k == 0 then 0 else Offset(sizes, k - 1) + sizes[k - 1]
  }

  /** The bytes a file holds for parameter `k`: all `sizes[k]` of them, or what is left
      of a short file. */
  function Chunk(sizes: seq<nat>, file: seq<bv8>, k: nat): seq<bv8>
    requires k < |sizes|
  {
    file[Min(Offset(sizes, k), |file|)..Min(Offset(sizes, k) + sizes[k], |file|)]
  }

  /** The weights after `load_from_file` over `c`: each array's leading bytes are those
      the file holds for it, the rest are left as they were. */
  function Loaded(sizes: seq<nat>, c: Weights, file: seq<bv8>): Weights
    requires Shaped(sizes, c)
  {
    seq(|sizes|, k requires 0 <= k < |sizes| =>
      Chunk(sizes, file, k) + c[k][|Chunk(sizes, file, k)|..])
  }

  lemma {:induction false} ConcatAppend(a: seq<seq<bv8>>, b: seq<seq<bv8>>)
    ensures Concat(a + b) == Concat(a) + Concat(b)
    decreases |b|
  {
    if b == [] {
      assert a + b == a;
    } else {
      var ab, init, last := a + b, b[..|b| - 1], b[|b| - 1];
      assert ab[..|ab| - 1] == a + init && ab[|ab| - 1] == last;
      assert Concat(ab) == Concat(a + init) + last;
      ConcatAppend(a, init);
      assert Concat(b) == Concat(init) + last;
    }
  }

  lemma {:induction false} ConcatLength(sizes: seq<nat>, c: Weights, k: nat)
    requires Shaped(sizes, c) && k <= |sizes|
    ensures |Concat(c[..k])| == Offset(sizes, k)
    decreases k
  {
    if k > 0 {
      assert c[..k][..k - 1] == c[..k - 1];
      ConcatLength(sizes, c, k - 1);
    }
  }

  /** Parameter `k` sits at `[Offset(k), Offset(k) + sizes[k])` of the saved file. */
  lemma ConcatPlaces(sizes: seq<nat>, c: Weights, k: nat)
    requires Shaped(sizes, c) && k < |sizes|
    ensures Offset(sizes, k) + sizes[k] <= |Concat(c)|
    ensures Concat(c)[Offset(sizes, k)..Offset(sizes, k) + sizes[k]] == c[k]
  {
    assert c == c[..k] + [c[k]] + c[k + 1..];
    ConcatAppend(c[..k] + [c[k]], c[k + 1..]);
    ConcatAppend(c[..k], [c[k]]);
    assert Concat([c[k]]) == c[k] by {
      assert [c[k]][..0] == [];
    }
    ConcatLength(sizes, c, k);
  }

  /** What a file holds for parameter `k` is at most `sizes[k]` bytes, all of them when
      the file is long enough. */
  lemma ChunkBounds(sizes: seq<nat>, file: seq<bv8>, k: nat)
    requires k < |sizes|
    ensures |Chunk(sizes, file, k)| <= sizes[k]
    ensures Offset(sizes, k) + sizes[k] <= |file| ==>
              Chunk(sizes, file, k) == file[Offset(sizes, k)..Offset(sizes, k) + sizes[k]]
  {
    var start := Offset(sizes, k);
    MinWindow(|file|, start, sizes[k]);
  }

  /** Parameter `k` after a load: the file's bytes for it, then what it held past them. */
  lemma LoadedAt(sizes: seq<nat>, c: Weights, file: seq<bv8>, k: nat)
    requires Shaped(sizes, c) && k < |sizes|
    ensures Loaded(sizes, c, file)[k] == Chunk(sizes, file, k) + c[k][|Chunk(sizes, file, k)|..]
  {
  }

  /** Part way through a load: the first `k` arrays loaded, the rest as they were. */
  ghost function LoadedUpTo(sizes: seq<nat>, c: Weights, file: seq<bv8>, k: nat): Weights
    requires Shaped(sizes, c) && k <= |sizes|
  {
    Loaded(sizes, c, file)[..k] + c[k..]
  }

  /** Loading array `k`, the bytes `[lo, hi)` of the file, moves the load on by one
      array. */
  lemma LoadStep(sizes: seq<nat>, c: Weights, file: seq<bv8>, k: nat, w: Weights, lo: nat, hi: nat)
    requires Shaped(sizes, c) && k < |sizes| && w == LoadedUpTo(sizes, c, file, k)
    requires lo == Min(Offset(sizes, k), |file|) && hi == Min(Offset(sizes, k) + sizes[k], |file|)
    ensures lo <= hi <= |file| && hi - lo <= |w[k]|
    ensures w[k := file[lo..hi] + w[k][hi - lo..]] == LoadedUpTo(sizes, c, file, k + 1)
  {
    MinWindow(|file|, Offset(sizes, k), sizes[k]);
    LoadedAt(sizes, c, file, k);
    var loaded, x := Loaded(sizes, c, file), file[lo..hi] + c[k][hi - lo..];
    assert w == loaded[..k] + [c[k]] + c[k + 1..] by {
      assert c[k..] == [c[k]] + c[k + 1..];
    }
    assert LoadedUpTo(sizes, c, file, k + 1) == loaded[..k] + [x] + c[k + 1..] by {
      assert loaded[..k + 1] == loaded[..k] + [x];
    }
  }

  /** Loading keeps every parameter array at its size, whatever the file's length. */
  lemma LoadKeepsShape(sizes: seq<nat>, c: Weights, file: seq<bv8>)
    requires Shaped(sizes, c)
    ensures Shaped(sizes, Loaded(sizes, c, file))
  {
    forall k | 0 <= k < |sizes|
      ensures |Loaded(sizes, c, file)[k]| == sizes[k]
    {
      ChunkBounds(sizes, file, k);
      LoadedAt(sizes, c, file, k);
    }
  }

  /** Loading a saved file restores parameter `k`. */
  lemma LoadSavedAt(sizes: seq<nat>, c: Weights, before: Weights, k: nat)
    requires Shaped(sizes, c) && Shaped(sizes, before) && k < |sizes|
    ensures Loaded(sizes, before, Concat(c))[k] == c[k]
  {
    ConcatPlaces(sizes, c, k);
    LoadedAt(sizes, before, Concat(c), k);
    ChunkBounds(sizes, Concat(c), k);
    assert before[k][|c[k]|..] == [];
  }

  /** Loading a saved file restores every parameter array, whatever they held before. */
  lemma SaveLoadRoundTrip(sizes: seq<nat>, c: Weights, before: Weights)
    requires Shaped(sizes, c) && Shaped(sizes, before)
    ensures Loaded(sizes, before, Concat(c)) == c
  {
    forall k | 0 <= k < |sizes|
      ensures Loaded(sizes, before, Concat(c))[k] == c[k]
    {
      LoadSavedAt(sizes, c, before, k);
    }
  }

  /** A file that ends before parameter `k` leaves that array as it was. */
  lemma ShortFileKeeps(sizes: seq<nat>, c: Weights, file: seq<bv8>, k: nat)
    requires Shaped(sizes, c) && k < |sizes| && |file| <= Offset(sizes, k)
    ensures Loaded(sizes, c, file)[k] == c[k]
  {
    LoadedAt(sizes, c, file, k);
  }

  /** Every saved file has the same length: the sum of the array sizes. */
  lemma SavedLength(sizes: seq<nat>, c: Weights)
    requires Shaped(sizes, c)
    ensures |Concat(c)| == Offset(sizes, |sizes|)
  {
    assert c[..|sizes|] == c;
    ConcatLength(sizes, c, |sizes|);
  }

  // ---------------------------------------------------------------- training set

  /** `s` consecutive blocks of `CODE_SIZE` values from the front of `arr`. */
  function Blocks(arr: seq<real>, s: nat): (xs: seq<seq<real>>)
    requires CODE_SIZE * s <= |arr|
    ensures |xs| == s && forall i :: 0 <= i < s ==> |xs[i]| == CODE_SIZE
  {
    seq(s, i requires 0 <= i < s => arr[CODE_SIZE * i..CODE_SIZE * i + CODE_SIZE])
  }

  function Flatten(xs: seq<seq<real>>): seq<real>
  {
    if xs == [] then [] else Flatten(xs[..|xs| - 1]) + xs[|xs| - 1]
  }

  /** The blocks, put back together, are the first `s * CODE_SIZE` values. */
  lemma {:induction false} BlocksRoundTrip(arr: seq<real>, s: nat)
    requires CODE_SIZE * s <= |arr|
    ensures Flatten(Blocks(arr, s)) == arr[..CODE_SIZE * s]
    decreases s
  {
    if s > 0 {
      assert Blocks(arr, s)[..s - 1] == Blocks(arr, s - 1);
      BlocksRoundTrip(arr, s - 1);
      assert arr[..CODE_SIZE * s] == arr[..CODE_SIZE * (s - 1)] + arr[CODE_SIZE * (s - 1)..CODE_SIZE * s];
    }
  }

  // ---------------------------------------------------------------- the recurrence

  /** A hidden state of zeros. */
  function Zero(): (h: seq<real>)
    ensures |h| == HIDDEN_SIZE && forall i :: 0 <= i < HIDDEN_SIZE ==> h[i] == 0.0
  {
    seq(HIDDEN_SIZE, _ => 0.0)
  }

  /** The hidden state after feeding the frames `xs` to the cell, from `h`. */
  function Run(r: Rnn, w: Weights, h: seq<real>, xs: seq<seq<real>>): seq<real>
    decreases |xs|
  {
    if xs == [] then h else r.cell(w, Run(r, w, h, xs[..|xs| - 1]), xs[|xs| - 1])
  }

  lemma {:induction false} RunAppend(r: Rnn, w: Weights, h: seq<real>, xs: seq<seq<real>>, ys: seq<seq<real>>)
    ensures Run(r, w, h, xs + ys) == Run(r, w, Run(r, w, h, xs), ys)
    decreases |ys|
  {
    if ys == [] {
      assert xs + ys == xs;
    } else {
      assert (xs + ys)[..|xs + ys| - 1] == xs + ys[..|ys| - 1];
      RunAppend(r, w, h, xs, ys[..|ys| - 1]);
    }
  }

  // ---------------------------------------------------------------- training epoch

  /** The hidden state, the loss sum `l` and the counter `cnt` of `train_epoch`. */
  datatype Acc = Acc(h: seq<real>, sum: real, cnt: nat)

  /** The output head and the loss are added at frame `j` of `len`
      (alina_net.cpp:170). */
  predicate HeadAt(positive: bool, j: nat, len: nat)
  {
    !positive || j + TAIL >= len
  }

  /** How many of the first `j` frames of an example of `len` frames carry the loss:
      all of a negative example's, only those among the last `TAIL` of a positive's. */
  function HeadsBefore(positive: bool, j: nat, len: nat): nat
  {
    var first := if len >= TAIL then len - TAIL else 0;
    if !positive then j else if j <= first then 0 else j - first
  }

  /** The frame loop of `train_epoch` (alina_net.cpp:153-185) over the first `j` frames
      of `e`, from `a`. The hidden state runs through every frame; a loss term is added
      exactly at the frames `HeadAt` names. */
  function Feed(r: Rnn, w: Weights, a: Acc, e: Example, j: nat): Acc
    requires j <= |e.frames|
    decreases j
  {
    if j == 0 then a
    else
      var p := Feed(r, w, a, e, j - 1);
      var h := r.cell(w, p.h, e.frames[j - 1]);
      if HeadAt(e.positive, j - 1, |e.frames|) then Acc(h, p.sum + r.loss(w, h, e.positive), p.cnt + 1)
      else Acc(h, p.sum, p.cnt)
  }

  /** The accumulator an example is fed into: emptied at a batch's first example. */
  function Reset(first: bool, a: Acc): (b: Acc)
    ensures first ==> b == Acc(Zero(), 0.0, 0)
    ensures !first ==> b == a
  {
    Acc(if first then Zero() else a.h, if first then 0.0 else a.sum, if first then 0 else a.cnt)
  }

  /** Feeding `j` frames runs the recurrence over exactly those frames and counts
      `HeadsBefore` loss terms; over a whole example that is `min(len, TAIL)` for a
      positive example and `len` for a negative one. */
  lemma {:induction false} FeedCounts(r: Rnn, w: Weights, a: Acc, e: Example, j: nat)
    requires j <= |e.frames|
    ensures Feed(r, w, a, e, j).h == Run(r, w, a.h, e.frames[..j])
    ensures Feed(r, w, a, e, j).cnt == a.cnt + HeadsBefore(e.positive, j, |e.frames|)
    ensures j == |e.frames| ==> Feed(r, w, a, e, j).cnt == a.cnt + if e.positive then Min(j, TAIL) else j
    decreases j
  {
    if j > 0 {
      FeedCounts(r, w, a, e, j - 1);
      assert e.frames[..j][..j - 1] == e.frames[..j - 1];
    }
  }

  /** All frames of a batch, example after example. */
  function AllFrames(exs: seq<Example>): seq<seq<real>>
  {
    if exs == [] then [] else AllFrames(exs[..|exs| - 1]) + exs[|exs| - 1].frames
  }

  /** One batch from the reset at its first example (alina_net.cpp:144-150): the hidden
      state is zero, the sum and the counter are 0, and the examples follow in order. No
      loss is counted exactly when no example has a frame. */
  function FeedBatch(r: Rnn, w: Weights, exs: seq<Example>): Acc
    decreases |exs|
  {
    if exs == [] then Acc(Zero(), 0.0, 0)
    else
      var e := exs[|exs| - 1];
      Feed(r, w, FeedBatch(r, w, exs[..|exs| - 1]), e, |e.frames|)
  }

  /** The hidden state is carried from one example to the next within a batch. */
  lemma {:induction false} BatchCarriesHidden(r: Rnn, w: Weights, exs: seq<Example>)
    ensures FeedBatch(r, w, exs).h == Run(r, w, Zero(), AllFrames(exs))
    decreases |exs|
  {
    if exs != [] {
      var e := exs[|exs| - 1];
      BatchCarriesHidden(r, w, exs[..|exs| - 1]);
      FeedCounts(r, w, FeedBatch(r, w, exs[..|exs| - 1]), e, |e.frames|);
      assert e.frames[..|e.frames|] == e.frames;
      RunAppend(r, w, Zero(), AllFrames(exs[..|exs| - 1]), e.frames);
    }
  }

  /** The loss `l / cnt` written at the end of a batch; `0 / 0` is NaN, here `None`. */
  function Mean(a: Acc): (m: Option<real>)
    ensures m.None? <==> a.cnt == 0
    ensures m.Some? ==> m.value * a.cnt as real == a.sum
  {
    if a.cnt == 0 then None else Some(a.sum / a.cnt as real)
  }

  /** The weights after one optimiser step per full batch of `size` examples of
      `data`, batch after batch; a trailing partial batch does not step. */
  function WeightsAfter(r: Rnn, w: Weights, data: seq<Example>, size: nat): Weights
    requires 1 <= size
    decreases |data|
  {
    if |data| < size then w
    else WeightsAfter(r, r.step(w, data[..size]), data[size..], size)
  }

  /** The losses of the full batches of `data`, in order: each is the mean over the
      batch fed from a reset, with the weights the preceding steps left. */
  function EpochLosses(r: Rnn, w: Weights, data: seq<Example>, size: nat): (ls: seq<Option<real>>)
    requires 1 <= size
    decreases |data|
  {
    if |data| < size then []
    else
      [Mean(FeedBatch(r, w, data[..size]))] + EpochLosses(r, r.step(w, data[..size]), data[size..], size)
  }

  /** One loss per full batch: a trailing partial batch writes none. */
  lemma {:induction false} LossCount(r: Rnn, w: Weights, data: seq<Example>, size: nat)
    requires 1 <= size
    ensures |EpochLosses(r, w, data, size)| == |data| / size
    decreases |data|
  {
    if |data| >= size {
      DivStep(|data|, size);
      LossCount(r, r.step(w, data[..size]), data[size..], size);
    }
  }

  /** Feeding one more example continues the batch. */
  lemma FeedBatchNext(r: Rnn, w: Weights, data: seq<Example>, lo: nat, i: nat)
    requires lo <= i < |data|
    ensures FeedBatch(r, w, data[lo..i + 1]) == Feed(r, w, FeedBatch(r, w, data[lo..i]), data[i], |data[i].frames|)
  {
    assert data[lo..i + 1][..i - lo] == data[lo..i];
  }

  /** A full batch at the front of `data` contributes the first loss and the first step. */
  lemma FirstBatch(r: Rnn, w: Weights, data: seq<Example>, size: nat,
                    batch: seq<Example>, w': Weights, rest: seq<Example>)
    requires 1 <= size <= |data|
    requires batch == data[..size] && w' == r.step(w, batch) && rest == data[size..]
    ensures EpochLosses(r, w, data, size) == [Mean(FeedBatch(r, w, batch))] + EpochLosses(r, w', rest, size)
    ensures WeightsAfter(r, w, data, size) == WeightsAfter(r, w', rest, size)
  {
  }

  /** An optimiser that keeps every parameter at its size keeps the weights shaped
      through any number of steps. */
  lemma {:induction false} StepsKeepShape(r: Rnn, sizes: seq<nat>, w: Weights, data: seq<Example>, size: nat)
    requires 1 <= size && KeepsShape(r) && Shaped(sizes, w)
    ensures Shaped(sizes, WeightsAfter(r, w, data, size))
    decreases |data|
  {
    if |data| >= size {
      var next := r.step(w, data[..size]);
      assert SameShape(w, next);
      StepsKeepShape(r, sizes, next, data[size..], size);
    }
  }

  /** Part way through an epoch over `all`: the losses `done` are written, the
      weights are `w`, and the batches from `start` on are still to come. */
  ghost predicate Progress(r: Rnn, w0: Weights, all: seq<Example>, size: nat,
                           done: seq<Option<real>>, w: Weights, start: nat)
    requires 1 <= size
  {
    && start <= |all|
    && done + EpochLosses(r, w, all[start..], size) == EpochLosses(r, w0, all, size)
    && WeightsAfter(r, w, all[start..], size) == WeightsAfter(r, w0, all, size)
  }

  /** Finishing the batch at `start` appends its loss and takes its step: the new
      state is `done'`, `w'` and `start'`. */
  lemma ProgressStep(r: Rnn, w0: Weights, all: seq<Example>, size: nat,
                     done: seq<Option<real>>, w: Weights, start: nat, batch: seq<Example>,
                     done': seq<Option<real>>, w': Weights, start': nat)
    requires 1 <= size && start + size <= |all| && batch == all[start..start + size]
    requires Progress(r, w0, all, size, done, w, start)
    requires done' == done + [Mean(FeedBatch(r, w, batch))] && w' == r.step(w, batch)
    requires start' == start + size
    ensures Progress(r, w0, all, size, done', w', start')
  {
    var rest, later := all[start..], all[start'..];
    SliceOfSlice(all, start, size);
    FirstBatch(r, w, rest, size, batch, w', later);
    var m := Mean(FeedBatch(r, w, batch));
    AppendAssoc(done, [m], EpochLosses(r, w', later, size));
  }

  /** The first `size` elements of `s[start..]` and the ones after them. */
  lemma SliceOfSlice<T>(s: seq<T>, start: nat, size: nat)
    requires start + size <= |s|
    ensures s[start..][..size] == s[start..start + size]
    ensures s[start..][size..] == s[start + size..]
  {
  }

  lemma AppendAssoc<T>(a: seq<T>, b: seq<T>, c: seq<T>)
    ensures (a + b) + c == a + (b + c)
  {
  }

  /** Fewer than `size` examples left: every loss is written and every step taken. */
  lemma ProgressDone(r: Rnn, w0: Weights, all: seq<Example>, size: nat,
                     done: seq<Option<real>>, w: Weights, start: nat)
    requires 1 <= size && |all| < start + size
    requires Progress(r, w0, all, size, done, w, start)
    ensures done == EpochLosses(r, w0, all, size)
    ensures w == WeightsAfter(r, w0, all, size)
  {
    assert EpochLosses(r, w, all[start..], size) == [];
  }

  /** The state of the example loop of `train_epoch`: the accumulator of the current
      batch, the losses written so far and the weights. */
  datatype Epoch = Epoch(acc: Acc, done: seq<Option<real>>, w: Weights)

  /** The state of `train_epoch` before example `i`: the batch in progress starts at
      `i - i % size`, the batches before it are accounted for in `done` and `w`, and the
      examples of the batch so far are fed into `acc`. */
  ghost predicate EpochAt(r: Rnn, w0: Weights, all: seq<Example>, size: nat, i: nat, s: Epoch)
    requires 1 <= size
  {
    var p := i % size;
    && p <= i <= |all|
    && Progress(r, w0, all, size, s.done, s.w, i - p)
    && (p != 0 ==> s.acc == FeedBatch(r, s.w, all[i - p..i]))
  }

  /** Feeding example `i`, after a reset at a batch's first example, accumulates the
      batch so far. */
  lemma EpochFed(r: Rnn, w0: Weights, all: seq<Example>, size: nat, i: nat, s: Epoch, fed: Acc)
    requires 1 <= size && i < |all|
    requires EpochAt(r, w0, all, size, i, s)
    requires fed == Feed(r, s.w, Reset(i % size == 0, s.acc), all[i], |all[i].frames|)
    ensures fed == FeedBatch(r, s.w, all[i - i % size..i + 1])
    ensures (i + 1) % size == if i % size == size - 1 then 0 else i % size + 1
  {
    var start := i - i % size;
    ModNext(i, size);
    if i % size == 0 {
      assert all[start..i] == [];
    }
    assert Reset(i % size == 0, s.acc) == FeedBatch(r, s.w, all[start..i]);
    FeedBatchNext(r, s.w, all, start, i);
  }

  /** One iteration of the example loop over example `i`: reset at a batch's first
      example, feed the example, and at a batch's last example write the mean loss and
      take an optimiser step on the batch. */
  function EpochStep(r: Rnn, all: seq<Example>, size: nat, i: nat, s: Epoch): Epoch
    requires 1 <= size && i < |all|
  {
    var fed := Feed(r, s.w, Reset(i % size == 0, s.acc), all[i], |all[i].frames|);
    if i % size == size - 1 then Epoch(fed, s.done + [Mean(fed)], r.step(s.w, all[i + 1 - size..i + 1]))
    else Epoch(fed, s.done, s.w)
  }

  /** The state of the example loop after its first `i` iterations, from weights `w0`. */
  function EpochUpTo(r: Rnn, w0: Weights, all: seq<Example>, size: nat, i: nat): Epoch
    requires 1 <= size && i <= |all|
    decreases i
  {
    if i == 0 then Epoch(Acc(Zero(), 0.0, 0), [], w0)
    else EpochStep(r, all, size, i - 1, EpochUpTo(r, w0, all, size, i - 1))
  }

  /** At a batch boundary the loop state is accounted for by `Progress` alone. */
  lemma EpochAtStart(r: Rnn, w0: Weights, all: seq<Example>, size: nat, i: nat, s: Epoch)
    requires 1 <= size && i % size == 0
    requires Progress(r, w0, all, size, s.done, s.w, i)
    ensures EpochAt(r, w0, all, size, i, s)
  {
    assert i - i % size == i;
  }

  /** An iteration at a batch's last example keeps the loop state in step with the
      batches: the batch is full, its mean loss is appended and its step taken. */
  lemma EpochClose(r: Rnn, w0: Weights, all: seq<Example>, size: nat, i: nat, s: Epoch, i': nat, t: Epoch)
    requires 1 <= size && i < |all| && i % size == size - 1
    requires EpochAt(r, w0, all, size, i, s)
    requires i' == i + 1 && t == EpochStep(r, all, size, i, s)
    ensures EpochAt(r, w0, all, size, i', t)
  {
    var start := i - i % size;
    var fed := Feed(r, s.w, Reset(i % size == 0, s.acc), all[i], |all[i].frames|);
    EpochFed(r, w0, all, size, i, s, fed);
    assert start + size == i';
    assert t == Epoch(fed, s.done + [Mean(fed)], r.step(s.w, all[start..start + size]));
    ProgressStep(r, w0, all, size, s.done, s.w, start, all[start..start + size], t.done, t.w, i');
    EpochAtStart(r, w0, all, size, i', t);
  }

  /** An iteration at any other example keeps the loop state in step with the batches:
      the batch in progress grows by the example. */
  lemma EpochGrow(r: Rnn, w0: Weights, all: seq<Example>, size: nat, i: nat, s: Epoch, i': nat, t: Epoch)
    requires 1 <= size && i < |all| && i % size != size - 1
    requires EpochAt(r, w0, all, size, i, s)
    requires i' == i + 1 && t == EpochStep(r, all, size, i, s)
    ensures EpochAt(r, w0, all, size, i', t)
  {
    var start := i - i % size;
    var fed := Feed(r, s.w, Reset(i % size == 0, s.acc), all[i], |all[i].frames|);
    EpochFed(r, w0, all, size, i, s, fed);
    assert start == i + 1 - (i + 1) % size;
    assert t == Epoch(fed, s.done, s.w);
    assert (i + 1) % size <= i + 1 <= |all|;
    assert Progress(r, w0, all, size, t.done, t.w, i + 1 - (i + 1) % size);
    assert t.acc == FeedBatch(r, t.w, all[i + 1 - (i + 1) % size..i + 1]);
  }

  /** After `i` iterations the loop state accounts for every batch begun so far. */
  lemma {:induction false} EpochUpToAt(r: Rnn, w0: Weights, all: seq<Example>, size: nat, i: nat)
    requires 1 <= size && i <= |all|
    ensures EpochAt(r, w0, all, size, i, EpochUpTo(r, w0, all, size, i))
    decreases i
  {
    if i == 0 {
      assert all[0..] == all;
    } else {
      var k := i - 1;
      var s := EpochUpTo(r, w0, all, size, k);
      EpochUpToAt(r, w0, all, size, k);
      var t := EpochUpTo(r, w0, all, size, i);
      if k % size == size - 1 {
        EpochClose(r, w0, all, size, k, s, i, t);
      } else {
        EpochGrow(r, w0, all, size, k, s, i, t);
      }
    }
  }

  /** Run to the end, the example loop writes exactly the batch losses of the epoch and
      leaves exactly the weights after its steps. */
  lemma EpochMeetsSpec(r: Rnn, w0: Weights, all: seq<Example>, size: nat)
    requires 1 <= size
    ensures EpochUpTo(r, w0, all, size, |all|).done == EpochLosses(r, w0, all, size)
    ensures EpochUpTo(r, w0, all, size, |all|).w == WeightsAfter(r, w0, all, size)
  {
    var s := EpochUpTo(r, w0, all, size, |all|);
    EpochUpToAt(r, w0, all, size, |all|);
    ModBelow(|all|, size);
    ProgressDone(r, w0, all, size, s.done, s.w, |all| - |all| % size);
  }

  lemma DivStep(x: nat, d: nat)
    requires 1 <= d <= x
    ensures x / d == (x - d) / d + 1
  {
    var q, m := (x - d) / d, (x - d) % d;
    assert x == (q + 1) * d + m;
    DivModUnique(x, d, q + 1, m);
  }

  /** Counting on by one steps the remainder round `0 .. d - 1`, and the quotient on
      when the remainder wraps. */
  lemma ModNext(i: nat, d: nat)
    requires 1 <= d
    ensures (i + 1) % d == if i % d == d - 1 then 0 else i % d + 1
    ensures (i + 1) / d == if i % d == d - 1 then i / d + 1 else i / d
  {
    var q, m := i / d, i % d;
    if m == d - 1 {
      assert i + 1 == (q + 1) * d + 0;
      DivModUnique(i + 1, d, q + 1, 0);
    } else {
      DivModUnique(i + 1, d, q, m + 1);
    }
  }

  /** A batch's loss is NaN exactly when none of its examples has a frame. */
  lemma {:induction false} BatchLossNaN(r: Rnn, w: Weights, exs: seq<Example>)
    ensures Mean(FeedBatch(r, w, exs)).None? <==> forall k :: 0 <= k < |exs| ==> exs[k].frames == []
    decreases |exs|
  {
    if exs != [] {
      var init := exs[..|exs| - 1];
      BatchLossNaN(r, w, init);
      FeedCounts(r, w, FeedBatch(r, w, init), exs[|exs| - 1], |exs[|exs| - 1].frames|);
      assert forall k :: 0 <= k < |init| ==> init[k] == exs[k];
    }
  }

  /** The examples `train_epoch(n, ...)` goes through: `n`, or all of them for 0. */
  function Examples(n: nat, len: nat): (m: nat)
    ensures n == 0 ==> m == len
  {
    if n == 0 then len else n
  }

  /** The frame loop of `train_epoch` over one example (alina_net.cpp:153-185). */
  method FeedExample(r: Rnn, w: Weights, a: Acc, e: Example) returns (b: Acc)
    ensures b == Feed(r, w, a, e, |e.frames|)
  {
    var h', l', cnt' := a.h, a.sum, a.cnt;
    var x, y := e.frames, e.positive;
    for j := 0 to |x|
      invariant Acc(h', l', cnt') == Feed(r, w, a, e, j)
    {
      h' := r.cell(w, h', x[j]);
      if !y || j + TAIL >= |x| {
        cnt' := cnt' + 1;
        l' := l' + r.loss(w, h', y);
      }
    }
    b := Acc(h', l', cnt');
  }

  /** The per-step keyword probabilities of `xs` from a zero hidden state. */
  function Probs(r: Rnn, w: Weights, xs: seq<seq<real>>): (ps: seq<real>)
    ensures |ps| == |xs|
  {
    seq(|xs|, i requires 0 <= i < |xs| => r.prob(w, Run(r, w, Zero(), xs[..i + 1])))
  }

  /** The running maximum of `apply_to`, from 0. */
  function Peak(ps: seq<real>): (m: real)
    ensures 0.0 <= m && forall i :: 0 <= i < |ps| ==> ps[i] <= m
    ensures m == 0.0 || exists i :: 0 <= i < |ps| && ps[i] == m
  {
    if ps == [] then 0.0
    else
      var m := Peak(ps[..|ps| - 1]);
      assert forall i :: 0 <= i < |ps| - 1 ==> ps[..|ps| - 1][i] == ps[i];
      if m < ps[|ps| - 1] then ps[|ps| - 1] else m
  }

  /** The read loop of `load_from_file`: array by array, as many bytes as the file still
      holds go over the front of the array. */
  method LoadArrays(sizes: seq<nat>, c: Weights, file: seq<bv8>) returns (w: Weights)
    requires Shaped(sizes, c)
    ensures w == Loaded(sizes, c, file)
  {
    w := c;
    var offset := 0;
    for k := 0 to |sizes|
      invariant offset == Offset(sizes, k)
      invariant w == LoadedUpTo(sizes, c, file, k)
    {
      var lo, hi := Min(offset, |file|), Min(offset + sizes[k], |file|);
      LoadStep(sizes, c, file, k, w, lo, hi);
      w := w[k := file[lo..hi] + w[k][hi - lo..]];
      offset := offset + sizes[k];
    }
    assert w == Loaded(sizes, c, file)[..|sizes|];
  }

  /** The example loop of `train_epoch` over `all`, from weights `w0`: the mean loss of
      every full batch in order, and the weights after one optimiser step per full
      batch. */
  method EpochLoop(r: Rnn, w0: Weights, all: seq<Example>, size: nat)
    returns (done: seq<Option<real>>, w: Weights)
    requires 1 <= size
    ensures done == EpochLosses(r, w0, all, size)
    ensures w == WeightsAfter(r, w0, all, size)
  {
    w, done := w0, [];
    var acc := Acc(Zero(), 0.0, 0);
    var i := 0;
    while i < |all|
      invariant i <= |all| && Epoch(acc, done, w) == EpochUpTo(r, w0, all, size, i)
    {
      ghost var before := Epoch(acc, done, w);
      var fed := FeedExample(r, w, Reset(i % size == 0, acc), all[i]);
      if i % size == size - 1 {
        ModBelow(i, size);
        var batch := all[i + 1 - size..i + 1];
        done := done + [Mean(fed)];
        w := r.step(w, batch);
      }
      assert Epoch(fed, done, w) == EpochStep(r, all, size, i, before);
      acc := fed;
      i := i + 1;
    }
    EpochMeetsSpec(r, w0, all, size);
  }

  /** `train_epoch`'s pass over `all`: the losses go to the front of `losses`, one per
      full batch, and the rest of `losses` is left as it was. */
  method RunEpoch(r: Rnn, w0: Weights, all: seq<Example>, size: nat, losses: array<Option<real>>)
    returns (w: Weights)
    requires 1 <= size && |all| / size <= losses.Length
    modifies losses
    ensures var ls := EpochLosses(r, w0, all, size);
            && |ls| == |all| / size && losses[..|ls|] == ls && losses[|ls|..] == old(losses[|ls|..])
    ensures w == WeightsAfter(r, w0, all, size)
  {
    var done;
    done, w := EpochLoop(r, w0, all, size);
    LossCount(r, w0, all, size);
    for k := 0 to |done|
      invariant losses[..k] == done[..k] && losses[k..] == old(losses[k..])
    {
      losses[k] := done[k];
      assert losses[..k + 1] == done[..k + 1];
    }
    assert done[..|done|] == done;
  }

  /** The library's global state: the parameters of the layers, as the bytes of their 21
      arrays, and the training set. */
  class Net {
    var weights: Weights
    var dataset: seq<Example>

    ghost predicate Valid()
      reads this
    {
      Shaped(SIZES, weights)
    }

    /** The global layers and training set (alina_net.cpp:63-71), zero-initialised as
        static storage is. */
    constructor ()
      ensures Valid() && dataset == []
      ensures forall k, i :: 0 <= k < PARAMS && 0 <= i < SIZES[k] ==> weights[k][i] == 0
    {
      weights := seq(PARAMS, k requires 0 <= k < PARAMS => seq(SIZES[k], _ => 0));
      dataset := [];
    }

    /** `init(seed)` (alina_net.cpp:99-118): the layers get fresh weights, here the
        parameter `w` standing for the random draws, and the training set is emptied. */
    method Init(w: Weights)
      requires Shaped(SIZES, w)
      modifies this
      ensures Valid() && weights == w && dataset == []
    {
      weights := w;
      dataset := [];
    }

    /** `save_to_file` (alina_net.cpp:238-262): the 21 arrays, whole and in order, with
        no header. */
    method SaveToFile() returns (file: seq<bv8>)
      requires Valid()
      ensures file == Concat(weights)
    {
      file := [];
      for k := 0 to PARAMS
        invariant file == Concat(weights[..k])
      {
        assert weights[..k + 1][..k] == weights[..k];
        file := file + weights[k];
      }
      assert weights[..PARAMS] == weights;
    }

    /** `load_from_file` (alina_net.cpp:264-288): the same arrays in the same order; a
        short file fills what it holds and leaves the rest. */
    method LoadFromFile(file: seq<bv8>)
      requires Valid()
      modifies this
      ensures Valid() && weights == Loaded(SIZES, old(weights), file) && dataset == old(dataset)
    {
      LoadKeepsShape(SIZES, weights, file);
      weights := LoadArrays(SIZES, weights, file);
    }

    /** `add_data(arr, s, y)` (alina_net.cpp:120-126): the example made of the first `s`
        blocks of `arr` is appended to the training set. */
    method AddData(arr: seq<real>, s: nat, y: bool)
      requires CODE_SIZE * s <= |arr|
      modifies this
      ensures dataset == old(dataset) + [Example(Blocks(arr, s), y)] && weights == old(weights)
    {
      var x: seq<seq<real>> := [];
      for i := 0 to s
        invariant x == Blocks(arr, s)[..i]
      {
        assert Blocks(arr, s)[..i + 1] == Blocks(arr, s)[..i] + [Blocks(arr, s)[i]];
        x := x + [arr[i * CODE_SIZE..i * CODE_SIZE + CODE_SIZE]];
      }
      assert x == Blocks(arr, s);
      dataset := dataset + [Example(x, y)];
    }

    /** `train_epoch(n, size, losses)` (alina_net.cpp:132-201): the first `n` examples
        (all for `n == 0`) in batches of `size`; one loss per full batch is written to
        `losses` in order, and the weights take one optimiser step per full batch. A
        trailing partial batch is fed but neither writes a loss nor steps. */
    method TrainEpoch(r: Rnn, n: nat, size: nat, losses: array<Option<real>>)
      requires Valid() && KeepsShape(r)
      requires 1 <= size && n <= |dataset|
      requires Examples(n, |dataset|) / size <= losses.Length
      modifies this, losses
      ensures Valid() && dataset == old(dataset)
      ensures var ls := EpochLosses(r, old(weights), dataset[..Examples(n, |dataset|)], size);
              && |ls| == Examples(n, |dataset|) / size && losses[..|ls|] == ls && losses[|ls|..] == old(losses[|ls|..])
      ensures weights == WeightsAfter(r, old(weights), dataset[..Examples(n, |dataset|)], size)
    {
      var total := if n == 0 then |dataset| else n;
      ghost var w0 := weights;
      weights := RunEpoch(r, weights, dataset[..total], size, losses);
      StepsKeepShape(r, SIZES, w0, dataset[..total], size);
    }

    /** `apply_to(arr, s, out)` (alina_net.cpp:203-236): from a zero hidden state, one
        step per block of `arr`; the result is the largest step probability, or 0, and
        a non-null `out` receives the `s` probabilities in step order. */
    method ApplyTo(r: Rnn, arr: seq<real>, s: nat, out: array?<real>) returns (ans: real)
      requires CODE_SIZE * s <= |arr|
      requires out != null ==> s <= out.Length
      modifies out
      ensures ans == Peak(Probs(r, weights, Blocks(arr, s)))
      ensures out != null ==> out[..s] == Probs(r, weights, Blocks(arr, s)) && out[s..] == old(out[s..])
    {
      ghost var xs := Blocks(arr, s);
      ghost var ps := Probs(r, weights, xs);
      var h := Zero();
      ans := 0.0;
      for i := 0 to s
        invariant h == Run(r, weights, Zero(), xs[..i])
        invariant ans == Peak(ps[..i])
        invariant out != null ==> out[..i] == ps[..i] && out[s..] == old(out[s..])
      {
        var x := arr[i * CODE_SIZE..i * CODE_SIZE + CODE_SIZE];
        assert xs[..i + 1][..i] == xs[..i];
        h := r.cell(weights, h, x);
        assert x == xs[i] && h == Run(r, weights, Zero(), xs[..i + 1]);
        var prob := r.prob(weights, h);
        if out != null {
          out[i] := prob;
        }
        assert ps[..i + 1][..i] == ps[..i] && ps[i] == prob;
        ans := if ans < prob then prob else ans;
      }
      assert ps[..s] == ps;
    }
  }
}
