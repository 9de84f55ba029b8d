/** The capture ring buffer of sound_reader.hpp.

    `SoundBuffer<size, history, required_rate>` keeps the last `size` mono samples in a
    fixed array, with a read cursor `start` (where the detector reads next) and a write
    cursor `end` (where the device writes next). The `history` slots just behind `start`
    are kept intact for the recogniser, which reads them through `GetHistory`.

    The ALSA device is a capture stream `signal` of interleaved 16-bit values; the
    buffer keeps channel 0 at the required rate by taking every `step`-th value. */
module SoundReader {
  import opened Wrappers
  import opened Arith

  /** A signed 16-bit sample. */
  newtype int16 = x: int | -0x8000 <= x < 0x8000

  /** A contiguous run of the buffer: `len` slots from `offset`. */
  datatype Span = Span(offset: nat, len: nat)

  /** A position less than two laps round an `m`-slot ring, reduced to a slot. */
  function Wrap(x: nat, m: nat): nat
    requires x < 2 * m
  {
    if x < m then x else x - m
  }

  /** A position less than three laps round an `m`-slot ring, reduced to a slot. */
  function Ring(x: nat, m: nat): nat
    requires x < 3 * m
  {
    if x < m then x else if x < 2 * m then x - m else x - 2 * m
  }

  /** The slot of a `size`-slot ring holding the `k`-th written sample, when slot
      `start` holds sample `done`; defined for the `size` samples either side. */
  function Slot(start: nat, done: nat, size: nat, k: nat): nat
    requires start < size && done <= k + size && k < done + size
  {
    Ring(start + size + k - done, size)
  }

  lemma WrapIsMod(x: nat, m: nat)
    requires x < 2 * m
    ensures x % m == Wrap(x, m)
  {
    if x < m {
      DivModUnique(x, m, 0, x);
    } else {
      DivModUnique(x, m, 1, x - m);
    }
  }

  /** `max_samples`: the unread samples from `start` up to `end`, counted modulo `size`. */
  function Unread(start: nat, end: nat, size: nat): (r: nat)
    requires start < size && end < size
    ensures r < size
    ensures Wrap(start + r, size) == end
  {
    WrapIsMod(end - start + size, size);
    (end - start + size) % size
  }

  /** No other count below `size` leads from `start` to `end`. */
  lemma UnreadUnique(start: nat, end: nat, size: nat, c: nat)
    requires start < size && end < size && c < size && Wrap(start + c, size) == end
    ensures Unread(start, end, size) == c
  {
  }

  /** `get_history(n)`: the segment starting `n` slots behind `start`, cut at the end of
      the array. The source reads past the array for `n > size`; its only caller passes
      at most the history length. */
  function HistorySpan(start: nat, n: nat, size: nat): (s: Span)
    requires start < size && n <= size
    ensures s.offset < size && s.offset + s.len <= size
    ensures Wrap(s.offset + n, size) == start
    ensures 1 <= n ==> 1 <= s.len <= n
    ensures s.offset < start ==> s.len == n && s.offset + s.len == start
    ensures start <= s.offset ==> s.offset + s.len == size
  {
    WrapIsMod(start - n + size, size);
    var hStart := (start - n + size) % size;
    Span(hStart, if hStart < start then n else size - hStart)
  }

  /** The rate search of the constructor: the smallest multiple of `requiredRate` that is
      at least `requiredRate` and at least `rateMin`; `ok` is false (the source throws
      "Required rate not supported") when it exceeds `rateMax`. */
  method SelectRate(requiredRate: nat, rateMin: nat, rateMax: nat) returns (rate: nat, ok: bool)
    requires 1 <= requiredRate
    ensures rate % requiredRate == 0 && requiredRate <= rate && rateMin <= rate
    ensures rate == requiredRate || rate - requiredRate < rateMin
    ensures ok == (rate <= rateMax)
  {
    rate := requiredRate;
    ghost var multiple := 1;
    while rate < rateMin
      invariant rate == multiple * requiredRate && requiredRate <= rate
      invariant rate == requiredRate || rate - requiredRate < rateMin
      decreases rateMin - rate
    {
      rate := rate + requiredRate;
      multiple := multiple + 1;
    }
    DivModUnique(rate, requiredRate, multiple, 0);
    ok := rate <= rateMax;
  }

  /** `read_some` asks for `budget * step / channels` frames and gets back one sample
      per `step` values: exactly `budget` samples, and none when the budget is zero. */
  lemma DecimationCount(budget: nat, ratio: nat, channels: nat, step: nat)
    requires 1 <= channels && 1 <= ratio && step == ratio * channels
    ensures budget * step / channels == budget * ratio
    ensures budget * ratio * channels == budget * step
    ensures budget * ratio * channels / step == budget
    ensures budget * ratio == 0 <==> budget == 0
  {
    assert budget * step == (budget * ratio) * channels;
    DivModUnique(budget * step, channels, budget * ratio, 0);
    MulAtLeast(ratio, channels);
    DivModUnique(budget * ratio * channels, step, budget, 0);
    if budget > 0 {
      MulAtLeast(budget, ratio);
    }
  }

  /** Committing `budget` more samples' worth of values moves the device position. */
  lemma StepsAdd(w: nat, budget: nat, step: nat)
    ensures (w + budget) * step == w * step + budget * step
  {
  }

  class SoundBuffer {
    /** Template parameters: capacity in samples and the retained history. */
    const size: nat
    const history: nat
    /** Device configuration chosen by the constructor: `step = ratio * channels`. */
    const channels: nat
    const step: nat
    ghost const ratio: nat
    /** The interleaved values the capture device delivers, in capture order. */
    const signal: nat -> int16
    const buffer: array<int16>

    var start: nat
    var end: nat
    /** Interleaved values of `signal` already committed by `snd_pcm_mmap_commit`. */
    var devicePos: nat

    /** The samples `GetSamples` has handed out, oldest first, and the unread ones. */
    ghost var past: seq<int16>
    ghost var unread: seq<int16>

    /** Every sample stored so far, in capture order. */
    ghost function Written(): seq<int16>
      reads this
    {
      past + unread
    }

    /** How many of the handed-out samples are still retained behind `start`. */
    ghost function Held(): nat
      reads this
    {
      if |past| < history then |past| else history
    }


    /** The first `n` samples of channel 0 taken every `step`-th device value. */
    ghost function Captured(n: nat): seq<int16>
    {
      if n == 0 then [] else Captured(n - 1) + [signal((n - 1) * step)]
    }

    /** The ring layout: cursors in range, at most `size - history` samples unread, and
        every unread sample and the last `history` handed-out ones in their slots. */
    ghost predicate Layout()
      reads this, buffer
    {
      && 0 < history < size && buffer.Length == size
      && start < size && end < size
      && |unread| <= size - history
      && end == Wrap(start + |unread|, size)
      && (forall k :: |past| - Held() <= k < |Written()| ==> buffer[Slot(start, |past|, size, k)] == Written()[k])
    }

    /** The ring layout, the device configuration, and the stored samples being the
        decimated device stream. */
    ghost predicate Valid()
      reads this, buffer
    {
      && Layout()
      && 1 <= channels && 1 <= ratio && step == ratio * channels
      && devicePos == |Written()| * step
      && Written() == Captured(|Written()|)
    }

    /** The `k`-th captured sample is the `k * step`-th device value. */
    lemma {:induction false} CapturedAt(n: nat, k: nat)
      requires k < n
      ensures |Captured(n)| == n && Captured(n)[k] == signal(k * step)
      decreases n
    {
      if k < n - 1 {
        CapturedAt(n - 1, k);
      } else {
        CapturedLength(n - 1);
      }
    }

    /** Appending the next decimated value extends the capture by one sample. */
    lemma CapturedNext(w: seq<int16>)
      requires w == Captured(|w|)
      ensures w + [signal(|w| * step)] == Captured(|w| + 1)
      ensures (|w| + 1) * step == |w| * step + step
    {
    }

    lemma {:induction false} CapturedLength(n: nat)
      ensures |Captured(n)| == n
      decreases n
    {
      if n > 0 {
        CapturedLength(n - 1);
      }
    }

    /** The constructor once the rate is known: `step = rate / required_rate * channels`. */
    constructor (size: nat, history: nat, requiredRate: nat, channels: nat, rate: nat,
                 signal: nat -> int16)
      requires 0 < history < size && 1 <= channels
      requires 1 <= requiredRate <= rate && rate % requiredRate == 0
      ensures Valid() && fresh(buffer)
      ensures this.size == size && this.history == history && this.channels == channels
      ensures step == rate / requiredRate * channels && this.signal == signal
      ensures past == [] && unread == [] && start == 0 && end == 0
    {
      this.size := size;
      this.history := history;
      this.channels := channels;
      this.signal := signal;
      var r := rate / requiredRate;
      assert rate == r * requiredRate;
      assert r >= 1;
      ratio := r;
      step := r * channels;
      buffer := new int16[size];
      start, end, devicePos := 0, 0, 0;
      past, unread := [], [];
    }

    /** `SoundBuffer()` (sound_reader.hpp:43-86): picks the rate with `SelectRate` and
        fails where the source throws; the remaining ALSA calls are not modelled. */
    static method Open(size: nat, history: nat, requiredRate: nat, channels: nat,
                       rateMin: nat, rateMax: nat, signal: nat -> int16)
      returns (b: Option<SoundBuffer>, rate: nat)
      requires 0 < history < size && 1 <= channels && 1 <= requiredRate
      ensures rate % requiredRate == 0 && requiredRate <= rate && rateMin <= rate
      ensures rate == requiredRate || rate - requiredRate < rateMin
      ensures b.Some? <==> rate <= rateMax
      ensures b.Some? ==> b.value.Valid() && fresh(b.value) && fresh(b.value.buffer)
      ensures b.Some? ==> b.value.size == size && b.value.history == history
      ensures b.Some? ==> b.value.past == [] && b.value.unread == []
      ensures b.Some? ==> b.value.step == rate / requiredRate * channels
    {
      var ok;
      rate, ok := SelectRate(requiredRate, rateMin, rateMax);
      if !ok {
        return None, rate;
      }
      var sb := new SoundBuffer(size, history, requiredRate, channels, rate, signal);
      return Some(sb), rate;
    }

    /** `max_samples()` (sound_reader.hpp:90-92): the samples written and not yet handed
        out, never more than `size - history`. */
    function MaxSamples(): (r: nat)
      requires Valid()
      reads this, buffer
      ensures r == |unread| && r <= size - history
    {
      UnreadUnique(start, end, size, |unread|);
      Unread(start, end, size)
    }

    /** `read_some` (sound_reader.hpp:18-40): requests `size - history - max_samples()`
        samples' worth of frames, throws (`ok` false) when that is zero, and otherwise
        stores every `step`-th device value at `end`, advancing `end` modulo `size`. The
        device grants the whole request. The unread samples and the `history` samples
        behind `start` keep their slots. */
    method ReadSome() returns (ok: bool)
      requires Valid()
      modifies this, buffer
      ensures Valid()
      ensures ok == (|old(unread)| < size - history)
      ensures start == old(start) && past == old(past)
      ensures ok ==> |unread| == size - history
      ensures old(unread) <= unread
      ensures !ok ==> unread == old(unread) && end == old(end)
    {
      var budget := size - history - MaxSamples();
      DecimationCount(budget, ratio, channels, step);
      var frames := budget * step / channels;
      if frames == 0 {
        return false;
      }
      var count := frames * channels / step;
      assert count == budget;
      ghost var w0 := |Written()|;
      CopyFrames(count);
      StepsAdd(w0, budget, step);
      devicePos := devicePos + frames * channels;
      ok := true;
    }

    /** The copy loop of `read_some` over the `count` granted samples: the `i`-th comes
        from device value `devicePos + i * step`; `devicePos` is committed by the caller. */
    method CopyFrames(count: nat)
      requires Valid() && |unread| + count <= size - history
      modifies this, buffer
      ensures Layout()
      ensures |unread| == |old(unread)| + count && old(unread) <= unread
      ensures start == old(start) && past == old(past) && devicePos == old(devicePos)
      ensures Written() == Captured(|Written()|)
    {
      ghost var u0 := unread;
      var pos := devicePos;
      var i := 0;
      while i < count
        invariant 0 <= i <= count
        invariant |unread| == |u0| + i && u0 <= unread
        invariant start == old(start) && past == old(past) && devicePos == old(devicePos)
        invariant Layout()
        invariant pos == |Written()| * step
        invariant Written() == Captured(|Written()|)
      {
        ghost var w := Written();
        Store(signal(pos));
        assert Written() == w + [signal(pos)];
        CapturedNext(w);
        pos := pos + step;
        i := i + 1;
      }
    }

    /** One iteration of the copy loop of `read_some`: the sample goes to `end`, which
        advances modulo `size`; no unread or retained slot is overwritten. */
    method Store(x: int16)
      requires Layout() && |unread| < size - history
      modifies this, buffer
      ensures Layout()
      ensures unread == old(unread) + [x]
      ensures start == old(start) && past == old(past) && devicePos == old(devicePos)
    {
      ghost var w := Written();
      forall k | |past| - Held() <= k < |w|
        ensures Slot(start, |past|, size, k) != end
      {
      }
      assert Slot(start, |past|, size, |w|) == end;
      buffer[end] := x;
      unread := unread + [x];
      assert Written() == w + [x];
      forall k | |past| - Held() <= k < |Written()|
        ensures buffer[Slot(start, |past|, size, k)] == Written()[k]
      {
      }
      assert end + 1 <= size;
      WrapIsMod(end + 1, size);
      end := (end + 1) % size;
    }

    /** `get_samples(n)` (sound_reader.hpp:93-105): refills until `n` samples are unread
        (failing where `read_some` throws), then hands out one contiguous chunk at `start`:
        `n` samples when they fit before the end of the array, otherwise the
        `size - start` samples up to the end, with `start` wrapping to 0. Successive
        chunks are the written samples in order, none skipped and none repeated. */
    method GetSamples(n: nat) returns (ok: bool, chunk: Span)
      requires Valid()
      modifies this, buffer
      ensures Valid()
      ensures ok == (n <= size - history)
      ensures old(Written()) <= Written()
      ensures !ok ==> past == old(past) && start == old(start)
      ensures ok ==> chunk.offset == old(start)
      ensures ok ==> chunk.len == if size - old(start) > n then n else size - old(start)
      ensures ok ==> start == Wrap(old(start) + chunk.len, size)
      ensures ok ==> chunk.offset + chunk.len <= size &&
                     past == old(past) + buffer[chunk.offset..chunk.offset + chunk.len]
    {
      chunk := Span(start, 0);
      while MaxSamples() < n
        invariant Valid()
        invariant old(Written()) <= Written()
        invariant start == old(start) && past == old(past)
        decreases size - history - |unread|
      {
        ok := ReadSome();
        if !ok {
          return;
        }
      }
      ok := true;
      if size - start > n {
        chunk := Span(start, n);
      } else {
        chunk := Span(start, size - start);
      }
      Advance(chunk.len);
    }

    /** The bookkeeping of handing out the first `c` unread samples, which sit in the
        slots from `start` on: they join the handed-out samples and `start` moves past
        them, wrapping to 0 at the end of the array. */
    method Advance(c: nat)
      requires Valid() && c <= |unread| && start + c <= size
      modifies this
      ensures Valid()
      ensures Written() == old(Written())
      ensures past == old(past) + buffer[old(start)..old(start) + c]
      ensures start == Wrap(old(start) + c, size)
    {
      ghost var w := Written();
      ghost var p0 := |past|;
      ghost var s0 := start;
      ghost var h0 := Held();
      assert forall k :: p0 - h0 <= k < |w| ==> buffer[Ring(s0 + size + k - p0, size)] == w[k];
      forall i | 0 <= i < c
        ensures buffer[start + i] == unread[i]
      {
        assert Slot(start, |past|, size, p0 + i) == start + i;
        assert w[p0 + i] == unread[i];
      }
      assert buffer[start..start + c] == unread[..c];
      past := past + unread[..c];
      unread := unread[c..];
      assert Written() == w;
      if start + c < size {
        start := start + c;
      } else {
        start := 0;
      }
      LayoutAfterAdvance(w, s0, p0, h0, c);
    }

    /** The retained and unread samples keep their slots when `start` moves `c` slots on:
        the slot of sample `k` is computed from `start` and `|past|`, which advance together. */
    lemma LayoutAfterAdvance(w: seq<int16>, s0: nat, p0: nat, h0: nat, c: nat)
      requires 0 < history < size && buffer.Length == size && start < size && end < size
      requires s0 < size && s0 + c <= size && start == Wrap(s0 + c, size)
      requires |past| == p0 + c && h0 == (if p0 < history then p0 else history)
      requires Written() == w && |unread| <= size - history
      requires end == Wrap(s0 + c + |unread|, size)
      requires forall k :: p0 - h0 <= k < |w| ==> buffer[Ring(s0 + size + k - p0, size)] == w[k]
      ensures Layout()
    {
      forall k | |past| - Held() <= k < |Written()|
        ensures buffer[Slot(start, |past|, size, k)] == Written()[k]
      {
        assert Slot(start, |past|, size, k) == Ring(s0 + size + k - p0, size);
      }
    }

    /** `get_history(n)` (sound_reader.hpp:106-109) on this buffer: when the `n` samples
        before the read cursor are still retained, the span holds the oldest of them in
        capture order (all `n` of them unless the span is cut at the end of the array). */
    function GetHistory(n: nat): (s: Span)
      requires Valid() && n <= size
      reads this, buffer
      ensures s == HistorySpan(start, n, size)
      ensures 1 <= n <= |past| && n <= history ==>
                s.offset + s.len <= size && s.len <= n &&
                buffer[s.offset..s.offset + s.len] == past[|past| - n..|past| - n + s.len]
    {
      HistoryIsRetained(n);
      HistorySpan(start, n, size)
    }

    /** The slots of the history span still hold the samples handed out there. */
    lemma HistoryIsRetained(n: nat)
      requires Valid() && n <= size
      ensures var s := HistorySpan(start, n, size);
              1 <= n <= |past| && n <= history ==>
                s.len <= n && buffer[s.offset..s.offset + s.len] == past[|past| - n..|past| - n + s.len]
    {
      if 1 <= n <= |past| && n <= history {
        var s := HistorySpan(start, n, size);
        var got, want := buffer[s.offset..s.offset + s.len], past[|past| - n..|past| - n + s.len];
        forall j | 0 <= j < s.len
          ensures got[j] == want[j]
        {
          var k := |past| - n + j;
          assert Slot(start, |past|, size, k) == s.offset + j;
          assert Written()[k] == past[k];
        }
        assert got == want;
      }
    }
  }
}
