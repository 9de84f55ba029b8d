/** The offline preparation of training data (train.cpp): spectrogram frames of a
    recording, the loudness threshold, and the cutting of an unlabelled recording into
    training samples at the ends of loud stretches.

    The magnitude of bin `b` of the Fourier transform of a 128-sample window is the
    parameter `mag(window, b)`; `std::nth_element` is the parameter `nth(s, n)`, taken to
    keep its contract (`IsNthElement`). Samples and magnitudes are reals. */
module Train {
  import opened Wrappers
  import AlinaNet

  const WINDOW_SIZE: nat := 128
  const TRAIN_SERIES_LEN: nat := 20
  const FREQ_FROM: nat := 3
  const FREQ_TO: nat := 43

  // ---------------------------------------------------------------- spectrogram

  /** Frames `spectrogram` emits for `len` samples as written: one per 64-sample
      advance while more than 128 samples remain. */
  function FramesAsWritten(len: nat): (r: nat)
    ensures r > 0 ==> 64 * r + 64 < len
  {
    if len > WINDOW_SIZE then 1 + FramesAsWritten(len - 64) else 0
  }

  /** Frames emitted when the loop also takes a last window of exactly 128 samples. */
  function Frames(len: nat): (r: nat)
    ensures r > 0 ==> 64 * r + 64 <= len
  {
    if len >= WINDOW_SIZE then 1 + Frames(len - 64) else 0
  }

  /** As written, `spectrogram` stays inside the `len / 64 - 1` frames its callers
      allocate (train.cpp:45, 90), and fills them all unless `len` is a multiple of 64. */
  lemma {:induction false} FramesAsWrittenFit(len: nat)
    requires len >= 64
    ensures FramesAsWritten(len) <= len / 64 - 1
    ensures FramesAsWritten(len) < len / 64 - 1 <==> len % 64 == 0 && len >= 2 * 64
    ensures len / 64 - 1 <= FramesAsWritten(len) + 1
    decreases len
  {
    if len > WINDOW_SIZE {
      FramesAsWrittenFit(len - 64);
    }
  }

  /** 192 samples: two frames are allocated and the loop as written fills only the
      first; the window `[64, 192)` is never transformed. */
  lemma FramesAsWrittenLeavesLastFrame()
    ensures FramesAsWritten(192) == 1 && 192 / 64 - 1 == 2
  {
  }

  /** With the last full window included, the loop fills exactly the allocated frames. */
  lemma {:induction false} FramesFillAllocation(len: nat)
    requires len >= 64
    ensures Frames(len) == len / 64 - 1
    decreases len
  {
    if len >= WINDOW_SIZE {
      FramesFillAllocation(len - 64);
    }
  }

  /** The bins `[from, to)` of a window's spectrum. */
  function Bins(window: seq<real>, from: nat, to: nat, mag: (seq<real>, nat) -> real): (f: seq<real>)
    requires from <= to
    ensures |f| == to - from && forall b :: 0 <= b < |f| ==> f[b] == mag(window, from + b)
  {
    seq(to - from, b requires 0 <= b < to - from => mag(window, from + b))
  }

  /** `spectrogram<from, to>(first, last, out)` (train.cpp:23-34): while more than 128
      samples remain, frame `j` is the bins `[from, to)` of the window starting `64 * j`
      samples after `first`, written to `out[outStart + j]`; nothing else in `out`
      changes. */
  method Spectrogram(samples: seq<real>, first: nat, last: nat, from: nat, to: nat,
                     mag: (seq<real>, nat) -> real, out: array<seq<real>>, outStart: nat)
    requires first <= last <= |samples| && from <= to
    requires outStart + FramesAsWritten(last - first) <= out.Length
    modifies out
    ensures forall j :: outStart <= j < outStart + FramesAsWritten(last - first) ==>
              out[j] == Bins(samples[first + 64 * (j - outStart)..first + 64 * (j - outStart) + WINDOW_SIZE], from, to, mag)
    ensures forall j :: 0 <= j < out.Length && !(outStart <= j < outStart + FramesAsWritten(last - first)) ==>
              out[j] == old(out[j])
  {
    var f := first;
    var o := outStart;
    while last - f > WINDOW_SIZE
      invariant first <= f <= last && outStart <= o
      invariant f - first == 64 * (o - outStart)
      invariant (o - outStart) + FramesAsWritten(last - f) == FramesAsWritten(last - first)
      invariant forall j :: outStart <= j < o ==>
                  out[j] == Bins(samples[first + 64 * (j - outStart)..first + 64 * (j - outStart) + WINDOW_SIZE], from, to, mag)
      invariant forall j :: 0 <= j < out.Length && !(outStart <= j < o) ==> out[j] == old(out[j])
      decreases last - f
    {
      out[o] := Bins(samples[f..f + WINDOW_SIZE], from, to, mag);
      o := o + 1;
      f := f + 64;
    }
  }

  /** A default-constructed tensor of `n` values, taken to hold zeros. */
  function ZeroFrame(n: nat): (z: seq<real>)
    ensures |z| == n && forall b :: 0 <= b < n ==> z[b] == 0.0
  {
    seq(n, _ => 0.0)
  }

  /** The frames of a labelled region (train.cpp:90-91): `(reg1 - reg0) / 64 - 1` frames
      are allocated as zero tensors, and the loop as written fills all of them but the
      last, which stays zero exactly when the region's length is a multiple of 64 of at
      least 128 samples. */
  method RegionFrames(samples: seq<real>, reg0: nat, reg1: nat, mag: (seq<real>, nat) -> real)
      returns (frames: seq<seq<real>>)
    requires reg0 <= reg1 <= |samples| && reg1 - reg0 >= 64
    ensures |frames| == (reg1 - reg0) / 64 - 1
    ensures var w := FramesAsWritten(reg1 - reg0);
            && w <= |frames| <= w + 1
            && (w < |frames| <==> (reg1 - reg0) % 64 == 0 && reg1 - reg0 >= WINDOW_SIZE)
    ensures forall j :: 0 <= j < FramesAsWritten(reg1 - reg0) ==>
              frames[j] == Bins(samples[reg0 + 64 * j..reg0 + 64 * j + WINDOW_SIZE], FREQ_FROM, FREQ_TO, mag)
    ensures forall j :: FramesAsWritten(reg1 - reg0) <= j < |frames| ==> frames[j] == ZeroFrame(FREQ_TO - FREQ_FROM)
  {
    var out := new seq<real>[(reg1 - reg0) / 64 - 1](_ => ZeroFrame(FREQ_TO - FREQ_FROM));
    FramesAsWrittenFit(reg1 - reg0);
    Spectrogram(samples, reg0, reg1, FREQ_FROM, FREQ_TO, mag, out, 0);
    frames := out[..];
  }

  // ---------------------------------------------------------------- threshold

  function CountLess(s: seq<real>, v: real): nat
  {
    if s == [] then 0 else (if s[0] < v then 1 else 0) + CountLess(s[1..], v)
  }

  function CountAtMost(s: seq<real>, v: real): nat
  {
    if s == [] then 0 else (if s[0] <= v then 1 else 0) + CountAtMost(s[1..], v)
  }

  /** `v` is the value at position `k` of `s` sorted: fewer than `k + 1` elements lie
      below it and more than `k` lie at or below it. */
  ghost predicate IsOrderStat(s: seq<real>, k: nat, v: real)
  {
    CountLess(s, v) <= k < CountAtMost(s, v)
  }

  /** The contract of `std::nth_element(r.begin(), r.begin() + n, r.end())` on a copy of
      `s`: `r` rearranges `s`, nothing before position `n` exceeds `r[n]` and nothing
      after it is smaller. */
  ghost predicate IsNthElement(s: seq<real>, n: nat, r: seq<real>)
  {
    && multiset(r) == multiset(s)
    && n < |r|
    && (forall i :: 0 <= i < n ==> r[i] <= r[n])
    && (forall i :: n < i < |r| ==> r[n] <= r[i])
  }

  /** `nth` keeps the contract of `std::nth_element` on every input. */
  ghost predicate IsSelector(nth: (seq<real>, nat) -> seq<real>)
  {
    forall s, n: nat :: n < |s| ==> IsNthElement(s, n, nth(s, n))
  }

  lemma {:induction false} CountsAppend(a: seq<real>, b: seq<real>, v: real)
    ensures CountLess(a + b, v) == CountLess(a, v) + CountLess(b, v)
    ensures CountAtMost(a + b, v) == CountAtMost(a, v) + CountAtMost(b, v)
    decreases |a|
  {
    if a == [] {
      assert a + b == b;
    } else {
      assert (a + b)[0] == a[0] && (a + b)[1..] == a[1..] + b;
      CountsAppend(a[1..], b, v);
    }
  }

  /** Taking out the element at `j` takes its contribution out of the counts. */
  lemma RemoveAt(r: seq<real>, j: nat, v: real)
    requires j < |r|
    ensures CountLess(r, v) == CountLess(r[..j] + r[j + 1..], v) + (if r[j] < v then 1 else 0)
    ensures CountAtMost(r, v) == CountAtMost(r[..j] + r[j + 1..], v) + (if r[j] <= v then 1 else 0)
  {
    assert r == r[..j] + ([r[j]] + r[j + 1..]);
    CountsAppend(r[..j], [r[j]] + r[j + 1..], v);
    CountsAppend(r[..j], r[j + 1..], v);
    assert CountLess([r[j]] + r[j + 1..], v) == (if r[j] < v then 1 else 0) + CountLess(r[j + 1..], v);
    assert CountAtMost([r[j]] + r[j + 1..], v) == (if r[j] <= v then 1 else 0) + CountAtMost(r[j + 1..], v);
  }

  /** A rearrangement `r` of a non-empty `s` holds `s[0]` at some `j`, and without it
      is a rearrangement of the rest of `s`. */
  lemma MatchFirst(s: seq<real>, r: seq<real>) returns (j: nat)
    requires s != [] && multiset(s) == multiset(r)
    ensures j < |r| && r[j] == s[0]
    ensures multiset(s[1..]) == multiset(r[..j] + r[j + 1..])
  {
    assert s[0] in multiset(s);
    assert s[0] in r;
    j :| 0 <= j < |r| && r[j] == s[0];
    MultisetRemoveAt(r, j);
    assert s == [s[0]] + s[1..];
  }

  /** Taking out the element at `j` takes one copy of it out of the multiset. */
  lemma MultisetRemoveAt(r: seq<real>, j: nat)
    requires j < |r|
    ensures multiset(r[..j] + r[j + 1..]) == multiset(r) - multiset{r[j]}
  {
    assert r == r[..j] + ([r[j]] + r[j + 1..]);
  }

  /** Counts depend only on the multiset of values. */
  lemma {:induction false} CountsPermutation(s: seq<real>, r: seq<real>, v: real)
    requires multiset(s) == multiset(r)
    ensures CountLess(s, v) == CountLess(r, v) && CountAtMost(s, v) == CountAtMost(r, v)
    decreases |s|
  {
    if s == [] {
      assert |r| == |multiset(r)| == 0;
    } else {
      var j := MatchFirst(s, r);
      RemoveAt(r, j, v);
      RemoveAt(s, 0, v);
      assert s[..0] + s[1..] == s[1..];
      CountsPermutation(s[1..], r[..j] + r[j + 1..], v);
    }
  }

  lemma {:induction false} CountLessBound(s: seq<real>, v: real)
    ensures CountLess(s, v) <= |s|
    decreases |s|
  {
    if s != [] {
      CountLessBound(s[1..], v);
    }
  }

  lemma {:induction false} NoneLess(s: seq<real>, v: real)
    requires forall i :: 0 <= i < |s| ==> v <= s[i]
    ensures CountLess(s, v) == 0
    decreases |s|
  {
    if s != [] {
      NoneLess(s[1..], v);
    }
  }

  lemma {:induction false} AllAtMost(s: seq<real>, v: real)
    requires forall i :: 0 <= i < |s| ==> s[i] <= v
    ensures CountAtMost(s, v) == |s|
    decreases |s|
  {
    if s != [] {
      AllAtMost(s[1..], v);
    }
  }

  /** What `nth_element` leaves at position `n` is the `n`-th order statistic. */
  lemma NthPlaced(s: seq<real>, n: nat, r: seq<real>)
    requires IsNthElement(s, n, r)
    ensures IsOrderStat(s, n, r[n])
  {
    var v := r[n];
    assert r == r[..n] + r[n..];
    CountsAppend(r[..n], r[n..], v);
    CountLessBound(r[..n], v);
    NoneLess(r[n..], v);
    assert r == r[..n + 1] + r[n + 1..];
    CountsAppend(r[..n + 1], r[n + 1..], v);
    AllAtMost(r[..n + 1], v);
    CountsPermutation(s, r, v);
  }

  lemma {:induction false} CountsMonotone(s: seq<real>, x: real, y: real)
    requires y < x
    ensures CountAtMost(s, y) <= CountLess(s, x)
    decreases |s|
  {
    if s != [] {
      CountsMonotone(s[1..], x, y);
    }
  }

  /** Order statistics grow with their position; in particular each position has one. */
  lemma OrderStatMonotone(s: seq<real>, a: nat, x: real, b: nat, y: real)
    requires IsOrderStat(s, a, x) && IsOrderStat(s, b, y) && a <= b
    ensures x <= y
  {
    if y < x {
      CountsMonotone(s, x, y);
    }
  }

  /** The two selections of `get_treshold` keep the `nth_element` contract. */
  ghost predicate SelectsOrderStats(powers: seq<real>, nth: (seq<real>, nat) -> seq<real>)
  {
    var low, high := |powers| / 10, |powers| / 10 * 9;
    && IsNthElement(powers, low, nth(powers, low))
    && IsNthElement(nth(powers, low), high, nth(nth(powers, low), high))
  }

  /** What the two selections of `get_treshold` leave: the first puts the `size/10`-th
      order statistic at `low`, the second the `size/10*9`-th at `high`, and whatever the
      second leaves at `low` is no larger than that and no smaller than the least power. */
  lemma SelectedStats(powers: seq<real>, nth: (seq<real>, nat) -> seq<real>)
    requires |powers| >= 1 && SelectsOrderStats(powers, nth)
    ensures var low, high := |powers| / 10, |powers| / 10 * 9;
            var r1 := nth(powers, low);
            var r2 := nth(r1, high);
            && low <= high < |r1| && high < |r2|
            && r1[low] <= r2[high] && r2[low] <= r2[high]
            && (forall lo :: IsOrderStat(powers, low, lo) ==> lo == r1[low])
            && (forall hi :: IsOrderStat(powers, high, hi) ==> hi == r2[high])
            && (forall least :: IsOrderStat(powers, 0, least) ==> least <= r2[low])
  {
    var low, high := |powers| / 10, |powers| / 10 * 9;
    var r1 := nth(powers, low);
    var r2 := nth(r1, high);
    assert |r1| == |r2| by {
      assert |multiset(r1)| == |multiset(r2)|;
    }
    NthPlaced(powers, low, r1);
    NthPlaced(r1, high, r2);
    CountsPermutation(powers, r1, r2[high]);
    OrderStatMonotone(powers, low, r1[low], high, r2[high]);
    forall lo | IsOrderStat(powers, low, lo)
      ensures lo == r1[low]
    {
      OrderStatMonotone(powers, low, r1[low], low, lo);
      OrderStatMonotone(powers, low, lo, low, r1[low]);
    }
    forall hi | IsOrderStat(powers, high, hi)
      ensures hi == r2[high]
    {
      OrderStatMonotone(powers, high, r2[high], high, hi);
      OrderStatMonotone(powers, high, hi, high, r2[high]);
    }
    forall least | IsOrderStat(powers, 0, least)
      ensures least <= r2[low]
    {
      if r2[low] < least {
        RemoveAt(r2, low, least);
        CountsPermutation(powers, r2, least);
      }
    }
  }

  /** `get_treshold` as written (train.cpp:36-42): `*low` is read after the second
      `nth_element`, which may have moved another value to position `low`. The result
      still lies between the least power and the `size/10*9`-th order statistic. */
  function ThresholdAsWritten(powers: seq<real>, nth: (seq<real>, nat) -> seq<real>): (t: real)
    requires |powers| >= 1 && SelectsOrderStats(powers, nth)
    ensures forall least :: IsOrderStat(powers, 0, least) ==> least <= t
    ensures forall hi :: IsOrderStat(powers, |powers| / 10 * 9, hi) ==> t <= hi
  {
    SelectedStats(powers, nth);
    var low, high := |powers| / 10, |powers| / 10 * 9;
    var r2 := nth(nth(powers, low), high);
    r2[low] + (r2[high] - r2[low]) * 0.2
  }

  function Hundreds(n: nat): seq<real>
  {
    seq(n, _ => 100.0)
  }

  /** Ten powers whose 1st order statistic is 100. */
  function TenPowers(): seq<real>
  {
    [0.0] + Hundreds(8) + [110.0]
  }

  /** A result the contract of `nth_element` allows for position 9 of `TenPowers()`. */
  function TenPowersHighSelected(): seq<real>
  {
    [100.0, 0.0] + Hundreds(7) + [110.0]
  }

  /** A selector that answers the two calls of `get_treshold` on `TenPowers()`. */
  function TenPowersNth(x: seq<real>, n: nat): seq<real>
  {
    if n == 1 then TenPowers() else TenPowersHighSelected()
  }

  lemma TenPowersSelected()
    ensures IsNthElement(TenPowers(), 1, TenPowers())
    ensures IsNthElement(TenPowers(), 9, TenPowersHighSelected())
  {
    var s, r2 := TenPowers(), TenPowersHighSelected();
    assert |s| == 10 && s[1] == 100.0 && s[9] == 110.0;
    assert forall i :: 1 <= i < 9 ==> s[i] == 100.0;
    assert |r2| == 10 && r2[1] == 0.0 && r2[9] == 110.0;
    assert forall i :: 2 <= i < 9 ==> r2[i] == 100.0;
    assert Hundreds(8) == [100.0] + Hundreds(7);
    assert s == [0.0] + ([100.0] + Hundreds(7)) + [110.0];
    assert multiset(r2) == multiset(s);
  }

  /** On `TenPowers()` the second selection may leave `0` at position 1; the threshold
      as written then comes out at 22, below the low order statistic 100. */
  lemma ThresholdAsWrittenUndershoots()
    ensures SelectsOrderStats(TenPowers(), TenPowersNth)
    ensures IsOrderStat(TenPowers(), 1, 100.0)
    ensures ThresholdAsWritten(TenPowers(), TenPowersNth) == 22.0
  {
    TenPowersSelected();
    NthPlaced(TenPowers(), 1, TenPowers());
  }

  /** `get_treshold` reading `*low` before the second selection: the value 20% of the
      way from the `size/10`-th to the `size/10*9`-th order statistic, so between the
      two. */
  function Threshold(powers: seq<real>, nth: (seq<real>, nat) -> seq<real>): (t: real)
    requires |powers| >= 1 && SelectsOrderStats(powers, nth)
    ensures forall lo :: IsOrderStat(powers, |powers| / 10, lo) ==> lo <= t
    ensures forall hi :: IsOrderStat(powers, |powers| / 10 * 9, hi) ==> t <= hi
  {
    SelectedStats(powers, nth);
    var low, high := |powers| / 10, |powers| / 10 * 9;
    var r1 := nth(powers, low);
    var lo := r1[low];
    var r2 := nth(r1, high);
    lo + (r2[high] - lo) * 0.2
  }

  // ---------------------------------------------------------------- split

  function Sum(s: seq<real>): real
  {
    if s == [] then 0.0 else Sum(s[..|s| - 1]) + s[|s| - 1]
  }

  function Bit(b: bool): int
  {
    if b then 1 else 0
  }

  /** Loud frames among `loud[a..b)`. */
  function Count(loud: seq<bool>, a: nat, b: nat): (c: nat)
    requires a <= b <= |loud|
    ensures c <= b - a
    decreases b
  {
    if a == b then 0 else Count(loud, a, b - 1) + Bit(loud[b - 1])
  }

  lemma {:induction false} CountDropFirst(loud: seq<bool>, a: nat, b: nat)
    requires a < b <= |loud|
    ensures Count(loud, a, b) == Bit(loud[a]) + Count(loud, a + 1, b)
    decreases b
  {
    if a + 1 < b {
      CountDropFirst(loud, a, b - 1);
    }
  }

  /** `cur_sum` after iteration `i`: loud frames among the 100 ending 10 frames before
      `i`, less 100 for every loud frame among the last 10. */
  function Score(loud: seq<bool>, i: nat): int
    requires 109 <= i < |loud|
  {
    Count(loud, i - 109, i - 9) - 100 * Count(loud, i - 9, i + 1)
  }

  /** A score above 45 means at least 46 loud frames among the 100 and a silent last
      10 frames. */
  lemma CutIsLoud(loud: seq<bool>, i: nat)
    requires 109 <= i < |loud| && Score(loud, i) > 45
    ensures Count(loud, i - 9, i + 1) == 0 && Count(loud, i - 109, i - 9) >= 46
  {
  }

  /** The cut points from frame `i` on, the previous cut being at `last`: a frame is cut
      when its score exceeds 45 and it lies at least 70 frames after the previous cut. */
  function CutsFrom(loud: seq<bool>, i: nat, last: nat): seq<nat>
    requires 109 <= i
    decreases |loud| - i
  {
    if i >= |loud| then []
    else if Score(loud, i) > 45 && i - last >= 70 then [i] + CutsFrom(loud, i + 1, i)
    else CutsFrom(loud, i + 1, last)
  }

  /** Frame `c` of `[i, |loud|)` ends a loud stretch followed by 10 silent frames. */
  ghost predicate IsCut(loud: seq<bool>, c: nat, i: nat)
  {
    && 109 <= i <= c < |loud|
    && Count(loud, c - 9, c + 1) == 0
    && Count(loud, c - 109, c - 9) >= 46
  }

  /** Cut points `r` are cuts of `[i, |loud|)`, each at least 70 frames after the one
      before, the first at least 70 after `last`. */
  ghost predicate Spaced(loud: seq<bool>, r: seq<nat>, i: nat, last: nat)
  {
    && (forall k :: 0 <= k < |r| ==> IsCut(loud, r[k], i))
    && (|r| > 0 ==> r[0] >= last + 70)
    && (forall k :: 0 < k < |r| ==> r[k] >= r[k - 1] + 70)
  }

  lemma {:induction false} CutsSpaced(loud: seq<bool>, i: nat, last: nat)
    requires 109 <= i
    ensures Spaced(loud, CutsFrom(loud, i, last), i, last)
    decreases |loud| - i
  {
    if i < |loud| {
      var r := CutsFrom(loud, i, last);
      if Score(loud, i) > 45 && i - last >= 70 {
        var rest := CutsFrom(loud, i + 1, i);
        assert r == [i] + rest;
        CutsSpaced(loud, i + 1, i);
        CutIsLoud(loud, i);
        assert IsCut(loud, r[0], i);
        forall k | 0 < k < |r|
          ensures IsCut(loud, r[k], i) && r[k] >= r[k - 1] + 70
        {
          assert r[k] == rest[k - 1] && IsCut(loud, rest[k - 1], i + 1);
          if k > 1 {
            assert r[k - 1] == rest[k - 2];
          }
        }
      } else {
        assert r == CutsFrom(loud, i + 1, last);
        CutsSpaced(loud, i + 1, last);
      }
    }
  }

  /** A training sample cut from `spect[a..b)` (train.cpp:65-68): `b - a + 30` frames,
      the first `b - a` of them the bins `[3, 43)` of `spect[a..b)`, the rest zero. */
  function Segment(spect: seq<seq<real>>, a: nat, b: nat): (seg: seq<seq<real>>)
    requires a <= b <= |spect| && forall k :: 0 <= k < |spect| ==> |spect[k]| == FREQ_TO
    ensures |seg| == b - a + 30
    ensures forall j :: 0 <= j < b - a ==> seg[j] == spect[a + j][FREQ_FROM..FREQ_TO]
    ensures forall j :: b - a <= j < |seg| ==> seg[j] == ZeroFrame(FREQ_TO - FREQ_FROM)
  {
    seq(b - a + 30, j requires 0 <= j < b - a + 30 =>
      if j < b - a then spect[a + j][FREQ_FROM..FREQ_TO] else ZeroFrame(FREQ_TO - FREQ_FROM))
  }

  /** The first two loops of `split` (train.cpp:52-58). */
  method InitialSum(loud: seq<bool>) returns (cur: int)
    requires |loud| >= 110
    ensures cur == Count(loud, 0, 100) - 100 * Count(loud, 100, 110)
  {
    cur := 0;
    for i := 0 to 100
      invariant cur == Count(loud, 0, i)
    {
      cur := cur + Bit(loud[i]);
    }
    for i := 100 to 110
      invariant cur == Count(loud, 0, 100) - 100 * Count(loud, 100, i)
    {
      cur := cur - 100 * Bit(loud[i]);
    }
  }

  /** `segs` are the samples cut between consecutive points of `cuts`. */
  ghost predicate CutInto(spect: seq<seq<real>>, cuts: seq<nat>, segs: seq<seq<seq<real>>>)
  {
    && |cuts| == |segs| + 1
    && (forall k, l :: 0 <= k < l < |cuts| ==> cuts[k] <= cuts[l])
    && (forall k :: 0 <= k < |cuts| ==> cuts[k] <= |spect|)
    && (forall k :: 0 <= k < |spect| ==> |spect[k]| == FREQ_TO)
    && forall k :: 0 <= k < |segs| ==> segs[k] == Segment(spect, cuts[k], cuts[k + 1])
  }

  /** Cutting at a point `c` at or after the last one extends the cut. */
  lemma CutIntoAppend(spect: seq<seq<real>>, cuts: seq<nat>, segs: seq<seq<seq<real>>>, c: nat)
    requires CutInto(spect, cuts, segs) && cuts[|cuts| - 1] <= c <= |spect|
    ensures CutInto(spect, cuts + [c], segs + [Segment(spect, cuts[|cuts| - 1], c)])
  {
    var cuts', segs' := cuts + [c], segs + [Segment(spect, cuts[|cuts| - 1], c)];
    forall k, l | 0 <= k < l < |cuts'|
      ensures cuts'[k] <= cuts'[l]
    {
      if l == |cuts| {
        assert cuts'[k] == cuts[k] <= cuts[|cuts| - 1];
      }
    }
  }

  /** The cutting loop of `split` (train.cpp:59-71): `cur_sum` slides along the frames,
      and the samples cut are those between consecutive cut points of `CutsFrom`,
      starting at frame 0. */
  method CutSegments(spect: seq<seq<real>>, loud: seq<bool>, init: int)
      returns (segs: seq<seq<seq<real>>>, ghost cuts: seq<nat>)
    requires |loud| == |spect| >= 110 && forall k :: 0 <= k < |spect| ==> |spect[k]| == FREQ_TO
    requires init == Count(loud, 0, 100) - 100 * Count(loud, 100, 110)
    ensures cuts == [0] + CutsFrom(loud, 110, 0)
    ensures CutInto(spect, cuts, segs)
  {
    var cur := init;
    var last := 0;
    segs, cuts := [], [0];
    for i := 110 to |loud|
      invariant cur == Count(loud, i - 110, i - 10) - 100 * Count(loud, i - 10, i)
      invariant CutInto(spect, cuts, segs) && last == cuts[|cuts| - 1] <= i
      invariant cuts + CutsFrom(loud, i, last) == [0] + CutsFrom(loud, 110, 0)
    {
      ghost var before := cuts;
      SlideScore(loud, i, cur);
      cur := cur - 100 * Bit(loud[i]);
      cur := cur + 101 * Bit(loud[i - 10]);
      cur := cur - Bit(loud[i - 110]);
      if cur > 45 && i - last >= 70 {
        assert CutsFrom(loud, i, last) == [i] + CutsFrom(loud, i + 1, i);
        CutIntoAppend(spect, cuts, segs, i);
        segs := segs + [Segment(spect, last, i)];
        cuts := cuts + [i];
        assert cuts + CutsFrom(loud, i + 1, i) == before + CutsFrom(loud, i, last);
        last := i;
      } else {
        assert CutsFrom(loud, i, last) == CutsFrom(loud, i + 1, last);
      }
    }
  }

  /** One step of `cur_sum` (train.cpp:61-63) moves both counted windows one frame on. */
  lemma SlideScore(loud: seq<bool>, i: nat, cur: int)
    requires 110 <= i < |loud|
    requires cur == Count(loud, i - 110, i - 10) - 100 * Count(loud, i - 10, i)
    ensures cur - 100 * Bit(loud[i]) + 101 * Bit(loud[i - 10]) - Bit(loud[i - 110]) == Score(loud, i)
  {
    CountDropFirst(loud, i - 110, i - 9);
    CountDropFirst(loud, i - 10, i + 1);
  }

  /** The frames `split` computes: `|samples| / 64 - 1` frames, those the loop reaches
      holding the bins `[0, 43)` of their window and the rest still zero. */
  ghost function Spect(samples: seq<real>, mag: (seq<real>, nat) -> real): (spect: seq<seq<real>>)
    requires |samples| >= 64
    ensures |spect| == |samples| / 64 - 1 && forall k :: 0 <= k < |spect| ==> |spect[k]| == FREQ_TO
  {
    FramesAsWrittenFit(|samples|);
    seq(|samples| / 64 - 1, k requires 0 <= k < |samples| / 64 - 1 =>
      if k < FramesAsWritten(|samples|) then Bins(samples[64 * k..64 * k + WINDOW_SIZE], 0, FREQ_TO, mag) else ZeroFrame(FREQ_TO))
  }

  function Powers(spect: seq<seq<real>>): (powers: seq<real>)
    ensures |powers| == |spect| && forall k :: 0 <= k < |spect| ==> powers[k] == Sum(spect[k])
  {
    seq(|spect|, k requires 0 <= k < |spect| => Sum(spect[k]))
  }

  function Loud(powers: seq<real>, tres: real): (loud: seq<bool>)
    ensures |loud| == |powers| && forall k :: 0 <= k < |powers| ==> loud[k] == (powers[k] > tres)
  {
    seq(|powers|, k requires 0 <= k < |powers| => powers[k] > tres)
  }

  /** `split(samples, ans)` (train.cpp:44-72): the recording's frames are computed, the
      frames louder than the threshold of `get_treshold` as written marked, and one
      training sample per cut appended to `ans`. */
  method Split(samples: seq<real>, mag: (seq<real>, nat) -> real, nth: (seq<real>, nat) -> seq<real>,
               ans: seq<seq<seq<real>>>)
      returns (ans': seq<seq<seq<real>>>, ghost cuts: seq<nat>)
    requires |samples| / 64 - 1 >= 110 && IsSelector(nth)
    ensures var spect := Spect(samples, mag);
            var powers := Powers(spect);
            && SelectsOrderStats(powers, nth)
            && var loud := Loud(powers, ThresholdAsWritten(powers, nth));
            && cuts == [0] + CutsFrom(loud, 110, 0)
            && |ans| <= |ans'| && ans'[..|ans|] == ans && CutInto(spect, cuts, ans'[|ans|..])
  {
    var out := new seq<real>[|samples| / 64 - 1](_ => ZeroFrame(FREQ_TO));
    FramesAsWrittenFit(|samples|);
    Spectrogram(samples, 0, |samples|, 0, FREQ_TO, mag, out, 0);
    var spect := out[..];
    assert spect == Spect(samples, mag);
    var powers := Powers(spect);
    var low := |powers| / 10;
    assert IsNthElement(powers, low, nth(powers, low));
    assert |nth(powers, low)| == |powers| by {
      assert |multiset(nth(powers, low))| == |multiset(powers)|;
    }
    assert low * 9 < |powers|;
    assert IsNthElement(nth(powers, low), low * 9, nth(nth(powers, low), low * 9));
    var tres := ThresholdAsWritten(powers, nth);
    var loud := Loud(powers, tres);
    var cur := InitialSum(loud);
    var segs;
    segs, cuts := CutSegments(spect, loud, cur);
    ans' := ans + segs;
    assert ans'[|ans|..] == segs;
  }

  // ---------------------------------------------------------------- one training epoch

  /** One epoch of the training loop (train.cpp:143-145): an array with room for one loss
      per whole batch of `TRAIN_SERIES_LEN` examples, filled by `train_epoch(0, ...)` over
      the whole dataset. The shuffle before it is left to the caller. */
  method TrainingEpoch(net: AlinaNet.Net, r: AlinaNet.Rnn) returns (losses: array<Option<real>>)
    requires net.Valid() && AlinaNet.KeepsShape(r)
    modifies net
    ensures fresh(losses) && net.Valid() && net.dataset == old(net.dataset)
    ensures losses.Length == |net.dataset| / TRAIN_SERIES_LEN
    ensures losses[..] == AlinaNet.EpochLosses(r, old(net.weights), net.dataset, TRAIN_SERIES_LEN)
    ensures net.weights == AlinaNet.WeightsAfter(r, old(net.weights), net.dataset, TRAIN_SERIES_LEN)
  {
    var iters := |net.dataset| / TRAIN_SERIES_LEN;
    losses := new Option<real>[iters](_ => None);
    net.TrainEpoch(r, 0, TRAIN_SERIES_LEN, losses);
    assert net.dataset[..|net.dataset|] == net.dataset;
    assert losses[..] == losses[..iters];
  }
}
