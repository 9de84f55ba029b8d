/** The index structure of the radix-2 FFT in fft.hpp.

    `fft` applies the bit-reversal permutation in place and then runs the recursive
    `do_fft`, which transforms the two contiguous halves and combines each pair
    `(i, n/2 + i)` with a butterfly. The element type and the butterfly are parameters
    here: the complex arithmetic and the twiddle factor `w = w0^i` live inside `top` and
    `bottom`, which receive the level size `n` and the pair index `i`. */
module Fft {

  function Pow2(p: nat): (r: nat)
    ensures r >= 1
  {
    if p == 0 then 1 else 2 * Pow2(p - 1)
  }

  /** `n` is a power of two: halving it keeps it even down to 1. */
  predicate IsPow2(n: nat)
  {
    if n <= 1 then n == 1 else n % 2 == 0 && IsPow2(n / 2)
  }

  /** `std::countr_zero(n)`: the number of trailing zero bits of `n`. */
  function CountrZero(n: nat): (p: nat)
    requires n >= 1
    ensures IsPow2(n) ==> Pow2(p) == n
  {
    if n % 2 == 1 then 0 else 1 + CountrZero(n / 2)
  }

  /** `x >> i`: `i` halvings. */
  function Shr(x: nat, i: nat): nat
  {
    if i == 0 then x else Shr(x, i - 1) / 2
  }

  /** The low `p` bits of `x`, least significant first. */
  function Bits(x: nat, p: nat): (s: seq<bool>)
    ensures |s| == p
  {
    if p == 0 then [] else [x % 2 == 1] + Bits(x / 2, p - 1)
  }

  function BitValue(b: bool): nat
  {
    if b then 1 else 0
  }

  /** The number whose bits, least significant first, are `s`. */
  function FromBits(s: seq<bool>): nat
  {
    if s == [] then 0 else BitValue(s[0]) + 2 * FromBits(s[1..])
  }

  /** The number whose bits, most significant first, are `s`. */
  function FromBitsHighFirst(s: seq<bool>): nat
  {
    if s == [] then 0 else BitValue(s[0]) * Pow2(|s| - 1) + FromBitsHighFirst(s[1..])
  }

  function Reversed<T>(s: seq<T>): (r: seq<T>)
    ensures |r| == |s|
  {
    if s == [] then [] else Reversed(s[1..]) + [s[0]]
  }

  /** The `p`-bit reversal `rev` of fft.hpp: bit `i` of `x` moves to bit `p - 1 - i`. */
  function Reverse(x: nat, p: nat): nat
  {
    if p == 0 then 0 else (x % 2) * Pow2(p - 1) + Reverse(x / 2, p - 1)
  }

  /** `rev` as a loop (fft.hpp:33-39): `ans |= (x >> i & 1) << (p - 1 - i)` for
      `i < p`. Each step sets a bit below every bit set so far, so `|=` adds. */
  method Rev(x: nat, p: nat) returns (ans: nat)
    ensures ans == Reverse(x, p)
  {
    ans := 0;
    var i := 0;
    while i < p
      invariant i <= p
      invariant ans + Reverse(Shr(x, i), p - i) == Reverse(x, p)
    {
      ans := ans + (Shr(x, i) % 2) * Pow2(p - 1 - i);
      i := i + 1;
    }
  }

  lemma {:induction false} BitsRoundTrip(x: nat, p: nat)
    requires x < Pow2(p)
    ensures FromBits(Bits(x, p)) == x
    decreases p
  {
    if p > 0 {
      BitsRoundTrip(x / 2, p - 1);
    }
  }

  lemma {:induction false} FromBitsRoundTrip(s: seq<bool>)
    ensures Bits(FromBits(s), |s|) == s
    decreases |s|
  {
    if s != [] {
      var b, y := BitValue(s[0]), FromBits(s[1..]);
      HalveEven(b, y);
      FromBitsRoundTrip(s[1..]);
      assert Bits(b + 2 * y, |s|) == [s[0]] + s[1..];
    }
  }

  lemma HalveEven(b: nat, y: nat)
    requires b < 2
    ensures (b + 2 * y) % 2 == b && (b + 2 * y) / 2 == y
  {
  }

  lemma {:induction false} FromBitsAppend(s: seq<bool>, b: bool)
    ensures FromBits(s + [b]) == FromBits(s) + BitValue(b) * Pow2(|s|)
    decreases |s|
  {
    if s != [] {
      assert (s + [b])[1..] == s[1..] + [b];
      FromBitsAppend(s[1..], b);
    }
  }

  lemma {:induction false} HighFirstIsReversed(s: seq<bool>)
    ensures FromBitsHighFirst(s) == FromBits(Reversed(s))
    decreases |s|
  {
    if s != [] {
      HighFirstIsReversed(s[1..]);
      FromBitsAppend(Reversed(s[1..]), s[0]);
    }
  }

  lemma {:induction false} ReverseIsHighFirst(x: nat, p: nat)
    ensures Reverse(x, p) == FromBitsHighFirst(Bits(x, p))
    decreases p
  {
    if p > 0 {
      ReverseIsHighFirst(x / 2, p - 1);
      assert Bits(x, p)[1..] == Bits(x / 2, p - 1);
    }
  }

  lemma {:induction false} ReversedTwice<T>(s: seq<T>)
    ensures Reversed(Reversed(s)) == s
    decreases |s|
  {
    if s != [] {
      ReversedAppend(Reversed(s[1..]), s[0]);
      ReversedTwice(s[1..]);
    }
  }

  lemma {:induction false} ReversedAppend<T>(s: seq<T>, x: T)
    ensures Reversed(s + [x]) == [x] + Reversed(s)
    decreases |s|
  {
    if s != [] {
      assert (s + [x])[1..] == s[1..] + [x];
      ReversedAppend(s[1..], x);
    }
  }

  /** The bit reversal in terms of bit strings: the bits of `x`, reversed. */
  lemma ReverseBits(x: nat, p: nat)
    ensures Reverse(x, p) == FromBits(Reversed(Bits(x, p)))
  {
    ReverseIsHighFirst(x, p);
    HighFirstIsReversed(Bits(x, p));
  }

  /** `rev(x) < 2^p`: the reversal of a `p`-bit index is a `p`-bit index. */
  lemma {:induction false} ReverseBound(x: nat, p: nat)
    ensures Reverse(x, p) < Pow2(p)
    decreases p
  {
    if p > 0 {
      ReverseBound(x / 2, p - 1);
    }
  }

  /** `rev(rev(x)) == x` for every `p`-bit `x`. */
  lemma ReverseInvolution(x: nat, p: nat)
    requires x < Pow2(p)
    ensures Reverse(Reverse(x, p), p) == x
  {
    var b := Bits(x, p);
    ReverseBits(x, p);
    ReverseBits(Reverse(x, p), p);
    FromBitsRoundTrip(Reversed(b));
    ReversedTwice(b);
    BitsRoundTrip(x, p);
  }

  /** The bit-reversal permutation of a sequence of `2^p` elements. */
  function BitReversed<T>(s: seq<T>, p: nat): (r: seq<T>)
    requires |s| == Pow2(p)
    ensures |r| == |s|
    ensures forall k :: 0 <= k < |s| ==> Reverse(k, p) < |s| && r[k] == s[Reverse(k, p)]
  {
    ReverseBoundAll(p);
    seq(|s|, k requires 0 <= k < |s| => s[Reverse(k, p)])
  }

  lemma ReverseBoundAll(p: nat)
    ensures forall x :: Reverse(x, p) < Pow2(p)
  {
    forall x {
      ReverseBound(x, p);
    }
  }

  /** The permutation is its own inverse. */
  lemma BitReversedTwice<T>(s: seq<T>, p: nat)
    requires |s| == Pow2(p)
    ensures BitReversed(BitReversed(s, p), p) == s
  {
    var t := BitReversed(BitReversed(s, p), p);
    forall k | 0 <= k < |s|
      ensures t[k] == s[k]
    {
      ReverseInvolution(k, p);
    }
  }

  /** The swap loop of `fft` (fft.hpp:40-45): for each `i`, swaps `a[i]` with
      `a[rev(i)]` when `rev(i) > i`, so every pair is exchanged exactly once. */
  method BitReversePermute<T>(a: array<T>, p: nat)
    requires a.Length == Pow2(p)
    modifies a
    ensures a[..] == BitReversed(old(a[..]), p)
  {
    var n := a.Length;
    ghost var o := a[..];
    ghost var rev := seq(n, k requires 0 <= k < n => Reverse(k, p));
    forall k | 0 <= k < n
      ensures rev[k] < n && rev[rev[k]] == k
    {
      ReverseBound(k, p);
      ReverseInvolution(k, p);
    }
    var i := 0;
    while i < n
      invariant i <= n
      invariant forall k :: 0 <= k < n ==> a[k] == o[if k < i || rev[k] < i then rev[k] else k]
    {
      var r := Rev(i, p);
      assert r == rev[i];
      if r > i {
        assert a[i] == o[i] && a[r] == o[r] && rev[r] == i;
        a[i], a[r] := a[r], a[i];
      }
      i := i + 1;
    }
    assert forall k :: 0 <= k < n ==> a[k] == o[rev[k]];
  }

  /** Element `k` of the transform `do_fft` computes on the `2^m` elements of `s` from
      `off`: the transforms of the two contiguous halves, combined pairwise; index
      `i < n/2` gets `top(n, i, x, y)` and index `n/2 + i` gets `bottom(n, i, x, y)`,
      where `x` and `y` are element `i` of the two half transforms. A single element is
      left as it is. */
  function FftAt<T>(s: seq<T>, off: nat, m: nat, k: nat, top: (nat, nat, T, T) -> T, bottom: (nat, nat, T, T) -> T): T
    requires off + Pow2(m) <= |s| && k < Pow2(m)
    decreases m
  {
    if m == 0 then s[off]
    else
      var h := Pow2(m - 1);
      if k < h then top(2 * h, k, FftAt(s, off, m - 1, k, top, bottom), FftAt(s, off + h, m - 1, k, top, bottom))
      else bottom(2 * h, k - h, FftAt(s, off, m - 1, k - h, top, bottom), FftAt(s, off + h, m - 1, k - h, top, bottom))
  }

  /** The transform of a segment depends on that segment only. */
  lemma {:induction false} FftAtLocal<T>(s1: seq<T>, s2: seq<T>, off: nat, m: nat, k: nat,
                                         top: (nat, nat, T, T) -> T, bottom: (nat, nat, T, T) -> T)
    requires off + Pow2(m) <= |s1| && off + Pow2(m) <= |s2| && k < Pow2(m)
    requires forall i :: off <= i < off + Pow2(m) ==> s1[i] == s2[i]
    ensures FftAt(s1, off, m, k, top, bottom) == FftAt(s2, off, m, k, top, bottom)
    decreases m
  {
    if m > 0 {
      var h := Pow2(m - 1);
      var k' := if k < h then k else k - h;
      FftAtLocal(s1, s2, off, m - 1, k', top, bottom);
      FftAtLocal(s1, s2, off + h, m - 1, k', top, bottom);
    }
  }

  /** The array after the first `i` steps of the butterfly loop over `o[lo..lo+2h)`:
      step `k` reads the pair `(lo + k, lo + h + k)` and overwrites both. */
  function Pass<T>(o: seq<T>, lo: nat, h: nat, i: nat, top: (nat, nat, T, T) -> T, bottom: (nat, nat, T, T) -> T): (r: seq<T>)
    requires i <= h && lo + 2 * h <= |o|
    ensures |r| == |o|
    decreases i
  {
    if i == 0 then o
    else
      var p := Pass(o, lo, h, i - 1, top, bottom);
      var x, y := p[lo + i - 1], p[lo + h + i - 1];
      p[lo + i - 1 := top(2 * h, i - 1, x, y)][lo + h + i - 1 := bottom(2 * h, i - 1, x, y)]
  }

  /** After `i` steps, each pair `k < i` holds its butterfly of the original values and
      every other element is untouched: no element is written twice and none outside
      the segment is written. */
  lemma {:induction false} PassAt<T>(o: seq<T>, lo: nat, h: nat, i: nat, j: nat,
                                     top: (nat, nat, T, T) -> T, bottom: (nat, nat, T, T) -> T)
    requires i <= h && lo + 2 * h <= |o| && j < |o|
    ensures Pass(o, lo, h, i, top, bottom)[j] ==
              if lo <= j < lo + i then top(2 * h, j - lo, o[j], o[j + h])
              else if lo + h <= j < lo + h + i then bottom(2 * h, j - lo - h, o[j - h], o[j])
              else o[j]
    decreases i
  {
    if i > 0 {
      PassAt(o, lo, h, i - 1, j, top, bottom);
      PassAt(o, lo, h, i - 1, lo + i - 1, top, bottom);
      PassAt(o, lo, h, i - 1, lo + h + i - 1, top, bottom);
    }
  }

  /** The butterfly loop of `do_fft` (fft.hpp:18-26) on `a[lo..lo+n)`, with the
      twiddle `w = w0^i` folded into `top` and `bottom`. */
  method Butterflies<T>(a: array<T>, lo: nat, n: nat, top: (nat, nat, T, T) -> T, bottom: (nat, nat, T, T) -> T)
    requires n % 2 == 0 && lo + n <= a.Length
    modifies a
    ensures a[..] == Pass(old(a[..]), lo, n / 2, n / 2, top, bottom)
  {
    var h := n / 2;
    assert 2 * h == n;
    ghost var o := a[..];
    var i := 0;
    while i < h
      invariant i <= h
      invariant a[..] == Pass(o, lo, h, i, top, bottom)
    {
      var x := a[lo + i];
      var y := a[lo + h + i];
      ghost var before := a[..];
      a[lo + i] := top(n, i, x, y);
      a[lo + h + i] := bottom(n, i, x, y);
      assert a[..] == before[lo + i := top(n, i, x, y)][lo + h + i := bottom(n, i, x, y)];
      i := i + 1;
    }
  }

  /** Element `j` of the array `s` after its segment `[lo, lo + 2^m)` has been replaced
      by the transform of that segment. */
  function LevelElem<T>(s: seq<T>, lo: nat, m: nat, j: nat, top: (nat, nat, T, T) -> T, bottom: (nat, nat, T, T) -> T): T
    requires lo + Pow2(m) <= |s| && j < |s|
  {
    if lo <= j < lo + Pow2(m) then FftAt(s, lo, m, j - lo, top, bottom) else s[j]
  }

  /** `r` is `s` with its segment `[lo, lo + 2^m)` transformed and everything else
      unchanged. */
  ghost predicate IsLevel<T>(r: seq<T>, s: seq<T>, lo: nat, m: nat, top: (nat, nat, T, T) -> T, bottom: (nat, nat, T, T) -> T)
    requires lo + Pow2(m) <= |s|
  {
    |r| == |s| && forall j :: 0 <= j < |s| ==> r[j] == LevelElem(s, lo, m, j, top, bottom)
  }

  /** One level of `do_fft`: transforming the first half of the segment (`a1`), then
      the second half (`a2`), then running the butterfly pass transforms the whole
      segment. */
  lemma LevelStep<T>(s: seq<T>, a1: seq<T>, a2: seq<T>, lo: nat, m: nat, top: (nat, nat, T, T) -> T, bottom: (nat, nat, T, T) -> T)
    requires 1 <= m && lo + Pow2(m) <= |s|
    requires IsLevel(a1, s, lo, m - 1, top, bottom)
    requires IsLevel(a2, a1, lo + Pow2(m - 1), m - 1, top, bottom)
    ensures IsLevel(Pass(a2, lo, Pow2(m - 1), Pow2(m - 1), top, bottom), s, lo, m, top, bottom)
  {
    var h := Pow2(m - 1);
    assert Pow2(m) == 2 * h;
    var r := Pass(a2, lo, h, h, top, bottom);
    forall j | 0 <= j < |s|
      ensures r[j] == LevelElem(s, lo, m, j, top, bottom)
    {
      if lo <= j < lo + h {
        HalvesAt(s, a1, a2, lo, m, j - lo, top, bottom);
        ButterflyTop(a2, s, lo, m, h, j - lo, top, bottom);
      } else if lo + h <= j < lo + 2 * h {
        HalvesAt(s, a1, a2, lo, m, j - lo - h, top, bottom);
        ButterflyBottom(a2, s, lo, m, h, j - lo - h, top, bottom);
      } else {
        assert a2[j] == LevelElem(a1, lo + h, m - 1, j, top, bottom) == a1[j];
        assert a1[j] == LevelElem(s, lo, m - 1, j, top, bottom) == s[j];
        PassAt(a2, lo, h, h, j, top, bottom);
      }
    }
  }

  /** After both halves are transformed, positions `lo + k` and `lo + h + k` hold
      element `k` of the transforms of the two halves of the original segment. */
  lemma HalvesAt<T>(s: seq<T>, a1: seq<T>, a2: seq<T>, lo: nat, m: nat, k: nat, top: (nat, nat, T, T) -> T, bottom: (nat, nat, T, T) -> T)
    requires 1 <= m && lo + Pow2(m) <= |s| && k < Pow2(m - 1)
    requires IsLevel(a1, s, lo, m - 1, top, bottom)
    requires IsLevel(a2, a1, lo + Pow2(m - 1), m - 1, top, bottom)
    ensures a2[lo + k] == FftAt(s, lo, m - 1, k, top, bottom)
    ensures a2[lo + Pow2(m - 1) + k] == FftAt(s, lo + Pow2(m - 1), m - 1, k, top, bottom)
  {
    var h := Pow2(m - 1);
    assert Pow2(m) == 2 * h;
    assert a2[lo + k] == LevelElem(a1, lo + h, m - 1, lo + k, top, bottom);
    assert a1[lo + k] == LevelElem(s, lo, m - 1, lo + k, top, bottom);
    forall i | lo + h <= i < lo + 2 * h
      ensures a1[i] == s[i]
    {
      assert a1[i] == LevelElem(s, lo, m - 1, i, top, bottom);
    }
    FftAtLocal(a1, s, lo + h, m - 1, k, top, bottom);
    assert a2[lo + h + k] == LevelElem(a1, lo + h, m - 1, lo + h + k, top, bottom);
  }

  /** Once positions `lo + k` and `lo + h + k` hold element `k` of the two half
      transforms (`h = 2^(m-1)`), the butterfly pass leaves element `k` of the whole
      transform at `lo + k`... */
  lemma ButterflyTop<T>(a2: seq<T>, s: seq<T>, lo: nat, m: nat, h: nat, k: nat, top: (nat, nat, T, T) -> T, bottom: (nat, nat, T, T) -> T)
    requires 1 <= m && h == Pow2(m - 1) && lo + 2 * h <= |s| == |a2| && k < h
    requires a2[lo + k] == FftAt(s, lo, m - 1, k, top, bottom)
    requires a2[lo + h + k] == FftAt(s, lo + h, m - 1, k, top, bottom)
    ensures Pass(a2, lo, h, h, top, bottom)[lo + k] == LevelElem(s, lo, m, lo + k, top, bottom)
  {
    PassTopAt(a2, lo, h, k, top, bottom);
    FftAtTop(s, lo, m, k, top, bottom);
    LevelElemIn(s, lo, m, k, top, bottom);
  }

  /** ... and element `h + k` at `lo + h + k`. */
  lemma ButterflyBottom<T>(a2: seq<T>, s: seq<T>, lo: nat, m: nat, h: nat, k: nat, top: (nat, nat, T, T) -> T, bottom: (nat, nat, T, T) -> T)
    requires 1 <= m && h == Pow2(m - 1) && lo + 2 * h <= |s| == |a2| && k < h
    requires a2[lo + k] == FftAt(s, lo, m - 1, k, top, bottom)
    requires a2[lo + h + k] == FftAt(s, lo + h, m - 1, k, top, bottom)
    ensures Pass(a2, lo, h, h, top, bottom)[lo + h + k] == LevelElem(s, lo, m, lo + h + k, top, bottom)
  {
    PassBottomAt(a2, lo, h, k, top, bottom);
    FftAtBottom(s, lo, m, k, top, bottom);
    LevelElemBottom(s, lo, m, k, top, bottom);
  }

  lemma FftAtTop<T>(s: seq<T>, lo: nat, m: nat, k: nat, top: (nat, nat, T, T) -> T, bottom: (nat, nat, T, T) -> T)
    requires 1 <= m && lo + Pow2(m) <= |s| && k < Pow2(m - 1)
    ensures FftAt(s, lo, m, k, top, bottom) ==
            top(2 * Pow2(m - 1), k, FftAt(s, lo, m - 1, k, top, bottom), FftAt(s, lo + Pow2(m - 1), m - 1, k, top, bottom))
  {
  }

  lemma FftAtBottom<T>(s: seq<T>, lo: nat, m: nat, k: nat, top: (nat, nat, T, T) -> T, bottom: (nat, nat, T, T) -> T)
    requires 1 <= m && lo + Pow2(m) <= |s| && k < Pow2(m - 1)
    ensures FftAt(s, lo, m, Pow2(m - 1) + k, top, bottom) ==
            bottom(2 * Pow2(m - 1), k, FftAt(s, lo, m - 1, k, top, bottom), FftAt(s, lo + Pow2(m - 1), m - 1, k, top, bottom))
  {
  }

  lemma LevelElemBottom<T>(s: seq<T>, lo: nat, m: nat, k: nat, top: (nat, nat, T, T) -> T, bottom: (nat, nat, T, T) -> T)
    requires 1 <= m && lo + Pow2(m) <= |s| && k < Pow2(m - 1)
    ensures LevelElem(s, lo, m, lo + Pow2(m - 1) + k, top, bottom) == FftAt(s, lo, m, Pow2(m - 1) + k, top, bottom)
  {
  }

  lemma PassTopAt<T>(o: seq<T>, lo: nat, h: nat, k: nat, top: (nat, nat, T, T) -> T, bottom: (nat, nat, T, T) -> T)
    requires lo + 2 * h <= |o| && k < h
    ensures Pass(o, lo, h, h, top, bottom)[lo + k] == top(2 * h, k, o[lo + k], o[lo + h + k])
  {
    PassAt(o, lo, h, h, lo + k, top, bottom);
  }

  lemma PassBottomAt<T>(o: seq<T>, lo: nat, h: nat, k: nat, top: (nat, nat, T, T) -> T, bottom: (nat, nat, T, T) -> T)
    requires lo + 2 * h <= |o| && k < h
    ensures Pass(o, lo, h, h, top, bottom)[lo + h + k] == bottom(2 * h, k, o[lo + k], o[lo + h + k])
  {
    PassAt(o, lo, h, h, lo + h + k, top, bottom);
  }

  lemma LevelElemIn<T>(s: seq<T>, lo: nat, m: nat, k: nat, top: (nat, nat, T, T) -> T, bottom: (nat, nat, T, T) -> T)
    requires lo + Pow2(m) <= |s| && k < Pow2(m)
    ensures LevelElem(s, lo, m, lo + k, top, bottom) == FftAt(s, lo, m, k, top, bottom)
  {
  }

  /** `do_fft<n>` (fft.hpp:10-28) on the segment `a[lo..lo+n)` with `n = 2^m`: returns
      at once for `n == 1`, otherwise transforms the halves `[lo, lo+n/2)` and
      `[lo+n/2, lo+n)` in place and runs the butterfly pass; nothing outside the
      segment changes. */
  method DoFft<T>(a: array<T>, lo: nat, n: nat, ghost m: nat, top: (nat, nat, T, T) -> T, bottom: (nat, nat, T, T) -> T)
    requires n == Pow2(m) && lo + n <= a.Length
    modifies a
    ensures IsLevel(a[..], old(a[..]), lo, m, top, bottom)
    decreases m
  {
    ghost var s := a[..];
    if n == 1 {
      assert m == 0;
      forall j | 0 <= j < a.Length
        ensures a[..][j] == LevelElem(s, lo, 0, j, top, bottom)
      {
      }
      return;
    }
    var h := n / 2;
    assert h == Pow2(m - 1);
    DoFft(a, lo, h, m - 1, top, bottom);
    ghost var a1 := a[..];
    DoFft(a, lo + h, h, m - 1, top, bottom);
    ghost var a2 := a[..];
    Butterflies(a, lo, n, top, bottom);
    LevelStep(s, a1, a2, lo, m, top, bottom);
  }

  /** `fft<n>` (fft.hpp:30-47): `p = countr_zero(n)`, the bit-reversal swap loop, then
      `do_fft` on the whole array: element `j` of the result is element `j` of the
      transform of the bit-reversed input. */
  method Transform<T>(a: array<T>, top: (nat, nat, T, T) -> T, bottom: (nat, nat, T, T) -> T)
    requires IsPow2(a.Length)
    modifies a
    ensures var p := CountrZero(a.Length);
            forall j :: 0 <= j < a.Length ==> a[j] == FftAt(BitReversed(old(a[..]), p), 0, p, j, top, bottom)
  {
    var p := CountrZero(a.Length);
    BitReversePermute(a, p);
    ghost var s := a[..];
    DoFft(a, 0, a.Length, p, top, bottom);
    forall j | 0 <= j < a.Length
      ensures a[j] == FftAt(s, 0, p, j, top, bottom)
    {
      assert a[..][j] == LevelElem(s, 0, p, j, top, bottom);
    }
  }
}
