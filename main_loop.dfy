/** The bookkeeping of the listener's `main` (main.cpp): skill discovery, the sliding
    128-sample window the detector reads, the `sr_offset` counter through which the
    detector hands audio history to the speech recogniser, the detection step, and the
    dispatch of a recognised phrase to the skills.

    The detector and the recogniser run on two threads in the source; here their
    interaction is sequential: the detector's hops run while the recogniser waits for
    history, and a number `lag` of them run while it is busy with a chunk. The
    recogniser is a function `accept` of all the audio fed to it so far; the network's
    score of a window is the parameter `res` of `Detect`. */
module MainLoop {
  import opened Wrappers
  import opened Arith
  import opened SoundReader
  import opened Skills

  const BUFFER_SIZE: nat := 64000
  /** 1.5 seconds of 16 kHz audio kept for the recogniser. */
  const HISTORY_LEN: nat := 24000
  /** The recogniser is woken once this many samples of history are waiting. */
  const MAX_SR_CHUNK: nat := 8000
  const WINDOW: nat := 128
  const HOP: nat := 64
  /** Ten seconds of audio: the longest phrase the recogniser is fed. */
  const MAX_PHRASE_LEN: nat := 160000
  /** The wake word "алина" as the ten bytes of its UTF-8 encoding; a `char` of a
      transcript is one byte of the recogniser's UTF-8 output. */
  const KEYWORD: seq<char> :=
    ['\U{D0}', '\U{B0}', '\U{D0}', '\U{BB}', '\U{D0}', '\U{B8}', '\U{D0}', '\U{BD}', '\U{D0}', '\U{B0}']

  // ---------------------------------------------------------------- skill discovery

  predicate IsRe(name: seq<char>)
  {
    |name| >= 3 && name[|name| - 3..] == ".re"
  }

  /** The skill a listed file yields (main.cpp:58-67): for `b.re`, a `FileSkill` running
      `skills/b` when `b` is listed, otherwise a `SoSkill` loading `skills/b.so` when
      `b.so` is listed, otherwise none; the expression is the one `expressionOf` reads
      from the `.re` file. */
  function SkillFor(name: seq<char>, files: seq<seq<char>>, expressionOf: seq<char> -> Matcher): (r: Option<Skill>)
    ensures r.Some? <==> IsRe(name) && (name[..|name| - 3] in files || name[..|name| - 3] + ".so" in files)
    ensures r.Some? ==> r.value.re == expressionOf(name)
    ensures r.Some? ==> (r.value.FileSkill? <==> name[..|name| - 3] in files)
    ensures r.Some? && r.value.FileSkill? ==> r.value.path == "skills/" + name[..|name| - 3]
    ensures r.Some? && r.value.SoSkill? ==> r.value.path == "skills/" + name[..|name| - 3] + ".so"
  {
    if IsRe(name) then
      var base := name[..|name| - 3];
      if base in files then Some(FileSkill(expressionOf(name), "skills/" + base))
      else if base + ".so" in files then Some(SoSkill(expressionOf(name), "skills/" + base + ".so"))
      else None
    else None
  }

  /** The values `f` yields on `xs`, in the order of `xs`. */
  ghost function FilterMap<A, B>(xs: seq<A>, f: A -> Option<B>): seq<B>
  {
    if xs == [] then []
    else FilterMap(xs[..|xs| - 1], f) + if f(xs[|xs| - 1]).Some? then [f(xs[|xs| - 1]).value] else []
  }

  /** The positions in `xs` at which `f` yields a value, in order. */
  ghost function Kept<A, B>(xs: seq<A>, f: A -> Option<B>): seq<nat>
  {
    if xs == [] then []
    else Kept(xs[..|xs| - 1], f) + if f(xs[|xs| - 1]).Some? then [|xs| - 1] else []
  }

  /** `FilterMap` keeps exactly the elements on which `f` yields a value, in order: its
      `k`-th value comes from the `k`-th such position, and no other position
      contributes. */
  lemma {:induction false} FilterMapKeeps<A, B>(xs: seq<A>, f: A -> Option<B>)
    ensures |Kept(xs, f)| == |FilterMap(xs, f)|
    ensures forall k :: 0 <= k < |Kept(xs, f)| ==>
              Kept(xs, f)[k] < |xs| && f(xs[Kept(xs, f)[k]]) == Some(FilterMap(xs, f)[k])
    ensures forall k, l :: 0 <= k < l < |Kept(xs, f)| ==> Kept(xs, f)[k] < Kept(xs, f)[l]
    ensures forall j :: 0 <= j < |xs| ==> (f(xs[j]).Some? <==> j in Kept(xs, f))
    decreases |xs|
  {
    if xs != [] {
      var init := xs[..|xs| - 1];
      FilterMapKeeps(init, f);
      assert forall j :: 0 <= j < |init| ==> xs[j] == init[j];
    }
  }

  /** Skill discovery (main.cpp:56-69) over the directory listing `files` in sorted
      order; `binary_search` on the sorted listing is membership. */
  method DiscoverSkills(files: seq<seq<char>>, expressionOf: seq<char> -> Matcher) returns (skills: seq<Skill>)
    ensures skills == FilterMap(files, name => SkillFor(name, files, expressionOf))
  {
    ghost var skillOf := name => SkillFor(name, files, expressionOf);
    skills := [];
    for i := 0 to |files|
      invariant skills == FilterMap(files[..i], skillOf)
    {
      var x := files[i];
      assert files[..i + 1][..i] == files[..i];
      if |x| >= 3 && x[|x| - 3..] == ".re" {
        var base := x[..|x| - 3];
        if base in files {
          skills := skills + [FileSkill(expressionOf(x), "skills/" + base)];
        } else if base + ".so" in files {
          skills := skills + [SoSkill(expressionOf(x), "skills/" + base + ".so")];
        }
      }
    }
    assert files[..|files|] == files;
  }

  // ---------------------------------------------------------------- the window

  /** A sample divided by the largest `int16_t` (main.cpp:112, 131), over the reals:
      `32767` becomes `1` and the most negative sample lands just below `-1`. */
  function Scale(x: int16): (s: real)
    ensures s * 32767.0 == x as real
    ensures -1.0 - 1.0 / 32767.0 <= s <= 1.0
    ensures x == -0x8000 <==> s < -1.0
  {
    x as real / 32767.0
  }

  /** The configuration of the listener's buffer (main.cpp:41). */
  ghost predicate Listening(buf: SoundBuffer)
    reads buf, buf.buffer
  {
    buf.Valid() && buf.size == BUFFER_SIZE && buf.history == HISTORY_LEN
  }

  /** One turn of the fill loops (main.cpp:110-114, 124, 130-133): `get_samples(want)`
      and the copy of the chunk it returns into `window[i..]`. The chunk holds between
      1 and `want` samples, the next ones in capture order. */
  method TakeChunk(buf: SoundBuffer, window: array<real>, i: nat, want: nat) returns (n: nat)
    requires Listening(buf) && window.Length == WINDOW && 1 <= want && i + want <= WINDOW
    modifies buf, buf.buffer, window
    ensures Listening(buf)
    ensures 1 <= n <= want
    ensures old(buf.past) <= buf.past && |buf.past| == |old(buf.past)| + n
    ensures forall t :: 0 <= t < WINDOW && !(i <= t < i + n) ==> window[t] == old(window[t])
    ensures forall t :: i <= t < i + n ==> window[t] == Scale(buf.past[|old(buf.past)| + t - i])
  {
    var ok, chunk := buf.GetSamples(want);
    n := chunk.len;
    var j := 0;
    while j < n
      modifies window
      invariant j <= n
      invariant forall t :: 0 <= t < WINDOW && !(i <= t < i + j) ==> window[t] == old(window[t])
      invariant forall t :: i <= t < i + j ==> window[t] == Scale(buf.buffer[chunk.offset + t - i])
    {
      window[i + j] := Scale(buf.buffer[chunk.offset + j]);
      j := j + 1;
    }
  }

  /** The initial fill (main.cpp:108-115): the window holds the next 128 samples in
      capture order. */
  method FillWindow(buf: SoundBuffer, window: array<real>)
    requires Listening(buf) && window.Length == WINDOW
    modifies buf, buf.buffer, window
    ensures Listening(buf)
    ensures old(buf.past) <= buf.past && |buf.past| == |old(buf.past)| + WINDOW
    ensures forall t :: 0 <= t < WINDOW ==> window[t] == Scale(buf.past[|old(buf.past)| + t])
  {
    ghost var p0 := |buf.past|;
    var i := 0;
    while i < WINDOW
      invariant i <= WINDOW && Listening(buf)
      invariant old(buf.past) <= buf.past && |buf.past| == p0 + i
      invariant forall t :: 0 <= t < i ==> window[t] == Scale(buf.past[p0 + t])
      decreases WINDOW - i
    {
      ghost var before := buf.past;
      var n := TakeChunk(buf, window, i, WINDOW - i);
      assert before <= buf.past;
      i := i + n;
    }
  }

  /** One hop of the detector (main.cpp:121-134): the upper half of the window moves to
      the lower half, and the upper half receives the next 64 samples in capture order.
      Every chunk taken adds to `sr_offset`, clamped at `HISTORY_LEN`; the recogniser is
      notified after a chunk that leaves at least `MAX_SR_CHUNK` samples waiting. */
  method Hop(buf: SoundBuffer, window: array<real>, sr: nat) returns (sr': nat, notified: bool)
    requires Listening(buf) && window.Length == WINDOW && sr <= HISTORY_LEN
    modifies buf, buf.buffer, window
    ensures Listening(buf)
    ensures old(buf.past) <= buf.past && |buf.past| == |old(buf.past)| + HOP
    ensures forall t :: 0 <= t < HOP ==> window[t] == old(window[t + HOP])
    ensures forall t :: HOP <= t < WINDOW ==> window[t] == Scale(buf.past[|old(buf.past)| + t - HOP])
    ensures sr' == Min(HISTORY_LEN, sr + HOP)
    ensures notified == (sr' >= MAX_SR_CHUNK)
  {
    var k := 0;
    while k < HOP
      modifies window
      invariant k <= HOP
      invariant forall t :: 0 <= t < k ==> window[t] == old(window[t + HOP])
      invariant forall t :: k <= t < WINDOW ==> window[t] == old(window[t])
    {
      window[k] := window[k + HOP];
      k := k + 1;
    }
    sr', notified := sr, false;
    ghost var p0 := |buf.past|;
    var i := HOP;
    while i < WINDOW
      invariant HOP <= i <= WINDOW && Listening(buf)
      invariant old(buf.past) <= buf.past && |buf.past| == p0 + i - HOP
      invariant forall t :: 0 <= t < HOP ==> window[t] == old(window[t + HOP])
      invariant forall t :: HOP <= t < i ==> window[t] == Scale(buf.past[p0 + t - HOP])
      invariant sr' == Min(HISTORY_LEN, sr + (i - HOP))
      invariant notified == (i > HOP && sr' >= MAX_SR_CHUNK)
      decreases WINDOW - i
    {
      ghost var before := buf.past;
      var n := TakeChunk(buf, window, i, WINDOW - i);
      assert before <= buf.past;
      sr' := Min(HISTORY_LEN, sr' + n);
      if sr' >= MAX_SR_CHUNK {
        notified := true;
      }
      i := i + n;
    }
  }

  // ---------------------------------------------------------------- detection

  /** The detection step (main.cpp:160-167): the state becomes `res > threshold`; the
      recogniser is notified on every hop in that state, and the recurrent state `h` is
      cleared exactly on a fall from true to false. */
  method Detect(res: real, threshold: real, prevState: bool, h: array<real>) returns (state: bool, notify: bool)
    modifies h
    ensures state == (res > threshold) && notify == state
    ensures prevState && !state ==> forall k :: 0 <= k < h.Length ==> h[k] == 0.0
    ensures !(prevState && !state) ==> h[..] == old(h[..])
  {
    state := res > threshold;
    notify := false;
    if state {
      notify := true;
    } else if prevState {
      var k := 0;
      while k < h.Length
        invariant k <= h.Length
        invariant forall t :: 0 <= t < k ==> h[t] == 0.0
      {
        h[k] := 0.0;
        k := k + 1;
      }
    }
  }

  // ---------------------------------------------------------------- the recogniser

  /** One turn of the phrase loop (main.cpp:86-93). The recogniser releases the lock
      while it handles the previous chunk, and the detector makes `lag` hops meanwhile.
      Then the recogniser waits until at least `MAX_SR_CHUNK` samples of history are
      waiting, takes the `get_history(sr_offset)` chunk, and subtracts its length from
      `sr_offset`. The clamp at `HISTORY_LEN` discards `dropped` samples, which is
      exactly how far `sr + lag * HOP` overshoots it. When the history is filled, the
      chunk starts `dropped` samples past where the previous turn stopped. */
  method NextChunk(buf: SoundBuffer, window: array<real>, sr: nat, lag: nat)
      returns (sr': nat, chunk: seq<int16>, ghost dropped: nat)
    requires Listening(buf) && window.Length == WINDOW && sr <= HISTORY_LEN
    modifies buf, buf.buffer, window
    ensures Listening(buf) && sr' <= HISTORY_LEN && old(buf.past) <= buf.past
    ensures 1 <= |chunk|
    ensures dropped == (if sr + lag * HOP > HISTORY_LEN then sr + lag * HOP - HISTORY_LEN else 0)
    ensures sr <= |old(buf.past)| ==>
              var c := |old(buf.past)| - sr + dropped;
              c + |chunk| <= |buf.past| && chunk == buf.past[c..c + |chunk|] && sr' == |buf.past| - (c + |chunk|)
  {
    ghost var c := |buf.past| - sr;
    ghost var filled := sr <= |buf.past|;
    ghost var p0 := |buf.past|;
    sr', dropped := sr, 0;
    for k := 0 to lag
      invariant Listening(buf) && sr' <= HISTORY_LEN && old(buf.past) <= buf.past
      invariant |buf.past| == p0 + k * HOP
      invariant sr' == Min(HISTORY_LEN, sr + k * HOP) && sr' + dropped == sr + k * HOP
    {
      ghost var s0 := sr';
      var notified;
      sr', notified := Hop(buf, window, sr');
      dropped := dropped + (s0 + HOP - sr');
    }
    while sr' < MAX_SR_CHUNK
      invariant Listening(buf) && sr' <= HISTORY_LEN && old(buf.past) <= buf.past
      invariant filled ==> sr' <= |buf.past| && |buf.past| - sr' == c + dropped
      decreases MAX_SR_CHUNK - sr'
    {
      var notified;
      sr', notified := Hop(buf, window, sr');
    }
    var span := buf.GetHistory(sr');
    chunk := buf.buffer[span.offset..span.offset + span.len];
    sr' := sr' - span.len;
  }

  /** A chunk that starts where a contiguous stretch of `before` stops extends it in
      any continuation `past` of `before`. */
  lemma ExtendContiguous(before: seq<int16>, past: seq<int16>, c0: nat, fed: seq<int16>, chunk: seq<int16>)
    requires before <= past && c0 + |fed| <= |before| && fed == before[c0..c0 + |fed|]
    requires c0 + |fed| + |chunk| <= |past| && chunk == past[c0 + |fed|..c0 + |fed| + |chunk|]
    ensures fed + chunk == past[c0..c0 + |fed| + |chunk|]
  {
    assert past[c0..c0 + |fed|] == fed;
  }

  /** Feeding more audio keeps every earlier prefix of what was fed. */
  lemma PrefixesKept(fed: seq<int16>, chunk: seq<int16>, ends: seq<nat>)
    requires forall k :: 0 <= k < |ends| ==> ends[k] <= |fed|
    ensures forall k :: 0 <= k < |ends| ==> (fed + chunk)[..ends[k]] == fed[..ends[k]]
  {
    forall k | 0 <= k < |ends|
      ensures (fed + chunk)[..ends[k]] == fed[..ends[k]]
    {
      assert (fed + chunk)[..|fed|] == fed;
    }
  }

  /** The phrase loop of the recogniser thread (main.cpp:83-94): chunks of history are
      fed to the recogniser until it reports a final result or ten seconds have been fed
      (`|fed|` is `phrase_len`); the loop stops at the first final result. Turn `k`
      starts after `lag(k)` detector hops. When the history behind the read cursor is
      filled, every sample captured from `sr_offset` samples back is fed, discarded by
      the clamp (`dropped`), or still waiting; with nothing discarded the recogniser
      receives the audio contiguously, and nothing is discarded while the detector
      never runs ahead. */
  method PhraseLoop(buf: SoundBuffer, window: array<real>, sr: nat, accept: seq<int16> -> bool, lag: nat -> nat)
      returns (sr': nat, fed: seq<int16>, final: bool, ghost ends: seq<nat>, ghost dropped: nat)
    requires Listening(buf) && window.Length == WINDOW && sr <= HISTORY_LEN
    modifies buf, buf.buffer, window
    ensures Listening(buf) && sr' <= HISTORY_LEN && old(buf.past) <= buf.past
    ensures final == accept(fed) && (final || |fed| >= MAX_PHRASE_LEN)
    ensures |ends| >= 1 && ends[|ends| - 1] == |fed|
    ensures forall k :: 0 <= k < |ends| - 1 ==> ends[k] < MAX_PHRASE_LEN && ends[k] < |fed| && !accept(fed[..ends[k]])
    ensures (forall k :: 0 <= k < |ends| ==> lag(k) == 0) ==> dropped == 0
    ensures sr <= |old(buf.past)| ==>
              var c0 := |old(buf.past)| - sr;
              && c0 + dropped + |fed| <= |buf.past| && sr' == |buf.past| - (c0 + dropped + |fed|)
              && (dropped == 0 ==> fed == buf.past[c0..c0 + |fed|])
  {
    ghost var c0 := |buf.past| - sr;
    ghost var filled := sr <= |buf.past|;
    sr', fed, final, ends, dropped := sr, [], false, [], 0;
    var phraseLen, turn := 0, 0;
    while !final && phraseLen < MAX_PHRASE_LEN
      invariant Listening(buf) && sr' <= HISTORY_LEN && old(buf.past) <= buf.past
      invariant phraseLen == |fed| && turn == |ends| && (|ends| == 0 ==> phraseLen == 0 && !final)
      invariant |ends| > 0 ==> final == accept(fed) && ends[|ends| - 1] == |fed|
      invariant forall k :: 0 <= k < |ends| - 1 ==> ends[k] < MAX_PHRASE_LEN && ends[k] < |fed| && !accept(fed[..ends[k]])
      invariant (forall k :: 0 <= k < |ends| ==> lag(k) == 0) ==> dropped == 0
      invariant filled ==> c0 + dropped + |fed| <= |buf.past| && sr' == |buf.past| - (c0 + dropped + |fed|)
      invariant filled && dropped == 0 ==> fed == buf.past[c0..c0 + |fed|]
      decreases MAX_PHRASE_LEN - phraseLen
    {
      ghost var before := buf.past;
      var chunk;
      ghost var d;
      sr', chunk, d := NextChunk(buf, window, sr', lag(turn));
      if filled && dropped + d == 0 {
        ExtendContiguous(before, buf.past, c0, fed, chunk);
      }
      dropped := dropped + d;
      phraseLen := phraseLen + |chunk|;
      PrefixesKept(fed, chunk, ends);
      fed := fed + chunk;
      ends := ends + [|fed|];
      turn := turn + 1;
      final := accept(fed);
    }
  }

  // ---------------------------------------------------------------- dispatch

  /** `text.substr(0, keyword.size()) == keyword`: the transcript starts with the wake
      word. */
  predicate HasKeyword(text: seq<char>)
  {
    text[..Min(|KEYWORD|, |text|)] == KEYWORD
  }

  lemma HasKeywordIsPrefix(text: seq<char>)
    ensures HasKeyword(text) <==> KEYWORD <= text
  {
  }

  /** The first alternative that starts with the wake word. */
  function FirstWake(alts: seq<seq<char>>): (r: Option<nat>)
    ensures r.Some? ==> r.value < |alts| && HasKeyword(alts[r.value])
    ensures r.Some? ==> forall k :: 0 <= k < r.value ==> !HasKeyword(alts[k])
    ensures r.None? ==> forall k :: 0 <= k < |alts| ==> !HasKeyword(alts[k])
  {
    if alts == [] then None
    else if HasKeyword(alts[0]) then Some(0)
    else
      var r := FirstWake(alts[1..]);
      if r.Some? then Some(r.value + 1) else None
  }

  /** Dispatch of the final result (main.cpp:96-104): the first alternative that starts
      with the wake word is offered to every skill, in order, and each skill whose
      expression matches it runs; later alternatives are ignored. The state is cleared
      afterwards. */
  method Dispatch(alts: seq<seq<char>>, skills: seq<Skill>)
      returns (text: Option<seq<char>>, calls: seq<Option<Call>>, state: bool)
    requires forall i :: 0 <= i < |skills| ==> Sound(skills[i].re)
    ensures FirstWake(alts).None? <==> text.None?
    ensures FirstWake(alts).Some? ==> text == Some(alts[FirstWake(alts).value])
    ensures text.None? ==> calls == []
    ensures text.Some? ==> |calls| == |skills|
    ensures text.Some? ==> forall k :: 0 <= k < |skills| ==>
              (calls[k].Some? <==> skills[k].re(text.value).Some?) &&
              (calls[k].Some? ==> calls[k].value.path == skills[k].path)
    ensures !state
  {
    text, calls := None, [];
    var i := 0;
    while i < |alts|
      invariant i <= |alts| && text.None? && calls == []
      invariant forall k :: 0 <= k < i ==> !HasKeyword(alts[k])
    {
      if HasKeyword(alts[i]) {
        text := Some(alts[i]);
        for j := 0 to |skills|
          invariant |calls| == j
          invariant forall k :: 0 <= k < j ==>
                      (calls[k].Some? <==> skills[k].re(alts[i]).Some?) &&
                      (calls[k].Some? ==> calls[k].value.path == skills[k].path)
        {
          var matched, call, freed := CheckAndApply(skills[j], alts[i]);
          calls := calls + [call];
        }
        break;
      }
      i := i + 1;
    }
    state := false;
  }
}
