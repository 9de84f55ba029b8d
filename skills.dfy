/** Skills (skills.hpp). A skill pairs a regular expression with an action. When a
    transcript matches the whole expression, the action receives the submatches as a
    null-terminated vector of freshly allocated C strings: an executable `FileSkill` is
    run with `[path, m[0], m[1], ..., null]`; the `run` function of a shared-library
    `SoSkill` is called with `[m[0], m[1], ..., null]`. Afterwards the copies are freed
    with `delete[]`.

    The regular-expression engine is a parameter (`Matcher`); `fork`, `execvp`,
    `waitpid`, `dlopen` and `dlsym` are reduced to the call they make (`Call`). A
    pointer is `Null`, the skill's own `path.data()`, or a copy on the heap (an
    `array<char>`); freeing is recorded as the list of pointers handed to `delete[]`. */
module Skills {
  import opened Wrappers

  /** One submatch: the characters `[first, second)` of the matched string. */
  datatype Sub = Sub(first: nat, second: nat)

  /** `std::regex_match` with a skill's expression: the submatches on a full match. */
  type Matcher = seq<char> -> Option<seq<Sub>>

  /** What a successful full match yields: group 0 is the whole string and every
      group lies inside it. */
  predicate IsFullMatch(str: seq<char>, subs: seq<Sub>)
  {
    && |subs| >= 1
    && subs[0] == Sub(0, |str|)
    && forall i :: 0 <= i < |subs| ==> subs[i].first <= subs[i].second <= |str|
  }

  /** The guarantee of `std::regex_match` every skill's expression is taken to give. */
  ghost predicate Sound(re: Matcher)
  {
    forall str :: re(str).Some? ==> IsFullMatch(str, re(str).value)
  }

  /** A skill: an executable at `path`, or the `run` function of the library at `path`. */
  datatype Skill = FileSkill(re: Matcher, path: seq<char>) | SoSkill(re: Matcher, path: seq<char>)

  datatype Ptr = Null | PathData | Copy(buf: array<char>)

  /** The call `apply` makes: `execvp(path, argv)` in a forked child, or `run(argv)`
      of the library loaded from `path`. */
  datatype Call = Exec(path: seq<char>, argv: seq<Ptr>) | Run(path: seq<char>, argv: seq<Ptr>)

  /** The C string a submatch is copied to: its characters and a 0 terminator. */
  function Arg(str: seq<char>, sub: Sub): (r: seq<char>)
    requires sub.first <= sub.second <= |str|
    ensures |r| == sub.second - sub.first + 1 && r[|r| - 1] == '\0'
    ensures forall i :: 0 <= i < |r| - 1 ==> r[i] == str[sub.first + i]
  {
    str[sub.first..sub.second] + ['\0']
  }

  /** `new char[f - s + 1]`, `memcpy` and the terminator (skills.hpp:38-42). */
  method CopySub(str: seq<char>, sub: Sub) returns (arg: array<char>)
    requires sub.first <= sub.second <= |str|
    ensures fresh(arg) && arg[..] == Arg(str, sub)
  {
    var len := sub.second - sub.first;
    arg := new char[len + 1];
    var i := 0;
    while i < len
      invariant i <= len
      invariant arg[..i] == str[sub.first..sub.first + i]
    {
      arg[i] := str[sub.first + i];
      i := i + 1;
    }
    arg[len] := '\0';
  }

  /** `args` holds `head`, then one fresh copy per submatch, in order, then `Null`. */
  ghost predicate ArgVector(args: seq<Ptr>, head: seq<Ptr>, str: seq<char>, subs: seq<Sub>)
    reads set p | p in args && p.Copy? :: p.buf
    requires forall i :: 0 <= i < |subs| ==> subs[i].first <= subs[i].second <= |str|
  {
    && |args| == |head| + |subs| + 1
    && args[..|head|] == head
    && args[|args| - 1] == Null
    && forall i :: |head| <= i < |args| - 1 ==>
         args[i].Copy? && args[i].buf[..] == Arg(str, subs[i - |head|])
  }

  /** The copy loop shared by both `apply`s (skills.hpp:37-45, 68-76): after `head`,
      one fresh copy per submatch, then the terminating null; no two copies share
      storage. */
  method BuildArgs(head: seq<Ptr>, str: seq<char>, subs: seq<Sub>) returns (args: seq<Ptr>)
    requires forall p :: p in head ==> !p.Copy?
    requires forall i :: 0 <= i < |subs| ==> subs[i].first <= subs[i].second <= |str|
    ensures ArgVector(args, head, str, subs)
    ensures forall i :: |head| <= i < |args| - 1 ==> args[i].Copy? && fresh(args[i].buf)
    ensures forall i, j :: |head| <= i < j < |args| - 1 ==> args[i] != args[j]
  {
    args := head;
    var k := 0;
    while k < |subs|
      invariant k <= |subs|
      invariant |args| == |head| + k && args[..|head|] == head
      invariant forall i :: |head| <= i < |args| ==>
                  args[i].Copy? && fresh(args[i].buf) && args[i].buf[..] == Arg(str, subs[i - |head|])
      invariant forall i, j :: |head| <= i < j < |args| ==> args[i] != args[j]
    {
      var arg := CopySub(str, subs[k]);
      args := args + [Copy(arg)];
      k := k + 1;
    }
    args := args + [Null];
  }

  /** The cleanup loop of both `apply`s (skills.hpp:51-53, 78-80): `delete[]` on every
      entry from the second one up to, not including, the terminating null. */
  method Cleanup(args: seq<Ptr>) returns (freed: seq<Ptr>)
    requires |args| >= 2
    ensures freed == args[1..|args| - 1]
  {
    freed := [];
    var i := 1;
    while i != |args| - 1
      invariant 1 <= i <= |args| - 1
      invariant freed == args[1..i]
    {
      freed := freed + [args[i]];
      i := i + 1;
    }
  }

  /** `FileSkill::apply` (skills.hpp:34-54): runs `path` with
      `[path, m[0], ..., m[k-1], null]` and frees exactly the `k` copies. */
  method FileApply(path: seq<char>, str: seq<char>, subs: seq<Sub>) returns (call: Call, freed: seq<Ptr>)
    requires forall i :: 0 <= i < |subs| ==> subs[i].first <= subs[i].second <= |str|
    ensures call == Exec(path, call.argv)
    ensures ArgVector(call.argv, [PathData], str, subs)
    ensures forall i :: 1 <= i < |call.argv| - 1 ==> call.argv[i].Copy? && fresh(call.argv[i].buf)
    ensures freed == call.argv[1..|subs| + 1]
  {
    var args := BuildArgs([PathData], str, subs);
    call := Exec(path, args);
    freed := Cleanup(args);
  }

  /** `SoSkill::apply` as written (skills.hpp:66-81): calls `run` with
      `[m[0], ..., m[k-1], null]` and frees positions `1..k-1` only, so the copy of
      group 0 is never freed. */
  method SoApplyAsWritten(path: seq<char>, str: seq<char>, subs: seq<Sub>) returns (call: Call, freed: seq<Ptr>)
    requires |subs| >= 1
    requires forall i :: 0 <= i < |subs| ==> subs[i].first <= subs[i].second <= |str|
    ensures call == Run(path, call.argv)
    ensures ArgVector(call.argv, [], str, subs)
    ensures forall i :: 0 <= i < |call.argv| - 1 ==> call.argv[i].Copy? && fresh(call.argv[i].buf)
    ensures freed == call.argv[1..|subs|]
    ensures call.argv[0] !in freed
  {
    var args := BuildArgs([], str, subs);
    call := Run(path, args);
    freed := Cleanup(args);
  }

  /** `SoSkill::apply` with the cleanup starting at the first entry: every copy is
      freed. */
  method SoApply(path: seq<char>, str: seq<char>, subs: seq<Sub>) returns (call: Call, freed: seq<Ptr>)
    requires forall i :: 0 <= i < |subs| ==> subs[i].first <= subs[i].second <= |str|
    ensures call == Run(path, call.argv)
    ensures ArgVector(call.argv, [], str, subs)
    ensures forall i :: 0 <= i < |call.argv| - 1 ==> call.argv[i].Copy? && fresh(call.argv[i].buf)
    ensures freed == call.argv[..|subs|]
  {
    var args := BuildArgs([], str, subs);
    call := Run(path, args);
    freed := [];
    var i := 0;
    while i != |args| - 1
      invariant 0 <= i <= |args| - 1
      invariant freed == args[..i]
    {
      freed := freed + [args[i]];
      i := i + 1;
    }
  }

  /** `Skill::check_and_apply` (skills.hpp:15-23): true exactly when the whole string
      matches, and `apply` runs exactly then, with the submatches of that match. A
      `SoSkill` runs its `apply` as written, so the copy of group 0 is not among the
      freed copies. */
  method CheckAndApply(skill: Skill, str: seq<char>) returns (matched: bool, call: Option<Call>, freed: seq<Ptr>)
    requires skill.re(str).Some? ==> IsFullMatch(str, skill.re(str).value)
    ensures matched == skill.re(str).Some?
    ensures call.Some? == matched
    ensures !matched ==> freed == []
    ensures matched ==> call.value.path == skill.path && call.value.Exec? == skill.FileSkill?
    ensures matched && skill.FileSkill? ==>
              ArgVector(call.value.argv, [PathData], str, skill.re(str).value)
              && freed == call.value.argv[1..|skill.re(str).value| + 1]
    ensures matched && skill.SoSkill? ==>
              ArgVector(call.value.argv, [], str, skill.re(str).value)
              && freed == call.value.argv[1..|skill.re(str).value|]
              && call.value.argv[0] !in freed
  {
    var results := skill.re(str);
    if results.None? {
      return false, None, [];
    }
    var c;
    if skill.FileSkill? {
      c, freed := FileApply(skill.path, str, results.value);
    } else {
      c, freed := SoApplyAsWritten(skill.path, str, results.value);
    }
    return true, Some(c), freed;
  }
}
