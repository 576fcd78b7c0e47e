/** The substitution engine of build.php (`parse_command`): every match of
    `%(%*([^%]+)%*)%`, found left to right without overlap, is replaced by the
    variable named by the match's outer group, or by that name itself when the
    variable is unset or `empty`. */
module Substitution {
  import opened Php

  /** Length of the run of '%' at the start of `s`. */
  function PercentRun(s: string): (n: nat)
    ensures n <= |s|
    decreases |s|
  {
    if s != [] && s[0] == '%' then 1 + PercentRun(s[1..]) else 0
  }

  /** Length of the run of characters other than '%' at the start of `s`. */
  function TextRun(s: string): (n: nat)
    ensures n <= |s|
    decreases |s|
  {
    if s != [] && s[0] != '%' then 1 + TextRun(s[1..]) else 0
  }

  /** `PercentRun` measures the longest prefix of '%'. */
  lemma {:induction false} PercentRunSpec(s: string)
    ensures forall i :: 0 <= i < PercentRun(s) ==> s[i] == '%'
    ensures PercentRun(s) < |s| ==> s[PercentRun(s)] != '%'
    decreases |s|
  {
    if s != [] && s[0] == '%' {
      PercentRunSpec(s[1..]);
    }
  }

  /** `TextRun` measures the longest prefix without '%'. */
  lemma {:induction false} TextRunSpec(s: string)
    ensures forall i :: 0 <= i < TextRun(s) ==> s[i] != '%'
    ensures TextRun(s) < |s| ==> s[TextRun(s)] == '%'
    decreases |s|
  {
    if s != [] && s[0] != '%' {
      TextRunSpec(s[1..]);
    }
  }

  /** Whether `name` is set to a value that is not `empty`. */
  predicate IsSet(vars: map<string, string>, name: string) {
    name in vars && !Falsy(vars[name])
  }

  /** What a match whose outer group is `name` turns into: the variable's
      value, or the name itself when that value is missing or `empty`. So a
      match never turns into "" and turns into "0" only when its name is "0". */
  function Replacement(vars: map<string, string>, name: string): (r: string)
    ensures r == name || (name in vars && r == vars[name])
    ensures name != [] ==> r != []
    ensures !Falsy(name) ==> !Falsy(r)
  {
    if IsSet(vars, name) then vars[name] else name
  }

  /** Where a match that starts at the first character of `s` ends, or 0 when
      none starts there. Such a match takes the whole leading '%' run, then
      a run of other characters, then the whole '%' run after it, of which
      the last '%' closes the match. */
  function MatchEnd(s: string): (end: nat)
    ensures end <= |s|
    ensures end != 0 ==> s[0] == '%' && 3 <= end
  {
    if s == [] || s[0] != '%' then 0
    else
      var lead := PercentRun(s);
      var text := TextRun(s[lead..]);
      if text == 0 then 0
      else
        var trail := PercentRun(s[lead + text..]);
        if trail == 0 then 0 else lead + text + trail
  }

  /** `preg_replace_callback` with the placeholder pattern, scanning left to
      right. A match is replaced by `Replacement` of its outer group, which is
      everything between its first and its last '%', and scanning resumes
      after it. A '%' where no match starts means no match starts anywhere
      after it either (the rest holds no '%' that closes a run of other
      characters), so the rest is kept. */
  function Substitute(command: string, vars: map<string, string>): (r: string)
    ensures r == [] <==> command == []
    decreases |command|
  {
    if command == [] then []
    else if command[0] != '%' then [command[0]] + Substitute(command[1..], vars)
    else
      var end := MatchEnd(command);
      if end == 0 then command
      else Replacement(vars, command[1..end - 1]) + Substitute(command[end..], vars)
  }

  /** `s` holds a match of the pattern somewhere: a '%', later a character
      other than '%', later again a '%'. */
  ghost predicate HasPlaceholder(s: string) {
    exists i, j, k :: 0 <= i < j < k < |s| && s[i] == '%' && s[j] != '%' && s[k] == '%'
  }

  lemma PlaceholderInTail(s: string)
    requires s != [] && HasPlaceholder(s[1..])
    ensures HasPlaceholder(s)
  {
    var i, j, k :| 0 <= i < j < k < |s| - 1 && s[1..][i] == '%' && s[1..][j] != '%' && s[1..][k] == '%';
    assert s[i + 1] == '%' && s[j + 1] != '%' && s[k + 1] == '%';
  }

  /** A string whose only '%' can be its last character holds no match. */
  lemma NoPlaceholderBeforeLast(s: string)
    requires forall i :: 0 <= i < |s| - 1 ==> s[i] != '%'
    ensures !HasPlaceholder(s)
  {
  }

  /** A lone '%' after the text holds no match and is kept. */
  lemma TrailingPercentKept(b: string, vars: map<string, string>)
    requires forall i :: 0 <= i < |b| ==> b[i] != '%'
    ensures Substitute(b + "%", vars) == b + "%"
  {
    var post := b + "%";
    assert forall i :: 0 <= i < |post| - 1 ==> post[i] == b[i];
    NoPlaceholderBeforeLast(post);
    UnchangedWithoutPlaceholder(post, vars);
  }

  /** Text in which the pattern does not match is kept as it is; in
      particular a command without '%' is never changed. */
  lemma {:induction false} UnchangedWithoutPlaceholder(s: string, vars: map<string, string>)
    ensures !HasPlaceholder(s) ==> Substitute(s, vars) == s
    decreases |s|
  {
    if s != [] {
      if s[0] != '%' {
        UnchangedWithoutPlaceholder(s[1..], vars);
        if HasPlaceholder(s[1..]) {
          PlaceholderInTail(s);
        }
        assert s == [s[0]] + s[1..];
      } else if MatchEnd(s) != 0 {
        var lead := PercentRun(s);
        var text := TextRun(s[lead..]);
        PercentRunSpec(s);
        TextRunSpec(s[lead..]);
        assert s[0] == '%' && s[lead] != '%' && s[lead + text] == '%';
        assert HasPlaceholder(s);
      }
    }
  }

  /** `PercentRun` pinned down by what it promises. */
  lemma PercentRunIs(s: string, n: nat)
    requires n <= |s| && (forall i :: 0 <= i < n ==> s[i] == '%') && (n < |s| ==> s[n] != '%')
    ensures PercentRun(s) == n
  {
    PercentRunSpec(s);
  }

  /** `TextRun` pinned down by what it promises. */
  lemma TextRunIs(s: string, n: nat)
    requires n <= |s| && (forall i :: 0 <= i < n ==> s[i] != '%') && (n < |s| ==> s[n] == '%')
    ensures TextRun(s) == n
  {
    TextRunSpec(s);
  }

  /** The leftmost match of the pattern in `s` is `s[p..e]`: there is no '%'
      before `p`; `s[p..a]` is a run of '%', `s[a..b]` a run of other
      characters and `s[b..e]` a run of '%', none of them empty, and the
      character after them, if any, is not '%'. */
  ghost predicate LeftmostMatch(s: string, p: nat, a: nat, b: nat, e: nat) {
    && p < a < b < e <= |s|
    && (forall i :: 0 <= i < p ==> s[i] != '%')
    && (forall i :: p <= i < a ==> s[i] == '%')
    && (forall i :: a <= i < b ==> s[i] != '%')
    && (forall i :: b <= i < e ==> s[i] == '%')
    && (e < |s| ==> s[e] != '%')
  }

  /** A match at the very start ends where its trailing '%' run ends. */
  lemma MatchEndAtStart(s: string, a: nat, b: nat, e: nat)
    requires LeftmostMatch(s, 0, a, b, e)
    ensures MatchEnd(s) == e
  {
    PercentRunIs(s, a);
    TextRunIs(s[a..], b - a);
    PercentRunIs(s[b..], e - b);
  }

  lemma MatchShift(s: string, p: nat, a: nat, b: nat, e: nat)
    requires LeftmostMatch(s, p, a, b, e)
    ensures LeftmostMatch(s[p..], 0, a - p, b - p, e - p)
  {
  }

  /** The leftmost match, read off the way the scan finds it: it starts
      after the leading text without '%' and a match starts there. */
  lemma LeftmostMatchRuns(s: string, p: nat, a: nat, b: nat, e: nat)
    requires LeftmostMatch(s, p, a, b, e)
    ensures p == TextRun(s) && p < |s| && e == p + MatchEnd(s[p..]) && MatchEnd(s[p..]) != 0
  {
    TextRunIs(s, p);
    MatchShift(s, p, a, b, e);
    MatchEndAtStart(s[p..], a - p, b - p, e - p);
  }

  /** One step of the scan where a match starts. */
  lemma ReplaceAtStart(s: string, vars: map<string, string>)
    requires MatchEnd(s) != 0
    ensures Substitute(s, vars) == Replacement(vars, s[1..MatchEnd(s) - 1]) + Substitute(s[MatchEnd(s)..], vars)
  {
  }

  /** One step of the scan over a character other than '%'. */
  lemma KeepAtStart(s: string, vars: map<string, string>)
    requires s != [] && s[0] != '%'
    ensures Substitute(s, vars) == [s[0]] + Substitute(s[1..], vars)
  {
  }

  lemma Assoc<T>(a: seq<T>, b: seq<T>, c: seq<T>)
    ensures a + (b + c) == (a + b) + c
  {
  }

  /** Leading text without '%' is copied as it is, and scanning goes on after it. */
  lemma {:induction false} PrefixKept(s: string, p: nat, vars: map<string, string>)
    requires p <= TextRun(s)
    ensures Substitute(s, vars) == s[..p] + Substitute(s[p..], vars)
    decreases p
  {
    if p > 0 {
      var t := s[1..];
      PrefixKept(t, p - 1, vars);
      KeepAtStart(s, vars);
      assert t[..p - 1] == s[1..p];
      assert t[p - 1..] == s[p..];
      Assoc([s[0]], s[1..p], Substitute(s[p..], vars));
      assert s[..p] == [s[0]] + s[1..p];
    } else {
      assert s[..0] == [] && s[0..] == s;
    }
  }

  /** Slicing a suffix again is slicing the whole. */
  lemma SliceOfSuffix(s: string, p: nat, m: nat, e: nat)
    requires 2 <= m && e == p + m <= |s|
    ensures s[p..][1..m - 1] == s[p + 1..e - 1] && s[p..][m..] == s[e..]
  {
  }

  /** `ReplaceAtStart` with the key and the remainder named. */
  lemma ReplaceNamed(t: string, m: nat, key: string, rest: string, vars: map<string, string>)
    requires m == MatchEnd(t) && m != 0 && key == t[1..m - 1] && rest == t[m..]
    ensures Substitute(t, vars) == Replacement(vars, key) + Substitute(rest, vars)
  {
    ReplaceAtStart(t, vars);
  }

  /** A match that starts at `p` is replaced, and scanning resumes after it. */
  lemma ReplaceInSuffix(s: string, p: nat, e: nat, vars: map<string, string>)
    requires p < |s| && MatchEnd(s[p..]) != 0 && e == p + MatchEnd(s[p..])
    ensures Substitute(s[p..], vars) == Replacement(vars, s[p + 1..e - 1]) + Substitute(s[e..], vars)
  {
    SliceOfSuffix(s, p, e - p, e);
    ReplaceNamed(s[p..], e - p, s[p + 1..e - 1], s[e..], vars);
  }

  /** The scan copies the leading text without '%' and, when a match starts
      right after it, replaces that match and resumes after it. */
  lemma {:induction false} SubstituteAt(s: string, p: nat, e: nat, vars: map<string, string>)
    requires p == TextRun(s) && p < |s| && MatchEnd(s[p..]) != 0 && e == p + MatchEnd(s[p..])
    ensures Substitute(s, vars) == s[..p] + Replacement(vars, s[p + 1..e - 1]) + Substitute(s[e..], vars)
  {
    PrefixKept(s, p, vars);
    ReplaceInSuffix(s, p, e, vars);
    Assoc(s[..p], Replacement(vars, s[p + 1..e - 1]), Substitute(s[e..], vars));
  }

  /** The leftmost match `s[p..e]` is replaced by the value of its outer
      group `s[p + 1..e - 1]` (the match without its first and its last '%'),
      the text before it is kept, and scanning resumes right after it. */
  lemma {:induction false} SubstituteLeftmost(s: string, p: nat, a: nat, b: nat, e: nat, vars: map<string, string>)
    requires LeftmostMatch(s, p, a, b, e)
    ensures Substitute(s, vars) == s[..p] + Replacement(vars, s[p + 1..e - 1]) + Substitute(s[e..], vars)
  {
    LeftmostMatchRuns(s, p, a, b, e);
    SubstituteAt(s, p, e, vars);
  }

  /** Wherever the pattern matches, there is a leftmost match; with
      `SubstituteLeftmost` and `UnchangedWithoutPlaceholder` this pins down
      `Substitute` on every input. */
  lemma LeftmostPlaceholder(s: string) returns (p: nat, a: nat, b: nat, e: nat)
    requires HasPlaceholder(s)
    ensures LeftmostMatch(s, p, a, b, e)
  {
    var i, j, k :| 0 <= i < j < k < |s| && s[i] == '%' && s[j] != '%' && s[k] == '%';
    p, a, b, e := LeftmostFrom(s, i, j, k);
  }

  /** The leftmost match, found from any '%', later other character and
      later again '%'. */
  lemma LeftmostFrom(s: string, i: nat, j: nat, k: nat) returns (p: nat, a: nat, b: nat, e: nat)
    requires i < j < k < |s| && s[i] == '%' && s[j] != '%' && s[k] == '%'
    ensures LeftmostMatch(s, p, a, b, e)
  {
    TextRunStops(s, 0, i);
    p := TextRun(s[0..]);
    assert p <= i < j && s[p] == '%';
    PercentRunStops(s, p, j);
    a := p + PercentRun(s[p..]);
    assert p < a <= j < k && s[a] != '%';
    TextRunStops(s, a, k);
    b := a + TextRun(s[a..]);
    assert a < b <= k && s[b] == '%';
    PercentRunStarts(s, b);
    e := b + PercentRun(s[b..]);
    RunsMatch(s, p, a, b, e);
  }

  /** Four consecutive non-empty runs, the first from the start of `s`, make
      the leftmost match. */
  lemma RunsMatch(s: string, p: nat, a: nat, b: nat, e: nat)
    requires p == TextRun(s[0..]) && a == p + PercentRun(s[p..])
    requires b == a + TextRun(s[a..]) && e == b + PercentRun(s[b..])
    requires p < a < b < e
    ensures LeftmostMatch(s, p, a, b, e)
  {
    TextRunAt(s, 0);
    PercentRunAt(s, p);
    TextRunAt(s, a);
    PercentRunAt(s, b);
  }

  /** A run of text from `q` stops at the first '%', no later than `k`. */
  lemma TextRunStops(s: string, q: nat, k: nat)
    requires q <= k < |s| && s[k] == '%'
    ensures q + TextRun(s[q..]) <= k && s[q + TextRun(s[q..])] == '%'
    ensures s[q] != '%' ==> q < q + TextRun(s[q..])
  {
    TextRunAt(s, q);
  }

  /** A run of '%' from `q` is not empty when `s[q]` is '%', and stops no
      later than the next other character `k`. */
  lemma PercentRunStops(s: string, q: nat, k: nat)
    requires q < k < |s| && s[q] == '%' && s[k] != '%'
    ensures q < q + PercentRun(s[q..]) <= k && s[q + PercentRun(s[q..])] != '%'
  {
    PercentRunAt(s, q);
  }

  lemma PercentRunStarts(s: string, q: nat)
    requires q < |s| && s[q] == '%'
    ensures 0 < PercentRun(s[q..])
  {
    PercentRunAt(s, q);
  }

  /** `PercentRun` of a suffix, read in the whole string. */
  lemma PercentRunAt(s: string, q: nat)
    requires q <= |s|
    ensures q + PercentRun(s[q..]) <= |s|
    ensures forall i :: q <= i < q + PercentRun(s[q..]) ==> s[i] == '%'
    ensures q + PercentRun(s[q..]) < |s| ==> s[q + PercentRun(s[q..])] != '%'
  {
    var t := s[q..];
    PercentRunSpec(t);
    forall i | q <= i < q + PercentRun(t)
      ensures s[i] == '%'
    {
      assert s[i] == t[i - q];
    }
  }

  /** `TextRun` of a suffix, read in the whole string. */
  lemma TextRunAt(s: string, q: nat)
    requires q <= |s|
    ensures q + TextRun(s[q..]) <= |s|
    ensures forall i :: q <= i < q + TextRun(s[q..]) ==> s[i] != '%'
    ensures q + TextRun(s[q..]) < |s| ==> s[q + TextRun(s[q..])] == '%'
  {
    var t := s[q..];
    TextRunSpec(t);
    forall i | q <= i < q + TextRun(t)
      ensures s[i] != '%'
    {
      assert s[i] == t[i - q];
    }
  }

  /** `parse_command`: the substituted command, or an error when the result
      is `empty`. */
  function ParseCommand(command: string, vars: map<string, string>): (r: Result<string, string>)
    ensures r.Success? ==> !Falsy(r.value) && r.value == Substitute(command, vars)
    ensures r.Failure? ==> r.error == "Error parsing command substitutions."
  {
    var substituted := Substitute(command, vars);
    if !Falsy(substituted) then Success(substituted)
    else Failure("Error parsing command substitutions.")
  }

  /** The common case `pre%name%post`, with no extra '%' around the name. */
  lemma SimplePlaceholder(pre: string, name: string, post: string, vars: map<string, string>)
    requires forall i :: 0 <= i < |pre| ==> pre[i] != '%'
    requires name != [] && forall i :: 0 <= i < |name| ==> name[i] != '%'
    requires post == [] || post[0] != '%'
    ensures Substitute(pre + "%" + name + "%" + post, vars) == pre + Replacement(vars, name) + Substitute(post, vars)
  {
    var s := pre + "%" + name + "%" + post;
    var p := |pre|;
    var e := p + |name| + 2;
    assert LeftmostMatch(s, p, p + 1, p + 1 + |name|, e) by {
      assert forall i :: 0 <= i < p ==> s[i] == pre[i];
      assert forall i :: p + 1 <= i < p + 1 + |name| ==> s[i] == name[i - p - 1];
      assert s[p] == '%' && s[e - 1] == '%';
      assert e < |s| ==> s[e] == post[0];
    }
    SubstituteLeftmost(s, p, p + 1, p + 1 + |name|, e, vars);
    FivePieces(pre, "%", name, "%", post, p, e);
  }

  /** The first, middle and last of five joined pieces, read back by position. */
  lemma FivePieces<T>(a: seq<T>, b: seq<T>, c: seq<T>, d: seq<T>, f: seq<T>, p: nat, e: nat)
    requires |b| == 1 && |d| == 1 && p == |a| && e == p + |c| + 2
    ensures var s := a + b + c + d + f;
            e <= |s| && s[..p] == a && s[p + 1..e - 1] == c && s[e..] == f
  {
  }

  /** The last character of a match is the '%' that closes it. */
  lemma MatchEndLast(s: string)
    requires MatchEnd(s) != 0
    ensures s[MatchEnd(s) - 1] == '%'
  {
    var lead := PercentRun(s);
    var text := TextRun(s[lead..]);
    PercentRunSpec(s[lead + text..]);
  }

  /** A command that is one placeholder around a single character. */
  lemma LonePlaceholder(c: char, vars: map<string, string>)
    requires c != '%'
    ensures Substitute(['%', c, '%'], vars) == Replacement(vars, [c])
  {
    SimplePlaceholder([], [c], [], vars);
    assert [] + "%" + [c] + "%" + [] == ['%', c, '%'];
  }

  /** A command that substitutes to a single character and starts with a
      match is that match alone. */
  lemma {:induction false} LoneMatch(command: string, vars: map<string, string>)
    requires MatchEnd(command) != 0 && |Substitute(command, vars)| == 1
    ensures MatchEnd(command) == |command| && command[|command| - 1] == '%'
    ensures Substitute(command, vars) == Replacement(vars, command[1..|command| - 1])
  {
    var end := MatchEnd(command);
    ReplaceAtStart(command, vars);
    MatchEndLast(command);
    assert |Substitute(command[end..], vars)| == 0;
  }

  /** A command that substitutes to a single character and starts with
      another character is that character alone. */
  lemma {:induction false} LoneKept(command: string, vars: map<string, string>)
    requires command != [] && command[0] != '%' && |Substitute(command, vars)| == 1
    ensures command == [command[0]]
  {
    KeepAtStart(command, vars);
    assert |Substitute(command[1..], vars)| == 0;
  }

  /** Only "0" and an unset "%0%" substitute to "0". */
  lemma SubstitutesToZero(command: string, vars: map<string, string>)
    requires Substitute(command, vars) == "0"
    ensures command == "0" || (command == "%0%" && !IsSet(vars, "0"))
  {
    if command[0] != '%' {
      LoneKept(command, vars);
    } else if MatchEnd(command) != 0 {
      LoneMatch(command, vars);
      var key := command[1..|command| - 1];
      assert key == "0";
      assert command == "%" + key + "%";
    }
  }

  /** The defensive check fires on exactly three inputs: the empty command,
      the command "0", and "%0%" when the variable "0" is not set. */
  lemma ParseCommandFails(command: string, vars: map<string, string>)
    ensures ParseCommand(command, vars).Failure? <==>
              command == "" || command == "0" || (command == "%0%" && !IsSet(vars, "0"))
  {
    if Substitute(command, vars) == "0" {
      SubstitutesToZero(command, vars);
    }
    if command == "0" {
      KeepAtStart(command, vars);
    }
    if command == "%0%" {
      LonePlaceholder('0', vars);
    }
  }
}
