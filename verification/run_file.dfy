/** The `.run` file parser of build.php (`parse_run_file`): each line is
    trimmed, cut at its inline comment, dropped when nothing is left, and is
    then either a `[section]` header or a command of the current section. */
module RunFile {
  import opened Php

  /** An inline comment starts at `i`: a "//" followed by a space. */
  predicate MarkerAt(s: string, i: int) {
    0 <= i && i + 3 <= |s| && s[i] == '/' && s[i + 1] == '/' && s[i + 2] == ' '
  }

  /** No inline comment starts anywhere in `s`. */
  predicate NoMarker(s: string) {
    forall i :: 0 <= i < |s| ==> !MarkerAt(s, i)
  }

  /** Length of the rest of the line: up to, not including, the first line feed. */
  function LineLength(s: string): (n: nat)
    ensures n <= |s|
    ensures forall i :: 0 <= i < n ==> s[i] != '\n'
    ensures n < |s| ==> s[n] == '\n'
    decreases |s|
  {
    if s == [] || s[0] == '\n' then 0 else 1 + LineLength(s[1..])
  }

  /** The comment pattern `//[ ].*` replaced by nothing, scanning left to right:
      a match is "// " and everything after it up to the next line feed, which
      PCRE's `.` does not cross; scanning resumes after the match. */
  function StripComments(s: string): (r: string)
    ensures |r| <= |s|
    decreases |s|
  {
    if MarkerAt(s, 0) then StripComments(s[3 + LineLength(s[3..])..])
    else if s == [] then []
    else [s[0]] + StripComments(s[1..])
  }

  /** What the scan leaves at the front of its result: a line feed, or the
      input's own first character when no comment starts there. */
  lemma StripHead(s: string)
    ensures var r := StripComments(s);
      r != [] && r[0] != '\n' ==> s != [] && !MarkerAt(s, 0) && r == [s[0]] + StripComments(s[1..])
  {
    if MarkerAt(s, 0) {
      var t := s[3 + LineLength(s[3..])..];
      if t != [] {
        assert t[0] == '\n';
        assert !MarkerAt(t, 0);
      }
    }
  }

  /** After the scan no inline comment is left, whatever the input. */
  lemma {:induction false} StripLeavesNoMarker(s: string)
    ensures NoMarker(StripComments(s))
    decreases |s|
  {
    var r := StripComments(s);
    if MarkerAt(s, 0) {
      StripLeavesNoMarker(s[3 + LineLength(s[3..])..]);
    } else if s != [] {
      var rest := StripComments(s[1..]);
      StripLeavesNoMarker(s[1..]);
      assert r == [s[0]] + rest;
      forall i ensures !MarkerAt(r, i) {
        if i == 0 && |s| >= 3 {
          StripHead(s[1..]);
          StripHead(s[2..]);
          assert MarkerAt(r, 0) ==> MarkerAt(s, 0);
        } else if i > 0 {
          assert MarkerAt(r, i) ==> MarkerAt(rest, i - 1);
        }
      }
    }
  }

  /** On a single line (no line feed, as every line `fgets` returns is once
      trimmed) the scan cuts the line at its first "// " and keeps the rest. */
  lemma {:induction false} StripSingleLine(s: string)
    requires forall i :: 0 <= i < |s| ==> s[i] != '\n'
    ensures var r := StripComments(s);
      && r == s[..|r|]
      && (|r| == |s| || MarkerAt(s, |r|))
      && forall i :: 0 <= i < |r| ==> !MarkerAt(s, i)
    decreases |s|
  {
    if MarkerAt(s, 0) {
      var n := LineLength(s[3..]);
      assert n == |s| - 3;
      assert s[3 + n..] == [];
    } else if s != [] {
      StripSingleLine(s[1..]);
      var rest := StripComments(s[1..]);
      var r := StripComments(s);
      assert r == [s[0]] + rest;
      forall i | 0 < i < |r| ensures !MarkerAt(s, i) {
        assert MarkerAt(s, i) ==> MarkerAt(s[1..], i - 1);
      }
      assert MarkerAt(s[1..], |rest|) ==> MarkerAt(s, |r|);
    }
  }

  /** Characters allowed in a section name: `[a-z A-Z 0-9 \- \_]`. */
  predicate IsNameChar(c: char) {
    ('a' <= c <= 'z') || ('A' <= c <= 'Z') || ('0' <= c <= '9') || c == ' ' || c == '-' || c == '_'
  }

  /** Length of the longest prefix of `s` made of name characters. */
  function NameLength(s: string): (n: nat)
    ensures n <= |s|
    ensures forall i :: 0 <= i < n ==> IsNameChar(s[i])
    ensures n < |s| ==> !IsNameChar(s[n])
    decreases |s|
  {
    if s != [] && IsNameChar(s[0]) then 1 + NameLength(s[1..]) else 0
  }

  /** The section pattern `^\[([a-z A-Z 0-9 \- \_]+)\]`, anchored at the start
      only: the captured name, when the line starts with "[name]". */
  function HeaderName(line: string): (r: Option<string>)
    ensures r.Some? ==> && r.value != []
                        && (forall i :: 0 <= i < |r.value| ==> IsNameChar(r.value[i]))
                        && |r.value| + 2 <= |line|
                        && line[..|r.value| + 2] == "[" + r.value + "]"
  {
    if line != [] && line[0] == '[' then
      var n := NameLength(line[1..]);
      if 0 < n && n + 1 < |line| && line[n + 1] == ']' then
        assert line[..n + 2] == "[" + line[1..n + 1] + "]";
        Some(line[1..n + 1])
      else None
    else None
  }

  /** Every line that starts with "[name]" is a header of that very name: the
      pattern has no other way to match. */
  lemma HeaderNameComplete(line: string, name: string)
    requires name != [] && forall i :: 0 <= i < |name| ==> IsNameChar(name[i])
    requires |name| + 2 <= |line| && line[..|name| + 2] == "[" + name + "]"
    ensures HeaderName(line) == Some(name)
  {
    assert line[0] == '[';
    var t := line[1..];
    assert forall i :: 0 <= i < |name| ==> t[i] == name[i];
    assert t[|name|] == ']';
    assert !IsNameChar(t[|name|]);
    assert NameLength(t) == |name|;
    assert line[1..|name| + 1] == name;
  }

  /** How one line of the file is read. */
  datatype Line = Blank | Header(name: string) | Command(text: string)

  /** One line as `parse_run_file` reads it: trim, then cut the comment, then
      skip it if `empty`; a header whose name is "0" is `empty` and so is kept
      as a command. */
  function Classify(raw: string): (k: Line)
    ensures k.Blank? <==> Falsy(StripComments(Trim(raw)))
    ensures k.Header? ==> && !Falsy(k.name)
                          && HeaderName(StripComments(Trim(raw))) == Some(k.name)
    ensures k.Command? ==> && k.text == StripComments(Trim(raw))
                           && !Falsy(k.text)
                           && NoMarker(k.text)
                           && (HeaderName(k.text).None? || HeaderName(k.text) == Some("0"))
  {
    var line := StripComments(Trim(raw));
    StripLeavesNoMarker(Trim(raw));
    if Falsy(line) then Blank
    else
      match HeaderName(line)
      case Some(name) => if Falsy(name) then Command(line) else Header(name)
      case None => Command(line)
  }

  /** The parser's state between lines: `$current_section` and `$commands`. */
  datatype ParseState = ParseState(current: string, sections: OrderedMap<seq<string>>)

  /** The list stored under `name`, or none yet. */
  function Listed(sections: OrderedMap<seq<string>>, name: string): seq<string> {
    if name in sections.entries then sections.entries[name] else []
  }

  /** `$commands[$name][] = $command`. */
  function Append(sections: OrderedMap<seq<string>>, name: string, command: string): (r: OrderedMap<seq<string>>)
    ensures sections.Valid() ==> r.Valid()
    ensures r.entries == sections.entries[name := Listed(sections, name) + [command]]
    ensures name in sections.entries ==> r.keys == sections.keys
    ensures name !in sections.entries ==> r.keys == sections.keys + [name]
  {
    sections.Put(name, Listed(sections, name) + [command])
  }

  /** The state after reading one more line: only a header changes the
      current section, and only a command changes the lists, by appending
      itself to the list of the current section. */
  function Step(st: ParseState, raw: string): (r: ParseState)
    ensures st.sections.Valid() ==> r.sections.Valid()
    ensures r.current != st.current ==> Classify(raw).Header?
    ensures r.sections != st.sections ==> Classify(raw).Command?
    ensures Classify(raw).Command? ==>
              r.sections.entries == st.sections.entries[st.current := Listed(st.sections, st.current) + [Classify(raw).text]]
  {
    match Classify(raw)
    case Blank => st
    case Header(name) => ParseState(name, st.sections)
    case Command(text) => ParseState(st.current, Append(st.sections, st.current, text))
  }

  /** `Step` as the loop of `parse_run_file` takes it, test by test. */
  lemma StepCases(st: ParseState, raw: string)
    ensures var line := StripComments(Trim(raw));
            Step(st, raw) ==
              if Falsy(line) then st
              else if HeaderName(line).Some? && !Falsy(HeaderName(line).value) then
                ParseState(HeaderName(line).value, st.sections)
              else ParseState(st.current, Append(st.sections, st.current, line))
  {
  }

  /** The state after reading `lines`, one line after another, from the
      initial state (no sections, current section ""). */
  function ParseLines(lines: seq<string>): (r: ParseState)
    ensures r.sections.Valid()
    decreases |lines|
  {
    if lines == [] then ParseState("", EmptyMap())
    else Step(ParseLines(lines[..|lines| - 1]), lines[|lines| - 1])
  }

  /** Reference view: the section in force after `lines`, the name of the
      last header among them, or "" when there is none. */
  function SectionAfter(lines: seq<string>): string
    decreases |lines|
  {
    if lines == [] then ""
    else match Classify(lines[|lines| - 1])
      case Header(name) => name
      case _ => SectionAfter(lines[..|lines| - 1])
  }

  /** Reference view: the commands the file lists under `name`, in file order,
      i.e. the command lines read while `name` was the section in force. */
  function CommandsIn(lines: seq<string>, name: string): (r: seq<string>)
    ensures forall j :: 0 <= j < |r| ==> !Falsy(r[j]) && NoMarker(r[j])
    ensures |r| <= |lines|
    decreases |lines|
  {
    if lines == [] then []
    else
      var init := lines[..|lines| - 1];
      match Classify(lines[|lines| - 1])
      case Command(text) =>
        CommandsIn(init, name) + (if SectionAfter(init) == name then [text] else [])
      case _ => CommandsIn(init, name)
  }

  /** How many lines of the file are commands (neither blank nor headers). */
  function CommandCount(lines: seq<string>): nat
    decreases |lines|
  {
    if lines == [] then 0
    else CommandCount(lines[..|lines| - 1]) + (if Classify(lines[|lines| - 1]).Command? then 1 else 0)
  }

  /** The parsed file is what the reference view says: the current section
      is the last header's, and the list under each name holds exactly the
      commands read under it, in order; a name is present only when it has
      at least one command. */
  lemma {:induction false} ParseLinesMeaning(lines: seq<string>)
    ensures ParseLines(lines).current == SectionAfter(lines)
    ensures ParseLines(lines).sections.Valid()
    ensures forall k :: k in ParseLines(lines).sections.entries <==> CommandsIn(lines, k) != []
    ensures forall k :: k in ParseLines(lines).sections.entries ==>
              ParseLines(lines).sections.entries[k] == CommandsIn(lines, k)
    decreases |lines|
  {
    if lines != [] {
      var init := lines[..|lines| - 1];
      ParseLinesMeaning(init);
      var st := ParseLines(init);
      match Classify(lines[|lines| - 1])
      case Blank =>
      case Header(name) =>
      case Command(text) =>
        var r := ParseLines(lines).sections;
        assert r == Append(st.sections, st.current, text);
        forall k ensures (k in r.entries <==> CommandsIn(lines, k) != [])
                      && (k in r.entries ==> r.entries[k] == CommandsIn(lines, k))
        {
          if k == st.current {
            assert CommandsIn(lines, k) == CommandsIn(init, k) + [text];
          } else {
            assert CommandsIn(lines, k) == CommandsIn(init, k);
          }
        }
    }
  }

  /** Sum of the list lengths, over the keys listed in `keys`. */
  function Total(keys: seq<string>, entries: map<string, seq<string>>): nat
    decreases |keys|
  {
    if keys == [] then 0
    else (if keys[0] in entries then |entries[keys[0]]| else 0) + Total(keys[1..], entries)
  }

  lemma {:induction false} TotalIgnoresOthers(keys: seq<string>, entries: map<string, seq<string>>, k: string, v: seq<string>)
    requires k !in keys
    ensures Total(keys, entries[k := v]) == Total(keys, entries)
    decreases |keys|
  {
    if keys != [] {
      TotalIgnoresOthers(keys[1..], entries, k, v);
    }
  }

  lemma {:induction false} TotalGrows(keys: seq<string>, entries: map<string, seq<string>>, k: string, v: seq<string>)
    requires Distinct(keys) && k in keys && k in entries
    ensures Total(keys, entries[k := v]) + |entries[k]| == Total(keys, entries) + |v|
    decreases |keys|
  {
    if keys[0] == k {
      assert k !in keys[1..];
      TotalIgnoresOthers(keys[1..], entries, k, v);
    } else {
      assert Distinct(keys[1..]);
      TotalGrows(keys[1..], entries, k, v);
    }
  }

  lemma {:induction false} TotalSnoc(keys: seq<string>, entries: map<string, seq<string>>, k: string)
    ensures Total(keys + [k], entries) == Total(keys, entries) + (if k in entries then |entries[k]| else 0)
    decreases |keys|
  {
    if keys == [] {
      assert keys + [k] == [k];
    } else {
      assert (keys + [k])[1..] == keys[1..] + [k];
      TotalSnoc(keys[1..], entries, k);
    }
  }

  /** The lists of the parsed file hold, all together, exactly as many
      commands as the file has command lines: none is lost or duplicated. */
  lemma {:induction false} ParseLinesCount(lines: seq<string>)
    ensures Total(ParseLines(lines).sections.keys, ParseLines(lines).sections.entries) == CommandCount(lines)
    decreases |lines|
  {
    if lines != [] {
      var init := lines[..|lines| - 1];
      ParseLinesCount(init);
      ParseLinesMeaning(init);
      var st := ParseLines(init);
      match Classify(lines[|lines| - 1])
      case Blank =>
      case Header(name) =>
      case Command(text) =>
        var s := st.sections;
        var v := Listed(s, st.current) + [text];
        if st.current in s.entries {
          TotalGrows(s.keys, s.entries, st.current, v);
        } else {
          TotalIgnoresOthers(s.keys, s.entries, st.current, v);
          TotalSnoc(s.keys, s.entries[st.current := v], st.current);
        }
    }
  }

  /** `sections` is the parse of `lines` as the reference view has it: an
      ordered array whose list under each name holds exactly the commands
      the file lists under it, in file order, holding all the command lines
      of the file and nothing else. */
  ghost predicate Describes(lines: seq<string>, sections: OrderedMap<seq<string>>) {
    && sections.Valid()
    && (forall k :: k in sections.entries <==> CommandsIn(lines, k) != [])
    && (forall k :: k in sections.entries ==> sections.entries[k] == CommandsIn(lines, k))
    && Total(sections.keys, sections.entries) == CommandCount(lines)
  }

  lemma ParsedFile(lines: seq<string>)
    ensures Describes(lines, ParseLines(lines).sections)
  {
    ParseLinesMeaning(lines);
    ParseLinesCount(lines);
  }

  /** What `parse_run_file` returns for the file at `path`, or the message
      it throws when the file cannot be opened. */
  function RunFileResult(file: Option<seq<string>>, path: string): Result<OrderedMap<seq<string>>, string> {
    match file
    case None => Failure("Could not open file: " + path)
    case Some(lines) => Success(ParseLines(lines).sections)
  }

  /** `parse_run_file`: reads the lines one by one, updating the current
      section and appending commands in place. `file` is None when `fopen`
      fails; otherwise it holds the lines `fgets` returns. */
  method ParseRunFile(file: Option<seq<string>>, path: string) returns (r: Result<OrderedMap<seq<string>>, string>)
    ensures r == RunFileResult(file, path)
    ensures file.Some? ==> Describes(file.value, r.value)
  {
    if file.None? {
      return Failure("Could not open file: " + path);
    }
    var lines := file.value;
    var commands := EmptyMap();
    var current := "";
    var i := 0;
    while i < |lines|
      invariant 0 <= i <= |lines|
      invariant ParseState(current, commands) == ParseLines(lines[..i])
    {
      ghost var before := ParseState(current, commands);
      assert lines[..i + 1][..i] == lines[..i];
      assert ParseLines(lines[..i + 1]) == Step(before, lines[i]);
      StepCases(before, lines[i]);
      var line := Trim(lines[i]);
      line := StripComments(line);
      if !Falsy(line) {
        var header := HeaderName(line);
        if header.Some? && !Falsy(header.value) {
          current := header.value;
        } else {
          commands := Append(commands, current, line);
        }
      }
      assert ParseState(current, commands) == Step(before, lines[i]);
      i := i + 1;
    }
    assert lines[..|lines|] == lines;
    ParsedFile(lines);
    r := Success(commands);
  }

  /** A line in which no "// " occurs is kept verbatim by the scan. */
  lemma {:induction false} StripKeeps(s: string)
    requires NoMarker(s)
    ensures StripComments(s) == s
    decreases |s|
  {
    if s != [] {
      assert NoMarker(s[1..]) by {
        forall i | 0 <= i < |s| - 1 ensures !MarkerAt(s[1..], i) {
          assert MarkerAt(s[1..], i) ==> MarkerAt(s, i + 1);
        }
      }
      StripKeeps(s[1..]);
    }
  }

  /** A line with nothing to trim and no slash reaches the classifier as it is. */
  lemma PlainLine(s: string)
    requires s != [] && !IsTrimChar(s[0]) && !IsTrimChar(s[|s| - 1])
    requires forall i :: 0 <= i < |s| ==> s[i] != '/'
    ensures StripComments(Trim(s)) == s
  {
    TrimKeeps(s);
    StripKeeps(s);
  }

  /** A line with nothing to trim, no slash before its "// " and no line
      feed after it reaches the classifier cut just before the "// ". */
  lemma CommentLine(a: string, rest: string)
    requires a != [] && !IsTrimChar(a[0]) && forall i :: 0 <= i < |a| ==> a[i] != '/'
    requires rest != [] && !IsTrimChar(rest[|rest| - 1]) && forall i :: 0 <= i < |rest| ==> rest[i] != '\n'
    ensures StripComments(Trim(a + "// " + rest)) == a
  {
    var s := a + "// " + rest;
    TrimKeeps(s);
    forall i | 0 <= i < |a| ensures !MarkerAt(s, i) {
      assert s[i] == a[i];
    }
    CutAtFirst(a, rest);
  }

  /** A line whose trimmed form has no comment and does not start with '['
      is stored as that trimmed form. */
  lemma PlainCommand(line: string, kept: string)
    requires Trim(line) == kept && kept != [] && kept != "0" && kept[0] != '[' && NoMarker(kept)
    ensures Classify(line) == Command(kept)
  {
    StripKeeps(kept);
  }

  /** `trim` takes one trailing space off a string that otherwise has no
      trim character at its ends. */
  lemma TrimTrailingSpace(kept: string, line: string)
    requires kept != [] && !IsTrimChar(kept[0]) && !IsTrimChar(kept[|kept| - 1]) && line == kept + " "
    ensures Trim(line) == kept
  {
    assert TrimStart(line) == line;
    assert line[..|line| - 1] == kept;
  }

  /** Trimming comes before the cut, so a trailing "// " loses its space to
      `trim` and is no comment any more. */
  lemma TrailingMarkerKept(kept: string, line: string)
    requires kept == "x //" && line == kept + " "
    ensures Classify(line) == Command(kept)
  {
    TrimTrailingSpace(kept, line);
    assert NoMarker(kept);
    PlainCommand(line, kept);
  }

  /** On a single line, the scan keeps exactly what precedes the first "// ". */
  lemma {:induction false} CutAtFirst(a: string, rest: string)
    requires forall i :: 0 <= i < |a| ==> !MarkerAt(a + "// " + rest, i)
    requires forall i :: 0 <= i < |rest| ==> rest[i] != '\n'
    ensures StripComments(a + "// " + rest) == a
    decreases |a|
  {
    var s := a + "// " + rest;
    if a == [] {
      assert MarkerAt(s, 0);
      assert LineLength(s[3..]) == |rest| by {
        assert s[3..] == rest;
      }
      assert s[3 + |rest|..] == [];
    } else {
      assert s[1..] == a[1..] + "// " + rest;
      forall i | 0 <= i < |a| - 1 ensures !MarkerAt(a[1..] + "// " + rest, i) {
        assert MarkerAt(s[1..], i) ==> MarkerAt(s, i + 1);
      }
      CutAtFirst(a[1..], rest);
    }
  }

  /** "//" without a following space starts no comment. */
  lemma SlashesWithoutSpace(line: string)
    requires line == "echo hi//note"
    ensures Classify(line) == Command(line)
  {
    TrimKeeps(line);
    assert NoMarker(line);
    PlainCommand(line, line);
  }

  /** A header named "0" is `empty`, so the line is stored as a command. */
  lemma ZeroHeaderIsCommand(line: string)
    requires line == "[0]"
    ensures Classify(line) == Command(line)
  {
    TrimKeeps(line);
    assert NoMarker(line);
    StripKeeps(line);
    HeaderNameComplete(line, "0");
  }
}
