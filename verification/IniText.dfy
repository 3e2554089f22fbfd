/**
 How app/routers/aggregate.py reads the text of a .conf file: where lines end, which lines are
 section headers and which are `key = value` entries, and how edited lines are joined again.
 The character classes are Python's own (`str.splitlines`, and `\s` on strings).
 */
module IniText {
  import opened Prelude

  /** The characters `str.splitlines` ends a line at; "\r\n" counts as one end. */
  predicate IsBreak(c: char) {
    '\n' <= c <= '\r' || '\U{1C}' <= c <= '\U{1E}' || c == '\U{85}' || '\U{2028}' <= c <= '\U{2029}'
  }

  /** The characters that `\s` matches and `str.strip` removes. */
  predicate IsSpace(c: char) {
    '\t' <= c <= '\r' || '\U{1C}' <= c <= ' ' || c == '\U{85}' || c == '\U{A0}' || c == '\U{1680}'
    || '\U{2000}' <= c <= '\U{200A}' || '\U{2028}' <= c <= '\U{2029}' || c == '\U{202F}' || c == '\U{205F}'
    || c == '\U{3000}'
  }

  /** Both classes by code point. */
  lemma CharacterClasses(c: char)
    ensures IsBreak(c) <==> c as int in {10, 11, 12, 13, 28, 29, 30, 133, 8232, 8233}
    ensures IsSpace(c) <==> c as int in {9, 10, 11, 12, 13, 28, 29, 30, 31, 32, 133, 160, 5760, 8192, 8193, 8194, 8195,
      8196, 8197, 8198, 8199, 8200, 8201, 8202, 8232, 8233, 8239, 8287, 12288}
  {
  }

  predicate NoBreaks(s: string) {
    forall i :: 0 <= i < |s| ==> !IsBreak(s[i])
  }

  /** The position of the first `c` in `s`, or the length of `s`. */
  function Find(s: string, c: char): (n: nat)
    ensures n <= |s|
  {
    if s == "" || s[0] == c then 0 else 1 + Find(s[1..], c)
  }

  /** The length of the leading white space. */
  function Indent(s: string): (n: nat)
    ensures n <= |s|
  {
    if s == "" || !IsSpace(s[0]) then 0 else 1 + Indent(s[1..])
  }

  /** Nothing but white space. */
  predicate Blank(s: string) {
    Indent(s) == |s|
  }

  function StripRight(s: string): string {
    if s == "" || !IsSpace(s[|s| - 1]) then s else StripRight(s[..|s| - 1])
  }

  /** A line as the editor tells lines apart; `value` is all the text after the sign. */
  datatype Line =
    | Header(text: string, name: string)
    | Entry(text: string, indent: string, key: string, value: string)
    | Other(text: string)

  /** `^\s*\[([^\]]+)\]\s*$` */
  function HeaderName(line: string): Option<string> {
    var n := Indent(line);
    if n == |line| || line[n] != '[' then None
    else
      var m := n + 1 + Find(line[n + 1..], ']');
      if m == n + 1 || m == |line| || !Blank(line[m + 1..]) then None else Some(line[n + 1..m])
  }

  /** `^(\s*)([^=\s#;][^=]*?)\s*=.*$` */
  function EntryOf(line: string): Line {
    var n, e := Indent(line), Find(line, '=');
    if e == |line| || n >= e || line[n] == '#' || line[n] == ';' then Other(line)
    else Entry(line, line[..n], StripRight(line[n..e]), line[e + 1..])
  }

  function Classify(line: string): (l: Line)
    ensures l.text == line
  {
    match HeaderName(line)
    case Some(name) => Header(line, name)
    case None => EntryOf(line)
  }

  // ---------------------------------------------------------------------------------
  // Lines of a text.

  function BreakAt(s: string): (n: nat)
    ensures n <= |s| && (forall i :: 0 <= i < n ==> !IsBreak(s[i])) && (n < |s| ==> IsBreak(s[n]))
  {
    if s == "" || IsBreak(s[0]) then 0 else 1 + BreakAt(s[1..])
  }

  /** How many characters the line end at the start of `s` takes. */
  function BreakLength(s: string): (n: nat)
    requires s != ""
    ensures 1 <= n <= |s|
  {
    if |s| > 1 && s[0] == '\r' && s[1] == '\n' then 2 else 1
  }

  /** `str.splitlines` */
  function SplitLines(s: string): seq<string>
    decreases |s|
  {
    var n := BreakAt(s);
    if s == "" then []
    else if n == |s| then [s]
    else [s[..n]] + SplitLines(s[n..][BreakLength(s[n..])..])
  }

  function JoinLines(lines: seq<string>, newline: string): string {
    if lines == [] then ""
    else if |lines| == 1 then lines[0]
    else lines[0] + newline + JoinLines(lines[1..], newline)
  }

  predicate Breakless(lines: seq<string>) {
    forall i :: 0 <= i < |lines| ==> NoBreaks(lines[i])
  }

  lemma {:induction false} SplitBreakless(s: string)
    ensures Breakless(SplitLines(s))
    decreases |s|
  {
    var n := BreakAt(s);
    if s != "" && n < |s| {
      SplitBreakless(s[n..][BreakLength(s[n..])..]);
    } else if s != "" {
      assert s[..n] == s;
    }
  }

  predicate IsNewline(newline: string) {
    newline == "\n" || newline == "\r\n"
  }

  lemma BreakAtEnd(line: string, rest: string)
    requires NoBreaks(line) && (rest == "" || IsBreak(rest[0]))
    ensures BreakAt(line + rest) == |line|
  {
    assert forall i :: 0 <= i < |line| ==> (line + rest)[i] == line[i];
    assert BreakAt(line + rest) >= |line|;
    assert rest != "" ==> (line + rest)[|line|] == rest[0];
  }

  lemma SplitFirst(line: string, newline: string, rest: string)
    requires NoBreaks(line) && IsNewline(newline)
    ensures SplitLines(line + newline + rest) == [line] + SplitLines(rest)
  {
    var s := line + newline + rest;
    assert s == line + (newline + rest);
    BreakAtEnd(line, newline + rest);
    assert s[|line|..] == newline + rest;
    assert (newline + rest)[BreakLength(newline + rest)..] == rest;
    assert s[..|line|] == line;
  }

  lemma SplitOne(line: string)
    requires NoBreaks(line)
    ensures SplitLines(line) == if line == "" then [] else [line]
  {
    assert line + "" == line;
    BreakAtEnd(line, "");
  }

  function WithoutBlankEnd(lines: seq<string>): seq<string> {
    if lines != [] && lines[|lines| - 1] == "" then lines[..|lines| - 1] else lines
  }

  lemma JoinCons(lines: seq<string>, newline: string, end: string)
    requires |lines| > 1
    ensures JoinLines(lines, newline) + end == lines[0] + newline + (JoinLines(lines[1..], newline) + end)
  {
    var rest := JoinLines(lines[1..], newline);
    assert JoinLines(lines, newline) == lines[0] + newline + rest;
    assert (lines[0] + newline + rest) + end == lines[0] + newline + (rest + end);
  }

  /** Reading back joined lines gives them again, except for an empty last line. */
  lemma {:induction false} SplitJoin(lines: seq<string>, newline: string)
    requires Breakless(lines) && IsNewline(newline)
    ensures SplitLines(JoinLines(lines, newline)) == WithoutBlankEnd(lines)
  {
    if |lines| == 1 {
      SplitOne(lines[0]);
    } else if |lines| > 1 {
      var rest := JoinLines(lines[1..], newline);
      assert SplitLines(lines[0] + newline + rest) == [lines[0]] + WithoutBlankEnd(lines[1..]) by {
        SplitJoin(lines[1..], newline);
        SplitFirst(lines[0], newline, rest);
      }
      assert [lines[0]] + WithoutBlankEnd(lines[1..]) == WithoutBlankEnd(lines);
    }
  }

  /** Reading back lines that each end with a line end gives exactly those lines. */
  lemma {:induction false} SplitJoinEnded(lines: seq<string>, newline: string)
    requires Breakless(lines) && IsNewline(newline)
    ensures SplitLines(JoinLines(lines, newline) + newline) == if lines == [] then [""] else lines
  {
    if |lines| <= 1 {
      var line := if lines == [] then "" else lines[0];
      assert JoinLines(lines, newline) + newline == line + newline + "";
      SplitFirst(line, newline, "");
    } else {
      var rest := JoinLines(lines[1..], newline) + newline;
      JoinCons(lines, newline, newline);
      assert SplitLines(lines[0] + newline + rest) == [lines[0]] + lines[1..] by {
        SplitJoinEnded(lines[1..], newline);
        SplitFirst(lines[0], newline, rest);
      }
    }
  }

  // ---------------------------------------------------------------------------------
  // Names that survive being written and read back.

  /** What a header can name. */
  predicate ValidSection(name: string) {
    name != "" && ']' !in name && NoBreaks(name)
  }

  /** What an entry can have as its key. */
  predicate ValidKey(key: string) {
    key != "" && '=' !in key && NoBreaks(key)
    && key[0] != '#' && key[0] != ';' && !IsSpace(key[0]) && !IsSpace(key[|key| - 1])
  }

  lemma {:induction false} FindAt(s: string, c: char, n: nat)
    requires n <= |s| && (forall i :: 0 <= i < n ==> s[i] != c) && (n < |s| ==> s[n] == c)
    ensures Find(s, c) == n
  {
    if n > 0 {
      FindAt(s[1..], c, n - 1);
    }
  }

  lemma {:induction false} FindMeaning(s: string, c: char)
    ensures forall i :: 0 <= i < Find(s, c) ==> s[i] != c
    ensures Find(s, c) < |s| ==> s[Find(s, c)] == c
  {
    if s != "" && s[0] != c {
      FindMeaning(s[1..], c);
      forall i | 0 <= i < Find(s, c) ensures s[i] != c {
        if i > 0 { assert s[i] == s[1..][i - 1]; }
      }
    }
  }

  lemma {:induction false} IndentAt(s: string, n: nat)
    requires n <= |s| && (forall i :: 0 <= i < n ==> IsSpace(s[i])) && (n < |s| ==> !IsSpace(s[n]))
    ensures Indent(s) == n
  {
    if n > 0 {
      IndentAt(s[1..], n - 1);
    }
  }

  lemma {:induction false} IndentMeaning(s: string)
    ensures forall i :: 0 <= i < Indent(s) ==> IsSpace(s[i])
    ensures Indent(s) < |s| ==> !IsSpace(s[Indent(s)])
  {
    if s != "" && IsSpace(s[0]) {
      IndentMeaning(s[1..]);
      forall i | 0 <= i < Indent(s) ensures IsSpace(s[i]) {
        if i > 0 { assert s[i] == s[1..][i - 1]; }
      }
    }
  }

  lemma IndentBlank(s: string)
    ensures Blank(s[..Indent(s)])
  {
    IndentMeaning(s);
    IndentAt(s[..Indent(s)], Indent(s));
  }

  /** A section that can be named is read back from its header. */
  lemma HeaderReads(name: string)
    requires ValidSection(name)
    ensures Classify("[" + name + "]") == Header("[" + name + "]", name)
  {
    var line := "[" + name + "]";
    IndentAt(line, 0);
    assert line[1..] == name + "]";
    assert forall i :: 0 <= i < |name| ==> (name + "]")[i] == name[i];
    assert line[1..1 + |name|] == name;
    FindAt(line[1..], ']', |name|);
  }

  /** What headers name is valid. */
  lemma HeaderValid(line: string)
    requires NoBreaks(line) && Classify(line).Header?
    ensures ValidSection(Classify(line).name)
  {
    var n := Indent(line);
    var m := Find(line[n + 1..], ']');
    FindMeaning(line[n + 1..], ']');
    var name := line[n + 1..n + 1 + m];
    assert name == line[n + 1..][..m];
    forall i | 0 <= i < |name| ensures name[i] != ']' {
      assert name[i] == line[n + 1..][i];
    }
  }

  lemma {:induction false} StripRightPrefix(s: string)
    ensures |StripRight(s)| <= |s| && StripRight(s) == s[..|StripRight(s)|]
    ensures StripRight(s) != "" ==> !IsSpace(StripRight(s)[|StripRight(s)| - 1])
  {
    if s != "" && IsSpace(s[|s| - 1]) {
      StripRightPrefix(s[..|s| - 1]);
    }
  }

  lemma StripRightKeeps(s: string)
    requires s == "" || !IsSpace(s[|s| - 1])
    ensures StripRight(s) == s
  {
  }

  /** Where the parts of a line that the editor writes begin. */
  lemma EditorLine(indent: string, key: string)
    requires ValidKey(key) && Blank(indent)
    ensures var line := indent + key + "=on";
      && Indent(line) == |indent| && Find(line, '=') == |indent| + |key|
      && line[..|indent|] == indent && line[|indent|..|indent| + |key|] == key && line[|indent| + |key| + 1..] == "on"
      && line[|indent|] == key[0] && line[|line| - 1] == 'n'
  {
    var line := indent + key + "=on";
    var n, e := |indent|, |indent| + |key|;
    IndentMeaning(indent);
    forall i | 0 <= i < n ensures IsSpace(line[i]) && line[i] != '=' {
      assert line[i] == indent[i];
    }
    forall i | n <= i < e ensures line[i] != '=' {
      assert line[i] == key[i - n];
    }
    assert line[n] == key[0];
    IndentAt(line, n);
    FindAt(line, '=', e);
  }

  lemma EditorLineNoHeader(indent: string, key: string)
    requires ValidKey(key) && Blank(indent)
    ensures HeaderName(indent + key + "=on") == None
  {
    var line := indent + key + "=on";
    var n := |indent|;
    EditorLine(indent, key);
    if line[n] == '[' {
      var m := n + 1 + Find(line[n + 1..], ']');
      if m < |line| {
        FindMeaning(line[n + 1..], ']');
        assert line[m] == ']' && m < |line| - 1;
        assert line[m + 1..][|line| - 1 - (m + 1)] == 'n';
        IndentMeaning(line[m + 1..]);
      }
    }
  }

  lemma EntryParts(line: string, indent: string, key: string, rest: string)
    requires var n, e := Indent(line), Find(line, '=');
      n < e < |line| && line[n] != '#' && line[n] != ';'
      && line[..n] == indent && StripRight(line[n..e]) == key && line[e + 1..] == rest
    ensures EntryOf(line) == Entry(line, indent, key, rest)
  {
  }

  /** An entry that the editor writes is read back as it was meant. */
  lemma EntryReads(indent: string, key: string)
    requires ValidKey(key) && Blank(indent)
    ensures Classify(indent + key + "=on") == Entry(indent + key + "=on", indent, key, "on")
  {
    var line := indent + key + "=on";
    EditorLineNoHeader(indent, key);
    EditorLine(indent, key);
    StripRightKeeps(key);
    EntryParts(line, indent, key, "on");
  }

  /** What entries have as their key is valid. */
  lemma EntryValid(line: string)
    requires NoBreaks(line) && Classify(line).Entry?
    ensures ValidKey(Classify(line).key)
  {
    var n, e := Indent(line), Find(line, '=');
    var key := StripRight(line[n..e]);
    IndentMeaning(line);
    FindMeaning(line, '=');
    KeptFirst(line[n..e]);
    StripRightPrefix(line[n..e]);
    forall i | 0 <= i < |key| ensures key[i] != '=' && !IsBreak(key[i]) {
      assert key[i] == line[n..e][i] == line[n + i];
    }
  }

  lemma {:induction false} KeptFirst(s: string)
    requires s != "" && !IsSpace(s[0])
    ensures StripRight(s) != "" && StripRight(s)[0] == s[0]
  {
    if IsSpace(s[|s| - 1]) {
      KeptFirst(s[..|s| - 1]);
    }
  }

  lemma BlankOther(line: string)
    requires Blank(line)
    ensures Classify(line) == Other(line)
  {
    IndentMeaning(line);
    FindMeaning(line, '=');
  }

  // ---------------------------------------------------------------------------------
  // The two kinds of line, by their form.

  predicate Spaces(s: string) {
    forall i :: 0 <= i < |s| ==> IsSpace(s[i])
  }

  lemma SpacesBlank(s: string)
    ensures Spaces(s) <==> Blank(s)
  {
    IndentMeaning(s);
    if Spaces(s) {
      IndentAt(s, |s|);
    }
  }

  /** White space, a name in brackets and white space is a header, whatever is in the name but a closing bracket. */
  lemma HeaderForm(before: string, name: string, after: string)
    requires Spaces(before) && Spaces(after) && name != "" && ']' !in name
    ensures HeaderName(before + "[" + name + "]" + after) == Some(name)
  {
    var line, n := before + "[" + name + "]" + after, |before|;
    assert forall i :: 0 <= i < n ==> line[i] == before[i];
    IndentAt(line, n);
    HeaderTail(line[n + 1..], name, after);
    assert line[n + 1..] == name + "]" + after;
    SpacesBlank(after);
    assert line[n + 1..][|name| + 1..] == line[n + 1 + |name| + 1..];
    assert line[n + 1..][..|name|] == line[n + 1..n + 1 + |name|];
  }

  lemma HeaderTail(tail: string, name: string, after: string)
    requires tail == name + "]" + after && ']' !in name
    ensures Find(tail, ']') == |name| < |tail| && tail[..|name|] == name && tail[|name| + 1..] == after
  {
    assert forall i :: 0 <= i < |name| ==> tail[i] == name[i];
    FindAt(tail, ']', |name|);
  }

  lemma FindAbsent(s: string, c: char)
    ensures c !in s[..Find(s, c)] && (Find(s, c) < |s| ==> s[Find(s, c)] == c)
  {
    FindMeaning(s, c);
  }

  lemma AbsentPart(s: string, n: nat, e: nat, c: char)
    requires n <= e <= |s| && c !in s[..e]
    ensures c !in s[n..e]
  {
    assert forall i :: n <= i < e ==> s[i] == s[..e][i];
  }

  lemma CutTwice(line: string, n: nat, m: nat)
    requires n < m < |line|
    ensures line == line[..n] + [line[n]] + line[n + 1..m] + [line[m]] + line[m + 1..]
  {
  }

  /** And no other line is a header. */
  lemma HeaderOnly(line: string) returns (before: string, after: string)
    requires HeaderName(line).Some?
    ensures var name := HeaderName(line).value;
      && line == before + "[" + name + "]" + after && Spaces(before) && Spaces(after)
      && name != "" && ']' !in name
  {
    var n := Indent(line);
    var tail := line[n + 1..];
    var m := Find(tail, ']');
    before, after := line[..n], line[n + 1 + m + 1..];
    IndentMeaning(line);
    FindAbsent(tail, ']');
    SpacesBlank(after);
    assert line[n + 1..n + 1 + m] == tail[..m];
    CutTwice(line, n, n + 1 + m);
  }

  /** A key as an entry can have it: without line breaks that is `ValidKey`. */
  predicate KeyForm(key: string) {
    key != "" && '=' !in key && key[0] != '#' && key[0] != ';' && !IsSpace(key[0]) && !IsSpace(key[|key| - 1])
  }

  /** White space, a key, white space, '=' and anything is an entry, unless the line is a header. */
  lemma EntryForm(indent: string, key: string, space: string, value: string)
    requires Spaces(indent) && Spaces(space) && '=' !in indent && '=' !in space && KeyForm(key)
    ensures EntryOf(indent + key + space + "=" + value)
         == Entry(indent + key + space + "=" + value, indent, key, value)
  {
    var line := indent + key + space + "=" + value;
    var n, e := |indent|, |indent| + |key| + |space|;
    assert line[..e] == indent + key + space && line[e] == '=';
    assert forall i :: 0 <= i < e ==> line[i] == (indent + key + space)[i];
    FindAt(line, '=', e);
    assert line[n] == key[0];
    IndentAt(line, n);
    assert line[n..e] == key + space;
    StripsSpace(key, space);
    assert line[..n] == indent && line[e + 1..] == value;
    EntryParts(line, indent, key, value);
  }

  lemma {:induction false} StripsSpace(key: string, space: string)
    requires Spaces(space) && key != "" && !IsSpace(key[|key| - 1])
    ensures StripRight(key + space) == key
  {
    if space == "" {
      assert key + space == key;
    } else {
      assert (key + space)[..|key + space| - 1] == key + space[..|space| - 1];
      StripsSpace(key, space[..|space| - 1]);
    }
  }

  lemma {:induction false} StripRightRest(s: string)
    ensures |StripRight(s)| <= |s| && Spaces(s[|StripRight(s)|..])
  {
    if s != "" && IsSpace(s[|s| - 1]) {
      StripRightRest(s[..|s| - 1]);
      var k := |StripRight(s)|;
      assert s[k..] == s[..|s| - 1][k..] + [s[|s| - 1]];
    }
  }

  lemma KeyPart(part: string) returns (space: string)
    requires part != "" && !IsSpace(part[0]) && part[0] != '#' && part[0] != ';' && '=' !in part
    ensures part == StripRight(part) + space && Spaces(space) && KeyForm(StripRight(part))
  {
    StripRightPrefix(part);
    StripRightRest(part);
    KeptFirst(part);
    space := part[|StripRight(part)|..];
    forall i | 0 <= i < |StripRight(part)| ensures StripRight(part)[i] != '=' {
      assert StripRight(part)[i] == part[i];
    }
  }

  lemma CutEntry(line: string, n: nat, e: nat, key: string, space: string)
    requires n <= e < |line| && line[n..e] == key + space
    ensures line == line[..n] + key + space + [line[e]] + line[e + 1..]
  {
    assert line == line[..n] + line[n..e] + [line[e]] + line[e + 1..];
    assert line[..n] + (key + space) == line[..n] + key + space;
  }

  /** And no other line is an entry. */
  lemma EntryOnly(line: string) returns (space: string)
    requires EntryOf(line).Entry?
    ensures var l := EntryOf(line);
      && line == l.indent + l.key + space + "=" + l.value && Spaces(l.indent) && Spaces(space) && KeyForm(l.key)
  {
    var n, e := Indent(line), Find(line, '=');
    IndentMeaning(line);
    FindAbsent(line, '=');
    AbsentPart(line, n, e, '=');
    space := KeyPart(line[n..e]);
    CutEntry(line, n, e, StripRight(line[n..e]), space);
  }
}
