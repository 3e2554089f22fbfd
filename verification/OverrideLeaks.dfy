/**
 What enabling an override does whose host name or simulation cannot be written as a section or a
 key: the lines are written all the same, read back as something else, and can give a value to
 another pair of section and key (app/routers/aggregate.py).
 */
module OverrideLeaks {
  import opened Prelude
  import opened IniText
  import opened IniEditor
  import opened SimOverrides

  // ---------------------------------------------------------------------------------
  // Lines that contain line breaks fall apart when the text is read again.

  /** A line that does not run into the line end printed after it. */
  predicate Closed(line: string) {
    NoBreaks(line) || !IsBreak(line[|line| - 1])
  }

  predicate AllClosed(lines: seq<string>) {
    forall i :: 0 <= i < |lines| ==> Closed(lines[i])
  }

  /** The lines that one printed line is read back as. */
  function Pieces(line: string): seq<string> {
    if NoBreaks(line) then [line] else SplitLines(line)
  }

  function AllPieces(lines: seq<string>): seq<string> {
    if lines == [] then [] else Pieces(lines[0]) + AllPieces(lines[1..])
  }

  lemma {:induction false} PiecesConcat(a: seq<string>, b: seq<string>)
    ensures AllPieces(a + b) == AllPieces(a) + AllPieces(b)
  {
    if a == [] {
      assert a + b == b;
    } else {
      assert (a + b)[1..] == a[1..] + b;
      PiecesConcat(a[1..], b);
    }
  }

  lemma {:induction false} PiecesBreakless(lines: seq<string>)
    requires Breakless(lines)
    ensures AllPieces(lines) == lines
  {
    if lines != [] {
      PiecesBreakless(lines[1..]);
    }
  }

  lemma SplitAt(x: string, y: string)
    requires NoBreaks(x) && y != "" && IsBreak(y[0])
    ensures SplitLines(x + y) == [x] + SplitLines(y[BreakLength(y)..])
  {
    BreakAtEnd(x, y);
    assert (x + y)[..|x|] == x && (x + y)[|x|..] == y;
  }

  lemma BreakPrefix(y: string, end: string)
    requires y != "" && !IsBreak(y[|y| - 1]) && IsBreak(y[0])
    ensures var m := BreakLength(y);
      && m < |y| && y[m..][|y| - m - 1] == y[|y| - 1]
      && BreakLength(y + end) == m && (y + end)[m..] == y[m..] + end
  {
  }

  /** A line with breaks, cut behind the first of them. */
  lemma BrokenParts(line: string, n: nat, end: string) returns (x: string, y: string, tail: string)
    requires n < |line| && NoBreaks(line[..n]) && IsBreak(line[n]) && !IsBreak(line[|line| - 1])
    ensures line == x + y && line + end == x + (y + end) && NoBreaks(x) && y != "" && IsBreak(y[0])
    ensures tail == y[BreakLength(y)..] && tail + end == (y + end)[BreakLength(y + end)..]
    ensures tail != "" && |tail| < |line| && !IsBreak(tail[|tail| - 1])
  {
    x, y := line[..n], line[n..];
    BreakPrefix(y, end);
    tail := y[BreakLength(y)..];
  }

  lemma SplitTail(line: string, x: string, y: string, tail: string)
    requires line == x + y && NoBreaks(x) && y != "" && IsBreak(y[0]) && tail == y[BreakLength(y)..]
    ensures SplitLines(line) == [x] + SplitLines(tail)
  {
    SplitAt(x, y);
  }

  lemma SplitUnbroken(line: string, newline: string, rest: string, end: string)
    requires NoBreaks(line) && IsNewline(newline) && end == newline + rest
    ensures SplitLines(line + end) == [line] + SplitLines(rest)
  {
    Regrouped(line, newline, rest);
    SplitFirst(line, newline, rest);
  }

  lemma Regrouped(a: string, b: string, c: string)
    ensures a + b + c == a + (b + c)
  {
  }

  lemma SplitBrokenStep(line: string, rest: string, end: string, x: string, y: string, tail: string)
    requires line == x + y && line + end == x + (y + end) && NoBreaks(x) && y != "" && IsBreak(y[0])
    requires tail == y[BreakLength(y)..] && tail + end == (y + end)[BreakLength(y + end)..]
    requires SplitLines(tail + end) == SplitLines(tail) + SplitLines(rest)
    ensures SplitLines(line + end) == SplitLines(line) + SplitLines(rest)
  {
    SplitTail(line, x, y, tail);
    SplitTail(line + end, x, y + end, tail + end);
    AppendCons(x, SplitLines(tail), SplitLines(rest));
  }

  lemma AppendCons(x: string, a: seq<string>, b: seq<string>)
    ensures [x] + (a + b) == [x] + a + b
  {
  }

  lemma {:induction false} SplitBroken(line: string, newline: string, rest: string, end: string)
    requires line != "" && !IsBreak(line[|line| - 1]) && IsNewline(newline) && end == newline + rest
    ensures SplitLines(line + end) == SplitLines(line) + SplitLines(rest)
    decreases |line|
  {
    if NoBreaks(line) {
      SplitUnbroken(line, newline, rest, end);
      SplitOne(line);
    } else {
      var n := FirstBreak(line);
      var x, y, tail := BrokenParts(line, n, end);
      SplitBroken(tail, newline, rest, end);
      SplitBrokenStep(line, rest, end, x, y, tail);
    }
  }

  lemma FirstBreak(line: string) returns (n: nat)
    requires !NoBreaks(line)
    ensures n < |line| && NoBreaks(line[..n]) && IsBreak(line[n])
  {
    n := BreakAt(line);
  }

  lemma SplitPieces(line: string, newline: string, rest: string)
    requires Closed(line) && IsNewline(newline)
    ensures SplitLines(line + newline + rest) == Pieces(line) + SplitLines(rest)
  {
    if NoBreaks(line) {
      SplitFirst(line, newline, rest);
    } else {
      SplitBroken(line, newline, rest, newline + rest);
      Regrouped(line, newline, rest);
    }
  }

  lemma LastOfCons(x: string, rest: seq<string>)
    requires rest != []
    ensures ([x] + rest)[|[x] + rest| - 1] == rest[|rest| - 1]
  {
  }

  lemma {:induction false} BrokenLast(line: string)
    requires line != "" && !IsBreak(line[|line| - 1])
    ensures SplitLines(line) != [] && SplitLines(line)[|SplitLines(line)| - 1] != ""
    decreases |line|
  {
    if NoBreaks(line) {
      SplitOne(line);
    } else {
      var n := FirstBreak(line);
      var x, y, tail := BrokenParts(line, n, "");
      BrokenLast(tail);
      SplitTail(line, x, y, tail);
      LastOfCons(x, SplitLines(tail));
    }
  }

  lemma PiecesLastOne(line: string)
    requires Closed(line)
    ensures Pieces(line) != [] && (Pieces(line)[|Pieces(line)| - 1] == "" <==> line == "")
  {
    if !NoBreaks(line) {
      BrokenLast(line);
    }
  }

  lemma LastOfConcat(a: seq<string>, b: seq<string>)
    requires b != []
    ensures (a + b)[|a + b| - 1] == b[|b| - 1]
  {
  }

  lemma {:induction false} PiecesLast(lines: seq<string>)
    requires lines != [] && AllClosed(lines)
    ensures AllPieces(lines) != []
    ensures AllPieces(lines)[|AllPieces(lines)| - 1] == "" <==> lines[|lines| - 1] == ""
  {
    if |lines| == 1 {
      assert AllPieces(lines) == Pieces(lines[0]);
      PiecesLastOne(lines[0]);
    } else {
      PiecesLast(lines[1..]);
      LastOfConcat(Pieces(lines[0]), AllPieces(lines[1..]));
    }
  }

  lemma BlankEndConcat(a: seq<string>, b: seq<string>)
    requires b != []
    ensures a + WithoutBlankEnd(b) == WithoutBlankEnd(a + b)
  {
  }

  lemma SplitOnePiece(line: string)
    requires Closed(line)
    ensures SplitLines(line) == WithoutBlankEnd(Pieces(line))
  {
    if NoBreaks(line) {
      SplitOne(line);
    } else {
      BrokenLast(line);
    }
  }

  /** Reading back joined lines gives their pieces, except for an empty last line. */
  lemma {:induction false} SplitJoinPieces(lines: seq<string>, newline: string)
    requires AllClosed(lines) && IsNewline(newline)
    ensures SplitLines(JoinLines(lines, newline)) == WithoutBlankEnd(AllPieces(lines))
  {
    if |lines| == 1 {
      assert AllPieces(lines) == Pieces(lines[0]);
      SplitOnePiece(lines[0]);
    } else if |lines| > 1 {
      var rest := JoinLines(lines[1..], newline);
      assert SplitLines(lines[0] + newline + rest) == Pieces(lines[0]) + WithoutBlankEnd(AllPieces(lines[1..])) by {
        SplitJoinPieces(lines[1..], newline);
        SplitPieces(lines[0], newline, rest);
      }
      PiecesLast(lines[1..]);
      BlankEndConcat(Pieces(lines[0]), AllPieces(lines[1..]));
    }
  }

  lemma {:induction false} SplitEndedPieces(lines: seq<string>, newline: string)
    requires AllClosed(lines) && IsNewline(newline) && lines != []
    ensures SplitLines(JoinLines(lines, newline) + newline) == AllPieces(lines)
  {
    if |lines| == 1 {
      assert AllPieces(lines) == Pieces(lines[0]);
      assert JoinLines(lines, newline) + newline == lines[0] + newline + "";
      SplitPieces(lines[0], newline, "");
    } else {
      var rest := JoinLines(lines[1..], newline) + newline;
      JoinCons(lines, newline, newline);
      SplitEndedPieces(lines[1..], newline);
      SplitPieces(lines[0], newline, rest);
    }
  }

  lemma PrintedPieces(lines: seq<string>, content: string, s: string, k: string)
    requires AllClosed(lines) && lines != []
    ensures TextValues(Printed(lines, content), s, k) == Values(ReadAll(AllPieces(lines)), None, s, k)
  {
    var newline := NewlineOf(content);
    SplitJoinPieces(lines, newline);
    SplitEndedPieces(lines, newline);
    BlankEndMeansNothing(AllPieces(lines), s, k);
  }

  // ---------------------------------------------------------------------------------
  // Where the lines are written.

  /** Once written, a key that no entry has changes nothing more. */
  lemma {:induction false} HandledStays(lines: seq<Line>, section: string, key: string, current: Option<string>)
    requires forall i :: 0 <= i < |lines| && lines[i].Entry? ==> lines[i].key != key
    ensures Edit(lines, section, key, true, current, true) == lines
  {
    if lines != [] {
      HandledStays(lines[1..], section, key, Opened(lines[0], current));
    }
  }

  lemma InsertCons(lines: seq<Line>, n: nat, entry: Line, current: Option<string>)
    requires 0 < n <= |lines|
    ensures [lines[0]] + (lines[1..][..n - 1] + [entry] + lines[1..][n - 1..]) == lines[..n] + [entry] + lines[n..]
    ensures OpenAfter(lines[..n], current) == OpenAfter(lines[1..][..n - 1], Opened(lines[0], current))
  {
    assert lines[..n][1..] == lines[1..][..n - 1];
  }

  lemma EditHere(lines: seq<Line>, section: string, key: string)
    requires lines != [] ==> lines[0].Header?
    requires forall i :: 0 <= i < |lines| && lines[i].Entry? ==> lines[i].key != key
    ensures Edit(lines, section, key, true, Some(section), false) == lines[..0] + [EntryLine("", key)] + lines[0..]
  {
    if lines != [] {
      HandledStays(lines[1..], section, key, Opened(lines[0], Some(section)));
    }
  }

  lemma EditSkips(lines: seq<Line>, section: string, key: string, current: Option<string>)
    requires lines != [] && !(lines[0].Header? && current == Some(section)) && (lines[0].Entry? ==> lines[0].key != key)
    ensures Edit(lines, section, key, true, current, false)
         == [lines[0]] + Edit(lines[1..], section, key, true, Opened(lines[0], current), false)
  {
  }

  /** A key that no entry has is written once, at the end of the first section of the name. */
  lemma {:induction false} EditInserts(lines: seq<Line>, section: string, key: string, current: Option<string>)
    returns (n: nat)
    requires forall i :: 0 <= i < |lines| && lines[i].Entry? ==> lines[i].key != key
    requires current == Some(section) || HasSection(lines, section)
    ensures n <= |lines| && (n < |lines| ==> lines[n].Header?) && OpenAfter(lines[..n], current) == Some(section)
    ensures Edit(lines, section, key, true, current, false) == lines[..n] + [EntryLine("", key)] + lines[n..]
  {
    if lines == [] || (lines[0].Header? && current == Some(section)) {
      n := 0;
      EditHere(lines, section, key);
    } else {
      if Opened(lines[0], current) != Some(section) {
        SectionLater(lines, section);
      }
      n := EditInserts(lines[1..], section, key, Opened(lines[0], current));
      n := n + 1;
      EditSkips(lines, section, key, current);
      InsertCons(lines, n, EntryLine("", key), current);
    }
  }

  lemma GenuineNames(lines: seq<Line>, section: string, key: string)
    requires Genuine(lines)
    ensures !ValidSection(section) ==> !HasSection(lines, section)
    ensures !ValidKey(key) ==> forall i :: 0 <= i < |lines| && lines[i].Entry? ==> lines[i].key != key
  {
    forall i | 0 <= i < |lines|
      ensures lines[i].Header? ==> ValidSection(lines[i].name)
      ensures lines[i].Entry? ==> ValidKey(lines[i].key)
    {
      if lines[i].Header? {
        HeaderValid(lines[i].text);
      } else if lines[i].Entry? {
        EntryValid(lines[i].text);
      }
    }
  }

  /** The texts that enabling writes for a pair that no reading of the lines can find. */
  function Written(lines: seq<Line>, section: string, key: string): seq<string> {
    if HasSection(lines, section) then [key + "=on"]
    else
      (if lines != [] && !Blank(lines[|lines| - 1].text) then [""] else [])
      + ["[" + section + "]", key + "=on"]
  }

  /** The section that is open where they are written. */
  function OpenThere(lines: seq<Line>, section: string): Option<string> {
    if HasSection(lines, section) then Some(section) else OpenAfter(lines, None)
  }

  lemma WrittenAtEnd(lines: seq<Line>, section: string, key: string)
    requires !HasSection(lines, section)
    ensures Texts(EditLines(lines, section, key, true)) == Texts(lines) + Written(lines, section, key)
  {
    EditElsewhere(lines, section, key, true, None, false);
    NewSectionTexts(lines, section, key);
  }

  lemma WrittenInside(lines: seq<Line>, section: string, key: string) returns (n: nat)
    requires HasSection(lines, section) && forall i :: 0 <= i < |lines| && lines[i].Entry? ==> lines[i].key != key
    ensures n <= |lines| && (n < |lines| ==> lines[n].Header?) && OpenAfter(lines[..n], None) == Some(section)
    ensures Texts(EditLines(lines, section, key, true)) == Texts(lines[..n]) + [key + "=on"] + Texts(lines[n..])
  {
    n := EditInserts(lines, section, key, None);
    assert "" + key + "=on" == key + "=on";
  }

  lemma EnableInserts(lines: seq<Line>, section: string, key: string) returns (n: nat)
    requires Genuine(lines) && !ValidNames(section, key)
    ensures n <= |lines| && (n < |lines| ==> lines[n].Header?) && (!HasSection(lines, section) ==> n == |lines|)
    ensures OpenAfter(lines[..n], None) == OpenThere(lines, section)
    ensures Texts(EditLines(lines, section, key, true))
         == Texts(lines[..n]) + Written(lines, section, key) + Texts(lines[n..])
  {
    GenuineNames(lines, section, key);
    if HasSection(lines, section) {
      n := WrittenInside(lines, section, key);
    } else {
      n := |lines|;
      WrittenAtEnd(lines, section, key);
      assert lines[..n] == lines;
    }
  }

  // ---------------------------------------------------------------------------------
  // What they are read back as.

  /** `after` is `before` with `more` put in somewhere. */
  ghost predicate Inserted(before: seq<string>, more: seq<string>, after: seq<string>) {
    exists n :: 0 <= n <= |before| && after == before[..n] + more + before[n..]
  }

  /** The values that the written lines give to a pair. */
  function Leaked(lines: seq<Line>, section: string, key: string, s: string, k: string): seq<string> {
    Values(ReadAll(AllPieces(Written(lines, section, key))), OpenThere(lines, section), s, k)
  }

  lemma ReadAllConcat(a: seq<string>, b: seq<string>)
    ensures ReadAll(a + b) == ReadAll(a) + ReadAll(b)
  {
  }

  lemma HeaderStarts(lines: seq<Line>, c: Option<string>, c': Option<string>, s: string, k: string)
    requires lines != [] ==> lines[0].Header?
    ensures Values(lines, c, s, k) == Values(lines, c', s, k)
  {
  }

  lemma InsertedBetween(a: seq<string>, more: seq<string>, b: seq<string>)
    ensures Inserted(a + b, more, a + more + b)
  {
    assert (a + b)[..|a|] == a && (a + b)[|a|..] == b;
  }

  /** Lines put in before a header, or at the end, put in their own values and touch no others. */
  lemma ValuesInserted(a: seq<Line>, more: seq<Line>, b: seq<Line>, s: string, k: string)
    requires b != [] ==> b[0].Header?
    ensures var before, added := Values(a + b, None, s, k), Values(more, OpenAfter(a, None), s, k);
      && Inserted(before, added, Values(a + more + b, None, s, k))
      && (b == [] ==> Values(a + more + b, None, s, k) == before + added)
  {
    var at := OpenAfter(a, None);
    ValuesConcat(a, b, None, s, k);
    ValuesConcat(a + more, b, None, s, k);
    ValuesConcat(a, more, None, s, k);
    HeaderStarts(b, at, OpenAfter(a + more, None), s, k);
    InsertedBetween(Values(a, None, s, k), Values(more, at, s, k), Values(b, at, s, k));
  }

  lemma ValuesInsertedAt(lines: seq<Line>, n: nat, more: seq<Line>, s: string, k: string)
    requires n <= |lines| && (n < |lines| ==> lines[n].Header?)
    ensures var before, added := Values(lines, None, s, k), Values(more, OpenAfter(lines[..n], None), s, k);
      var after := Values(lines[..n] + more + lines[n..], None, s, k);
      Inserted(before, added, after) && (n == |lines| ==> after == before + added)
  {
    assert lines[..n] + lines[n..] == lines;
    ValuesInserted(lines[..n], more, lines[n..], s, k);
  }

  lemma WrittenClosed(lines: seq<Line>, section: string, key: string)
    ensures AllClosed(Written(lines, section, key)) && Written(lines, section, key) != []
  {
    assert (key + "=on")[|key + "=on"| - 1] == 'n';
    assert ("[" + section + "]")[|"[" + section + "]"| - 1] == ']';
  }

  lemma PiecesRead(a: seq<Line>, w: seq<string>, b: seq<Line>)
    requires Genuine(a) && Genuine(b)
    ensures ReadAll(AllPieces(Texts(a) + w + Texts(b))) == a + ReadAll(AllPieces(w)) + b
  {
    var ta, tb := Texts(a), Texts(b);
    PiecesConcat(ta + w, tb);
    PiecesConcat(ta, w);
    PiecesBreakless(ta);
    PiecesBreakless(tb);
    ReadAllConcat(ta + AllPieces(w), tb);
    ReadAllConcat(ta, AllPieces(w));
    GenuineReads(a);
    GenuineReads(b);
  }

  lemma PrintedBetween(a: seq<Line>, w: seq<string>, b: seq<Line>, content: string, s: string, k: string)
    requires Genuine(a) && Genuine(b) && AllClosed(w) && w != []
    ensures TextValues(Printed(Texts(a) + w + Texts(b), content), s, k)
         == Values(a + ReadAll(AllPieces(w)) + b, None, s, k)
  {
    PiecesRead(a, w, b);
    PrintedPieces(Texts(a) + w + Texts(b), content, s, k);
  }

  lemma EnabledReads(content: string, section: string, key: string, s: string, k: string) returns (n: nat)
    requires !ValidNames(section, key)
    ensures var lines := ReadLines(content);
      && n <= |lines| && (n < |lines| ==> lines[n].Header?) && (!HasSection(lines, section) ==> n == |lines|)
      && OpenAfter(lines[..n], None) == OpenThere(lines, section)
      && TextValues(Rewrite(content, section, key, true), s, k)
         == Values(lines[..n] + ReadAll(AllPieces(Written(lines, section, key))) + lines[n..], None, s, k)
  {
    var lines := ReadLines(content);
    ReadGenuine(content);
    n := EnableInserts(lines, section, key);
    var a, w, b := lines[..n], Written(lines, section, key), lines[n..];
    WrittenClosed(lines, section, key);
    PrintedBetween(a, w, b, content, s, k);
  }

  /**
   Enabling a pair that cannot be written, whatever its names: every pair keeps its values and gains, at one
   place, what the written lines read as in the section open there; at the end if the section is missing.
   */
  lemma InvalidEnable(content: string, section: string, key: string, s: string, k: string)
    requires !ValidNames(section, key)
    ensures var lines, before, after :=
        ReadLines(content), TextValues(content, s, k), TextValues(Rewrite(content, section, key, true), s, k);
      && Inserted(before, Leaked(lines, section, key, s, k), after)
      && (!HasSection(lines, section) ==> after == before + Leaked(lines, section, key, s, k))
  {
    var lines := ReadLines(content);
    var n := EnabledReads(content, section, key, s, k);
    ValuesInsertedAt(lines, n, ReadAll(AllPieces(Written(lines, section, key))), s, k);
  }

  // ---------------------------------------------------------------------------------
  // Names without line breaks.

  /** The key and the value that the line written for `key` is read back with, if it is read as an entry. */
  function KeyLeak(key: string): Option<(string, string)> {
    var n, e := Indent(key), Find(key, '=');
    if n >= e || key[n] == '#' || key[n] == ';' then None
    else Some((StripRight(key[n..e]), if e == |key| then "on" else key[e + 1..] + "=on"))
  }

  /** The same for the line written for a section that is empty or has a ']'. */
  function HeaderLeak(section: string): Option<(string, string)> {
    var e := Find(section, '=');
    if e == |section| then None else Some((StripRight("[" + section[..e]), section[e + 1..] + "]"))
  }

  function LeakedAs(leak: Option<(string, string)>, k: string): seq<string> {
    if leak.Some? && leak.value.0 == k then [leak.value.1] else []
  }

  /** It is an entry, or neither entry nor header. */
  predicate ReadsAs(line: Line, leak: Option<(string, string)>) {
    if leak.Some? then line.Entry? && (line.key, line.value) == leak.value else line.Other?
  }

  lemma NoHeaderLine(line: string)
    requires line != "" && !IsSpace(line[|line| - 1]) && line[|line| - 1] != ']'
    ensures HeaderName(line) == None
  {
    var n := Indent(line);
    if n < |line| && line[n] == '[' {
      var m := n + 1 + Find(line[n + 1..], ']');
      FindMeaning(line[n + 1..], ']');
      if m < |line| {
        assert line[m + 1..][|line| - 1 - (m + 1)] == line[|line| - 1];
        IndentMeaning(line[m + 1..]);
      }
    }
  }

  lemma KeyLineSign(key: string)
    ensures var line, e := key + "=on", Find(key, '=');
      && Find(line, '=') == e < |line| && line[..e] == key[..e]
      && line[e + 1..] == (if e == |key| then "on" else key[e + 1..] + "=on")
  {
    var line, e := key + "=on", Find(key, '=');
    FindMeaning(key, '=');
    assert forall i :: 0 <= i < |key| ==> line[i] == key[i];
    FindAt(line, '=', e);
  }

  /** Lines with the same start have the same indent, or both nothing but white space there. */
  lemma SameIndent(a: string, b: string, e: nat)
    requires e <= |a| && e <= |b| && a[..e] == b[..e]
    ensures if Indent(a) < e then Indent(b) == Indent(a) else Indent(b) >= e
  {
    IndentMeaning(a);
    IndentMeaning(b);
    assert forall i :: 0 <= i < e ==> a[i] == a[..e][i] == b[i];
    if Indent(a) < e {
      IndentAt(b, Indent(a));
    }
  }

  lemma SamePart(a: string, b: string, n: nat, e: nat)
    requires e <= |a| && e <= |b| && a[..e] == b[..e]
    ensures n < e ==> a[n..e] == b[n..e] && a[n] == b[n]
  {
    assert n < e ==> a[n..e] == a[..e][n..] && b[n..e] == b[..e][n..] && a[n] == a[..e][n] && b[n] == b[..e][n];
  }

  lemma KeyLineNoHeader(key: string)
    ensures HeaderName(key + "=on") == None
  {
    var line := key + "=on";
    assert line[|line| - 1] == 'n';
    NoHeaderLine(line);
  }

  lemma OtherParts(line: string)
    requires var n, e := Indent(line), Find(line, '=');
      e == |line| || n >= e || line[n] == '#' || line[n] == ';'
    ensures EntryOf(line) == Other(line)
  {
  }

  lemma ClassifyNoHeader(line: string)
    requires HeaderName(line) == None
    ensures Classify(line) == EntryOf(line)
  {
  }

  lemma KeyLineReads(key: string)
    ensures ReadsAs(Classify(key + "=on"), KeyLeak(key))
  {
    var line, n, e := key + "=on", Indent(key), Find(key, '=');
    KeyLineSign(key);
    SameIndent(key, line, e);
    SamePart(key, line, n, e);
    if KeyLeak(key).Some? {
      EntryParts(line, line[..n], StripRight(key[n..e]), KeyLeak(key).value.1);
    } else {
      OtherParts(line);
    }
    KeyLineNoHeader(key);
    ClassifyNoHeader(line);
  }

  lemma BadHeader(section: string)
    requires section == "" || ']' in section
    ensures HeaderName("[" + section + "]") == None
  {
    var line := "[" + section + "]";
    IndentAt(line, 0);
    var rest := line[1..];
    assert rest == section + "]";
    var m := Find(rest, ']');
    FindMeaning(rest, ']');
    if section != "" {
      var i :| 0 <= i < |section| && section[i] == ']';
      assert rest[i] == ']';
      assert line[m + 2..][|line| - 1 - (m + 2)] == ']';
      IndentMeaning(line[m + 2..]);
    }
  }

  lemma HeaderLineParts(section: string)
    ensures var line, e := "[" + section + "]", Find(section, '=');
      && Indent(line) == 0 && line[0] == '['
      && (e == |section| ==> Find(line, '=') == |line|)
      && (e < |section| ==>
            Find(line, '=') == e + 1 && line[..e + 1] == "[" + section[..e] && line[e + 2..] == section[e + 1..] + "]")
  {
    var line, e := "[" + section + "]", Find(section, '=');
    IndentAt(line, 0);
    FindMeaning(section, '=');
    assert forall i :: 0 <= i < |section| ==> line[i + 1] == section[i];
    FindAt(line, '=', if e == |section| then |line| else e + 1);
  }

  lemma HeaderLineReads(section: string)
    requires section == "" || ']' in section
    ensures ReadsAs(Classify("[" + section + "]"), HeaderLeak(section))
  {
    BadHeader(section);
    HeaderLineParts(section);
  }

  lemma LeakValues(line: Line, leak: Option<(string, string)>, at: Option<string>, s: string, k: string)
    requires ReadsAs(line, leak)
    ensures Values([line], at, s, k) == (if at == Some(s) then LeakedAs(leak, k) else []) && OpenAfter([line], at) == at
  {
    ValuesOne(line, at, s, k);
  }

  lemma NoBreaksConcat(a: string, b: string)
    requires NoBreaks(a) && NoBreaks(b)
    ensures NoBreaks(a + b)
  {
  }

  lemma WrittenBreakless(lines: seq<Line>, section: string, key: string)
    requires NoBreaks(section) && NoBreaks(key)
    ensures AllPieces(Written(lines, section, key)) == Written(lines, section, key)
  {
    NoBreaksConcat(key, "=on");
    NoBreaksConcat("[", section);
    NoBreaksConcat("[" + section, "]");
    PiecesBreakless(Written(lines, section, key));
  }

  /** What a pair gains when a pair without line breaks is enabled that cannot be written. */
  function Gained(lines: seq<Line>, section: string, key: string, s: string, k: string): seq<string> {
    if ValidSection(section) then (if s == section then LeakedAs(KeyLeak(key), k) else [])
    else if OpenAfter(lines, None) == Some(s) then LeakedAs(HeaderLeak(section), k) + LeakedAs(KeyLeak(key), k)
    else []
  }

  /** The two lines at the end: a header line that reads as a header or as something else, and the key's line. */
  lemma TwoLines(section: string, key: string, at: Option<string>, s: string, k: string)
    requires NoBreaks(section)
    ensures Values(ReadAll(["[" + section + "]", key + "=on"]), at, s, k) ==
      if ValidSection(section) then (if s == section then LeakedAs(KeyLeak(key), k) else [])
      else if at == Some(s) then LeakedAs(HeaderLeak(section), k) + LeakedAs(KeyLeak(key), k)
      else []
  {
    var h, e := Classify("[" + section + "]"), Classify(key + "=on");
    assert ReadAll(["[" + section + "]", key + "=on"]) == [h] + [e];
    ValuesConcat([h], [e], at, s, k);
    KeyLineReads(key);
    if ValidSection(section) {
      HeaderReads(section);
      ValuesOne(h, at, s, k);
      LeakValues(e, KeyLeak(key), Some(section), s, k);
    } else {
      HeaderLineReads(section);
      LeakValues(h, HeaderLeak(section), at, s, k);
      LeakValues(e, KeyLeak(key), at, s, k);
    }
  }

  lemma BlankFirst(lines: seq<string>, at: Option<string>, s: string, k: string)
    ensures Values(ReadAll([""] + lines), at, s, k) == Values(ReadAll(lines), at, s, k)
    ensures [] + lines == lines
  {
    BlankOther("");
    ValuesOne(Other(""), at, s, k);
    ValuesConcat([Other("")], ReadAll(lines), at, s, k);
    assert ReadAll([""] + lines) == [Other("")] + ReadAll(lines);
  }

  lemma LeakedBreakless(lines: seq<Line>, section: string, key: string, s: string, k: string)
    requires Genuine(lines) && !ValidNames(section, key) && NoBreaks(section) && NoBreaks(key)
    ensures Leaked(lines, section, key, s, k) == Gained(lines, section, key, s, k)
  {
    WrittenBreakless(lines, section, key);
    GenuineNames(lines, section, key);
    if HasSection(lines, section) {
      KeyLineReads(key);
      assert ReadAll([key + "=on"]) == [Classify(key + "=on")];
      LeakValues(Classify(key + "=on"), KeyLeak(key), Some(section), s, k);
    } else {
      var at, two := OpenAfter(lines, None), ["[" + section + "]", key + "=on"];
      TwoLines(section, key, at, s, k);
      BlankFirst(two, at, s, k);
    }
  }

  /**
   For names without line breaks: a section that is empty or has a ']' leaves no header, so its entry goes to the
   section open at the end of the text, and so does its header line if it has a '='; a key that is not valid but
   has something before its first '=' goes to the key that this is, in the section named.  Nothing else changes.
   */
  lemma InvalidEnableExactly(content: string, section: string, key: string, s: string, k: string)
    requires !ValidNames(section, key) && NoBreaks(section) && NoBreaks(key)
    ensures var lines, before, after :=
        ReadLines(content), TextValues(content, s, k), TextValues(Rewrite(content, section, key, true), s, k);
      && Inserted(before, Gained(lines, section, key, s, k), after)
      && (!HasSection(lines, section) ==> after == before + Gained(lines, section, key, s, k))
  {
    ReadGenuine(content);
    InvalidEnable(content, section, key, s, k);
    LeakedBreakless(ReadLines(content), section, key, s, k);
  }

  /** A valid key is not misread, and one with a '=' leaks to what stands before it. */
  lemma KeyLeakOf(key: string, rest: string)
    requires ValidKey(key)
    ensures KeyLeak(key) == Some((key, "on"))
    ensures KeyLeak(key + "=" + rest) == Some((key, rest + "=on"))
  {
    var longer := key + "=" + rest;
    IndentAt(key, 0);
    IndentAt(longer, 0);
    FindAt(key, '=', |key|);
    FindAt(longer, '=', |key|);
    assert key[0..|key|] == key;
    assert longer[0..|key|] == key && longer[|key| + 1..] == rest;
    StripRightKeeps(key);
  }

  // ---------------------------------------------------------------------------------
  // The override map does not follow.

  lemma InsertedOn(before: seq<string>, more: seq<string>, after: seq<string>)
    requires Inserted(before, more, after)
    ensures AllOn(after) <==> AllOn(before) && AllOn(more)
    ensures after == [] <==> before == [] && more == []
  {
    var n :| 0 <= n <= |before| && after == before[..n] + more + before[n..];
    assert forall i :: 0 <= i < |before| ==> before[i] == after[if i < n then i else i + |more|];
    assert forall i :: 0 <= i < |more| ==> more[i] == after[n + i];
  }

  /**
   Enabling a pair that cannot be written keeps another pair's map and text in agreement exactly when the written
   lines give it nothing, or only what the map lists anyway.
   */
  lemma InvalidEnableAgrees(o: Overrides, hostname: string, sim: string, h: string, s: string)
    requires !ValidNames(hostname, sim) && (h != hostname || s != sim) && AgreesOn(o, h, s)
    ensures var more := Leaked(ReadLines(ConfText(o)), hostname, sim, h, s);
      AgreesOn(SetOverride(o, hostname, sim, true), h, s) <==> more == [] || (s in SimsOf(o, h) && AllOn(more))
  {
    StoredText(o, hostname, sim, true, h, s);
    NextSimsMembers(SimsOf(o, hostname), sim, true, s);
    InvalidEnable(ConfText(o), hostname, sim, h, s);
    var before, after := TextValues(ConfText(o), h, s), TextValues(Rewrite(ConfText(o), hostname, sim, true), h, s);
    InsertedOn(before, Leaked(ReadLines(ConfText(o)), hostname, sim, h, s), after);
    assert SimsOf(SetOverride(o, hostname, sim, true), h)
        == if h == hostname then NextSims(SimsOf(o, hostname), sim, true) else SimsOf(o, h);
  }

  lemma BracketGain(lines: seq<Line>, hostname: string, sim: string, h: string)
    requires ']' in hostname && '=' !in hostname && ValidKey(sim) && OpenAfter(lines, None) == Some(h)
    ensures Gained(lines, hostname, sim, h, sim) == ["on"]
  {
    KeyLeakOf(sim, "");
    FindMeaning(hostname, '=');
  }

  /** A host name with a bracket turns its simulation on for the host whose section is the last of the text. */
  lemma BracketHostLeaks(o: Overrides, hostname: string, sim: string, h: string)
    requires NoBreaks(hostname) && ']' in hostname && '=' !in hostname && ValidKey(sim)
    requires OpenAfter(ReadLines(ConfText(o)), None) == Some(h) && AgreesOn(o, h, sim) && sim !in SimsOf(o, h)
    ensures var t := SetOverride(o, hostname, sim, true);
      TextValues(ConfText(t), h, sim) == ["on"] && sim !in SimsOf(t, h) && !AgreesOn(t, h, sim)
  {
    var lines := ReadLines(ConfText(o));
    ReadGenuine(ConfText(o));
    OpenIsValid(lines, None);
    GenuineNames(lines, hostname, sim);
    InvalidEnableExactly(ConfText(o), hostname, sim, h, sim);
    StoredText(o, hostname, sim, true, h, sim);
    BracketGain(lines, hostname, sim, h);
  }

  lemma {:induction false} OpenIsValid(lines: seq<Line>, current: Option<string>)
    requires Genuine(lines) && (current.Some? ==> ValidSection(current.value))
    ensures OpenAfter(lines, current).Some? ==> ValidSection(OpenAfter(lines, current).value)
  {
    if lines != [] {
      if lines[0].Header? {
        HeaderValid(lines[0].text);
      }
      OpenIsValid(lines[1..], Opened(lines[0], current));
    }
  }
}
