/**
 Repeating an edit of `_modify_ini_content` (app/routers/aggregate.py) on the text it returned.  On
 lines an edit is idempotent; on texts it is not, because an empty last line is dropped and a line
 end may be added.  This module says exactly when the text stays.
 */
module RewriteTwice {
  import opened Prelude
  import opened IniText
  import opened IniEditor
  import opened SimOverrides

  // ---------------------------------------------------------------------------------
  // Joined lines.

  lemma {:induction false} JoinSnoc(lines: seq<string>, newline: string)
    requires |lines| > 1
    ensures JoinLines(lines, newline) == JoinLines(lines[..|lines| - 1], newline) + newline + lines[|lines| - 1]
  {
    var front := lines[..|lines| - 1];
    if |lines| > 2 {
      JoinSnoc(lines[1..], newline);
      assert lines[1..][..|lines| - 2] == front[1..];
      var rest := JoinLines(front[1..], newline);
      assert lines[0] + newline + (rest + newline + lines[|lines| - 1]) ==
        (lines[0] + newline + rest) + newline + lines[|lines| - 1];
    }
  }

  /** Joined lines end with a line end exactly when there are two or more and the last is empty. */
  lemma JoinedEnd(lines: seq<string>, newline: string)
    requires Breakless(lines) && IsNewline(newline)
    ensures EndsWith(JoinLines(lines, newline), newline) <==> |lines| > 1 && lines[|lines| - 1] == ""
    ensures |lines| > 1 && lines[|lines| - 1] == "" ==>
      JoinLines(lines, newline) == JoinLines(lines[..|lines| - 1], newline) + newline
    ensures |lines| > 0 && lines[|lines| - 1] != "" ==>
      !EndsWith(JoinLines(lines, newline), "\n") && JoinLines(lines, newline) != ""
  {
    var s := JoinLines(lines, newline);
    if |lines| > 0 {
      var last := lines[|lines| - 1];
      if |lines| > 1 {
        JoinSnoc(lines, newline);
        var before := JoinLines(lines[..|lines| - 1], newline) + newline;
        assert s == before + last;
        if last == "" {
          assert s == before;
          assert s[|s| - |newline|..] == newline;
        }
      }
      if last != "" {
        LastChar(s, last, newline);
      }
    }
  }

  lemma LastChar(s: string, last: string, newline: string)
    requires last != "" && NoBreaks(last) && IsNewline(newline)
    requires |last| <= |s| && s[|s| - 1] == last[|last| - 1]
    ensures !EndsWith(s, newline) && !EndsWith(s, "\n")
  {
    assert !IsBreak(s[|s| - 1]);
  }

  lemma {:induction false} NoReturns(lines: seq<string>)
    requires Breakless(lines)
    ensures forall i :: 0 <= i < |JoinLines(lines, "\n")| ==> JoinLines(lines, "\n")[i] != '\r'
  {
    if |lines| == 1 {
      assert forall i :: 0 <= i < |lines[0]| ==> !IsBreak(lines[0][i]);
    } else if |lines| > 1 {
      NoReturns(lines[1..]);
      assert forall i :: 0 <= i < |lines[0]| ==> !IsBreak(lines[0][i]);
    }
  }

  /** The kind of line end is recognised again in a text that has one. */
  lemma NewlineStays(lines: seq<string>, newline: string)
    requires Breakless(lines) && IsNewline(newline)
    ensures NewlineOf(JoinLines(lines, newline) + newline) == newline
    ensures |lines| > 1 ==> NewlineOf(JoinLines(lines, newline)) == newline
  {
    var s := JoinLines(lines, newline);
    if newline == "\n" {
      NoReturns(lines);
    } else {
      var t := s + newline;
      assert t[|s|] == '\r' && t[|s| + 1] == '\n';
      if |lines| > 1 {
        var n := |lines[0]|;
        assert s[n] == '\r' && s[n + 1] == '\n';
      }
    }
  }

  // ---------------------------------------------------------------------------------
  // The edit on lines of text.

  function EditTexts(lines: seq<string>, section: string, key: string, on: bool): seq<string> {
    Texts(EditLines(ReadAll(lines), section, key, on))
  }

  lemma EditedTexts(content: string, section: string, key: string, on: bool)
    requires ValidNames(section, key)
    ensures var u := EditTexts(SplitLines(content), section, key, on);
      Breakless(u) && EditLines(ReadAll(u), section, key, on) == ReadAll(u) && EditTexts(u, section, key, on) == u
  {
    var lines := EditLines(ReadLines(content), section, key, on);
    ReadGenuine(content);
    EditLinesGenuine(ReadLines(content), section, key, on);
    GenuineReads(lines);
    EditIdempotent(ReadLines(content), section, key, on);
  }

  /** A text that is not empty keeps a line. */
  lemma KeepsALine(lines: seq<string>, section: string, key: string, on: bool)
    requires lines != []
    ensures EditTexts(lines, section, key, on) != []
  {
    var ls := ReadAll(lines);
    assert EditLine(ls[0], section, key, on, None, false) != [];
  }

  /** An enabled entry and its header make at least two lines. */
  lemma EnabledIsLong(lines: seq<string>, section: string, key: string)
    ensures EditTexts(lines, section, key, true) != [] && EditTexts(lines, section, key, true) != [""]
  {
    var u := EditLines(ReadAll(lines), section, key, true);
    EditSets(ReadAll(lines), section, key, true);
  }

  /** The flag `key_handled` at the end of the pass. */
  predicate HandledEnd(lines: seq<Line>, section: string, key: string, on: bool, current: Option<string>,
                       handled: bool) {
    if lines == [] then handled
    else HandledEnd(lines[1..], section, key, on, Opened(lines[0], current),
                    HandledAfter(lines[0], section, key, on, current, handled))
  }

  /** What the pass writes before it comes to the end of the file. */
  function EditBody(lines: seq<Line>, section: string, key: string, on: bool, current: Option<string>,
                    handled: bool): seq<Line> {
    if lines == [] then []
    else
      EditLine(lines[0], section, key, on, current, handled)
      + EditBody(lines[1..], section, key, on, Opened(lines[0], current),
                 HandledAfter(lines[0], section, key, on, current, handled))
  }

  /** Whether the pass writes the key at the end of the file. */
  predicate WrittenAtEnd(lines: seq<Line>, section: string, key: string, on: bool, current: Option<string>,
                         handled: bool) {
    on && OpenAfter(lines, current) == Some(section) && !HandledEnd(lines, section, key, on, current, handled)
  }

  function EndTail(lines: seq<Line>, section: string, key: string, on: bool, current: Option<string>,
                   handled: bool): seq<Line> {
    if WrittenAtEnd(lines, section, key, on, current, handled) then [EntryLine("", key)] else []
  }

  lemma Prepend(head: seq<Line>, more: seq<Line>, tail: seq<Line>)
    ensures head + (more + tail) == head + more + tail
  {
  }

  lemma {:induction false} EditParts(lines: seq<Line>, section: string, key: string, on: bool, current: Option<string>,
                                     handled: bool)
    ensures Edit(lines, section, key, on, current, handled)
         == EditBody(lines, section, key, on, current, handled) + EndTail(lines, section, key, on, current, handled)
  {
    if lines != [] {
      var next, h := Opened(lines[0], current), HandledAfter(lines[0], section, key, on, current, handled);
      EditParts(lines[1..], section, key, on, next, h);
      Prepend(EditLine(lines[0], section, key, on, current, handled),
              EditBody(lines[1..], section, key, on, next, h), EndTail(lines[1..], section, key, on, next, h));
    }
  }

  /** One more line at the end: what it becomes depends on the section open there and on the flag. */
  lemma {:induction false} BodySnoc(lines: seq<Line>, x: Line, section: string, key: string, on: bool,
                                    current: Option<string>, handled: bool)
    ensures EditBody(lines + [x], section, key, on, current, handled)
         == EditBody(lines, section, key, on, current, handled)
            + EditLine(x, section, key, on, OpenAfter(lines, current),
                       HandledEnd(lines, section, key, on, current, handled))
    ensures x.Other? ==>
      WrittenAtEnd(lines + [x], section, key, on, current, handled)
        == WrittenAtEnd(lines, section, key, on, current, handled)
  {
    if lines == [] {
      assert [] + [x] == [x] && [x][1..] == [];
      var made := EditLine(x, section, key, on, current, handled);
      assert made + [] == [] + made;
    } else {
      var line, rest := lines[0], lines[1..];
      var next, h := Opened(line, current), HandledAfter(line, section, key, on, current, handled);
      BodySnoc(rest, x, section, key, on, next, h);
      assert (lines + [x])[0] == line && (lines + [x])[1..] == rest + [x];
      Prepend(EditLine(line, section, key, on, current, handled), EditBody(rest, section, key, on, next, h),
              EditLine(x, section, key, on, OpenAfter(rest, next), HandledEnd(rest, section, key, on, next, h)));
    }
  }

  /** So what an edit leaves alone it leaves alone without an empty last line, too. */
  lemma BlankEndStays(lines: seq<Line>, section: string, key: string, on: bool)
    requires EditLines(lines + [Other("")], section, key, on) == lines + [Other("")]
    ensures EditLines(lines, section, key, on) == lines
  {
    var longer := lines + [Other("")];
    assert HasSection(longer, section) <==> HasSection(lines, section) by {
      assert forall i :: 0 <= i < |lines| ==> longer[i] == lines[i];
    }
    var made, tail := EditBody(lines, section, key, on, None, false), EndTail(lines, section, key, on, None, false);
    EditParts(lines, section, key, on, None, false);
    EditParts(longer, section, key, on, None, false);
    BodySnoc(lines, Other(""), section, key, on, None, false);
    if on && !HasSection(lines, section) {
      EditElsewhere(longer, section, key, on, None, false);
      assert false;
    }
    NoTail(made, tail, lines, key);
    assert made + [] == made;
  }

  lemma NoTail(made: seq<Line>, tail: seq<Line>, lines: seq<Line>, key: string)
    requires made + [Other("")] + tail == lines + [Other("")]
    requires tail == [] || tail == [EntryLine("", key)]
    ensures tail == [] && made == lines
  {
    var all := lines + [Other("")];
    assert all[|all| - 1] == Other("") && all[..|all| - 1] == lines;
    if tail == [] {
      assert made + [Other("")] + [] == made + [Other("")];
      assert (made + [Other("")])[..|made|] == made;
    }
  }

  lemma BlankEndTexts(texts: seq<string>, section: string, key: string, on: bool)
    requires texts != [] && texts[|texts| - 1] == ""
    requires EditLines(ReadAll(texts), section, key, on) == ReadAll(texts)
    ensures EditTexts(texts[..|texts| - 1], section, key, on) == texts[..|texts| - 1]
  {
    var short := texts[..|texts| - 1];
    ReadBlankEnd(texts);
    BlankEndStays(ReadAll(short), section, key, on);
    ReadTexts(short);
  }

  lemma ReadBlankEnd(texts: seq<string>)
    requires texts != [] && texts[|texts| - 1] == ""
    ensures ReadAll(texts) == ReadAll(texts[..|texts| - 1]) + [Other("")]
  {
    BlankOther("");
  }

  lemma ReadTexts(texts: seq<string>)
    ensures Texts(ReadAll(texts)) == texts
  {
    forall i | 0 <= i < |texts| ensures Classify(texts[i]).text == texts[i] {
    }
  }

  // ---------------------------------------------------------------------------------
  // The text.

  /** Not empty, and not ended by a line feed. */
  predicate Unended(content: string) {
    content != "" && !EndsWith(content, "\n")
  }

  predicate TwoBlankEnd(lines: seq<string>) {
    |lines| > 2 && lines[|lines| - 1] == "" && lines[|lines| - 2] == ""
  }

  /** `u` are lines that a further edit does not change, with or without an empty last one. */
  predicate Settled(u: seq<string>, section: string, key: string, on: bool) {
    Breakless(u) && EditTexts(u, section, key, on) == u
    && (u != [] && u[|u| - 1] == "" ==> EditTexts(u[..|u| - 1], section, key, on) == u[..|u| - 1])
    && (u == [] ==> EditTexts([""], section, key, on) == [""])
    && (u == [""] ==> !on)
  }

  lemma PrintedEnds(content: string)
    ensures content == "" || EndsWith(content, "\n") || EndsWith(content, "\r\n") <==> !Unended(content)
  {
    if EndsWith(content, "\r\n") {
      assert content[|content| - 2..] == "\r\n";
      assert content[|content| - 1..] == content[|content| - 2..][1..];
    }
  }

  /**
   An empty last line: it becomes the line end, and the next edit keeps the text unless there is another
   one before it.
   */
  lemma TwiceBlankEnd(u: seq<string>, content: string, section: string, key: string, on: bool)
    requires Settled(u, section, key, on) && |u| > 1 && u[|u| - 1] == ""
    ensures Rewritten(Printed(u, content), section, key, on) == Printed(u, content) <==> !TwoBlankEnd(u)
  {
    var newline, v := NewlineOf(content), u[..|u| - 1];
    var t := Printed(u, content);
    JoinedEnd(u, newline);
    assert t == JoinLines(v, newline) + newline;
    SplitJoinEnded(v, newline);
    NewlineStays(v, newline);
    JoinedEnd(v, newline);
    EndedBy(JoinLines(v, newline), newline);
  }

  lemma EndedBy(s: string, newline: string)
    requires IsNewline(newline)
    ensures EndsWith(s + newline, "\n") && s + newline != s
  {
    assert (s + newline)[|s + newline| - 1..] == "\n";
    assert |s + newline| > |s|;
  }

  function Rewritten(text: string, section: string, key: string, on: bool): string {
    Printed(EditTexts(SplitLines(text), section, key, on), text)
  }

  /** No empty last line, and the text gets a line end: the next edit gives the same text. */
  lemma TwiceEnded(u: seq<string>, content: string, section: string, key: string, on: bool)
    requires Settled(u, section, key, on) && !(|u| > 1 && u[|u| - 1] == "") && !Unended(content)
    ensures Rewritten(Printed(u, content), section, key, on) == Printed(u, content)
  {
    var newline := NewlineOf(content);
    var t := Printed(u, content);
    JoinedEnd(u, newline);
    PrintedEnds(content);
    assert t == JoinLines(u, newline) + newline;
    SplitJoinEnded(u, newline);
    NewlineStays(u, newline);
    EndedBy(JoinLines(u, newline), newline);
  }

  lemma PrintedOpen(u: seq<string>, content: string)
    requires Breakless(u) && u != [] && u[|u| - 1] != "" && Unended(content)
    ensures Printed(u, content) == JoinLines(u, NewlineOf(content)) && Unended(Printed(u, content))
  {
    JoinedEnd(u, NewlineOf(content));
    PrintedEnds(content);
  }

  lemma OpenReadBack(u: seq<string>, newline: string)
    requires Breakless(u) && u != [] && u[|u| - 1] != "" && IsNewline(newline)
    ensures var t := JoinLines(u, newline); SplitLines(t) == u && JoinLines(u, NewlineOf(t)) == t
  {
    SplitJoin(u, newline);
    if |u| > 1 {
      NewlineStays(u, newline);
    }
  }

  /** No empty last line, and the text gets no line end: the next edit gives the same text, unless the text is empty. */
  lemma TwiceOpen(u: seq<string>, content: string, section: string, key: string, on: bool)
    requires Settled(u, section, key, on) && u != [] && u[|u| - 1] != "" && Unended(content)
    ensures Rewritten(Printed(u, content), section, key, on) == Printed(u, content)
  {
    PrintedOpen(u, content);
    OpenReadBack(u, NewlineOf(content));
    PrintedOpen(u, Printed(u, content));
  }

  /** A single empty line printed without a line end is the empty text, which the next edit ends. */
  lemma TwiceEmpty(content: string, section: string, key: string)
    requires Unended(content)
    ensures Rewritten(Printed([""], content), section, key, false) != Printed([""], content)
  {
    PrintedEnds(content);
    assert Printed([""], content) == "";
    assert EditTexts([], section, key, false) == [];
  }

  lemma EditedSettled(content: string, section: string, key: string, on: bool)
    requires ValidNames(section, key)
    ensures Settled(EditTexts(SplitLines(content), section, key, on), section, key, on)
  {
    EditedTexts(content, section, key, on);
    if on {
      EnabledIsLong(SplitLines(content), section, key);
    }
    StaysSettled(EditTexts(SplitLines(content), section, key, on), section, key, on);
  }

  lemma StaysSettled(u: seq<string>, section: string, key: string, on: bool)
    requires Breakless(u) && EditLines(ReadAll(u), section, key, on) == ReadAll(u)
    requires EditTexts(u, section, key, on) == u
    requires on ==> u != [] && u != [""]
    ensures Settled(u, section, key, on)
  {
    if u == [] {
      BlanksStay([""], section, key);
    } else if u[|u| - 1] == "" {
      BlankEndTexts(u, section, key, on);
    }
  }

  /** Disabling changes nothing in empty lines. */
  lemma BlanksStay(lines: seq<string>, section: string, key: string)
    requires forall i :: 0 <= i < |lines| ==> lines[i] == ""
    ensures EditTexts(lines, section, key, false) == lines
  {
    BlankOther("");
    assert forall i :: 0 <= i < |lines| ==> ReadAll(lines)[i] == Other("");
    EditElsewhere(ReadAll(lines), section, key, false, None, false);
    ReadTexts(lines);
  }

  /** The edited lines tell whether a further edit changes the text. */
  lemma RewriteTwiceLines(content: string, section: string, key: string, on: bool)
    requires ValidNames(section, key)
    ensures var u, t := EditTexts(SplitLines(content), section, key, on), Rewrite(content, section, key, on);
      Rewrite(t, section, key, on) == t <==> !TwoBlankEnd(u) && !(u == [""] && Unended(content))
  {
    var u := EditTexts(SplitLines(content), section, key, on);
    EditedSettled(content, section, key, on);
    if |u| > 1 && u[|u| - 1] == "" {
      TwiceBlankEnd(u, content, section, key, on);
    } else if !Unended(content) {
      TwiceEnded(u, content, section, key, on);
    } else {
      KeepsALine(SplitLines(content), section, key, on);
      if u[|u| - 1] == "" {
        assert u == [""];
        TwiceEmpty(content, section, key);
      } else {
        TwiceOpen(u, content, section, key, on);
      }
    }
  }

  // ---------------------------------------------------------------------------------
  // The condition on the text that is passed in.

  /** Disabling erases the key's entries and changes nothing else. */
  lemma {:induction false} DisablingErases(lines: seq<Line>, section: string, key: string, current: Option<string>,
                                           handled: bool)
    ensures Edit(lines, section, key, false, current, handled) == Erase(lines, current, section, key)
  {
    if lines != [] {
      DisablingErases(lines[1..], section, key, Opened(lines[0], current),
                      HandledAfter(lines[0], section, key, false, current, handled));
    }
  }

  /** A header that ends an open section with this name. */
  predicate Closes(lines: seq<Line>, current: Option<string>, section: string) {
    lines != []
    && ((lines[0].Header? && current == Some(section)) || Closes(lines[1..], Opened(lines[0], current), section))
  }

  /** Enabling has dealt with the key before the end exactly if it has an entry or a section of that name ends. */
  lemma {:induction false} HandledEndMeaning(lines: seq<Line>, section: string, key: string, current: Option<string>,
                                             handled: bool)
    ensures HandledEnd(lines, section, key, true, current, handled)
       <==> handled || Values(lines, current, section, key) != [] || Closes(lines, current, section)
  {
    if lines != [] {
      HandledEndMeaning(lines[1..], section, key, Opened(lines[0], current),
                        HandledAfter(lines[0], section, key, true, current, handled));
    }
  }

  /** The section is open at the end for the first time, and the key is not in it. */
  predicate OpenWithout(lines: seq<Line>, section: string, key: string) {
    OpenAfter(lines, None) == Some(section) && Values(lines, None, section, key) == [] && !Closes(lines, None, section)
  }

  predicate BlankLast(lines: seq<Line>) {
    lines != [] && lines[|lines| - 1] == Other("")
  }

  /** The last line of what enabling makes of lines is empty exactly if their own last line is. */
  lemma BodyBlankLast(lines: seq<Line>, section: string, key: string)
    ensures var body := EditBody(lines, section, key, true, None, false);
      && (BlankLast(body) <==> BlankLast(lines))
      && (BlankLast(lines) ==> body[..|body| - 1] == EditBody(lines[..|lines| - 1], section, key, true, None, false))
  {
    if lines != [] {
      var v, x := lines[..|lines| - 1], lines[|lines| - 1];
      assert lines == v + [x];
      BodySnoc(v, x, section, key, true, None, false);
    }
  }

  predicate TwoBlankLines(lines: seq<Line>) {
    BlankLast(lines) && BlankLast(lines[..|lines| - 1])
  }

  lemma BodyTwoBlanks(lines: seq<Line>, section: string, key: string)
    ensures TwoBlankLines(EditBody(lines, section, key, true, None, false)) <==> TwoBlankLines(lines)
  {
    BodyBlankLast(lines, section, key);
    if BlankLast(lines) {
      BodyBlankLast(lines[..|lines| - 1], section, key);
    }
  }

  /** Enabling leaves two empty lines at the end exactly where they were, if nothing is written after them. */
  lemma EnabledTwoBlanks(lines: seq<Line>, section: string, key: string)
    ensures TwoBlankLines(EditLines(lines, section, key, true))
       <==> HasSection(lines, section) && !OpenWithout(lines, section, key) && TwoBlankLines(lines)
  {
    var u, body := EditLines(lines, section, key, true), EditBody(lines, section, key, true, None, false);
    EditParts(lines, section, key, true, None, false);
    HandledEndMeaning(lines, section, key, None, false);
    BodyTwoBlanks(lines, section, key);
    if !HasSection(lines, section) || OpenWithout(lines, section, key) {
      assert u[|u| - 1] == EntryLine("", key);
    } else {
      assert body + [] == body;
    }
  }

  /** The lines are `Genuine`, so only `Other("")` has an empty text. */
  lemma BlankTexts(lines: seq<Line>)
    requires Genuine(lines)
    ensures TwoBlankEnd(Texts(lines)) <==> |lines| > 2 && TwoBlankLines(lines)
  {
    BlankOther("");
    assert forall i :: 0 <= i < |lines| ==> (lines[i].text == "" <==> lines[i] == Other(""));
  }

  /** A text that loses an empty line with each further edit. */
  predicate Shrinks(content: string, section: string, key: string, on: bool) {
    var lines := ReadLines(content);
    if on then HasSection(lines, section) && !OpenWithout(lines, section, key) && TwoBlankLines(lines)
    else |Erase(lines, None, section, key)| > 2 && TwoBlankLines(Erase(lines, None, section, key))
  }

  /** A text without final line feed that an edit leaves empty, and the next one ends. */
  predicate Empties(content: string, section: string, key: string, on: bool) {
    !on && Unended(content) && Erase(ReadLines(content), None, section, key) == [Other("")]
  }

  lemma HeaderBeforeBlanks(lines: seq<Line>, section: string, key: string)
    requires HasSection(lines, section) && TwoBlankLines(EditLines(lines, section, key, true))
    ensures |EditLines(lines, section, key, true)| > 2
  {
    var u := Edit(lines, section, key, true, None, false);
    var i :| 0 <= i < |lines| && lines[i].Header? && lines[i].name == section;
    EditKeepsHeaders(lines, section, key, true, None, false, i);
    var j :| 0 <= j < |u| && u[j] == lines[i];
    assert u[..|u| - 1][|u| - 2] == u[|u| - 2];
  }

  lemma EnabledShrinks(content: string, section: string, key: string)
    requires ValidNames(section, key)
    ensures TwoBlankEnd(EditTexts(SplitLines(content), section, key, true)) <==> Shrinks(content, section, key, true)
  {
    var lines := ReadLines(content);
    var u := EditLines(lines, section, key, true);
    ReadGenuine(content);
    EditLinesGenuine(lines, section, key, true);
    BlankTexts(u);
    EnabledTwoBlanks(lines, section, key);
    if Shrinks(content, section, key, true) {
      HeaderBeforeBlanks(lines, section, key);
    }
  }

  lemma DisabledShrinks(content: string, section: string, key: string)
    requires ValidNames(section, key)
    ensures TwoBlankEnd(EditTexts(SplitLines(content), section, key, false)) <==> Shrinks(content, section, key, false)
    ensures EditTexts(SplitLines(content), section, key, false) == [""] && Unended(content) <==>
      Empties(content, section, key, false)
  {
    var lines := ReadLines(content);
    var u := EditLines(lines, section, key, false);
    ReadGenuine(content);
    EditLinesGenuine(lines, section, key, false);
    DisablingErases(lines, section, key, None, false);
    BlankTexts(u);
    BlankOther("");
    if Texts(u) == [""] {
      assert u[0].text == Texts(u)[0];
      assert u == [u[0]];
    }
    if u == [Other("")] {
      assert Texts(u) == [""];
    }
  }

  /**
   Repeating an edit on its own result leaves the text as it is, except for these texts.  Enabling:
   those that end in two empty lines and have the section, unless it is open at the end for the first
   time and without the key.  Disabling: those that end in two empty lines, after another line, once
   the key's entries are erased; and those without final line feed of which then a single empty line is left.
   */
  lemma RewriteTwiceExactly(content: string, section: string, key: string, on: bool)
    requires ValidNames(section, key)
    ensures var t := Rewrite(content, section, key, on);
      Rewrite(t, section, key, on) == t <==> !Shrinks(content, section, key, on) && !Empties(content, section, key, on)
  {
    RewriteTwiceLines(content, section, key, on);
    if on {
      EnabledShrinks(content, section, key);
      EnabledIsLong(SplitLines(content), section, key);
    } else {
      DisabledShrinks(content, section, key);
    }
  }

  /**
   Lines printed for a text: an empty last one is dropped, and a line end stands behind the last exactly if the text
   was empty or had one there, or such a line was dropped.
   */
  predicate PrintedAs(u: seq<string>, content: string, t: string) {
    if content == "" || EndsWith(content, "\n") then
      EndsWith(t, NewlineOf(content))
      && SplitLines(t) == (if u == [] then [""] else if |u| > 1 && u[|u| - 1] == "" then u[..|u| - 1] else u)
    else
      SplitLines(t) == (if u != [] && u[|u| - 1] == "" then u[..|u| - 1] else u)
      && (EndsWith(t, NewlineOf(content)) <==> |u| > 1 && u[|u| - 1] == "")
  }

  lemma PrintedText(u: seq<string>, content: string)
    requires Breakless(u)
    ensures PrintedAs(u, content, Printed(u, content))
  {
    var newline := NewlineOf(content);
    JoinedEnd(u, newline);
    SplitJoin(u, newline);
    SplitJoinEnded(u, newline);
    LineFeedEnds(content);
  }

  /** The text an edit returns, whatever it was given, is the edited lines so printed. */
  lemma RewriteText(content: string, section: string, key: string, on: bool)
    requires ValidNames(section, key)
    ensures PrintedAs(EditTexts(SplitLines(content), section, key, on), content, Rewrite(content, section, key, on))
  {
    EditedTexts(content, section, key, on);
    PrintedText(EditTexts(SplitLines(content), section, key, on), content);
  }

  lemma LineFeedEnds(content: string)
    ensures EndsWith(content, "\r\n") ==> EndsWith(content, "\n")
  {
    assert EndsWith(content, "\r\n") ==> content[|content| - 2..][1..] == "\n";
  }

  /** Texts that do change: of two or more empty lines each edit drops one, as long as two are left. */
  lemma BlankLinesShrink(content: string, section: string, key: string)
    requires ValidNames(section, key)
    requires |SplitLines(content)| > 1 && forall i :: 0 <= i < |SplitLines(content)| ==> SplitLines(content)[i] == ""
    ensures var lines, once := SplitLines(content), Rewrite(content, section, key, false);
      SplitLines(once) == lines[..|lines| - 1] && (Rewrite(once, section, key, false) != once <==> |lines| > 2)
  {
    var lines := SplitLines(content);
    SplitBreakless(content);
    BlanksStay(lines, section, key);
    JoinedEnd(lines, NewlineOf(content));
    SplitJoin(lines, NewlineOf(content));
    RewriteTwiceLines(content, section, key, false);
  }

  lemma ThreeBlanks() returns (s: string)
    ensures |s| == 3 && forall i :: 0 <= i < |s| ==> s[i] == '\n'
    ensures SplitLines(s) == ["", "", ""]
  {
    var feed := ['\n'];
    assert feed == "\n";
    var one := "" + feed + "";
    var two := "" + feed + one;
    s := "" + feed + two;
    SplitFirst("", feed, "");
    SplitFirst("", feed, one);
    SplitFirst("", feed, two);
  }

  /** Three line feeds are such a text. */
  lemma ThreeFeedsShrink(section: string, key: string) returns (s: string)
    requires ValidNames(section, key)
    ensures |s| == 3 && forall i :: 0 <= i < |s| ==> s[i] == '\n'
    ensures var once := Rewrite(s, section, key, false); Rewrite(once, section, key, false) != once
  {
    s := ThreeBlanks();
    BlankLinesShrink(s, section, key);
  }
}
