/**
 The text level of `_modify_ini_content`, and the per-client simulation overrides that
 `set_client_sim_override` keeps twice without GitHub: as a map for the dashboard and as the
 user-overrides text that is pushed to spokes (app/routers/aggregate.py).
 */
module SimOverrides {
  import opened Prelude
  import opened IniText
  import opened IniEditor

  function ReadAll(lines: seq<string>): (r: seq<Line>)
    ensures |r| == |lines|
  {
    seq(|lines|, i requires 0 <= i < |lines| => Classify(lines[i]))
  }

  function ReadLines(text: string): seq<Line> {
    ReadAll(SplitLines(text))
  }

  function Texts(lines: seq<Line>): (r: seq<string>)
    ensures |r| == |lines|
  {
    seq(|lines|, i requires 0 <= i < |lines| => lines[i].text)
  }

  predicate EndsWith(s: string, end: string) {
    |end| <= |s| && s[|s| - |end|..] == end
  }

  function NewlineOf(content: string): string {
    if exists i :: 0 <= i < |content| - 1 && content[i] == '\r' && content[i + 1] == '\n' then "\r\n" else "\n"
  }

  function Printed(lines: seq<string>, content: string): string {
    var newline := NewlineOf(content);
    var joined := JoinLines(lines, newline);
    if !EndsWith(joined, newline) && (content == "" || EndsWith(content, "\n") || EndsWith(content, "\r\n"))
    then joined + newline
    else joined
  }

  /** What `_modify_ini_content` returns. */
  function Rewrite(content: string, section: string, key: string, on: bool): string {
    Printed(Texts(EditLines(ReadLines(content), section, key, on)), content)
  }

  /** One turn of the source's loop: what is appended, and the new `in_target` and `key_handled`. */
  method EditTurn(line: Line, section: string, key: string, enabled: bool, inTarget: bool, keyHandled: bool,
                  ghost current: Option<string>)
    returns (made: seq<string>, inTarget': bool, keyHandled': bool)
    requires inTarget <==> current == Some(section)
    ensures made == Made(line, section, key, enabled, current, keyHandled)
    ensures inTarget' <==> Opened(line, current) == Some(section)
    ensures keyHandled' <==> HandledAfter(line, section, key, enabled, current, keyHandled)
  {
    made, inTarget', keyHandled' := [], inTarget, keyHandled;
    match line
    case Header(text, name) =>
      if inTarget && enabled && !keyHandled {
        made := made + [key + "=on"];
        keyHandled' := true;
      }
      inTarget' := name == section;
      made := made + [text];
    case Entry(text, indent, k, _) =>
      if inTarget && k == key {
        keyHandled' := true;
        if enabled {
          made := made + [indent + key + "=on"];
        }
      } else {
        made := made + [text];
      }
    case Other(text) =>
      made := made + [text];
  }

  /** The source's loop over the lines, each told apart, up to and including the end of the file. */
  method EditPass(lines: seq<Line>, section: string, key: string, enabled: bool)
    returns (updated: seq<string>, sectionFound: bool)
    ensures updated == Texts(Edit(lines, section, key, enabled, None, false))
    ensures sectionFound <==> HasSection(lines, section)
  {
    ghost var current: Option<string> := None;
    ghost var goal := Remaining(lines, 0, section, key, enabled, None, false);
    assert lines[0..] == lines;
    updated := [];
    sectionFound := false;
    var inTarget, keyHandled := false, false;
    for i := 0 to |lines|
      invariant inTarget <==> current == Some(section)
      invariant sectionFound <==> HasSection(lines[..i], section)
      invariant updated + Remaining(lines, i, section, key, enabled, current, keyHandled) == goal
    {
      EditStep(lines, i, section, key, enabled, current, keyHandled);
      HasSectionSnoc(lines, i, section);
      var made, inTarget', keyHandled' := EditTurn(lines[i], section, key, enabled, inTarget, keyHandled, current);
      sectionFound := sectionFound || (lines[i].Header? && inTarget');
      Regroup(updated, made, Remaining(lines, i + 1, section, key, enabled, Opened(lines[i], current), keyHandled'));
      updated, inTarget, keyHandled := updated + made, inTarget', keyHandled';
      current := Opened(lines[i], current);
    }
    assert lines[..|lines|] == lines;
    RemainingNothing(lines, section, key, enabled, current, keyHandled);
    if inTarget && enabled && !keyHandled {
      updated := updated + [key + "=on"];
    }
  }

  /** The whole pass, with the section created at the end when it is missing. */
  method EditAll(lines: seq<Line>, section: string, key: string, enabled: bool) returns (updated: seq<string>)
    ensures updated == Texts(EditLines(lines, section, key, enabled))
  {
    var sectionFound;
    updated, sectionFound := EditPass(lines, section, key, enabled);
    if !sectionFound && enabled {
      NewSectionTexts(Edit(lines, section, key, enabled, None, false), section, key);
      if |updated| > 0 && !Blank(updated[|updated| - 1]) {
        updated := updated + [""];
      }
      updated := updated + ["[" + section + "]"];
      updated := updated + [key + "=on"];
    }
  }

  /** _modify_ini_content */
  method ModifyIniContent(content: string, section: string, key: string, enabled: bool) returns (result: string)
    ensures result == Rewrite(content, section, key, enabled)
  {
    var updated := EditAll(ReadLines(content), section, key, enabled);
    result := Printed(updated, content);
  }

  /** The texts still to be written when the pass has come to line `i`. */
  ghost function Remaining(all: seq<Line>, i: nat, section: string, key: string, on: bool, current: Option<string>,
                           handled: bool): seq<string>
    requires i <= |all|
  {
    Texts(Edit(all[i..], section, key, on, current, handled))
  }

  lemma RemainingNothing(lines: seq<Line>, section: string, key: string, on: bool, current: Option<string>,
                         handled: bool)
    ensures Remaining(lines, |lines|, section, key, on, current, handled)
         == if current == Some(section) && on && !handled then [key + "=on"] else []
  {
    assert lines[|lines|..] == [];
    assert "" + key + "=on" == key + "=on";
  }

  lemma Regroup(a: seq<string>, b: seq<string>, c: seq<string>)
    ensures a + (b + c) == (a + b) + c
  {
  }

  /** The texts that one line becomes. */
  ghost function Made(line: Line, section: string, key: string, on: bool, current: Option<string>,
                      handled: bool): seq<string> {
    match line
    case Header(_, _) => if current == Some(section) && on && !handled then [key + "=on", line.text] else [line.text]
    case Entry(_, indent, k, _) =>
      if current == Some(section) && k == key then (if on then [indent + key + "=on"] else []) else [line.text]
    case Other(_) => [line.text]
  }

  lemma EditStep(all: seq<Line>, i: nat, section: string, key: string, on: bool, current: Option<string>, handled: bool)
    requires i < |all|
    ensures Remaining(all, i, section, key, on, current, handled)
         == Made(all[i], section, key, on, current, handled)
            + Remaining(all, i + 1, section, key, on, Opened(all[i], current),
                        HandledAfter(all[i], section, key, on, current, handled))
  {
    assert all[i..][0] == all[i] && all[i..][1..] == all[i + 1..];
    assert "" + key + "=on" == key + "=on";
    assert Texts(EditLine(all[i], section, key, on, current, handled))
        == Made(all[i], section, key, on, current, handled);
  }

  lemma NewSectionTexts(passed: seq<Line>, section: string, key: string)
    ensures Texts(passed + NewSection(passed, section, key))
         == Texts(passed)
            + (if passed != [] && !Blank(passed[|passed| - 1].text) then [""] else [])
            + ["[" + section + "]"] + [key + "=on"]
  {
    assert "" + key + "=on" == key + "=on";
  }

  lemma HasSectionSnoc(all: seq<Line>, i: nat, section: string)
    requires i < |all|
    ensures HasSection(all[..i + 1], section) <==>
      HasSection(all[..i], section) || (all[i].Header? && all[i].name == section)
  {
    var a, b := all[..i], all[..i + 1];
    if HasSection(a, section) {
      var j :| 0 <= j < |a| && a[j].Header? && a[j].name == section;
      assert b[j] == a[j];
    }
    if all[i].Header? && all[i].name == section {
      assert b[i] == all[i];
    }
    if HasSection(b, section) {
      var j :| 0 <= j < |b| && b[j].Header? && b[j].name == section;
      if j < i { assert a[j] == b[j]; }
    }
  }

  // ---------------------------------------------------------------------------------
  // Printing an edited text and reading it back.

  /** Lines that read back as what they stand for. */
  predicate Genuine(lines: seq<Line>) {
    forall i :: 0 <= i < |lines| ==> NoBreaks(lines[i].text) && Classify(lines[i].text) == lines[i]
  }

  lemma ReadGenuine(text: string)
    ensures Genuine(ReadLines(text)) && Texts(ReadLines(text)) == SplitLines(text)
  {
    SplitBreakless(text);
  }

  predicate ValidNames(section: string, key: string) {
    ValidSection(section) && ValidKey(key)
  }

  lemma WrittenGenuine(indent: string, key: string)
    requires ValidKey(key) && Blank(indent) && NoBreaks(indent)
    ensures Genuine([EntryLine(indent, key)])
  {
    EntryReads(indent, key);
  }

  lemma EntryIndent(line: Line)
    requires line.Entry? && Classify(line.text) == line && NoBreaks(line.text)
    ensures Blank(line.indent) && NoBreaks(line.indent)
  {
    IndentBlank(line.text);
  }

  lemma EditLineGenuine(line: Line, section: string, key: string, on: bool, current: Option<string>, handled: bool)
    requires Genuine([line]) && ValidKey(key)
    ensures Genuine(EditLine(line, section, key, on, current, handled))
  {
    assert [line][0] == line;
    WrittenGenuine("", key);
    if line.Entry? {
      EntryIndent(line);
      WrittenGenuine(line.indent, key);
    } else if line.Header? {
      GenuineConcat([EntryLine("", key)], [line]);
    }
  }

  lemma GenuineConcat(a: seq<Line>, b: seq<Line>)
    requires Genuine(a) && Genuine(b)
    ensures Genuine(a + b)
  {
  }

  lemma {:induction false} EditGenuine(lines: seq<Line>, section: string, key: string, on: bool,
                                       current: Option<string>, handled: bool)
    requires Genuine(lines) && ValidKey(key)
    ensures Genuine(Edit(lines, section, key, on, current, handled))
  {
    if lines == [] {
      WrittenGenuine("", key);
    } else {
      var next, h := Opened(lines[0], current), HandledAfter(lines[0], section, key, on, current, handled);
      EditGenuine(lines[1..], section, key, on, next, h);
      EditLineGenuine(lines[0], section, key, on, current, handled);
      GenuineConcat(EditLine(lines[0], section, key, on, current, handled),
                    Edit(lines[1..], section, key, on, next, h));
    }
  }

  lemma NewSectionGenuine(lines: seq<Line>, section: string, key: string)
    requires ValidNames(section, key)
    ensures Genuine(NewSection(lines, section, key))
  {
    HeaderReads(section);
    WrittenGenuine("", key);
    BlankOther("");
    var tail := [HeaderLine(section), EntryLine("", key)];
    assert [HeaderLine(section)] + [EntryLine("", key)] == tail;
    GenuineConcat([HeaderLine(section)], [EntryLine("", key)]);
    GenuineConcat([Other("")], tail);
  }

  lemma EditLinesGenuine(lines: seq<Line>, section: string, key: string, on: bool)
    requires Genuine(lines) && ValidNames(section, key)
    ensures Genuine(EditLines(lines, section, key, on))
  {
    EditGenuine(lines, section, key, on, None, false);
    var updated := Edit(lines, section, key, on, None, false);
    NewSectionGenuine(updated, section, key);
    GenuineConcat(updated, NewSection(updated, section, key));
  }

  lemma GenuineReads(lines: seq<Line>)
    requires Genuine(lines)
    ensures ReadAll(Texts(lines)) == lines
  {
  }

  /** An empty last line means nothing. */
  lemma BlankEndMeansNothing(lines: seq<string>, section: string, key: string)
    ensures Values(ReadAll(WithoutBlankEnd(lines)), None, section, key) == Values(ReadAll(lines), None, section, key)
  {
    if lines != [] && lines[|lines| - 1] == "" {
      var short := lines[..|lines| - 1];
      BlankOther("");
      assert ReadAll(lines) == ReadAll(short) + [Other("")];
      ValuesConcat(ReadAll(short), [Other("")], None, section, key);
      ValuesOne(Other(""), OpenAfter(ReadAll(short), None), section, key);
    }
  }

  /** Printing lines and splitting the text again changes no value. */
  lemma PrintedMeaning(lines: seq<string>, content: string, section: string, key: string)
    requires Breakless(lines)
    ensures Values(ReadLines(Printed(lines, content)), None, section, key) == Values(ReadAll(lines), None, section, key)
  {
    var newline := NewlineOf(content);
    SplitJoin(lines, newline);
    SplitJoinEnded(lines, newline);
    BlankEndMeansNothing(lines, section, key);
    BlankEndMeansNothing([""], section, key);
    assert WithoutBlankEnd([""]) == [];
  }

  /** The values of a pair in a text. */
  function TextValues(text: string, section: string, key: string): seq<string> {
    Values(ReadLines(text), None, section, key)
  }

  lemma RewriteReads(content: string, section: string, key: string, on: bool, s: string, k: string)
    requires ValidNames(section, key)
    ensures TextValues(Rewrite(content, section, key, on), s, k)
         == Values(EditLines(ReadLines(content), section, key, on), None, s, k)
  {
    var lines := EditLines(ReadLines(content), section, key, on);
    ReadGenuine(content);
    EditLinesGenuine(ReadLines(content), section, key, on);
    GenuineReads(lines);
    PrintedMeaning(Texts(lines), content, s, k);
  }

  /**
   Edit correctness on texts: through printing and reading back, enabling makes every value of
   the pair "on" and leaves at least one, disabling leaves none, and other pairs keep theirs.
   */
  lemma RewriteMeaning(content: string, section: string, key: string, on: bool, s: string, k: string)
    requires ValidNames(section, key)
    ensures var vs := TextValues(Rewrite(content, section, key, on), section, key);
      if on then vs != [] && AllOn(vs) else vs == []
    ensures s != section || k != key ==>
      TextValues(Rewrite(content, section, key, on), s, k) == TextValues(content, s, k)
  {
    RewriteReads(content, section, key, on, section, key);
    EditSets(ReadLines(content), section, key, on);
    if s != section || k != key {
      RewriteReads(content, section, key, on, s, k);
      EditKeepsOthers(ReadLines(content), section, key, on, s, k);
    }
  }

  // ---------------------------------------------------------------------------------
  // Exactly which names work.

  lemma {:induction false} ValuesNeedValidNames(lines: seq<Line>, current: Option<string>, section: string, key: string)
    requires Genuine(lines) && (current.Some? ==> ValidSection(current.value))
    requires Values(lines, current, section, key) != []
    ensures ValidNames(section, key)
  {
    if lines[0].Header? {
      HeaderValid(lines[0].text);
    } else if lines[0].Entry? {
      EntryValid(lines[0].text);
    }
    if LineValue(lines[0], current, section, key) == [] {
      ValuesNeedValidNames(lines[1..], Opened(lines[0], current), section, key);
    }
  }

  /**
   Enabling takes effect in the text exactly for valid names: a section that is not empty and has
   no ']' and no line break, a key that is trimmed, not empty, without '=' and line breaks, and
   not starting like a comment.
   */
  lemma EnableWorksExactly(content: string, section: string, key: string)
    ensures TextValues(Rewrite(content, section, key, true), section, key) != [] <==> ValidNames(section, key)
  {
    var text := Rewrite(content, section, key, true);
    if ValidNames(section, key) {
      RewriteMeaning(content, section, key, true, section, key);
    }
    if TextValues(text, section, key) != [] {
      ReadGenuine(text);
      ValuesNeedValidNames(ReadLines(text), None, section, key);
    }
  }

  lemma {:induction false} DisableFindsNothing(lines: seq<Line>, section: string, key: string, current: Option<string>,
                                               handled: bool)
    requires Genuine(lines) && (current.Some? ==> ValidSection(current.value)) && !ValidNames(section, key)
    ensures Edit(lines, section, key, false, current, handled) == lines
  {
    if lines != [] {
      if lines[0].Header? {
        HeaderValid(lines[0].text);
      } else if lines[0].Entry? {
        EntryValid(lines[0].text);
      }
      DisableFindsNothing(lines[1..], section, key, Opened(lines[0], current),
        HandledAfter(lines[0], section, key, false, current, handled));
    }
  }

  /** Disabling a pair that cannot be written changes no reading. */
  lemma InvalidDisableHarmless(content: string, section: string, key: string, s: string, k: string)
    requires !ValidNames(section, key)
    ensures TextValues(Rewrite(content, section, key, false), s, k) == TextValues(content, s, k)
  {
    var lines := ReadLines(content);
    ReadGenuine(content);
    DisableFindsNothing(lines, section, key, None, false);
    GenuineReads(lines);
    PrintedMeaning(Texts(lines), content, s, k);
  }

  // ---------------------------------------------------------------------------------
  // The override map and the override text.

  /** `client_sim_overrides` and `user_conf_override` of a tenant. */
  datatype Overrides = Overrides(sims: map<string, seq<string>>, conf: Option<string>)

  const EMPTY := Overrides(map[], None)

  function SimsOf(o: Overrides, hostname: string): seq<string> {
    if hostname in o.sims then o.sims[hostname] else []
  }

  function ConfText(o: Overrides): string {
    if o.conf.Some? then o.conf.value else ""
  }

  function Without(sims: seq<string>, sim: string): seq<string> {
    if sims == [] then [] else (if sims[0] == sim then [] else [sims[0]]) + Without(sims[1..], sim)
  }

  function NextSims(sims: seq<string>, sim: string, on: bool): seq<string> {
    if !on then Without(sims, sim) else if sim in sims then sims else sims + [sim]
  }

  /** How the GitHub half of a call went: no token, or a push that succeeded or failed. */
  datatype GitHub = NoToken | Pushed | PushFailed

  /** set_client_sim_override without a successful push to GitHub. */
  function SetOverride(o: Overrides, hostname: string, sim: string, on: bool): Overrides {
    var text := Rewrite(ConfText(o), hostname, sim, on);
    Overrides(o.sims[hostname := NextSims(SimsOf(o, hostname), sim, on)], if Blank(text) then None else Some(text))
  }

  /** After a successful push GitHub holds the text, and the tenant's own stays as it is. */
  function PushedOverride(o: Overrides, hostname: string, sim: string, on: bool): Overrides {
    o.(sims := o.sims[hostname := NextSims(SimsOf(o, hostname), sim, on)])
  }

  function Overridden(o: Overrides, hostname: string, sim: string, on: bool, github: GitHub): Overrides {
    if github.Pushed? then PushedOverride(o, hostname, sim, on) else SetOverride(o, hostname, sim, on)
  }

  class TenantOverrides {
    var clientSimOverrides: map<string, seq<string>>
    var userConfOverride: Option<string>

    constructor ()
      ensures State() == EMPTY
    {
      clientSimOverrides, userConfOverride := map[], None;
    }

    function State(): Overrides
      reads this
    {
      Overrides(clientSimOverrides, userConfOverride)
    }

    method SetClientSimOverride(hostname: string, sim: string, enabled: bool, github: GitHub)
      returns (active: seq<string>)
      modifies this
      ensures State() == Overridden(old(State()), hostname, sim, enabled, github)
      ensures active == SimsOf(State(), hostname)
    {
      var current := if hostname in clientSimOverrides then clientSimOverrides[hostname] else [];
      if enabled {
        if sim !in current {
          current := current + [sim];
        }
      } else {
        current := Without(current, sim);
      }
      clientSimOverrides := clientSimOverrides[hostname := current];
      if !github.Pushed? {
        var text := if userConfOverride.Some? then userConfOverride.value else "";
        var content := ModifyIniContent(text, hostname, sim, enabled);
        userConfOverride := if Blank(content) then None else Some(content);
      }
      active := current;
    }
  }

  /** The map lists a simulation exactly when the text has it, and then only as "on". */
  predicate AgreesOn(o: Overrides, hostname: string, sim: string) {
    var vs := TextValues(ConfText(o), hostname, sim);
    if sim in SimsOf(o, hostname) then vs != [] && AllOn(vs) else vs == []
  }

  ghost predicate Agrees(o: Overrides) {
    forall h, s :: ValidNames(h, s) ==> AgreesOn(o, h, s)
  }

  lemma {:induction false} WithoutMembers(sims: seq<string>, sim: string, s: string)
    ensures s in Without(sims, sim) <==> s in sims && s != sim
  {
    if sims != [] {
      WithoutMembers(sims[1..], sim, s);
      assert sims == [sims[0]] + sims[1..];
    }
  }

  lemma NextSimsMembers(sims: seq<string>, sim: string, on: bool, s: string)
    ensures s in NextSims(sims, sim, on) <==> if s == sim then on else s in sims
  {
    WithoutMembers(sims, sim, s);
  }

  predicate AllSpace(s: string) {
    forall j :: 0 <= j < |s| ==> IsSpace(s[j])
  }

  lemma SpaceOther(s: string)
    requires AllSpace(s)
    ensures Classify(s) == Other(s)
  {
    IndentAt(s, |s|);
    BlankOther(s);
  }

  lemma SpaceParts(s: string, n: nat, m: nat)
    requires AllSpace(s) && n + m <= |s|
    ensures AllSpace(s[..n]) && AllSpace(s[n..][m..])
  {
    assert forall j :: 0 <= j < |s[n..][m..]| ==> s[n..][m..][j] == s[n + m + j];
  }

  predicate AllOthers(lines: seq<string>) {
    forall i :: 0 <= i < |lines| ==> Classify(lines[i]) == Other(lines[i])
  }

  lemma OthersCons(line: string, rest: seq<string>)
    requires Classify(line) == Other(line) && AllOthers(rest)
    ensures AllOthers([line] + rest)
  {
  }

  lemma {:induction false} BlankLinesMeanNothing(text: string)
    requires AllSpace(text)
    ensures AllOthers(SplitLines(text))
    decreases |text|
  {
    var n := BreakAt(text);
    if text != "" && n == |text| {
      SpaceOther(text);
      assert SplitLines(text) == [text];
    } else if text != "" {
      var m := BreakLength(text[n..]);
      SpaceParts(text, n, m);
      SpaceOther(text[..n]);
      BlankLinesMeanNothing(text[n..][m..]);
      OthersCons(text[..n], SplitLines(text[n..][m..]));
    }
  }

  lemma {:induction false} OthersMeanNothing(lines: seq<Line>, current: Option<string>, section: string, key: string)
    requires forall i :: 0 <= i < |lines| ==> lines[i].Other?
    ensures Values(lines, current, section, key) == []
  {
    if lines != [] {
      OthersMeanNothing(lines[1..], current, section, key);
    }
  }

  /** Storing None for a blank text loses nothing. */
  lemma BlankTextMeansNothing(text: string, section: string, key: string)
    requires Blank(text)
    ensures TextValues(text, section, key) == [] == TextValues("", section, key)
  {
    IndentMeaning(text);
    BlankLinesMeanNothing(text);
    OthersMeanNothing(ReadLines(text), None, section, key);
    assert ReadLines("") == [];
  }

  lemma StoredText(o: Overrides, hostname: string, sim: string, on: bool, h: string, s: string)
    ensures TextValues(ConfText(SetOverride(o, hostname, sim, on)), h, s)
         == TextValues(Rewrite(ConfText(o), hostname, sim, on), h, s)
  {
    var text := Rewrite(ConfText(o), hostname, sim, on);
    if Blank(text) {
      BlankTextMeansNothing(text, h, s);
    }
  }

  /** A call whose names are valid, at least if it enables. */
  lemma AgreesStep(o: Overrides, hostname: string, sim: string, on: bool, h: string, s: string)
    requires (on ==> ValidNames(hostname, sim)) && ValidNames(h, s) && AgreesOn(o, h, s)
    ensures AgreesOn(SetOverride(o, hostname, sim, on), h, s)
  {
    StoredText(o, hostname, sim, on, h, s);
    NextSimsMembers(SimsOf(o, hostname), sim, on, s);
    if ValidNames(hostname, sim) {
      RewriteMeaning(ConfText(o), hostname, sim, on, h, s);
    } else {
      InvalidDisableHarmless(ConfText(o), hostname, sim, h, s);
    }
    assert SimsOf(SetOverride(o, hostname, sim, on), h)
        == if h == hostname then NextSims(SimsOf(o, hostname), sim, on) else SimsOf(o, h);
  }

  datatype Call = Call(hostname: string, sim: string, on: bool, github: GitHub)

  function Run(o: Overrides, calls: seq<Call>): Overrides
    decreases |calls|
  {
    if calls == [] then o
    else Run(Overridden(o, calls[0].hostname, calls[0].sim, calls[0].on, calls[0].github), calls[1..])
  }

  /** Enabling calls have names that can be written, and no call is pushed to GitHub. */
  predicate ValidCalls(calls: seq<Call>) {
    forall i :: 0 <= i < |calls| ==>
      (calls[i].on ==> ValidNames(calls[i].hostname, calls[i].sim)) && !calls[i].github.Pushed?
  }

  /**
   The dashboard's map and the text pushed to spokes agree over any run of calls that enable only
   valid names and disable any: whatever pair is asked for, first value or last, the text says "on"
   exactly when the map lists it.
   */
  lemma {:induction false} MapAgreesWithText(o: Overrides, calls: seq<Call>)
    requires Agrees(o) && ValidCalls(calls)
    ensures Agrees(Run(o, calls))
    decreases |calls|
  {
    if calls != [] {
      var c := calls[0];
      var next := SetOverride(o, c.hostname, c.sim, c.on);
      forall h, s | ValidNames(h, s) ensures AgreesOn(next, h, s) {
        AgreesStep(o, c.hostname, c.sim, c.on, h, s);
      }
      MapAgreesWithText(next, calls[1..]);
    }
  }

  /** How the GitHub half of a call went decides only whether the tenant's own text changes. */
  lemma GitHubOutcome(o: Overrides, hostname: string, sim: string, on: bool)
    ensures var t := Overridden(o, hostname, sim, on, NoToken);
      && Overridden(o, hostname, sim, on, PushFailed) == t
      && Overridden(o, hostname, sim, on, Pushed) == Overrides(t.sims, o.conf)
  {
  }

  predicate HasText(conf: Option<string>) {
    conf.Some? && exists i :: 0 <= i < |conf.value| && !IsSpace(conf.value[i])
  }

  /** A text is stored only if there is something in it. */
  lemma {:induction false} NeverBlank(o: Overrides, calls: seq<Call>)
    requires o.conf.Some? ==> HasText(o.conf)
    ensures Run(o, calls).conf.Some? ==> HasText(Run(o, calls).conf)
    decreases |calls|
  {
    if calls != [] {
      var c := calls[0];
      var next := Overridden(o, c.hostname, c.sim, c.on, c.github);
      if next.conf.Some? && !c.github.Pushed? {
        IndentMeaning(next.conf.value);
        assert !IsSpace(next.conf.value[Indent(next.conf.value)]);
      }
      NeverBlank(next, calls[1..]);
    }
  }

  predicate NoRepeats(sims: seq<string>) {
    forall i, j :: 0 <= i < j < |sims| ==> sims[i] != sims[j]
  }

  /** A new simulation goes to the end, a disabled one goes, and others stay where they are. */
  predicate ListChanged(l: seq<string>, sim: string, on: bool, m: seq<string>) {
    && (on && sim in l ==> m == l)
    && (on && sim !in l ==> m == l + [sim])
    && (!on && sim !in l ==> m == l)
    && (forall p :: 0 <= p < |l| && l[p] == sim && !on ==> m == l[..p] + l[p + 1..])
  }

  lemma NextSimsChanged(l: seq<string>, sim: string, on: bool)
    requires NoRepeats(l)
    ensures ListChanged(l, sim, on, NextSims(l, sim, on)) && NoRepeats(NextSims(l, sim, on))
  {
    if !on {
      if sim in l {
        var p :| 0 <= p < |l| && l[p] == sim;
        WithoutAt(l, sim, p);
      } else {
        WithoutAbsent(l, sim);
      }
    }
  }

  /** What a call does to the lists of its host and of the others. */
  lemma ListAfterCall(o: Overrides, c: Call, h: string)
    requires NoRepeats(SimsOf(o, h))
    ensures var l, m := SimsOf(o, h), SimsOf(Overridden(o, c.hostname, c.sim, c.on, c.github), h);
      NoRepeats(m) && if h == c.hostname then ListChanged(l, c.sim, c.on, m) else m == l
  {
    NextSimsChanged(SimsOf(o, h), c.sim, c.on);
  }

  lemma {:induction false} WithoutAbsent(sims: seq<string>, sim: string)
    requires sim !in sims
    ensures Without(sims, sim) == sims
  {
    if sims != [] {
      WithoutAbsent(sims[1..], sim);
    }
  }

  lemma {:induction false} WithoutAt(sims: seq<string>, sim: string, p: nat)
    requires NoRepeats(sims) && p < |sims| && sims[p] == sim
    ensures Without(sims, sim) == sims[..p] + sims[p + 1..]
  {
    if p == 0 {
      WithoutAbsent(sims[1..], sim);
    } else {
      WithoutAt(sims[1..], sim, p - 1);
      assert [sims[0]] + (sims[1..][..p - 1] + sims[1..][p..]) == sims[..p] + sims[p + 1..];
    }
  }

  /** So no run lists a simulation of a host twice. */
  lemma {:induction false} ListsNoRepeats(o: Overrides, calls: seq<Call>, hostname: string)
    requires NoRepeats(SimsOf(o, hostname))
    ensures NoRepeats(SimsOf(Run(o, calls), hostname))
    decreases |calls|
  {
    if calls != [] {
      var c := calls[0];
      ListAfterCall(o, c, hostname);
      ListsNoRepeats(Overridden(o, c.hostname, c.sim, c.on, c.github), calls[1..], hostname);
    }
  }

  /** A call that is pushed to GitHub keeps the tenant's own text in agreement exactly when it changes nothing. */
  lemma PushAgreesExactly(o: Overrides, hostname: string, sim: string, on: bool)
    requires AgreesOn(o, hostname, sim)
    ensures AgreesOn(PushedOverride(o, hostname, sim, on), hostname, sim) <==> (sim in SimsOf(o, hostname) <==> on)
  {
    NextSimsMembers(SimsOf(o, hostname), sim, on, sim);
  }

  lemma EmptyAgrees()
    ensures Agrees(EMPTY)
  {
    forall h, s | ValidNames(h, s) ensures AgreesOn(EMPTY, h, s) {
      assert ReadLines("") == [];
    }
  }

  /** Enabling keeps the agreement on the pair itself exactly for valid names; `OverrideLeaks` has the other pairs. */
  lemma AgreementNeedsValidNames(o: Overrides, hostname: string, sim: string)
    ensures AgreesOn(SetOverride(o, hostname, sim, true), hostname, sim) <==> ValidNames(hostname, sim)
  {
    StoredText(o, hostname, sim, true, hostname, sim);
    NextSimsMembers(SimsOf(o, hostname), sim, true, sim);
    EnableWorksExactly(ConfText(o), hostname, sim);
    if ValidNames(hostname, sim) {
      RewriteMeaning(ConfText(o), hostname, sim, true, hostname, sim);
    }
  }
}
