/**
 The single-pass editor `_modify_ini_content` of app/routers/aggregate.py on lines that have
 been told apart, and what it does to their meaning: the values that each (section, key) pair
 has, in order.
 */
module IniEditor {
  import opened Prelude
  import opened IniText

  // ---------------------------------------------------------------------------------
  // Meaning.

  /** The section that is open after a line. */
  function Opened(line: Line, current: Option<string>): Option<string> {
    if line.Header? then Some(line.name) else current
  }

  predicate IsEntryOf(line: Line, current: Option<string>, section: string, key: string) {
    line.Entry? && current == Some(section) && line.key == key
  }

  function LineValue(line: Line, current: Option<string>, section: string, key: string): seq<string> {
    if IsEntryOf(line, current, section, key) then [line.value] else []
  }

  /** The values of `key` in the sections called `section`, given the section the lines start in. */
  function Values(lines: seq<Line>, current: Option<string>, section: string, key: string): seq<string> {
    if lines == [] then []
    else LineValue(lines[0], current, section, key) + Values(lines[1..], Opened(lines[0], current), section, key)
  }

  function OpenAfter(lines: seq<Line>, current: Option<string>): Option<string> {
    if lines == [] then current else OpenAfter(lines[1..], Opened(lines[0], current))
  }

  predicate HasSection(lines: seq<Line>, section: string) {
    exists i :: 0 <= i < |lines| && lines[i].Header? && lines[i].name == section
  }

  predicate AllOn(values: seq<string>) {
    forall i :: 0 <= i < |values| ==> values[i] == "on"
  }

  /** The lines without the entries of `key` in sections called `section`. */
  function Erase(lines: seq<Line>, current: Option<string>, section: string, key: string): seq<Line> {
    if lines == [] then []
    else
      (if IsEntryOf(lines[0], current, section, key) then [] else [lines[0]])
      + Erase(lines[1..], Opened(lines[0], current), section, key)
  }

  // ---------------------------------------------------------------------------------
  // The editor.

  function EntryLine(indent: string, key: string): Line {
    Entry(indent + key + "=on", indent, key, "on")
  }

  function HeaderLine(section: string): Line {
    Header("[" + section + "]", section)
  }

  /** What one line becomes: possibly an entry before it, and possibly the line itself. */
  function EditLine(line: Line, section: string, key: string, on: bool, current: Option<string>,
                    handled: bool): seq<Line> {
    if line.Header? then
      (if current == Some(section) && on && !handled then [EntryLine("", key)] else []) + [line]
    else if IsEntryOf(line, current, section, key) then
      if on then [EntryLine(line.indent, key)] else []
    else [line]
  }

  /** The flag `key_handled` after a line. */
  predicate HandledAfter(line: Line, section: string, key: string, on: bool, current: Option<string>, handled: bool) {
    handled || (line.Header? && current == Some(section) && on) || IsEntryOf(line, current, section, key)
  }

  /** The pass over the lines from the section `current` on, with the flag `key_handled`. */
  function Edit(lines: seq<Line>, section: string, key: string, on: bool, current: Option<string>,
                handled: bool): seq<Line> {
    if lines == [] then
      if current == Some(section) && on && !handled then [EntryLine("", key)] else []
    else
      EditLine(lines[0], section, key, on, current, handled)
      + Edit(lines[1..], section, key, on, Opened(lines[0], current),
             HandledAfter(lines[0], section, key, on, current, handled))
  }

  /** What is added when the section is missing: a separating blank line if needed, and the section. */
  function NewSection(updated: seq<Line>, section: string, key: string): seq<Line> {
    (if updated != [] && !Blank(updated[|updated| - 1].text) then [Other("")] else [])
    + [HeaderLine(section), EntryLine("", key)]
  }

  function EditLines(lines: seq<Line>, section: string, key: string, on: bool): seq<Line> {
    var updated := Edit(lines, section, key, on, None, false);
    if on && !HasSection(lines, section) then updated + NewSection(updated, section, key) else updated
  }

  // ---------------------------------------------------------------------------------
  // Values, one line at a time.

  lemma {:induction false} ValuesConcat(a: seq<Line>, b: seq<Line>, current: Option<string>, section: string,
                                        key: string)
    ensures Values(a + b, current, section, key)
         == Values(a, current, section, key) + Values(b, OpenAfter(a, current), section, key)
    ensures OpenAfter(a + b, current) == OpenAfter(b, OpenAfter(a, current))
  {
    if a == [] {
      assert a + b == b;
    } else {
      assert (a + b)[1..] == a[1..] + b;
      ValuesConcat(a[1..], b, Opened(a[0], current), section, key);
    }
  }

  lemma ValuesOne(line: Line, current: Option<string>, section: string, key: string)
    ensures Values([line], current, section, key) == LineValue(line, current, section, key)
    ensures OpenAfter([line], current) == Opened(line, current)
  {
    assert [line][1..] == [];
  }

  /** The meaning of what one line becomes. */
  lemma EditLineValues(line: Line, section: string, key: string, on: bool, current: Option<string>, handled: bool,
                       s: string, k: string)
    ensures var ls := EditLine(line, section, key, on, current, handled);
      && OpenAfter(ls, current) == Opened(line, current)
      && (s != section || k != key ==> Values(ls, current, s, k) == LineValue(line, current, s, k))
      && (!on ==> Values(ls, current, section, key) == [])
      && (on ==> AllOn(Values(ls, current, section, key)))
      && (on && !handled && HandledAfter(line, section, key, on, current, handled) ==>
        Values(ls, current, section, key) != [])
  {
    ValuesOne(line, current, s, k);
    ValuesOne(line, current, section, key);
    ValuesOne(EntryLine("", key), current, s, k);
    ValuesOne(EntryLine("", key), current, section, key);
    ValuesConcat([EntryLine("", key)], [line], current, s, k);
    ValuesConcat([EntryLine("", key)], [line], current, section, key);
    if line.Entry? {
      ValuesOne(EntryLine(line.indent, key), current, s, k);
      ValuesOne(EntryLine(line.indent, key), current, section, key);
    }
  }

  // ---------------------------------------------------------------------------------
  // Values after the whole pass.

  lemma {:induction false} EditFrame(lines: seq<Line>, section: string, key: string, on: bool, current: Option<string>,
                                     handled: bool, s: string, k: string)
    requires s != section || k != key
    ensures Values(Edit(lines, section, key, on, current, handled), current, s, k) == Values(lines, current, s, k)
  {
    if lines == [] {
      ValuesOne(EntryLine("", key), current, s, k);
    } else {
      var next, h := Opened(lines[0], current), HandledAfter(lines[0], section, key, on, current, handled);
      EditLineValues(lines[0], section, key, on, current, handled, s, k);
      ValuesConcat(EditLine(lines[0], section, key, on, current, handled), Edit(lines[1..], section, key, on, next, h),
                   current, s, k);
      EditFrame(lines[1..], section, key, on, next, h, s, k);
    }
  }

  lemma {:induction false} EditOff(lines: seq<Line>, section: string, key: string, current: Option<string>,
                                   handled: bool)
    ensures Values(Edit(lines, section, key, false, current, handled), current, section, key) == []
  {
    if lines != [] {
      var next, h := Opened(lines[0], current), HandledAfter(lines[0], section, key, false, current, handled);
      EditLineValues(lines[0], section, key, false, current, handled, section, key);
      ValuesConcat(EditLine(lines[0], section, key, false, current, handled),
                   Edit(lines[1..], section, key, false, next, h), current, section, key);
      EditOff(lines[1..], section, key, next, h);
    }
  }

  lemma SectionLater(lines: seq<Line>, section: string)
    requires HasSection(lines, section) && !(lines[0].Header? && lines[0].name == section)
    ensures HasSection(lines[1..], section)
  {
    var i :| 0 <= i < |lines| && lines[i].Header? && lines[i].name == section;
    assert lines[1..][i - 1] == lines[i];
  }

  lemma {:induction false} EditOn(lines: seq<Line>, section: string, key: string, current: Option<string>,
                                  handled: bool)
    ensures var vs := Values(Edit(lines, section, key, true, current, handled), current, section, key);
      AllOn(vs) && (!handled && (current == Some(section) || HasSection(lines, section)) ==> vs != [])
  {
    if lines == [] {
      ValuesOne(EntryLine("", key), current, section, key);
    } else {
      var next, h := Opened(lines[0], current), HandledAfter(lines[0], section, key, true, current, handled);
      EditLineValues(lines[0], section, key, true, current, handled, section, key);
      ValuesConcat(EditLine(lines[0], section, key, true, current, handled),
                   Edit(lines[1..], section, key, true, next, h), current, section, key);
      EditOn(lines[1..], section, key, next, h);
      if HasSection(lines, section) && next != Some(section) {
        SectionLater(lines, section);
      }
    }
  }

  lemma NoSectionTail(lines: seq<Line>, section: string)
    requires lines != [] && !HasSection(lines, section)
    ensures !HasSection(lines[1..], section)
  {
    forall i | 0 <= i < |lines| - 1 ensures !(lines[1..][i].Header? && lines[1..][i].name == section) {
      assert lines[1..][i] == lines[i + 1];
    }
  }

  /** Without the section, the pass changes no line. */
  lemma {:induction false} EditElsewhere(lines: seq<Line>, section: string, key: string, on: bool,
                                         current: Option<string>, handled: bool)
    requires !HasSection(lines, section) && current != Some(section)
    ensures Edit(lines, section, key, on, current, handled) == lines
    ensures Values(lines, current, section, key) == [] && OpenAfter(lines, current) != Some(section)
    ensures Erase(lines, current, section, key) == lines
  {
    if lines != [] {
      assert lines[0].Header? ==> lines[0].name != section;
      NoSectionTail(lines, section);
      EditElsewhere(lines[1..], section, key, on, Opened(lines[0], current),
                    HandledAfter(lines[0], section, key, on, current, handled));
    }
  }

  /** The meaning of a section created at the end. */
  lemma NewSectionValues(updated: seq<Line>, section: string, key: string, current: Option<string>, s: string,
                         k: string)
    ensures Values(NewSection(updated, section, key), current, s, k) == if s == section && k == key then ["on"] else []
  {
    var tail := [HeaderLine(section), EntryLine("", key)];
    assert tail[1..] == [EntryLine("", key)];
    ValuesOne(EntryLine("", key), Some(section), s, k);
    assert Values(tail, current, s, k) == if s == section && k == key then ["on"] else [];
    if updated != [] && !Blank(updated[|updated| - 1].text) {
      assert NewSection(updated, section, key)[1..] == tail;
    } else {
      assert NewSection(updated, section, key) == tail;
    }
  }

  /** An edit in a text that lacks the section. */
  lemma EditMissing(lines: seq<Line>, section: string, key: string, s: string, k: string)
    requires !HasSection(lines, section)
    ensures Values(EditLines(lines, section, key, true), None, s, k)
         == Values(lines, None, s, k) + if s == section && k == key then ["on"] else []
  {
    EditElsewhere(lines, section, key, true, None, false);
    ValuesConcat(lines, NewSection(lines, section, key), None, s, k);
    NewSectionValues(lines, section, key, OpenAfter(lines, None), s, k);
  }

  /**
   Edit correctness: enabling leaves at least one value of the key and makes every one of them
   "on", whatever duplicates there were; disabling leaves none.
   */
  lemma EditSets(lines: seq<Line>, section: string, key: string, on: bool)
    ensures var vs := Values(EditLines(lines, section, key, on), None, section, key);
      if on then vs != [] && AllOn(vs) else vs == []
  {
    if !on {
      EditOff(lines, section, key, None, false);
    } else if HasSection(lines, section) {
      EditOn(lines, section, key, None, false);
    } else {
      EditMissing(lines, section, key, section, key);
      EditElsewhere(lines, section, key, true, None, false);
    }
  }

  /** Every other pair of section and key keeps exactly its values. */
  lemma EditKeepsOthers(lines: seq<Line>, section: string, key: string, on: bool, s: string, k: string)
    requires s != section || k != key
    ensures Values(EditLines(lines, section, key, on), None, s, k) == Values(lines, None, s, k)
  {
    if on && !HasSection(lines, section) {
      EditMissing(lines, section, key, s, k);
    } else {
      EditFrame(lines, section, key, on, None, false, s, k);
    }
  }

  // ---------------------------------------------------------------------------------
  // Nothing else changes: erasing the key's entries gives the same lines before and after.

  lemma {:induction false} EraseConcat(a: seq<Line>, b: seq<Line>, current: Option<string>, section: string,
                                       key: string)
    ensures Erase(a + b, current, section, key)
         == Erase(a, current, section, key) + Erase(b, OpenAfter(a, current), section, key)
  {
    if a == [] {
      assert a + b == b;
    } else {
      assert (a + b)[1..] == a[1..] + b;
      EraseConcat(a[1..], b, Opened(a[0], current), section, key);
    }
  }

  lemma EraseOne(line: Line, current: Option<string>, section: string, key: string)
    ensures Erase([line], current, section, key) == if IsEntryOf(line, current, section, key) then [] else [line]
  {
    assert [line][1..] == [];
  }

  lemma EditLineErased(line: Line, section: string, key: string, on: bool, current: Option<string>, handled: bool)
    ensures Erase(EditLine(line, section, key, on, current, handled), current, section, key)
         == if IsEntryOf(line, current, section, key) then [] else [line]
  {
    EraseOne(line, current, section, key);
    if line.Header? {
      if current == Some(section) && on && !handled {
        EraseConcat([EntryLine("", key)], [line], current, section, key);
        EraseOne(EntryLine("", key), current, section, key);
        ValuesOne(EntryLine("", key), current, section, key);
      }
    } else if IsEntryOf(line, current, section, key) {
      EraseOne(EntryLine(line.indent, key), current, section, key);
    }
  }

  lemma {:induction false} EditErased(lines: seq<Line>, section: string, key: string, on: bool,
                                      current: Option<string>, handled: bool)
    ensures Erase(Edit(lines, section, key, on, current, handled), current, section, key)
         == Erase(lines, current, section, key)
  {
    if lines == [] {
      EraseOne(EntryLine("", key), current, section, key);
    } else {
      var next, h := Opened(lines[0], current), HandledAfter(lines[0], section, key, on, current, handled);
      EditLineErased(lines[0], section, key, on, current, handled);
      EditLineValues(lines[0], section, key, on, current, handled, section, key);
      EraseConcat(EditLine(lines[0], section, key, on, current, handled), Edit(lines[1..], section, key, on, next, h),
                  current, section, key);
      EditErased(lines[1..], section, key, on, next, h);
    }
  }

  /**
   Apart from the key's own entries an edit changes nothing, except that enabling a key of a
   missing section adds that section's header and, after a non-blank line, a separating blank.
   */
  lemma EditTouchesOnlyKey(lines: seq<Line>, section: string, key: string, on: bool)
    ensures Erase(EditLines(lines, section, key, on), None, section, key)
         == Erase(lines, None, section, key)
            + (if on && !HasSection(lines, section)
               then (if lines != [] && !Blank(lines[|lines| - 1].text) then [Other("")] else []) + [HeaderLine(section)]
               else [])
  {
    var updated := Edit(lines, section, key, on, None, false);
    EditErased(lines, section, key, on, None, false);
    if on && !HasSection(lines, section) {
      EditElsewhere(lines, section, key, on, None, false);
      var more := NewSection(lines, section, key);
      EraseConcat(lines, more, None, section, key);
      NewSectionErased(lines, section, key, OpenAfter(lines, None));
    }
  }

  lemma NewSectionErased(updated: seq<Line>, section: string, key: string, current: Option<string>)
    ensures Erase(NewSection(updated, section, key), current, section, key)
         == (if updated != [] && !Blank(updated[|updated| - 1].text) then [Other("")] else []) + [HeaderLine(section)]
  {
    var tail := [HeaderLine(section), EntryLine("", key)];
    EraseConcat([HeaderLine(section)], [EntryLine("", key)], current, section, key);
    EraseOne(HeaderLine(section), current, section, key);
    EraseOne(EntryLine("", key), Some(section), section, key);
    ValuesOne(HeaderLine(section), current, section, key);
    assert [HeaderLine(section)] + [EntryLine("", key)] == tail;
    if updated != [] && !Blank(updated[|updated| - 1].text) {
      EraseConcat([Other("")], tail, current, section, key);
      EraseOne(Other(""), current, section, key);
      ValuesOne(Other(""), current, section, key);
    } else {
      assert NewSection(updated, section, key) == tail;
    }
  }

  // ---------------------------------------------------------------------------------
  // Algebra.

  lemma EditCons(line: Line, rest: seq<Line>, section: string, key: string, on: bool, current: Option<string>,
                 handled: bool)
    ensures Edit([line] + rest, section, key, on, current, handled)
         == EditLine(line, section, key, on, current, handled)
            + Edit(rest, section, key, on, Opened(line, current),
                   HandledAfter(line, section, key, on, current, handled))
  {
    assert ([line] + rest)[0] == line && ([line] + rest)[1..] == rest;
  }

  lemma FirstAndRest(a: seq<Line>, b: seq<Line>)
    requires a != []
    ensures [a[0]] + (a[1..] + b) == a + b
  {
  }

  lemma {:induction false} EditConcat(a: seq<Line>, b: seq<Line>, section: string, key: string, on: bool,
                                      current: Option<string>, handled: bool)
    requires !HasSection(a, section) && current != Some(section)
    ensures Edit(a + b, section, key, on, current, handled)
         == a + Edit(b, section, key, on, OpenAfter(a, current), handled)
  {
    if a == [] {
      assert a + b == b;
    } else {
      NoSectionTail(a, section);
      assert a[0].Header? ==> a[0].name != section;
      var next := Opened(a[0], current);
      EditConcat(a[1..], b, section, key, on, next, handled);
      EditCons(a[0], a[1..] + b, section, key, on, current, handled);
      FirstAndRest(a, b);
      FirstAndRest(a, Edit(b, section, key, on, OpenAfter(a, current), handled));
    }
  }

  /** When disabling, `key_handled` plays no part. */
  lemma {:induction false} OffIgnoresHandled(lines: seq<Line>, section: string, key: string, current: Option<string>,
                                             h: bool, h': bool)
    ensures Edit(lines, section, key, false, current, h) == Edit(lines, section, key, false, current, h')
  {
    if lines != [] {
      OffIgnoresHandled(lines[1..], section, key, Opened(lines[0], current),
        HandledAfter(lines[0], section, key, false, current, h),
        HandledAfter(lines[0], section, key, false, current, h'));
    }
  }

  lemma EditTwiceHead(line: Line, rest: seq<Line>, section: string, key: string, on: bool, current: Option<string>,
                      handled: bool)
    requires var next, h := Opened(line, current), HandledAfter(line, section, key, on, current, handled);
      Edit(rest, section, key, on, next, h) == rest
    ensures var u := EditLine(line, section, key, on, current, handled) + rest;
      Edit(u, section, key, on, current, handled) == u
  {
    EditCons(line, rest, section, key, on, current, handled);
    if line.Header? && current == Some(section) && on && !handled {
      EditCons(EntryLine("", key), [line] + rest, section, key, on, current, handled);
      EditCons(line, rest, section, key, on, current, true);
      assert EditLine(line, section, key, on, current, handled) + rest == [EntryLine("", key)] + ([line] + rest);
    } else if IsEntryOf(line, current, section, key) {
      if on {
        EditCons(EntryLine(line.indent, key), rest, section, key, on, current, handled);
      } else {
        OffIgnoresHandled(rest, section, key, current, handled, true);
        assert [] + rest == rest;
      }
    }
  }

  /** A second pass finds nothing left to change. */
  lemma {:induction false} EditTwice(lines: seq<Line>, section: string, key: string, on: bool, current: Option<string>,
                                     handled: bool)
    ensures var u := Edit(lines, section, key, on, current, handled); Edit(u, section, key, on, current, handled) == u
  {
    var u := Edit(lines, section, key, on, current, handled);
    if lines == [] {
      if current == Some(section) && on && !handled {
        EditCons(EntryLine("", key), [], section, key, on, current, handled);
        assert u == [EntryLine("", key)] + [];
      }
    } else {
      var next, h := Opened(lines[0], current), HandledAfter(lines[0], section, key, on, current, handled);
      EditTwice(lines[1..], section, key, on, next, h);
      EditTwiceHead(lines[0], Edit(lines[1..], section, key, on, next, h), section, key, on, current, handled);
    }
  }

  lemma {:induction false} EditKeepsHeaders(lines: seq<Line>, section: string, key: string, on: bool,
                                            current: Option<string>, handled: bool, i: nat)
    requires i < |lines| && lines[i].Header?
    ensures lines[i] in Edit(lines, section, key, on, current, handled)
  {
    var head := EditLine(lines[0], section, key, on, current, handled);
    var u := Edit(lines, section, key, on, current, handled);
    if i == 0 {
      assert head[|head| - 1] == lines[0];
      assert u[|head| - 1] == lines[0];
    } else {
      var next, h := Opened(lines[0], current), HandledAfter(lines[0], section, key, on, current, handled);
      EditKeepsHeaders(lines[1..], section, key, on, next, h, i - 1);
      assert u == head + Edit(lines[1..], section, key, on, next, h);
    }
  }

  /** A freshly created section is left alone by a pass that comes to it. */
  lemma CreatedTailStays(section: string, key: string, at: Option<string>)
    requires at != Some(section)
    ensures var tail := [HeaderLine(section), EntryLine("", key)]; Edit(tail, section, key, true, at, false) == tail
  {
    EditCons(HeaderLine(section), [EntryLine("", key)], section, key, true, at, false);
    assert [HeaderLine(section)] + [EntryLine("", key)] == [HeaderLine(section), EntryLine("", key)];
    EditCons(EntryLine("", key), [], section, key, true, Some(section), false);
    assert [EntryLine("", key)] + [] == [EntryLine("", key)];
  }

  lemma NewSectionStays(lines: seq<Line>, section: string, key: string, at: Option<string>)
    requires at != Some(section)
    ensures var more := NewSection(lines, section, key); Edit(more, section, key, true, at, false) == more
    ensures HasSection(NewSection(lines, section, key), section)
  {
    var tail := [HeaderLine(section), EntryLine("", key)];
    CreatedTailStays(section, key, at);
    EditCons(Other(""), tail, section, key, true, at, false);
    var more := NewSection(lines, section, key);
    assert more == tail || more == [Other("")] + tail;
    assert more[|more| - 2] == HeaderLine(section);
  }

  lemma CreatedStays(lines: seq<Line>, section: string, key: string)
    requires !HasSection(lines, section)
    ensures var u := lines + NewSection(lines, section, key); Edit(u, section, key, true, None, false) == u
    ensures HasSection(lines + NewSection(lines, section, key), section)
  {
    var more := NewSection(lines, section, key);
    EditElsewhere(lines, section, key, true, None, false);
    EditConcat(lines, more, section, key, true, None, false);
    NewSectionStays(lines, section, key, OpenAfter(lines, None));
    var i :| 0 <= i < |more| && more[i].Header? && more[i].name == section;
    assert (lines + more)[|lines| + i] == more[i];
  }

  /** Idempotence: repeating an edit changes no line. */
  lemma EditIdempotent(lines: seq<Line>, section: string, key: string, on: bool)
    ensures var u := EditLines(lines, section, key, on); EditLines(u, section, key, on) == u
  {
    if on && !HasSection(lines, section) {
      EditElsewhere(lines, section, key, on, None, false);
      CreatedStays(lines, section, key);
    } else {
      EditTwice(lines, section, key, on, None, false);
      var u := Edit(lines, section, key, on, None, false);
      if on {
        var i :| 0 <= i < |lines| && lines[i].Header? && lines[i].name == section;
        EditKeepsHeaders(lines, section, key, on, None, false, i);
        var j :| 0 <= j < |u| && u[j] == lines[i];
        assert HasSection(u, section);
      }
    }
  }

  /** What a reader that takes the first value, or the last one, gets. */
  function FirstValue(lines: seq<Line>, section: string, key: string): Option<string> {
    var vs := Values(lines, None, section, key);
    if vs == [] then None else Some(vs[0])
  }

  function LastValue(lines: seq<Line>, section: string, key: string): Option<string> {
    var vs := Values(lines, None, section, key);
    if vs == [] then None else Some(vs[|vs| - 1])
  }

  predicate SameReadings(a: seq<Line>, b: seq<Line>, s: string, k: string) {
    FirstValue(a, s, k) == FirstValue(b, s, k) && LastValue(a, s, k) == LastValue(b, s, k)
  }

  /** Disabling after enabling reads like disabling alone. */
  lemma DisableUndoesEnable(lines: seq<Line>, section: string, key: string, s: string, k: string)
    ensures Values(EditLines(EditLines(lines, section, key, true), section, key, false), None, s, k)
         == Values(EditLines(lines, section, key, false), None, s, k)
  {
    var enabled := EditLines(lines, section, key, true);
    EditSets(enabled, section, key, false);
    EditSets(lines, section, key, false);
    if s != section || k != key {
      EditKeepsOthers(lines, section, key, true, s, k);
      EditKeepsOthers(enabled, section, key, false, s, k);
      EditKeepsOthers(lines, section, key, false, s, k);
    }
  }

  /** Edits of different pairs commute on every reading. */
  lemma EditsCommute(lines: seq<Line>, s1: string, k1: string, on1: bool, s2: string, k2: string, on2: bool, s: string,
                     k: string)
    requires s1 != s2 || k1 != k2
    ensures SameReadings(EditLines(EditLines(lines, s1, k1, on1), s2, k2, on2),
                         EditLines(EditLines(lines, s2, k2, on2), s1, k1, on1), s, k)
  {
    var a, b := EditLines(lines, s1, k1, on1), EditLines(lines, s2, k2, on2);
    if s == s1 && k == k1 {
      EditKeepsOthers(a, s2, k2, on2, s, k);
      EditSets(lines, s1, k1, on1);
      EditSets(b, s1, k1, on1);
    } else if s == s2 && k == k2 {
      EditKeepsOthers(b, s1, k1, on1, s, k);
      EditSets(lines, s2, k2, on2);
      EditSets(a, s2, k2, on2);
    } else {
      EditKeepsOthers(lines, s1, k1, on1, s, k);
      EditKeepsOthers(lines, s2, k2, on2, s, k);
      EditKeepsOthers(a, s2, k2, on2, s, k);
      EditKeepsOthers(b, s1, k1, on1, s, k);
    }
  }
}
