/**
 What an edit of `_modify_ini_content` (app/routers/aggregate.py) does line by line: which lines stay as
 they are, which are rewritten in place with their own indentation, and where lines are added or left out.
 */
module EditPlaces {
  import opened Prelude
  import opened IniText
  import opened IniEditor

  /** The last header before line `i` names the section. */
  predicate InSection(lines: seq<Line>, i: nat, section: string)
    requires i <= |lines|
  {
    exists j :: 0 <= j < i && lines[j].Header? && lines[j].name == section
                && forall m :: j < m < i ==> !lines[m].Header?
  }

  /** Line `i` is an entry of the pair. */
  predicate OfPair(lines: seq<Line>, i: nat, section: string, key: string)
    requires i < |lines|
  {
    lines[i].Entry? && lines[i].key == key && InSection(lines, i, section)
  }

  /** Line `i` is where a section of that name ends. */
  predicate EndsSection(lines: seq<Line>, i: nat, section: string)
    requires i <= |lines|
  {
    (i == |lines| || lines[i].Header?) && InSection(lines, i, section)
  }

  // ---------------------------------------------------------------------------------
  // The pass, from any section on.

  function At(lines: seq<Line>, i: nat, current: Option<string>): Option<string>
    requires i <= |lines|
  {
    OpenAfter(lines[..i], current)
  }

  lemma AtNext(lines: seq<Line>, i: nat, current: Option<string>)
    requires i < |lines|
    ensures At(lines, i + 1, current) == At(lines[1..], i, Opened(lines[0], current))
  {
    assert lines[..i + 1][1..] == lines[1..][..i];
  }

  lemma AtAll(lines: seq<Line>, current: Option<string>)
    ensures forall i :: 0 <= i < |lines| ==> At(lines, i + 1, current) == At(lines[1..], i, Opened(lines[0], current))
    ensures At(lines, 0, current) == current
  {
    forall i | 0 <= i < |lines|
      ensures At(lines, i + 1, current) == At(lines[1..], i, Opened(lines[0], current))
    {
      AtNext(lines, i, current);
    }
  }

  /** The section open at a line is the one that the last header before it names. */
  lemma {:induction false} AtMeaning(lines: seq<Line>, i: nat, section: string)
    requires i <= |lines|
    ensures At(lines, i, None) == Some(section) <==> InSection(lines, i, section)
  {
    if i > 0 {
      var front, last := lines[..i - 1], lines[i - 1];
      AtMeaning(lines, i - 1, section);
      assert lines[..i] == front + [last];
      ValuesConcat(front, [last], None, "", "");
      ValuesOne(last, At(lines, i - 1, None), "", "");
      if !last.Header? && InSection(lines, i - 1, section) {
        var j :| 0 <= j < i - 1 && lines[j].Header? && lines[j].name == section
                 && forall m :: j < m < i - 1 ==> !lines[m].Header?;
        assert forall m :: j < m < i ==> !lines[m].Header?;
      }
    }
  }

  predicate Hit(lines: seq<Line>, i: nat, current: Option<string>, section: string, key: string)
    requires i < |lines|
  {
    IsEntryOf(lines[i], At(lines, i, current), section, key)
  }

  /** What line `i` becomes. */
  function Became(lines: seq<Line>, i: nat, current: Option<string>, section: string, key: string): Line
    requires i < |lines|
  {
    if Hit(lines, i, current, section, key)
    then Entry(lines[i].indent + key + "=on", lines[i].indent, key, "on")
    else lines[i]
  }

  /** `out` is the lines as they became, with `added` put in before line `n`. */
  predicate Placed(lines: seq<Line>, current: Option<string>, section: string, key: string, out: seq<Line>, n: nat,
                   added: seq<Line>)
  {
    && n <= |lines| && |out| == |lines| + |added|
    && (forall i :: 0 <= i < n ==> out[i] == Became(lines, i, current, section, key))
    && (forall i :: n <= i < |lines| ==> out[i + |added|] == Became(lines, i, current, section, key))
    && (forall i :: 0 <= i < |added| ==> out[n + i] == added[i])
  }

  lemma PlacedCons(lines: seq<Line>, current: Option<string>, section: string, key: string, out: seq<Line>, n: nat,
                   added: seq<Line>)
    requires lines != [] && Placed(lines[1..], Opened(lines[0], current), section, key, out, n, added)
    ensures Placed(lines, current, section, key, [Became(lines, 0, current, section, key)] + out, n + 1, added)
  {
    AtAll(lines, current);
    var rest, next := lines[1..], Opened(lines[0], current);
    forall i | 0 < i < |lines|
      ensures Became(lines, i, current, section, key) == Became(rest, i - 1, next, section, key)
    {
      assert lines[i] == rest[i - 1] && At(lines, (i - 1) + 1, current) == At(rest, i - 1, next);
    }
  }

  lemma {:induction false} HandledPlaced(lines: seq<Line>, section: string, key: string, current: Option<string>)
    ensures Placed(lines, current, section, key, Edit(lines, section, key, true, current, true), |lines|, [])
  {
    if lines != [] {
      var next := Opened(lines[0], current);
      HandledPlaced(lines[1..], section, key, next);
      PlacedCons(lines, current, section, key, Edit(lines[1..], section, key, true, next, true), |lines| - 1, []);
      assert At(lines, 0, current) == current;
    }
  }

  /** No section of the name has ended before line `n`, and none of its lines is an entry of the pair. */
  predicate Unmet(lines: seq<Line>, current: Option<string>, section: string, key: string, n: nat)
    requires n <= |lines|
  {
    forall i :: 0 <= i < n ==>
      !Hit(lines, i, current, section, key) && !(lines[i].Header? && At(lines, i, current) == Some(section))
  }

  lemma UnmetCons(lines: seq<Line>, current: Option<string>, section: string, key: string, n: nat)
    requires lines != [] && n < |lines|
    ensures Unmet(lines, current, section, key, n + 1) <==>
      && !Hit(lines, 0, current, section, key) && !(lines[0].Header? && current == Some(section))
      && Unmet(lines[1..], Opened(lines[0], current), section, key, n)
  {
    AtAll(lines, current);
    var rest, next := lines[1..], Opened(lines[0], current);
    forall i | 0 < i < |lines|
      ensures Hit(lines, i, current, section, key) == Hit(rest, i - 1, next, section, key)
      ensures At(lines, i, current) == At(rest, i - 1, next)
    {
      assert lines[i] == rest[i - 1] && At(lines, (i - 1) + 1, current) == At(rest, i - 1, next);
    }
    if Unmet(lines, current, section, key, n + 1) {
      forall i | 0 <= i < n
        ensures !Hit(rest, i, next, section, key) && !(rest[i].Header? && At(rest, i, next) == Some(section))
      {
        assert !Hit(lines, i + 1, current, section, key);
      }
    }
  }

  /** Enabling: the pass adds an entry before line `n` if that ends the first section of the name, still unmet. */
  predicate EndsUnmet(lines: seq<Line>, current: Option<string>, section: string, key: string, n: nat) {
    && n <= |lines| && (n == |lines| || lines[n].Header?) && At(lines, n, current) == Some(section)
    && Unmet(lines, current, section, key, n)
  }

  lemma EndsUnmetCons(lines: seq<Line>, current: Option<string>, section: string, key: string, n: nat)
    requires lines != [] && !Hit(lines, 0, current, section, key) && !(lines[0].Header? && current == Some(section))
    ensures EndsUnmet(lines, current, section, key, n + 1) <==>
      EndsUnmet(lines[1..], Opened(lines[0], current), section, key, n)
    ensures !EndsUnmet(lines, current, section, key, 0)
  {
    if n < |lines| {
      UnmetCons(lines, current, section, key, n);
      AtNext(lines, n, current);
    }
  }

  lemma PlacedBehind(lines: seq<Line>, current: Option<string>, section: string, key: string, out: seq<Line>,
                     entry: Line)
    requires Placed(lines, current, section, key, out, |lines|, [])
    ensures Placed(lines, current, section, key, [entry] + out, 0, [entry])
  {
  }

  lemma EditHere(lines: seq<Line>, section: string, key: string)
    requires lines != [] && lines[0].Header?
    ensures Edit(lines, section, key, true, Some(section), false)
         == [Entry(key + "=on", "", key, "on")]
            + ([lines[0]] + Edit(lines[1..], section, key, true, Opened(lines[0], Some(section)), true))
  {
    assert "" + key + "=on" == key + "=on";
  }

  lemma PassHere(lines: seq<Line>, section: string, key: string)
    requires lines != [] && lines[0].Header?
    ensures Placed(lines, Some(section), section, key, Edit(lines, section, key, true, Some(section), false), 0,
                   [Entry(key + "=on", "", key, "on")])
    ensures EndsUnmet(lines, Some(section), section, key, 0)
  {
    var current, next := Some(section), Opened(lines[0], Some(section));
    var out := Edit(lines[1..], section, key, true, next, true);
    HandledPlaced(lines[1..], section, key, next);
    PlacedCons(lines, current, section, key, out, |lines| - 1, []);
    assert Became(lines, 0, current, section, key) == lines[0];
    PlacedBehind(lines, current, section, key, [lines[0]] + out, Entry(key + "=on", "", key, "on"));
    EditHere(lines, section, key);
  }

  lemma PassHit(lines: seq<Line>, section: string, key: string, current: Option<string>)
    requires lines != [] && Hit(lines, 0, current, section, key)
    ensures Placed(lines, current, section, key, Edit(lines, section, key, true, current, false), |lines|, [])
    ensures forall n: nat :: !EndsUnmet(lines, current, section, key, n)
  {
    var next := Opened(lines[0], current);
    HandledPlaced(lines[1..], section, key, next);
    PlacedCons(lines, current, section, key, Edit(lines[1..], section, key, true, next, true), |lines| - 1, []);
  }

  lemma PassOn(lines: seq<Line>, section: string, key: string, current: Option<string>)
    requires lines != [] && !Hit(lines, 0, current, section, key) && !(lines[0].Header? && current == Some(section))
    ensures Edit(lines, section, key, true, current, false)
         == [Became(lines, 0, current, section, key)]
            + Edit(lines[1..], section, key, true, Opened(lines[0], current), false)
  {
    assert At(lines, 0, current) == current;
  }

  lemma {:induction false} EnablePass(lines: seq<Line>, section: string, key: string, current: Option<string>)
    returns (n: nat, added: seq<Line>)
    ensures Placed(lines, current, section, key, Edit(lines, section, key, true, current, false), n, added)
    ensures added == [] || (added == [Entry(key + "=on", "", key, "on")] && EndsUnmet(lines, current, section, key, n))
    ensures added == [] ==> forall m: nat :: !EndsUnmet(lines, current, section, key, m)
  {
    n, added := |lines|, [];
    if lines == [] {
      assert "" + key + "=on" == key + "=on";
      if current == Some(section) {
        n, added := 0, [Entry(key + "=on", "", key, "on")];
      }
    } else if lines[0].Header? && current == Some(section) {
      n, added := 0, [Entry(key + "=on", "", key, "on")];
      PassHere(lines, section, key);
    } else if Hit(lines, 0, current, section, key) {
      PassHit(lines, section, key, current);
    } else {
      var next := Opened(lines[0], current);
      n, added := EnablePass(lines[1..], section, key, next);
      PassOn(lines, section, key, current);
      PlacedCons(lines, current, section, key, Edit(lines[1..], section, key, true, next, false), n, added);
      forall m: nat
        ensures EndsUnmet(lines, current, section, key, m + 1) <==> EndsUnmet(lines[1..], next, section, key, m)
      {
        EndsUnmetCons(lines, current, section, key, m);
      }
      EndsUnmetCons(lines, current, section, key, n);
      if added == [] {
        forall m: nat ensures !EndsUnmet(lines, current, section, key, m) {
          if m > 0 {
            assert EndsUnmet(lines, current, section, key, (m - 1) + 1)
              <==> EndsUnmet(lines[1..], next, section, key, m - 1);
          }
        }
      }
      n := n + 1;
    }
  }

  // ---------------------------------------------------------------------------------
  // The whole edit.

  /** Line `n` ends the first section of the name, and that section has no entry of the pair. */
  predicate EndsWithout(lines: seq<Line>, n: nat, section: string, key: string) {
    && n <= |lines| && EndsSection(lines, n, section)
    && forall i :: 0 <= i < n ==> !OfPair(lines, i, section, key) && !EndsSection(lines, i, section)
  }

  lemma HitMeaning(lines: seq<Line>, section: string, key: string)
    ensures forall i :: 0 <= i < |lines| ==> (Hit(lines, i, None, section, key) <==> OfPair(lines, i, section, key))
  {
    forall i | 0 <= i < |lines| ensures Hit(lines, i, None, section, key) <==> OfPair(lines, i, section, key) {
      AtMeaning(lines, i, section);
    }
  }

  lemma EndMeaning(lines: seq<Line>, section: string, i: nat)
    requires i <= |lines|
    ensures EndsSection(lines, i, section) <==>
      (i == |lines| || lines[i].Header?) && At(lines, i, None) == Some(section)
  {
    AtMeaning(lines, i, section);
  }

  lemma MetMeaning(lines: seq<Line>, section: string, key: string, n: nat)
    ensures EndsUnmet(lines, None, section, key, n) <==> EndsWithout(lines, n, section, key)
  {
    if n <= |lines| {
      HitMeaning(lines, section, key);
      EndMeaning(lines, section, n);
      forall i | 0 <= i < n
        ensures EndsSection(lines, i, section) <==> lines[i].Header? && At(lines, i, None) == Some(section)
      {
        EndMeaning(lines, section, i);
      }
      UnmetMeaning(lines, section, key, n);
    }
  }

  lemma UnmetMeaning(lines: seq<Line>, section: string, key: string, n: nat)
    requires n <= |lines|
    requires forall i :: 0 <= i < n ==>
      (EndsSection(lines, i, section) <==> lines[i].Header? && At(lines, i, None) == Some(section))
    requires forall i :: 0 <= i < n ==> (Hit(lines, i, None, section, key) <==> OfPair(lines, i, section, key))
    ensures Unmet(lines, None, section, key, n) <==>
      forall i :: 0 <= i < n ==> !OfPair(lines, i, section, key) && !EndsSection(lines, i, section)
  {
  }

  /** Enabling rewrites line `i` with its own indentation if it is an entry of the pair, and keeps it otherwise. */
  predicate Rewritten(line: Line, line': Line, ofPair: bool, key: string) {
    if ofPair then line.Entry? && line' == Entry(line.indent + key + "=on", line.indent, key, "on") else line' == line
  }

  predicate EnabledAs(lines: seq<Line>, section: string, key: string, out: seq<Line>, n: nat, added: seq<Line>) {
    && n <= |lines| && |out| == |lines| + |added|
    && (forall i :: 0 <= i < n ==> Rewritten(lines[i], out[i], OfPair(lines, i, section, key), key))
    && (forall i :: n <= i < |lines| ==> Rewritten(lines[i], out[i + |added|], OfPair(lines, i, section, key), key))
    && (forall i :: 0 <= i < |added| ==> out[n + i] == added[i])
  }

  lemma EnablePresent(lines: seq<Line>, section: string, key: string) returns (n: nat, added: seq<Line>)
    requires HasSection(lines, section)
    ensures EnabledAs(lines, section, key, EditLines(lines, section, key, true), n, added)
    ensures added == [] || (added == [Entry(key + "=on", "", key, "on")] && EndsWithout(lines, n, section, key))
    ensures added == [] ==> forall m: nat :: !EndsWithout(lines, m, section, key)
  {
    n, added := EnablePass(lines, section, key, None);
    HitMeaning(lines, section, key);
    MetMeaning(lines, section, key, n);
    forall m: nat ensures EndsUnmet(lines, None, section, key, m) <==> EndsWithout(lines, m, section, key) {
      MetMeaning(lines, section, key, m);
    }
    var out := EditLines(lines, section, key, true);
    forall i | 0 <= i < |lines|
      ensures Rewritten(lines[i], Became(lines, i, None, section, key), OfPair(lines, i, section, key), key)
    {
    }
  }

  lemma EnableMissing(lines: seq<Line>, section: string, key: string)
    requires !HasSection(lines, section)
    ensures EnabledAs(lines, section, key, EditLines(lines, section, key, true), |lines|,
                      (if lines != [] && !Blank(lines[|lines| - 1].text) then [Other("")] else [])
                      + [Header("[" + section + "]", section), Entry(key + "=on", "", key, "on")])
  {
    EditElsewhere(lines, section, key, true, None, false);
    assert "" + key + "=on" == key + "=on";
  }

  /**
   Enabling, line by line: every entry of the pair is rewritten in its place with its own indentation and every
   other line stays.  One unindented entry is added where the first section of the name ends, exactly if that
   section has none; if there is no such section, it is added at the end, behind an empty line unless the text is
   empty or ends in white space.
   */
  lemma EnableInPlace(lines: seq<Line>, section: string, key: string) returns (n: nat, added: seq<Line>)
    ensures EnabledAs(lines, section, key, EditLines(lines, section, key, true), n, added)
    ensures if exists i :: 0 <= i < |lines| && lines[i].Header? && lines[i].name == section
      then if exists m: nat :: EndsWithout(lines, m, section, key)
           then added == [Entry(key + "=on", "", key, "on")] && EndsWithout(lines, n, section, key)
           else added == []
      else n == |lines| && added == (if lines != [] && !Blank(lines[|lines| - 1].text) then [Other("")] else [])
                                    + [Header("[" + section + "]", section), Entry(key + "=on", "", key, "on")]
  {
    if HasSection(lines, section) {
      n, added := EnablePresent(lines, section, key);
    } else {
      EnableMissing(lines, section, key);
      n := |lines|;
      added := (if lines != [] && !Blank(lines[|lines| - 1].text) then [Other("")] else [])
               + [Header("[" + section + "]", section), Entry(key + "=on", "", key, "on")];
    }
  }

  // ---------------------------------------------------------------------------------
  // Disabling.

  function Shifted(rest: seq<nat>): (r: seq<nat>)
    ensures |r| == |rest| && forall p :: 0 <= p < |rest| ==> r[p] == rest[p] + 1
  {
    seq(|rest|, p requires 0 <= p < |rest| => rest[p] + 1)
  }

  /** The indices, in order, of the lines that are no entries of the pair. */
  predicate Keeps(lines: seq<Line>, current: Option<string>, section: string, key: string, kept: seq<nat>) {
    && (forall p, q :: 0 <= p < q < |kept| ==> kept[p] < kept[q])
    && (forall i :: 0 <= i < |lines| ==> (i in kept <==> !Hit(lines, i, current, section, key)))
    && (forall p :: 0 <= p < |kept| ==> kept[p] < |lines|)
  }

  lemma KeepsCons(lines: seq<Line>, current: Option<string>, section: string, key: string, rest: seq<nat>)
    requires lines != [] && Keeps(lines[1..], Opened(lines[0], current), section, key, rest)
    ensures Keeps(lines, current, section, key,
                  (if Hit(lines, 0, current, section, key) then [] else [0]) + Shifted(rest))
  {
    var next, later := Opened(lines[0], current), Shifted(rest);
    var kept := (if Hit(lines, 0, current, section, key) then [] else [0]) + later;
    forall i | 0 <= i < |lines| ensures i in kept <==> !Hit(lines, i, current, section, key) {
      if i > 0 {
        AtNext(lines, i - 1, current);
        assert lines[i] == lines[1..][i - 1];
        assert i in kept <==> i in later;
        if i - 1 in rest {
          var p :| 0 <= p < |rest| && rest[p] == i - 1;
          assert later[p] == i;
        }
      }
    }
  }

  lemma {:induction false} DisablePass(lines: seq<Line>, section: string, key: string, current: Option<string>,
                                       handled: bool)
    returns (kept: seq<nat>)
    ensures Keeps(lines, current, section, key, kept)
    ensures var out := Edit(lines, section, key, false, current, handled);
      |out| == |kept| && forall p :: 0 <= p < |kept| ==> out[p] == lines[kept[p]]
  {
    kept := [];
    if lines != [] {
      var next, h := Opened(lines[0], current), HandledAfter(lines[0], section, key, false, current, handled);
      var rest := DisablePass(lines[1..], section, key, next, h);
      KeepsCons(lines, current, section, key, rest);
      assert At(lines, 0, current) == current;
      kept := (if Hit(lines, 0, current, section, key) then [] else [0]) + Shifted(rest);
    }
  }

  /** Disabling, line by line: the entries of the pair go, and exactly they; the rest stays in order. */
  lemma DisableInPlace(lines: seq<Line>, section: string, key: string) returns (kept: seq<nat>)
    ensures var out := EditLines(lines, section, key, false);
      |out| == |kept| && forall p :: 0 <= p < |kept| ==> kept[p] < |lines| && out[p] == lines[kept[p]]
    ensures forall p, q :: 0 <= p < q < |kept| ==> kept[p] < kept[q]
    ensures forall i :: 0 <= i < |lines| ==> (i in kept <==> !OfPair(lines, i, section, key))
  {
    kept := DisablePass(lines, section, key, None, false);
    HitMeaning(lines, section, key);
  }

  // ---------------------------------------------------------------------------------
  // Values.

  /** The indices, in order, of the lines that are entries of the pair. */
  predicate Holds(lines: seq<Line>, current: Option<string>, section: string, key: string, hits: seq<nat>) {
    && (forall p, q :: 0 <= p < q < |hits| ==> hits[p] < hits[q])
    && (forall i :: 0 <= i < |lines| ==> (i in hits <==> Hit(lines, i, current, section, key)))
    && (forall p :: 0 <= p < |hits| ==> hits[p] < |lines|)
  }

  lemma HoldsCons(lines: seq<Line>, current: Option<string>, section: string, key: string, rest: seq<nat>)
    requires lines != [] && Holds(lines[1..], Opened(lines[0], current), section, key, rest)
    ensures Holds(lines, current, section, key,
                  (if Hit(lines, 0, current, section, key) then [0] else []) + Shifted(rest))
  {
    var next, later := Opened(lines[0], current), Shifted(rest);
    var hits := (if Hit(lines, 0, current, section, key) then [0] else []) + later;
    forall i | 0 <= i < |lines| ensures i in hits <==> Hit(lines, i, current, section, key) {
      if i > 0 {
        AtNext(lines, i - 1, current);
        assert lines[i] == lines[1..][i - 1];
        assert i in hits <==> i in later;
        if i - 1 in rest {
          var p :| 0 <= p < |rest| && rest[p] == i - 1;
          assert later[p] == i;
        }
      }
    }
  }

  predicate ValuesAt(lines: seq<Line>, hits: seq<nat>, values: seq<string>) {
    |values| == |hits|
    && forall p :: 0 <= p < |hits| ==>
         hits[p] < |lines| && lines[hits[p]].Entry? && values[p] == lines[hits[p]].value
  }

  lemma ValuesAtCons(lines: seq<Line>, rest: seq<nat>, values: seq<string>)
    requires lines != [] && ValuesAt(lines[1..], rest, values)
    ensures ValuesAt(lines, Shifted(rest), values)
    ensures lines[0].Entry? ==> ValuesAt(lines, [0] + Shifted(rest), [lines[0].value] + values)
  {
  }

  lemma {:induction false} ValuesPass(lines: seq<Line>, section: string, key: string, current: Option<string>)
    returns (hits: seq<nat>)
    ensures Holds(lines, current, section, key, hits)
    ensures ValuesAt(lines, hits, Values(lines, current, section, key))
  {
    hits := [];
    if lines != [] {
      var next := Opened(lines[0], current);
      var rest := ValuesPass(lines[1..], section, key, next);
      HoldsCons(lines, current, section, key, rest);
      ValuesAtCons(lines, rest, Values(lines[1..], next, section, key));
      assert At(lines, 0, current) == current;
      hits := (if Hit(lines, 0, current, section, key) then [0] else []) + Shifted(rest);
      assert [] + Shifted(rest) == Shifted(rest);
      assert [] + Values(lines[1..], next, section, key) == Values(lines[1..], next, section, key);
    }
  }

  /** The values of a pair are those of its entries, line by line, in order. */
  lemma ValuesInPlace(lines: seq<Line>, section: string, key: string) returns (hits: seq<nat>)
    ensures forall p, q :: 0 <= p < q < |hits| ==> hits[p] < hits[q]
    ensures forall i :: 0 <= i < |lines| ==> (i in hits <==> OfPair(lines, i, section, key))
    ensures ValuesAt(lines, hits, Values(lines, None, section, key))
  {
    hits := ValuesPass(lines, section, key, None);
    HitMeaning(lines, section, key);
  }
}
