/**
 The client list of a tenant (app/routers/aggregate.py, `get_aggregate_clients`): the same VM can be
 reported by several spokes, so rows are merged by MAC address or host name, preferring a row with
 active simulations.  Rows are named by their place in spoke order.
 */
module ClientDedup {
  import opened IniText

  datatype Row = Row(mac: string, hostname: string, spokeName: string, running: bool)

  function LowerChar(c: char): char {
    if 'A' <= c <= 'Z' then c - 'A' + 'a' else c
  }

  function Lower(s: string): string {
    seq(|s|, i requires 0 <= i < |s| => LowerChar(s[i]))
  }

  /** The merging key; the MAC if there is one, even a blank one, else the host name. */
  function Key(row: Row): string {
    Trimmed(Lower(if row.mac != "" then row.mac else row.hostname))
  }

  /** The ASCII letters in lower case, and every other character as it is. */
  lemma LowerMeaning(s: string, i: nat)
    requires i < |s|
    ensures |Lower(s)| == |s|
    ensures !('A' <= s[i] <= 'Z') ==> Lower(s)[i] == s[i]
    ensures 'A' <= s[i] <= 'Z' ==>
      'a' <= Lower(s)[i] <= 'z' && Lower(s)[i] as int - 'a' as int == s[i] as int - 'A' as int
  {
  }

  function Trimmed(s: string): string {
    StripRight(s[Indent(s)..])
  }

  /** `first` and `last` are the first and the last character that is no white space. */
  predicate Ends(s: string, first: nat, last: nat) {
    && first <= last < |s| && !IsSpace(s[first]) && !IsSpace(s[last])
    && (forall i :: 0 <= i < first ==> IsSpace(s[i])) && (forall i :: last < i < |s| ==> IsSpace(s[i]))
  }

  lemma TrimmedEnds(s: string, first: nat, last: nat)
    requires Ends(s, first, last)
    ensures Trimmed(s) == s[first..last + 1]
  {
    IndentAt(s, first);
    forall i | last - first < i < |s[first..]| ensures IsSpace(s[first..][i]) {
      assert s[first..][i] == s[first + i];
    }
    StripsTo(s[first..], last - first);
  }

  lemma TrimmedBlank(s: string)
    requires forall i :: 0 <= i < |s| ==> IsSpace(s[i])
    ensures Trimmed(s) == ""
  {
    IndentAt(s, |s|);
  }

  /**
   The key is the lower-case MAC, or else host name, between its first and its last character that is no white
   space, and empty if there is none.
   */
  lemma KeyMeaning(row: Row, first: nat, last: nat)
    ensures var s := Lower(if row.mac == "" then row.hostname else row.mac);
      && (Ends(s, first, last) ==> Key(row) == s[first..last + 1])
      && ((forall i :: 0 <= i < |s| ==> IsSpace(s[i])) ==> Key(row) == "")
  {
    var s := Lower(if row.mac == "" then row.hostname else row.mac);
    if Ends(s, first, last) {
      TrimmedEnds(s, first, last);
    }
    if forall i :: 0 <= i < |s| ==> IsSpace(s[i]) {
      TrimmedBlank(s);
    }
  }

  lemma {:induction false} StripsTo(s: string, last: nat)
    requires last < |s| && !IsSpace(s[last]) && forall i :: last < i < |s| ==> IsSpace(s[i])
    ensures StripRight(s) == s[..last + 1]
  {
    if last < |s| - 1 {
      StripsTo(s[..|s| - 1], last);
      assert s[..|s| - 1][..last + 1] == s[..last + 1];
    }
  }

  /** An administrator has set simulations for the row's host name. */
  predicate Overridden(row: Row, overrides: map<string, seq<string>>) {
    row.hostname in overrides && overrides[row.hostname] != []
  }

  /** A row counts as active if it reports simulations or some are set for its host name. */
  predicate Active(row: Row, overrides: map<string, seq<string>>) {
    row.running || Overridden(row, overrides)
  }

  datatype Keyed = Keyed(key: string, active: bool)

  /** What the merging looks at. */
  function KeyedRows(rows: seq<Row>, overrides: map<string, seq<string>>): seq<Keyed> {
    seq(|rows|, i requires 0 <= i < |rows| => Keyed(Key(rows[i]), Active(rows[i], overrides)))
  }

  // ---------------------------------------------------------------------------------
  // Which row represents a key.

  /** The first of the first `n` rows with a key, among the active ones only if asked to; `n` if there is none. */
  function First(rows: seq<Keyed>, n: nat, key: string, active: bool): (f: nat)
    requires n <= |rows|
    ensures f <= n
  {
    if n == 0 then 0
    else
      var f := First(rows, n - 1, key, active);
      if f < n - 1 || (rows[n - 1].key == key && (active ==> rows[n - 1].active)) then f else n
  }

  lemma {:induction false} FirstIsFirst(rows: seq<Keyed>, n: nat, key: string, active: bool)
    requires n <= |rows|
    ensures var f := First(rows, n, key, active);
      && (f < n ==> rows[f].key == key && (active ==> rows[f].active))
      && (forall i :: 0 <= i < f ==> !(rows[i].key == key && (active ==> rows[i].active)))
  {
    if n > 0 {
      FirstIsFirst(rows, n - 1, key, active);
    }
  }

  /** The row that should stand for a key: its first active row, else its first row. */
  function Chosen(rows: seq<Keyed>, n: nat, key: string): (c: nat)
    requires n <= |rows|
    ensures c <= n
  {
    var f := First(rows, n, key, true);
    if f < n then f else First(rows, n, key, false)
  }

  /** Where a row's key first appears; a row without key stands for itself. */
  function Origin(rows: seq<Keyed>, j: nat): (o: nat)
    requires j < |rows|
    ensures o <= j
  {
    if rows[j].key == "" then j else First(rows, j, rows[j].key, false)
  }

  lemma OriginIsFirst(rows: seq<Keyed>, j: nat, n: nat)
    requires j < n <= |rows| && rows[j].key != ""
    ensures Origin(rows, j) == First(rows, n, rows[j].key, false)
  {
    FirstIsFirst(rows, j, rows[j].key, false);
    FirstIsFirst(rows, n, rows[j].key, false);
  }

  /** A row is listed exactly when it has no key or is the chosen one of its key. */
  predicate Survives(rows: seq<Keyed>, n: nat, j: nat)
    requires j < n <= |rows|
  {
    rows[j].key == "" || Chosen(rows, n, rows[j].key) == j
  }

  /** What one more row does to the chosen row of its own key, and that it changes no other. */
  lemma ChosenStep(rows: seq<Keyed>, n: nat, key: string)
    requires n < |rows|
    ensures var c, d := Chosen(rows, n, key), Chosen(rows, n + 1, key);
      && (c == n ==> d == if rows[n].key == key then n else n + 1)
      && (c < n ==> d == if rows[n].key == key && rows[n].active && !rows[c].active then n else c)
      && (c < n ==> rows[c].key == key)
  {
    FirstIsFirst(rows, n, key, true);
    FirstIsFirst(rows, n, key, false);
  }

  // ---------------------------------------------------------------------------------
  // The loop: `picked` holds the rows in the order of the dictionary, `slot` the place of each key.

  /** Every picked row is in its key's place. */
  predicate Placed(rows: seq<Keyed>, n: nat, picked: seq<nat>, slot: map<string, nat>)
    requires n <= |rows|
  {
    forall p :: 0 <= p < |picked| ==>
      picked[p] < n && (rows[picked[p]].key != "" ==> rows[picked[p]].key in slot && slot[rows[picked[p]].key] == p)
  }

  /** Every key's place holds the chosen row of that key. */
  ghost predicate Filled(rows: seq<Keyed>, n: nat, picked: seq<nat>, slot: map<string, nat>)
    requires n <= |rows|
  {
    && (forall k :: k in slot ==> slot[k] < |picked| && Chosen(rows, n, k) == picked[slot[k]] < n)
    && (forall k :: k !in slot && k != "" ==> Chosen(rows, n, k) == n)
  }

  /** Every row without key is picked. */
  predicate KeepsKeyless(rows: seq<Keyed>, n: nat, picked: seq<nat>)
    requires n <= |rows|
  {
    forall j :: 0 <= j < n && rows[j].key == "" ==> j in picked
  }

  /** The picked rows are in the order in which their keys first appeared; so none is picked twice. */
  predicate InOrder(rows: seq<Keyed>, n: nat, picked: seq<nat>)
    requires n <= |rows|
  {
    && (forall p :: 0 <= p < |picked| ==> picked[p] < n)
    && (forall p, q :: 0 <= p < q < |picked| ==> Origin(rows, picked[p]) < Origin(rows, picked[q]))
  }

  lemma AppendKeeps(rows: seq<Keyed>, n: nat, picked: seq<nat>, slot: map<string, nat>)
    requires n < |rows| && rows[n].key !in slot
    requires Placed(rows, n, picked, slot) && Filled(rows, n, picked, slot)
    requires KeepsKeyless(rows, n, picked) && InOrder(rows, n, picked)
    ensures var picked', slot' := picked + [n], if rows[n].key == "" then slot else slot[rows[n].key := |picked|];
      && Placed(rows, n + 1, picked', slot') && KeepsKeyless(rows, n + 1, picked') && InOrder(rows, n + 1, picked')
  {
    var picked' := picked + [n];
    assert forall p :: 0 <= p < |picked| ==> picked'[p] == picked[p];
    assert picked'[|picked|] == n;
    NewOrigin(rows, n, picked, slot);
    forall p | 0 <= p < |picked| ensures Origin(rows, picked[p]) < Origin(rows, n) {
    }
    forall j | 0 <= j <= n && rows[j].key == "" ensures j in picked' {
    }
  }

  lemma NewOrigin(rows: seq<Keyed>, n: nat, picked: seq<nat>, slot: map<string, nat>)
    requires n < |rows| && rows[n].key !in slot && Filled(rows, n, picked, slot)
    ensures Origin(rows, n) == n
  {
    if rows[n].key != "" {
      assert Chosen(rows, n, rows[n].key) == n;
    }
  }

  lemma AppendFills(rows: seq<Keyed>, n: nat, picked: seq<nat>, slot: map<string, nat>)
    requires n < |rows| && rows[n].key !in slot && "" !in slot && Filled(rows, n, picked, slot)
    ensures Filled(rows, n + 1, picked + [n], if rows[n].key == "" then slot else slot[rows[n].key := |picked|])
  {
    var key := rows[n].key;
    forall k | k in slot || k != ""
      ensures Chosen(rows, n + 1, k) == if k in slot then picked[slot[k]] else if k == key then n else n + 1
    {
      ChosenStep(rows, n, k);
    }
  }

  /** What happens at a key that already has a row: the new one replaces it if it alone is active. */
  lemma ReplaceFills(rows: seq<Keyed>, n: nat, picked: seq<nat>, slot: map<string, nat>)
    requires n < |rows| && rows[n].key in slot && rows[n].key != ""
    requires Placed(rows, n, picked, slot) && Filled(rows, n, picked, slot)
    ensures var s := slot[rows[n].key];
      Filled(rows, n + 1, if rows[n].active && !rows[picked[s]].active then picked[s := n] else picked, slot)
  {
    var key := rows[n].key;
    forall k | k in slot || k != ""
      ensures Chosen(rows, n + 1, k) ==
        if k !in slot then n + 1
        else if k == key && rows[n].active && !rows[picked[slot[key]]].active then n
        else picked[slot[k]]
    {
      ChosenStep(rows, n, k);
    }
    forall k | k in slot && k != key ensures slot[k] != slot[key] {
      ChosenStep(rows, n, k);
      ChosenStep(rows, n, key);
    }
  }

  lemma ReplacePlaced(rows: seq<Keyed>, n: nat, picked: seq<nat>, slot: map<string, nat>)
    requires n < |rows| && rows[n].key in slot && slot[rows[n].key] < |picked|
    requires Placed(rows, n, picked, slot)
    ensures Placed(rows, n + 1, picked[slot[rows[n].key] := n], slot)
  {
  }

  lemma ReplaceKeyless(rows: seq<Keyed>, n: nat, picked: seq<nat>, s: nat)
    requires n < |rows| && s < |picked| && picked[s] < n && rows[picked[s]].key == rows[n].key != ""
    requires KeepsKeyless(rows, n, picked)
    ensures KeepsKeyless(rows, n + 1, picked[s := n])
  {
    forall j | 0 <= j < n && rows[j].key == "" ensures j in picked[s := n] {
      var q :| 0 <= q < |picked| && picked[q] == j;
      assert picked[s := n][q] == j;
    }
  }

  lemma ReplaceInOrder(rows: seq<Keyed>, n: nat, picked: seq<nat>, s: nat)
    requires n < |rows| && s < |picked| && picked[s] < n && rows[picked[s]].key == rows[n].key != ""
    requires InOrder(rows, n, picked)
    ensures InOrder(rows, n + 1, picked[s := n])
  {
    var replaced := picked[s := n];
    OriginIsFirst(rows, picked[s], n + 1);
    OriginIsFirst(rows, n, n + 1);
    assert forall p :: 0 <= p < |picked| ==> Origin(rows, replaced[p]) == Origin(rows, picked[p]);
  }

  ghost predicate Good(rows: seq<Keyed>, n: nat, picked: seq<nat>, slot: map<string, nat>)
    requires n <= |rows|
  {
    && "" !in slot && Placed(rows, n, picked, slot) && Filled(rows, n, picked, slot)
    && KeepsKeyless(rows, n, picked) && InOrder(rows, n, picked)
  }

  lemma AppendGood(rows: seq<Keyed>, n: nat, picked: seq<nat>, slot: map<string, nat>)
    requires n < |rows| && rows[n].key !in slot && Good(rows, n, picked, slot)
    ensures Good(rows, n + 1, picked + [n], if rows[n].key == "" then slot else slot[rows[n].key := |picked|])
  {
    AppendKeeps(rows, n, picked, slot);
    AppendFills(rows, n, picked, slot);
  }

  lemma ReplaceGood(rows: seq<Keyed>, n: nat, picked: seq<nat>, slot: map<string, nat>)
    requires n < |rows| && rows[n].key in slot && Good(rows, n, picked, slot)
    ensures var s := slot[rows[n].key];
      && s < |picked| && picked[s] < n
      && Good(rows, n + 1, if rows[n].active && !rows[picked[s]].active then picked[s := n] else picked, slot)
  {
    var s := slot[rows[n].key];
    assert Chosen(rows, n, rows[n].key) == picked[s] < n;
    ChosenStep(rows, n, rows[n].key);
    ReplaceFills(rows, n, picked, slot);
    ReplacePlaced(rows, n, picked, slot);
    ReplaceKeyless(rows, n, picked, s);
    ReplaceInOrder(rows, n, picked, s);
    LaterGood(rows, n, picked, slot);
  }

  lemma LaterGood(rows: seq<Keyed>, n: nat, picked: seq<nat>, slot: map<string, nat>)
    requires n < |rows| && rows[n].key != ""
    requires Placed(rows, n, picked, slot) && KeepsKeyless(rows, n, picked) && InOrder(rows, n, picked)
    ensures Placed(rows, n + 1, picked, slot) && KeepsKeyless(rows, n + 1, picked) && InOrder(rows, n + 1, picked)
  {
  }

  lemma GoodIsSurvives(rows: seq<Keyed>, picked: seq<nat>, slot: map<string, nat>, j: nat)
    requires Good(rows, |rows|, picked, slot)
    ensures j in picked <==> j < |rows| && Survives(rows, |rows|, j)
  {
  }

  lemma GoodIsResult(rows: seq<Keyed>, picked: seq<nat>, slot: map<string, nat>)
    requires Good(rows, |rows|, picked, slot)
    ensures forall j: nat :: j in picked <==> j < |rows| && Survives(rows, |rows|, j)
    ensures InOrder(rows, |rows|, picked)
  {
    forall j: nat ensures j in picked <==> j < |rows| && Survives(rows, |rows|, j) {
      GoodIsSurvives(rows, picked, slot, j);
    }
  }

  /** One row's turn in the loop. */
  method Turn(rows: seq<Keyed>, i: nat, before: seq<nat>, slots: map<string, nat>)
    returns (picked: seq<nat>, slot: map<string, nat>)
    requires i < |rows| && Good(rows, i, before, slots)
    ensures Good(rows, i + 1, picked, slot)
  {
    picked, slot := before, slots;
    var key := rows[i].key;
    if key !in slot {
      AppendGood(rows, i, picked, slot);
      if key != "" {
        slot := slot[key := |picked|];
      }
      picked := picked + [i];
    } else {
      ReplaceGood(rows, i, picked, slot);
      if rows[i].active && !rows[picked[slot[key]]].active {
        picked := picked[slot[key] := i];
      }
    }
  }

  /** The merging loop. */
  method Merge(rows: seq<Keyed>) returns (picked: seq<nat>)
    ensures forall j: nat :: j in picked <==> j < |rows| && Survives(rows, |rows|, j)
    ensures InOrder(rows, |rows|, picked)
  {
    var slot: map<string, nat> := map[];
    picked := [];
    for i := 0 to |rows|
      invariant Good(rows, i, picked, slot)
    {
      picked, slot := Turn(rows, i, picked, slot);
    }
    GoodIsResult(rows, picked, slot);
  }

  // ---------------------------------------------------------------------------------
  // The order of the list.

  /** Comparison of strings by characters. */
  predicate StringLe(a: string, b: string) {
    a == "" || (b != "" && (a[0] < b[0] || (a[0] == b[0] && StringLe(a[1..], b[1..]))))
  }

  /** The first difference decides, and a beginning comes first. */
  lemma {:induction false} StringLeMeaning(a: string, b: string, n: nat)
    requires n <= |a| && n <= |b| && a[..n] == b[..n]
    ensures n == |a| ==> StringLe(a, b)
    ensures n < |a| && n == |b| ==> !StringLe(a, b)
    ensures n < |a| && n < |b| && a[n] != b[n] ==> (StringLe(a, b) <==> a[n] < b[n])
  {
    if n > 0 {
      assert a[0] == a[..n][0] == b[0];
      assert a[1..][..n - 1] == a[..n][1..] == b[1..][..n - 1];
      StringLeMeaning(a[1..], b[1..], n - 1);
    }
  }

  lemma {:induction false} StringLeTotal(a: string, b: string)
    ensures StringLe(a, b) || StringLe(b, a)
    ensures StringLe(a, b) && StringLe(b, a) ==> a == b
  {
    if a != "" && b != "" && a[0] == b[0] {
      StringLeTotal(a[1..], b[1..]);
      assert a == [a[0]] + a[1..] && b == [b[0]] + b[1..];
    }
  }

  lemma {:induction false} StringLeTransitive(a: string, b: string, c: string)
    requires StringLe(a, b) && StringLe(b, c)
    ensures StringLe(a, c)
  {
    if a != "" && a[0] == b[0] == c[0] {
      StringLeTransitive(a[1..], b[1..], c[1..]);
    }
  }

  /** The names a row is sorted by: its spoke's, then its host's, both in lower case. */
  function Names(row: Row): (string, string) {
    (Lower(row.spokeName), Lower(row.hostname))
  }

  predicate NamesLe(a: (string, string), b: (string, string)) {
    StringLe(a.0, b.0) && (a.0 == b.0 ==> StringLe(a.1, b.1))
  }

  lemma NamesLeTotal(a: (string, string), b: (string, string))
    ensures NamesLe(a, b) || NamesLe(b, a)
    ensures NamesLe(a, b) && NamesLe(b, a) ==> a == b
  {
    StringLeTotal(a.0, b.0);
    StringLeTotal(a.1, b.1);
  }

  lemma NamesLeTransitive(a: (string, string), b: (string, string), c: (string, string))
    requires NamesLe(a, b) && NamesLe(b, c)
    ensures NamesLe(a, c)
  {
    StringLeTransitive(a.0, b.0, c.0);
    StringLeTotal(a.0, b.0);
    StringLeTotal(b.0, c.0);
    if a.0 == c.0 {
      StringLeTransitive(a.1, b.1, c.1);
    }
  }

  predicate InRange(s: seq<nat>, n: nat) {
    forall p :: 0 <= p < |s| ==> s[p] < n
  }

  function Insert(names: seq<(string, string)>, x: nat, s: seq<nat>): seq<nat>
    requires x < |names| && InRange(s, |names|)
  {
    if s == [] || NamesLe(names[x], names[s[0]]) then [x] + s else [s[0]] + Insert(names, x, s[1..])
  }

  /** `sorted`: stable, by names. */
  function SortByNames(names: seq<(string, string)>, s: seq<nat>): (r: seq<nat>)
    requires InRange(s, |names|)
    ensures multiset(r) == multiset(s)
  {
    if s == [] then []
    else
      var rest := SortByNames(names, s[1..]);
      SameRange(rest, s[1..], |names|);
      InsertAdds(names, s[0], rest);
      assert s == [s[0]] + s[1..];
      Insert(names, s[0], rest)
  }

  lemma SameRange(r: seq<nat>, s: seq<nat>, n: nat)
    requires multiset(r) == multiset(s) && InRange(s, n)
    ensures InRange(r, n)
  {
    forall p | 0 <= p < |r| ensures r[p] < n {
      assert r[p] in multiset(s);
    }
  }

  lemma {:induction false} InsertAdds(names: seq<(string, string)>, x: nat, s: seq<nat>)
    requires x < |names| && InRange(s, |names|)
    ensures multiset(Insert(names, x, s)) == multiset(s) + multiset{x}
  {
    if s != [] && !NamesLe(names[x], names[s[0]]) {
      InsertAdds(names, x, s[1..]);
      assert s == [s[0]] + s[1..];
    }
  }

  /** One row before another: by names, and between equal names in the order `origin`. */
  predicate Before(names: seq<(string, string)>, origin: seq<nat>, x: nat, y: nat)
    requires x < |names| == |origin| && y < |names|
  {
    NamesLe(names[x], names[y]) && (names[x] == names[y] ==> origin[x] < origin[y])
  }

  predicate Leads(names: seq<(string, string)>, origin: seq<nat>, x: nat, s: seq<nat>)
    requires x < |names| == |origin| && InRange(s, |names|)
  {
    forall q :: 0 <= q < |s| ==> Before(names, origin, x, s[q])
  }

  /** Every row is before all later ones. */
  predicate Tidy(names: seq<(string, string)>, origin: seq<nat>, s: seq<nat>)
    requires |origin| == |names| && InRange(s, |names|)
  {
    s == [] || (Leads(names, origin, s[0], s[1..]) && Tidy(names, origin, s[1..]))
  }

  lemma BeforeTransitive(names: seq<(string, string)>, origin: seq<nat>, x: nat, y: nat, z: nat)
    requires x < |names| == |origin| && y < |names| && z < |names|
    requires NamesLe(names[x], names[y]) && Before(names, origin, y, z) && origin[x] < origin[z]
    ensures Before(names, origin, x, z)
  {
    NamesLeTransitive(names[x], names[y], names[z]);
  }

  lemma {:induction false} InsertTidy(names: seq<(string, string)>, origin: seq<nat>, x: nat, s: seq<nat>)
    requires x < |names| == |origin| && InRange(s, |names|) && Tidy(names, origin, s)
    requires forall q :: 0 <= q < |s| ==> origin[x] < origin[s[q]]
    ensures InRange(Insert(names, x, s), |names|) && Tidy(names, origin, Insert(names, x, s))
  {
    InsertAdds(names, x, s);
    var r := Insert(names, x, s);
    if s == [] || NamesLe(names[x], names[s[0]]) {
      assert r[1..] == s;
      forall q | 0 <= q < |s| ensures Before(names, origin, x, s[q]) {
        if q > 0 {
          assert s[q] == s[1..][q - 1];
          BeforeTransitive(names, origin, x, s[0], s[q]);
        }
      }
    } else {
      var more := Insert(names, x, s[1..]);
      assert r[1..] == more;
      InsertTidy(names, origin, x, s[1..]);
      InsertAdds(names, x, s[1..]);
      NamesLeTotal(names[x], names[s[0]]);
      forall q | 0 <= q < |more| ensures Before(names, origin, s[0], more[q]) {
        assert more[q] in multiset(more);
        if more[q] != x {
          assert more[q] in multiset(s[1..]);
          var p :| 0 <= p < |s[1..]| && s[1..][p] == more[q];
        }
      }
    }
  }

  lemma {:induction false} SortTidy(names: seq<(string, string)>, origin: seq<nat>, s: seq<nat>)
    requires |origin| == |names| && InRange(s, |names|)
    requires forall p, q :: 0 <= p < q < |s| ==> origin[s[p]] < origin[s[q]]
    ensures InRange(SortByNames(names, s), |names|) && Tidy(names, origin, SortByNames(names, s))
  {
    SameRange(SortByNames(names, s), s, |names|);
    if s != [] {
      var rest := SortByNames(names, s[1..]);
      SortTidy(names, origin, s[1..]);
      forall q | 0 <= q < |rest| ensures origin[s[0]] < origin[rest[q]] {
        assert rest[q] in multiset(s[1..]);
        var p :| 0 <= p < |s[1..]| && s[1..][p] == rest[q];
      }
      InsertTidy(names, origin, s[0], rest);
    }
  }

  /** So no row is listed twice. */
  lemma {:induction false} TidyDistinct(names: seq<(string, string)>, origin: seq<nat>, s: seq<nat>, p: nat, q: nat)
    requires |origin| == |names| && InRange(s, |names|) && Tidy(names, origin, s) && p < q < |s|
    ensures s[p] != s[q]
  {
    if p > 0 {
      TidyDistinct(names, origin, s[1..], p - 1, q - 1);
    } else {
      assert s[q] == s[1..][q - 1];
    }
  }

  lemma {:induction false} TidyBefore(names: seq<(string, string)>, origin: seq<nat>, s: seq<nat>, p: nat, q: nat)
    requires |origin| == |names| && InRange(s, |names|) && Tidy(names, origin, s) && p < q < |s|
    ensures Before(names, origin, s[p], s[q])
  {
    if p > 0 {
      TidyBefore(names, origin, s[1..], p - 1, q - 1);
    } else {
      assert s[q] == s[1..][q - 1];
    }
  }

  /** The order of a tidy list in plain terms: by spoke name, then by host name, then by first appearance of the key. */
  lemma ListedOrder(clients: seq<Row>, overrides: map<string, seq<string>>, listed: seq<nat>, p: nat, q: nat)
    requires InRange(listed, |clients|) && p < q < |listed|
    requires Tidy(NamesOf(clients), Origins(KeyedRows(clients, overrides)), listed)
    ensures var a, b := clients[listed[p]], clients[listed[q]];
      && StringLe(Lower(a.spokeName), Lower(b.spokeName))
      && (Lower(a.spokeName) == Lower(b.spokeName) ==> StringLe(Lower(a.hostname), Lower(b.hostname)))
      && (Lower(a.spokeName) == Lower(b.spokeName) && Lower(a.hostname) == Lower(b.hostname) ==>
            Origin(KeyedRows(clients, overrides), listed[p]) < Origin(KeyedRows(clients, overrides), listed[q]))
  {
    TidyBefore(NamesOf(clients), Origins(KeyedRows(clients, overrides)), listed, p, q);
  }

  /** Where the key of a row first appears. */
  lemma OriginMeaning(clients: seq<Row>, overrides: map<string, seq<string>>, j: nat)
    requires j < |clients|
    ensures var o := Origin(KeyedRows(clients, overrides), j);
      if Key(clients[j]) == "" then o == j
      else Key(clients[o]) == Key(clients[j]) && forall i :: 0 <= i < o ==> Key(clients[i]) != Key(clients[j])
  {
    var rows := KeyedRows(clients, overrides);
    assert forall i :: 0 <= i < |clients| ==> rows[i].key == Key(clients[i]);
    if Key(clients[j]) != "" {
      FirstIsFirst(rows, j, rows[j].key, false);
    }
  }

  function NamesOf(clients: seq<Row>): (r: seq<(string, string)>)
    ensures |r| == |clients|
  {
    seq(|clients|, i requires 0 <= i < |clients| => Names(clients[i]))
  }

  function Origins(rows: seq<Keyed>): (r: seq<nat>)
    ensures |r| == |rows|
  {
    seq(|rows|, i requires 0 <= i < |rows| => Origin(rows, i))
  }

  /**
   The client list.  A row is listed exactly when it has no key, or is the first active row of its
   key, or the first one if none is active; the list is in order of names, and rows of equal names are
   in the order their keys first appear, so no row is listed twice.
   */
  method MergeClients(clients: seq<Row>, overrides: map<string, seq<string>>) returns (listed: seq<nat>)
    ensures forall j: nat :: j in listed <==> j < |clients| && Survives(KeyedRows(clients, overrides), |clients|, j)
    ensures InRange(listed, |clients|) && Tidy(NamesOf(clients), Origins(KeyedRows(clients, overrides)), listed)
  {
    var rows := KeyedRows(clients, overrides);
    var picked := Merge(rows);
    SortTidy(NamesOf(clients), Origins(rows), picked);
    listed := SortByNames(NamesOf(clients), picked);
    forall j: nat ensures j in listed <==> j < |clients| && Survives(rows, |clients|, j) {
      assert j in listed <==> j in multiset(listed);
      assert j in picked <==> j in multiset(picked);
    }
  }

  // ---------------------------------------------------------------------------------
  // What the list means.

  lemma ChosenMeaning(rows: seq<Keyed>, j: nat)
    requires j < |rows| && rows[j].key != ""
    ensures Survives(rows, |rows|, j) <==>
      if exists i :: 0 <= i < |rows| && rows[i].key == rows[j].key && rows[i].active
      then rows[j].active && forall i :: 0 <= i < j && rows[i].key == rows[j].key ==> !rows[i].active
      else forall i :: 0 <= i < j ==> rows[i].key != rows[j].key
  {
    FirstIsFirst(rows, |rows|, rows[j].key, true);
    FirstIsFirst(rows, |rows|, rows[j].key, false);
  }

  /** A row counts as active: it reports simulations, or some are set for its host name. */
  predicate Runs(row: Row, overrides: map<string, seq<string>>) {
    row.running || (row.hostname in overrides && |overrides[row.hostname]| > 0)
  }

  /** Which rows are listed, in terms of the rows themselves. */
  lemma ListedExactly(clients: seq<Row>, overrides: map<string, seq<string>>, j: nat)
    requires j < |clients|
    ensures Survives(KeyedRows(clients, overrides), |clients|, j) <==>
      || Key(clients[j]) == ""
      || (if exists i :: 0 <= i < |clients| && Key(clients[i]) == Key(clients[j]) && Runs(clients[i], overrides)
          then Runs(clients[j], overrides)
               && forall i :: 0 <= i < j && Key(clients[i]) == Key(clients[j]) ==> !Runs(clients[i], overrides)
          else forall i :: 0 <= i < j ==> Key(clients[i]) != Key(clients[j]))
  {
    var rows := KeyedRows(clients, overrides);
    assert forall i :: 0 <= i < |clients| ==>
      rows[i].key == Key(clients[i]) && (rows[i].active <==> Runs(clients[i], overrides));
    if Key(clients[j]) != "" {
      ChosenMeaning(rows, j);
    }
  }

  /** Exactly one row per key. */
  lemma OnePerKey(rows: seq<Keyed>, i: nat)
    requires i < |rows| && rows[i].key != ""
    ensures var c := Chosen(rows, |rows|, rows[i].key);
      && c < |rows| && rows[c].key == rows[i].key && Survives(rows, |rows|, c)
      && forall j :: 0 <= j < |rows| && rows[j].key == rows[i].key && Survives(rows, |rows|, j) ==> j == c
  {
    FirstIsFirst(rows, |rows|, rows[i].key, true);
    FirstIsFirst(rows, |rows|, rows[i].key, false);
  }

  /** A row without an earlier active row of its key, and itself running, is the listed one. */
  lemma RunningSurvives(rows: seq<Keyed>, j: nat)
    requires j < |rows| && rows[j].key != "" && rows[j].active
    ensures Survives(rows, |rows|, j) <==> forall i :: 0 <= i < j && rows[i].key == rows[j].key ==> !rows[i].active
  {
    ChosenMeaning(rows, j);
  }

  /**
   An override hides where a client runs: the first running row of a key is listed exactly when no
   earlier row of that key has a host name for which simulations are set.
   */
  lemma OverrideHidesRunning(clients: seq<Row>, overrides: map<string, seq<string>>, j: nat)
    requires j < |clients| && clients[j].running && Key(clients[j]) != ""
    requires forall i :: 0 <= i < j && Key(clients[i]) == Key(clients[j]) ==> !clients[i].running
    ensures Survives(KeyedRows(clients, overrides), |clients|, j)
       <==> forall i :: 0 <= i < j && Key(clients[i]) == Key(clients[j]) ==>
              !(clients[i].hostname in overrides && overrides[clients[i].hostname] != [])
  {
    var rows := KeyedRows(clients, overrides);
    RunningSurvives(rows, j);
    assert forall i :: 0 <= i < |clients| ==>
      rows[i].key == Key(clients[i]) && rows[i].active == Active(clients[i], overrides);
  }
}
