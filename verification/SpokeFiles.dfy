/**
 Where spokes are stored (app/store.py): configuration in spokes.json, telemetry and the time last
 seen in one state file per spoke, and the migration at start-up that splits an older spokes.json.
 */
module SpokeFiles {
  import opened Prelude

  type Fields = map<string, string>

  /** Last seen and telemetry, as in a state file. */
  datatype State = State(lastSeen: Option<int>, telemetry: Fields)

  const NOTHING := State(None, map[])

  predicate HasState(s: State) {
    s.lastSeen.Some? || s.telemetry != map[]
  }

  /**
   A row of spokes.json; `state` is None if it has neither a `last_seen` nor a `telemetry` key.  A
   malformed row is one that makes no Spoke; it may or may not have one of these keys.
   */
  datatype Entry =
    | Entry(id: string, config: Fields, state: Option<State>)
    | Malformed(hasState: bool)

  datatype Spoke = Spoke(id: string, config: Fields, state: State)

  type Files = map<string, State>

  /** A tenant's directory; an absent or empty spokes.json or backup holds no rows. */
  datatype Dir = Dir(rows: seq<Entry>, files: Files, backup: seq<Entry>)

  function FromRow(e: Entry): Spoke
    requires e.Entry?
  {
    Spoke(e.id, e.config, if e.state.Some? then e.state.value else NOTHING)
  }

  /** The configuration part of a spoke. */
  function Row(s: Spoke): Entry {
    Entry(s.id, s.config, None)
  }

  function MergeState(s: Spoke, files: Files): Spoke {
    if s.id !in files then s
    else
      var f := files[s.id];
      s.(state := State(if f.lastSeen.Some? then f.lastSeen else s.state.lastSeen, f.telemetry))
  }

  /** `_load_spokes`: malformed rows are skipped. */
  function Load(rows: seq<Entry>, files: Files): seq<Spoke> {
    if rows == [] then []
    else
      var e := rows[|rows| - 1];
      Load(rows[..|rows| - 1], files) + if e.Entry? then [MergeState(FromRow(e), files)] else []
  }

  /** `_save_spokes`. */
  function Rows(spokes: seq<Spoke>): seq<Entry> {
    seq(|spokes|, i requires 0 <= i < |spokes| => Row(spokes[i]))
  }

  /** The state files after the state of each spoke that has any is written. */
  function WithStates(spokes: seq<Spoke>, files: Files): Files {
    if spokes == [] then files
    else
      var s := spokes[|spokes| - 1];
      var before := WithStates(spokes[..|spokes| - 1], files);
      if HasState(s.state) then before[s.id := s.state] else before
  }

  predicate WellFormed(rows: seq<Entry>) {
    forall i :: 0 <= i < |rows| ==> rows[i].Entry?
  }

  predicate OldFormat(rows: seq<Entry>) {
    exists i :: 0 <= i < |rows| && match rows[i] { case Entry(_, _, state) => state.Some? case Malformed(has) => has }
  }

  function FromRows(rows: seq<Entry>): (spokes: seq<Spoke>)
    requires WellFormed(rows)
    ensures |spokes| == |rows| && forall i :: 0 <= i < |rows| ==> spokes[i] == FromRow(rows[i])
  {
    seq(|rows|, i requires 0 <= i < |rows| => FromRow(rows[i]))
  }

  /** The migration; a malformed row makes it give up before anything is written. */
  function Migrate(d: Dir): Dir {
    if OldFormat(d.rows) && WellFormed(d.rows)
    then d.(files := WithStates(FromRows(d.rows), d.files), rows := Rows(FromRows(d.rows)))
    else d
  }

  /** A start of the hub: spokes.json is backed up, or restored if it is gone; then it is migrated. */
  function Restart(d: Dir): Dir {
    Migrate(if d.rows != [] then d.(backup := d.rows) else d.(rows := d.backup))
  }

  function UpdateTelemetry(d: Dir, id: string, now: int, telemetry: Fields): Dir {
    d.(files := d.files[id := State(Some(now), telemetry)])
  }

  function Without(spokes: seq<Spoke>, id: string): seq<Spoke> {
    if spokes == [] then []
    else
      var s := spokes[|spokes| - 1];
      Without(spokes[..|spokes| - 1], id) + if s.id != id then [s] else []
  }

  /** `delete_spoke`; the state file stays. */
  function Delete(d: Dir, id: string): Dir {
    d.(rows := Rows(Without(Load(d.rows, d.files), id)))
  }

  function Save(d: Dir, s: Spoke): Dir {
    d.(rows := Rows(Without(Load(d.rows, d.files), s.id) + [s]),
       files := if HasState(s.state) then d.files[s.id := s.state] else d.files)
  }

  // ---------------------------------------------------------------------------------
  // The store's operations.

  class SpokeDir {
    var rows: seq<Entry>
    var files: Files
    var backup: seq<Entry>

    ghost function View(): Dir
      reads this
    {
      Dir(rows, files, backup)
    }

    method LoadSpokes() returns (spokes: seq<Spoke>)
      ensures spokes == Load(rows, files)
    {
      spokes := [];
      for i := 0 to |rows|
        invariant spokes == Load(rows[..i], files)
      {
        assert rows[..i + 1][..i] == rows[..i];
        if rows[i].Entry? {
          spokes := spokes + [MergeState(FromRow(rows[i]), files)];
        }
      }
      assert rows[..|rows|] == rows;
    }

    method SaveSpokes(spokes: seq<Spoke>)
      modifies this`rows
      ensures rows == Rows(spokes)
    {
      rows := [];
      for i := 0 to |spokes|
        invariant rows == Rows(spokes)[..i]
      {
        rows := rows + [Row(spokes[i])];
      }
    }

    method LoadOthers(id: string) returns (kept: seq<Spoke>)
      ensures kept == Without(Load(rows, files), id)
    {
      var spokes := LoadSpokes();
      kept := [];
      for i := 0 to |spokes|
        invariant kept == Without(spokes[..i], id)
      {
        assert spokes[..i + 1][..i] == spokes[..i];
        if spokes[i].id != id {
          kept := kept + [spokes[i]];
        }
      }
      assert spokes[..|spokes|] == spokes;
    }

    method SaveSpoke(s: Spoke)
      modifies this`rows, this`files
      ensures View() == Save(old(View()), s)
    {
      var others := LoadOthers(s.id);
      SaveSpokes(others + [s]);
      if HasState(s.state) {
        files := files[s.id := s.state];
      }
    }

    method DeleteSpoke(id: string)
      modifies this`rows
      ensures View() == Delete(old(View()), id)
    {
      var others := LoadOthers(id);
      SaveSpokes(others);
    }

    method UpdateSpokeTelemetry(id: string, now: int, telemetry: Fields)
      modifies this`files
      ensures View() == UpdateTelemetry(old(View()), id, now, telemetry)
    {
      files := files[id := State(Some(now), telemetry)];
    }

    method MigrateRows()
      modifies this`rows, this`files
      ensures View() == Migrate(old(View()))
    {
      if OldFormat(rows) {
        var spokes: seq<Spoke> := [];
        for i := 0 to |rows|
          invariant WellFormed(rows[..i]) && spokes == FromRows(rows[..i])
        {
          if rows[i].Malformed? {
            return;
          }
          spokes := spokes + [FromRow(rows[i])];
        }
        assert rows[..|rows|] == rows;
        WriteStates(spokes);
        SaveSpokes(spokes);
      }
    }

    method WriteStates(spokes: seq<Spoke>)
      modifies this`files
      ensures files == WithStates(spokes, old(files))
    {
      for i := 0 to |spokes|
        invariant files == WithStates(spokes[..i], old(files))
      {
        assert spokes[..i + 1][..i] == spokes[..i];
        if HasState(spokes[i].state) {
          files := files[spokes[i].id := spokes[i].state];
        }
      }
      assert spokes[..|spokes|] == spokes;
    }

    method InitStore()
      modifies this
      ensures View() == Restart(old(View()))
    {
      if rows != [] {
        backup := rows;
      } else {
        rows := backup;
      }
      MigrateRows();
    }
  }

  // ---------------------------------------------------------------------------------
  // What is loaded.

  predicate Rising(kept: seq<nat>, n: nat) {
    (forall p, q :: 0 <= p < q < |kept| ==> kept[p] < kept[q]) && forall p :: 0 <= p < |kept| ==> kept[p] < n
  }

  /** What the row and the state file of a spoke make of it. */
  predicate LoadedFrom(e: Entry, files: Files, s: Spoke) {
    && e.Entry? && s.id == e.id && s.config == e.config
    && s.state.telemetry == (if e.id in files then files[e.id].telemetry
                             else if e.state.Some? then e.state.value.telemetry else map[])
    && s.state.lastSeen == (if e.id in files && files[e.id].lastSeen.Some? then files[e.id].lastSeen
                            else if e.state.Some? then e.state.value.lastSeen else None)
  }

  /**
   Every well-formed row is loaded, in order, and no other: with the telemetry of its state file if there is one,
   and that file's time last seen if it has one, else with what the row itself holds.
   */
  lemma {:induction false} LoadMeaning(rows: seq<Entry>, files: Files) returns (kept: seq<nat>)
    ensures Rising(kept, |rows|) && (forall i :: 0 <= i < |rows| ==> (i in kept <==> rows[i].Entry?))
    ensures |Load(rows, files)| == |kept|
    ensures forall p :: 0 <= p < |kept| ==> LoadedFrom(rows[kept[p]], files, Load(rows, files)[p])
  {
    kept := [];
    if rows != [] {
      var n := |rows| - 1;
      kept := LoadMeaning(rows[..n], files);
      if rows[n].Entry? {
        kept := kept + [n];
      }
    }
  }

  /** The spokes with another id, by their places. */
  predicate Others(spokes: seq<Spoke>, id: string, kept: seq<nat>) {
    Rising(kept, |spokes|) && forall i :: 0 <= i < |spokes| ==> (i in kept <==> spokes[i].id != id)
  }

  lemma OthersSnoc(spokes: seq<Spoke>, id: string, kept: seq<nat>)
    requires spokes != [] && Others(spokes[..|spokes| - 1], id, kept)
    ensures Others(spokes, id, if spokes[|spokes| - 1].id != id then kept + [|spokes| - 1] else kept)
  {
    var n := |spokes| - 1;
    forall i | 0 <= i < n ensures i in kept <==> spokes[i].id != id {
      assert spokes[..n][i] == spokes[i];
    }
  }

  /** The spokes at the places `kept`. */
  predicate Picked(spokes: seq<Spoke>, kept: seq<nat>, out: seq<Spoke>) {
    |out| == |kept| && forall p :: 0 <= p < |kept| ==> kept[p] < |spokes| && out[p] == spokes[kept[p]]
  }

  lemma PickedSnoc(spokes: seq<Spoke>, s: Spoke, kept: seq<nat>, out: seq<Spoke>)
    requires Picked(spokes, kept, out)
    ensures Picked(spokes + [s], kept, out) && Picked(spokes + [s], kept + [|spokes|], out + [s])
  {
  }

  /** The places of the spokes with another id. */
  function Places(spokes: seq<Spoke>, id: string): seq<nat> {
    if spokes == [] then []
    else
      var front := Places(spokes[..|spokes| - 1], id);
      if spokes[|spokes| - 1].id != id then front + [|spokes| - 1] else front
  }

  lemma {:induction false} PlacesOthers(spokes: seq<Spoke>, id: string)
    ensures Others(spokes, id, Places(spokes, id))
  {
    if spokes != [] {
      PlacesOthers(spokes[..|spokes| - 1], id);
      OthersSnoc(spokes, id, Places(spokes[..|spokes| - 1], id));
    }
  }

  lemma {:induction false} PlacesPicked(spokes: seq<Spoke>, id: string)
    ensures Picked(spokes, Places(spokes, id), Without(spokes, id))
  {
    if spokes != [] {
      var front, last := spokes[..|spokes| - 1], spokes[|spokes| - 1];
      PlacesPicked(front, id);
      PickedSnoc(front, last, Places(front, id), Without(front, id));
      assert front + [last] == spokes;
      assert last.id == id ==> Without(spokes, id) == Without(front, id);
    }
  }

  lemma WithoutOthers(spokes: seq<Spoke>, id: string) returns (kept: seq<nat>)
    ensures Others(spokes, id, kept) && Picked(spokes, kept, Without(spokes, id))
  {
    kept := Places(spokes, id);
    PlacesOthers(spokes, id);
    PlacesPicked(spokes, id);
  }

  // ---------------------------------------------------------------------------------
  // The migration.

  predicate Distinct(rows: seq<Entry>) {
    forall i, j :: 0 <= i < j < |rows| && rows[i].Entry? && rows[j].Entry? ==> rows[i].id != rows[j].id
  }

  lemma {:induction false} LoadAt(rows: seq<Entry>, files: Files, i: nat)
    requires WellFormed(rows) && i < |rows|
    ensures |Load(rows, files)| == |rows| && Load(rows, files)[i] == MergeState(FromRow(rows[i]), files)
  {
    if i < |rows| - 1 {
      LoadAt(rows[..|rows| - 1], files, i);
    } else if |rows| > 1 {
      LoadAt(rows[..|rows| - 1], files, 0);
    }
  }

  /** With distinct ids each state file holds what its own row had, if that was anything. */
  lemma {:induction false} WithStatesAt(rows: seq<Entry>, files: Files, i: nat)
    requires WellFormed(rows) && Distinct(rows) && i < |rows|
    ensures var s, after := FromRow(rows[i]), WithStates(FromRows(rows), files);
      if HasState(s.state) then s.id in after && after[s.id] == s.state
      else (s.id in after <==> s.id in files) && (s.id in files ==> after[s.id] == files[s.id])
  {
    var n := |rows| - 1;
    assert FromRows(rows)[..n] == FromRows(rows[..n]);
    if i < n {
      WithStatesAt(rows[..n], files, i);
    } else {
      OthersStates(rows[..n], files, rows[i].id);
    }
  }

  lemma {:induction false} OthersStates(rows: seq<Entry>, files: Files, id: string)
    requires WellFormed(rows) && forall i :: 0 <= i < |rows| ==> rows[i].id != id
    ensures var after := WithStates(FromRows(rows), files);
      (id in after <==> id in files) && (id in files ==> after[id] == files[id])
  {
    if rows != [] {
      var n := |rows| - 1;
      assert FromRows(rows)[..n] == FromRows(rows[..n]);
      OthersStates(rows[..n], files, id);
    }
  }

  /** The row's state, if it has any, is not contradicted by an existing state file. */
  predicate Agrees(e: Entry, files: Files) {
    e.Entry? && HasState(FromRow(e).state) && e.id in files ==>
      files[e.id].telemetry == FromRow(e).state.telemetry
      && (files[e.id].lastSeen.None? || files[e.id].lastSeen == FromRow(e).state.lastSeen)
  }

  predicate AllAgree(rows: seq<Entry>, files: Files) {
    forall i :: 0 <= i < |rows| ==> Agrees(rows[i], files)
  }

  lemma MigratedAt(d: Dir, i: nat)
    requires OldFormat(d.rows) && WellFormed(d.rows) && Distinct(d.rows) && i < |d.rows|
    ensures var m := Migrate(d);
      && |Load(m.rows, m.files)| == |Load(d.rows, d.files)| == |d.rows|
      && (Load(m.rows, m.files)[i] == Load(d.rows, d.files)[i] <==> Agrees(d.rows[i], d.files))
  {
    var m := Migrate(d);
    LoadAt(d.rows, d.files, i);
    LoadAt(m.rows, m.files, i);
    WithStatesAt(d.rows, d.files, i);
  }

  /**
   The migration leaves what is loaded unchanged exactly when it gives up, or no state file
   contradicts a row; in particular when there are no state files yet.
   */
  lemma MigrateKeepsLoad(d: Dir)
    requires Distinct(d.rows)
    ensures var m := Migrate(d);
      Load(m.rows, m.files) == Load(d.rows, d.files) <==> !WellFormed(d.rows) || AllAgree(d.rows, d.files)
    ensures d.files == map[] ==> Load(Migrate(d).rows, Migrate(d).files) == Load(d.rows, d.files)
  {
    var m := Migrate(d);
    if OldFormat(d.rows) && WellFormed(d.rows) {
      forall i | 0 <= i < |d.rows|
        ensures |Load(m.rows, m.files)| == |Load(d.rows, d.files)| == |d.rows|
        ensures Load(m.rows, m.files)[i] == Load(d.rows, d.files)[i] <==> Agrees(d.rows[i], d.files)
      {
        MigratedAt(d, i);
      }
    } else if WellFormed(d.rows) {
      forall i | 0 <= i < |d.rows| ensures Agrees(d.rows[i], d.files) {
        assert d.rows[i].state.None?;
      }
    }
  }

  predicate ConfigOnly(rows: seq<Entry>) {
    forall i :: 0 <= i < |rows| ==> rows[i].Entry? && rows[i].state.None?
  }

  lemma RowsConfigOnly(spokes: seq<Spoke>)
    ensures ConfigOnly(Rows(spokes)) && WellFormed(Rows(spokes)) && !OldFormat(Rows(spokes))
  {
  }

  /** A second migration does nothing. */
  lemma MigrateTwice(d: Dir)
    ensures Migrate(Migrate(d)) == Migrate(d)
  {
    if OldFormat(d.rows) && WellFormed(d.rows) {
      RowsConfigOnly(FromRows(d.rows));
    }
  }

  // ---------------------------------------------------------------------------------
  // Telemetry updates and saves.

  function Seen(s: Spoke, id: string, now: int, telemetry: Fields): Spoke {
    if s.id == id then s.(state := State(Some(now), telemetry)) else s
  }

  /**
   A telemetry update changes the telemetry and last-seen time of exactly the spokes with that id, and
   no configuration field of any spoke, whatever rows and files there are.
   */
  lemma {:induction false} UpdateChangesState(d: Dir, id: string, now: int, telemetry: Fields, i: nat)
    requires i < |Load(d.rows, d.files)|
    ensures var u := UpdateTelemetry(d, id, now, telemetry);
      && |Load(u.rows, u.files)| == |Load(d.rows, d.files)|
      && Load(u.rows, u.files)[i] == Seen(Load(d.rows, d.files)[i], id, now, telemetry)
      && Load(u.rows, u.files)[i].config == Load(d.rows, d.files)[i].config
    decreases |d.rows|
  {
    var front := d.(rows := d.rows[..|d.rows| - 1]);
    if i < |Load(front.rows, d.files)| {
      UpdateChangesState(front, id, now, telemetry, i);
    } else {
      UpdateKeepsCount(front.rows, d.files, id, State(Some(now), telemetry));
    }
  }

  lemma {:induction false} UpdateKeepsCount(rows: seq<Entry>, files: Files, id: string, state: State)
    ensures |Load(rows, files[id := state])| == |Load(rows, files)|
  {
    if rows != [] {
      UpdateKeepsCount(rows[..|rows| - 1], files, id, state);
    }
  }

  /** What is loaded for a spoke after it has been written out without its state. */
  function Reread(s: Spoke, files: Files): Spoke {
    MergeState(s.(state := NOTHING), files)
  }

  lemma SaveLoadsAt(d: Dir, s: Spoke, i: nat)
    requires i <= |Without(Load(d.rows, d.files), s.id)|
    ensures var kept, u := Without(Load(d.rows, d.files), s.id), Save(d, s);
      && |Load(u.rows, u.files)| == |kept| + 1
      && Load(u.rows, u.files)[i] == Reread(if i < |kept| then kept[i] else s, u.files)
  {
    var kept := Without(Load(d.rows, d.files), s.id);
    var u := Save(d, s);
    RowsConfigOnly(kept + [s]);
    LoadAt(u.rows, u.files, i);
  }

  lemma {:induction false} WithoutOrigin(spokes: seq<Spoke>, id: string, i: nat) returns (j: nat)
    requires i < |Without(spokes, id)|
    ensures j < |spokes| && spokes[j] == Without(spokes, id)[i] && spokes[j].id != id
  {
    var front := spokes[..|spokes| - 1];
    if i < |Without(front, id)| {
      j := WithoutOrigin(front, id, i);
    } else {
      j := |spokes| - 1;
    }
  }

  /** The saved spoke is read back as it was saved exactly when it has state of its own or no older state is on file. */
  lemma SaveRoundTrip(d: Dir, s: Spoke)
    ensures var l := Load(Save(d, s).rows, Save(d, s).files);
      l != [] && (l[|l| - 1] == s <==> HasState(s.state) || s.id !in d.files || d.files[s.id] == NOTHING)
  {
    SaveLoadsAt(d, s, |Without(Load(d.rows, d.files), s.id)|);
  }

  /** The spoke's state is all in its state file. */
  predicate OnFile(s: Spoke, files: Files) {
    HasState(s.state) ==> s.id in files && files[s.id] == s.state
  }

  /** Saving one spoke keeps another exactly when the other's state is on file; otherwise its state is lost. */
  lemma SaveKeepsOther(d: Dir, s: Spoke, i: nat)
    requires i < |Without(Load(d.rows, d.files), s.id)|
    ensures var other, u := Without(Load(d.rows, d.files), s.id)[i], Save(d, s);
      && i < |Load(u.rows, u.files)|
      && Load(u.rows, u.files)[i].(state := other.state) == other
      && (Load(u.rows, u.files)[i] == other <==> OnFile(other, d.files))
  {
    SaveLoadsAt(d, s, i);
    var j := WithoutOrigin(Load(d.rows, d.files), s.id, i);
    LoadedState(d.rows, d.files, j);
  }

  lemma {:induction false} LoadedState(rows: seq<Entry>, files: Files, j: nat)
    requires j < |Load(rows, files)|
    ensures var s := Load(rows, files)[j];
      s.id in files ==> s.state.telemetry == files[s.id].telemetry
                        && (files[s.id].lastSeen.Some? ==> s.state.lastSeen == files[s.id].lastSeen)
  {
    var front := rows[..|rows| - 1];
    if j < |Load(front, files)| {
      LoadedState(front, files, j);
    }
  }

  /** Written out and read again, a spoke keeps its configuration, and its state exactly if that is on file. */
  predicate Kept(before: Spoke, after: Spoke, files: Files) {
    && after.id == before.id && after.config == before.config
    && (after == before <==>
          before.state == State(None, map[]) || (before.id in files && files[before.id] == before.state))
  }

  /**
   Saving a spoke loads again every other one there was, in the same order and as often, and behind them the
   saved one; each other keeps its configuration, and its state exactly if that is on file.
   */
  lemma SaveKeepsAll(d: Dir, s: Spoke) returns (kept: seq<nat>)
    ensures Others(Load(d.rows, d.files), s.id, kept)
    ensures var l, u := Load(d.rows, d.files), Load(Save(d, s).rows, Save(d, s).files);
      && |u| == |kept| + 1 && (forall p :: 0 <= p < |kept| ==> Kept(l[kept[p]], u[p], d.files))
      && u[|kept|].id == s.id && u[|kept|].config == s.config
  {
    kept := WithoutOthers(Load(d.rows, d.files), s.id);
    var l, u := Load(d.rows, d.files), Load(Save(d, s).rows, Save(d, s).files);
    SaveLoadsAt(d, s, |kept|);
    forall p | 0 <= p < |kept| ensures Kept(l[kept[p]], u[p], d.files) {
      SaveKeepsOther(d, s, p);
    }
  }

  /** Deleting a spoke does the same without the saved one. */
  lemma DeleteKeepsAll(d: Dir, id: string) returns (kept: seq<nat>)
    ensures Others(Load(d.rows, d.files), id, kept)
    ensures var l, u := Load(d.rows, d.files), Load(Delete(d, id).rows, Delete(d, id).files);
      |u| == |kept| && forall p :: 0 <= p < |kept| ==> Kept(l[kept[p]], u[p], d.files)
  {
    kept := WithoutOthers(Load(d.rows, d.files), id);
    var l, rows := Load(d.rows, d.files), Delete(d, id).rows;
    var u := Load(rows, d.files);
    RowsConfigOnly(Without(l, id));
    if kept != [] {
      LoadAt(rows, d.files, 0);
    }
    forall p | 0 <= p < |kept| ensures |u| == |kept| && Kept(l[kept[p]], u[p], d.files) {
      LoadAt(rows, d.files, p);
      LoadedState(d.rows, d.files, kept[p]);
    }
  }

  // ---------------------------------------------------------------------------------
  // Runs.

  datatype Step =
    | SaveStep(spoke: Spoke)
    | DeleteStep(id: string)
    | TelemetryStep(id: string, now: int, telemetry: Fields)
    | RestartStep
    | LossStep

  /** `LossStep` is the loss of spokes.json that the backup is for. */
  function Apply(d: Dir, step: Step): Dir {
    match step
    case SaveStep(s) => Save(d, s)
    case DeleteStep(id) => Delete(d, id)
    case TelemetryStep(id, now, t) => UpdateTelemetry(d, id, now, t)
    case RestartStep => Restart(d)
    case LossStep => d.(rows := [])
  }

  function Run(d: Dir, steps: seq<Step>): Dir {
    if steps == [] then d else Apply(Run(d, steps[..|steps| - 1]), steps[|steps| - 1])
  }

  lemma {:induction false} LoadedOnFile(rows: seq<Entry>, files: Files, j: nat)
    requires ConfigOnly(rows) && j < |Load(rows, files)|
    ensures OnFile(Load(rows, files)[j], files)
  {
    var front := rows[..|rows| - 1];
    if j < |Load(front, files)| {
      LoadedOnFile(front, files, j);
    }
  }

  lemma StepKeepsSplit(d: Dir, step: Step)
    requires ConfigOnly(d.rows) && ConfigOnly(d.backup)
    ensures ConfigOnly(Apply(d, step).rows) && ConfigOnly(Apply(d, step).backup)
    ensures step.RestartStep? ==> Apply(d, step).files == d.files
  {
    if step.SaveStep? {
      RowsConfigOnly(Without(Load(d.rows, d.files), step.spoke.id) + [step.spoke]);
    } else if step.DeleteStep? {
      RowsConfigOnly(Without(Load(d.rows, d.files), step.id));
    }
  }

  /**
   Once split, always split, whatever saves, deletions, telemetry updates, losses of spokes.json and
   restarts follow.
   */
  lemma {:induction false} RunKeepsSplit(d: Dir, steps: seq<Step>)
    requires ConfigOnly(d.rows) && ConfigOnly(d.backup)
    ensures ConfigOnly(Run(d, steps).rows) && ConfigOnly(Run(d, steps).backup)
  {
    if steps != [] {
      RunKeepsSplit(d, steps[..|steps| - 1]);
      StepKeepsSplit(Run(d, steps[..|steps| - 1]), steps[|steps| - 1]);
    }
  }

  /** And so in any run from split rows no save and no deletion loses anything of another spoke. */
  lemma SavesKeepOthers(d: Dir, steps: seq<Step>, s: Spoke) returns (kept: seq<nat>)
    requires ConfigOnly(d.rows) && ConfigOnly(d.backup)
    ensures var r := Run(d, steps);
      var l, v := Load(r.rows, r.files), Load(Delete(r, s.id).rows, r.files);
      var u := Load(Save(r, s).rows, Save(r, s).files);
      && Others(l, s.id, kept) && |u| == |kept| + 1 && |v| == |kept|
      && (forall p :: 0 <= p < |kept| ==> u[p] == v[p] == l[kept[p]])
      && u[|kept|].id == s.id && u[|kept|].config == s.config
  {
    var r := Run(d, steps);
    RunKeepsSplit(d, steps);
    kept := SaveKeepsAll(r, s);
    var gone := DeleteKeepsAll(r, s.id);
    SameOthers(Load(r.rows, r.files), s.id, kept, gone);
    forall p | 0 <= p < |kept| ensures OnFile(Load(r.rows, r.files)[kept[p]], r.files) {
      LoadedOnFile(r.rows, r.files, kept[p]);
    }
  }

  lemma SameOthers(spokes: seq<Spoke>, id: string, a: seq<nat>, b: seq<nat>)
    requires Others(spokes, id, a) && Others(spokes, id, b)
    ensures a == b
  {
    RisingSame(a, b, |spokes|);
  }

  lemma {:induction false} RisingShort(a: seq<nat>, n: nat)
    requires Rising(a, n)
    ensures |a| <= n
  {
    if a != [] {
      RisingShort(a[..|a| - 1], a[|a| - 1]);
    }
  }

  /** Two rising sequences with the same members are the same. */
  lemma {:induction false} RisingSame(a: seq<nat>, b: seq<nat>, n: nat)
    requires Rising(a, n) && Rising(b, n) && forall i :: 0 <= i < n ==> (i in a <==> i in b)
    ensures a == b
  {
    if n == 0 {
      RisingShort(a, n);
      RisingShort(b, n);
    } else {
      var a', b' := Below(a, n), Below(b, n);
      forall i | 0 <= i < n - 1 ensures i in a' <==> i in b' {
        assert i in a <==> i in b;
      }
      RisingSame(a', b', n - 1);
      assert n - 1 in a <==> n - 1 in b;
    }
  }

  /** A rising sequence without its last element if that is the largest possible. */
  function Below(a: seq<nat>, n: nat): (r: seq<nat>)
    requires Rising(a, n) && n > 0
    ensures Rising(r, n - 1) && forall i :: 0 <= i < n - 1 ==> (i in r <==> i in a)
    ensures n - 1 in a ==> a == r + [n - 1]
    ensures n - 1 !in a ==> a == r
  {
    if a != [] && a[|a| - 1] == n - 1 then a[..|a| - 1] else a
  }

  predicate Lists(spokes: seq<Spoke>, id: string) {
    exists i :: 0 <= i < |spokes| && spokes[i].id == id
  }

  predicate ListsRow(rows: seq<Entry>, id: string) {
    exists i :: 0 <= i < |rows| && rows[i].Entry? && rows[i].id == id
  }

  lemma ListsSnoc(spokes: seq<Spoke>, s: Spoke, id: string)
    ensures Lists(spokes + [s], id) <==> Lists(spokes, id) || s.id == id
  {
    assert (spokes + [s])[|spokes|] == s;
    assert forall i :: 0 <= i < |spokes| ==> (spokes + [s])[i] == spokes[i];
  }

  lemma ListsRowSnoc(rows: seq<Entry>, e: Entry, id: string)
    ensures ListsRow(rows + [e], id) <==> ListsRow(rows, id) || (e.Entry? && e.id == id)
  {
    assert (rows + [e])[|rows|] == e;
    assert forall i :: 0 <= i < |rows| ==> (rows + [e])[i] == rows[i];
  }

  /** What is loaded is what the well-formed rows list. */
  lemma {:induction false} LoadLists(rows: seq<Entry>, files: Files, id: string)
    ensures Lists(Load(rows, files), id) <==> ListsRow(rows, id)
  {
    if rows != [] {
      var front, e := rows[..|rows| - 1], rows[|rows| - 1];
      assert rows == front + [e];
      LoadLists(front, files, id);
      ListsRowSnoc(front, e, id);
      if e.Entry? {
        ListsSnoc(Load(front, files), MergeState(FromRow(e), files), id);
      } else {
        assert Load(rows, files) == Load(front, files);
      }
    }
  }

  lemma MigrateLists(d: Dir, id: string)
    ensures ListsRow(Migrate(d).rows, id) <==> ListsRow(d.rows, id)
  {
    if OldFormat(d.rows) && WellFormed(d.rows) {
      assert forall i :: 0 <= i < |d.rows| ==> Migrate(d).rows[i].id == d.rows[i].id;
    }
  }

  /**
   A deleted spoke comes back with the next start exactly when no other spoke is left and the backup
   of the last start lists it, whatever rows and backup: an empty spokes.json is taken for a lost one.
   */
  lemma DeletedComesBack(d: Dir, id: string)
    ensures var r := Restart(Delete(d, id));
      Lists(Load(r.rows, r.files), id) <==>
        (forall s :: s in Load(d.rows, d.files) ==> s.id == id) && ListsRow(d.backup, id)
  {
    var others, e := Without(Load(d.rows, d.files), id), Delete(d, id);
    var kept := WithoutOthers(Load(d.rows, d.files), id);
    assert others != [] ==> Load(d.rows, d.files)[kept[0]] in Load(d.rows, d.files);
    LoadLists(Restart(e).rows, Restart(e).files, id);
    MigrateLists(if e.rows != [] then e.(backup := e.rows) else e.(rows := e.backup), id);
    if others != [] {
      forall i | 0 <= i < |others| ensures Rows(others)[i].id != id {
        var j := WithoutOrigin(Load(d.rows, d.files), id, i);
      }
    }
  }

  /** Two starts in a row put a configuration-only backup beside the rows. */
  lemma TwoStartsSplit(d: Dir)
    requires d.rows != [] && WellFormed(d.rows)
    ensures var r := Restart(Restart(d)); ConfigOnly(r.rows) && r.backup == r.rows
  {
    var e := d.(backup := d.rows);
    if OldFormat(d.rows) {
      RowsConfigOnly(FromRows(d.rows));
    } else {
      forall i | 0 <= i < |d.rows| ensures d.rows[i].state.None? {
      }
    }
  }

  /**
   Restoring the backup of a lost spokes.json changes what is loaded from it exactly when its rows are
   well formed and one of them is contradicted by a newer state file, which it then overwrites.
   */
  lemma RestoreKeepsLoad(d: Dir)
    requires d.rows == [] && Distinct(d.backup)
    ensures var r := Restart(d);
      && (Load(r.rows, r.files) == Load(d.backup, d.files) <==> !WellFormed(d.backup) || AllAgree(d.backup, d.files))
      && r.backup == d.backup
  {
    MigrateKeepsLoad(d.(rows := d.backup));
  }

  /** Every row's state has a state file, which has a time if the row has. */
  predicate AllOnFile(rows: seq<Entry>, files: Files) {
    forall i :: 0 <= i < |rows| && rows[i].Entry? && HasState(FromRow(rows[i]).state) ==>
      rows[i].id in files && (FromRow(rows[i]).state.lastSeen.Some? ==> files[rows[i].id].lastSeen.Some?)
  }

  /** Then it does not matter for loading whether the rows have been split. */
  lemma SplitLoadsSame(rows: seq<Entry>, files: Files)
    requires WellFormed(rows) && AllOnFile(rows, files)
    ensures Load(Rows(FromRows(rows)), files) == Load(rows, files)
  {
    var split := Rows(FromRows(rows));
    RowsConfigOnly(FromRows(rows));
    if rows != [] {
      LoadAt(rows, files, 0);
      LoadAt(split, files, 0);
    }
    forall i | 0 <= i < |rows|
      ensures |Load(split, files)| == |Load(rows, files)| == |rows| && Load(split, files)[i] == Load(rows, files)[i]
    {
      LoadAt(rows, files, i);
      LoadAt(split, files, i);
    }
  }

  lemma MigrationOnFile(rows: seq<Entry>, files: Files)
    requires WellFormed(rows) && Distinct(rows)
    ensures AllOnFile(rows, WithStates(FromRows(rows), files))
  {
    forall i | 0 <= i < |rows| && HasState(FromRow(rows[i]).state)
      ensures rows[i].id in WithStates(FromRows(rows), files)
      ensures WithStates(FromRows(rows), files)[rows[i].id] == FromRow(rows[i]).state
    {
      WithStatesAt(rows, files, i);
    }
  }

  predicate Updates(steps: seq<Step>) {
    forall i :: 0 <= i < |steps| ==> steps[i].TelemetryStep?
  }

  lemma {:induction false} UpdatesKeepRows(d: Dir, steps: seq<Step>, before: seq<Entry>)
    requires Updates(steps) && AllOnFile(before, d.files)
    ensures var t := Run(d, steps); t.rows == d.rows && t.backup == d.backup && AllOnFile(before, t.files)
  {
    if steps != [] {
      UpdatesKeepRows(d, steps[..|steps| - 1], before);
    }
  }

  /**
   One start is not enough: the backup it takes is the old file.  If spokes.json is lost after that
   start and any telemetry updates, the next start loads what was there before the loss exactly when
   no update contradicts an old row.
   */
  lemma LossAfterFirstStart(rows: seq<Entry>, steps: seq<Step>)
    requires rows != [] && WellFormed(rows) && OldFormat(rows) && Distinct(rows) && Updates(steps)
    ensures var before := Run(Restart(Dir(rows, map[], [])), steps);
      var after := Restart(before.(rows := []));
      Load(after.rows, after.files) == Load(before.rows, before.files) <==> AllAgree(rows, before.files)
  {
    var first := Restart(Dir(rows, map[], []));
    var before := Run(first, steps);
    MigrationOnFile(rows, map[]);
    UpdatesKeepRows(first, steps, rows);
    SplitLoadsSame(rows, before.files);
    RestoreKeepsLoad(before.(rows := []));
  }
}
