/**
 The update-all job (app/routers/spokes.py, `_poll_update_job`): every 15 seconds for at most ten
 minutes it compares the versions each spoke reports with those before the update, and sends a
 spoke its own update once its agent has changed or stayed the same for four polls.
 */
module UpdateJob {
  import opened Prelude

  const POLL_SECS := 15
  const TIMEOUT_SECS := 600
  const MAX_CHECKS := 4

  datatype Progress = Waiting | Updated | Current | TimedOut

  datatype Row = Row(
    agentBefore: Option<string>,
    agentAfter: Option<string>,
    agent: Progress,
    checks: nat,
    spokeBefore: Option<string>,
    spokeAfter: Option<string>,
    spoke: Progress)

  /** The versions a spoke's latest telemetry gives; absent and empty ones are None. */
  datatype Versions = Versions(agent: Option<string>, spoke: Option<string>)

  /** One entry of `list_spokes`. */
  datatype Listed = Listed(id: string, versions: Versions)

  predicate Changed(now: Option<string>, before: Option<string>) {
    now.Some? && now != before
  }

  function AgentTurn(row: Row, v: Versions): Row {
    if row.agent != Waiting then row
    else if Changed(v.agent, row.agentBefore) then row.(agent := Updated, agentAfter := v.agent)
    else if row.checks >= MAX_CHECKS then row.(agent := Current, agentAfter := v.agent)
    else row.(checks := row.checks + 1)
  }

  /** A spoke is told to update itself at the turn that settles its agent. */
  predicate Commands(row: Row, v: Versions) {
    row.agent == Waiting && AgentTurn(row, v).agent != Waiting
  }

  function SpokeTurn(row: Row, v: Versions): Row {
    if row.spoke == Waiting && Changed(v.spoke, row.spokeBefore)
    then row.(spoke := Updated, spokeAfter := v.spoke)
    else row
  }

  function Turn(row: Row, v: Versions): Row {
    SpokeTurn(AgentTurn(row, v), v)
  }

  predicate Resolved(row: Row) {
    row.agent != Waiting && row.spoke != Waiting
  }

  type Rows = map<string, Row>

  function PollRows(rows: Rows, listed: seq<Listed>): Rows {
    if listed == [] then rows
    else
      var r := PollRows(rows, listed[..|listed| - 1]);
      var l := listed[|listed| - 1];
      if l.id in r then r[l.id := Turn(r[l.id], l.versions)] else r
  }

  /** The spokes commanded by one poll, in order. */
  function PollCommands(rows: Rows, listed: seq<Listed>): seq<string> {
    if listed == [] then []
    else
      var r := PollRows(rows, listed[..|listed| - 1]);
      var l := listed[|listed| - 1];
      PollCommands(rows, listed[..|listed| - 1]) + (if l.id in r && Commands(r[l.id], l.versions) then [l.id] else [])
  }

  function Expire(row: Row): Row {
    row.(agent := if row.agent == Waiting then TimedOut else row.agent,
         spoke := if row.spoke == Waiting then TimedOut else row.spoke)
  }

  /** The end of the time limit for a whole job. */
  function ExpireAll(rows: Rows): Rows {
    map id | id in rows :: Expire(rows[id])
  }

  // ---------------------------------------------------------------------------------
  // What each poll keeps, per spoke.

  /** How often a spoke was commanded. */
  function Times(sent: seq<string>, id: string): nat {
    if sent == [] then 0 else Times(sent[..|sent| - 1], id) + if sent[|sent| - 1] == id then 1 else 0
  }

  predicate Commanded(row: Row) {
    row.agent == Updated || row.agent == Current
  }

  /** A spoke has been commanded exactly once if its agent is settled, and never otherwise. */
  predicate Balanced(rows: Rows, sent: seq<string>) {
    (forall id :: id in rows ==> Times(sent, id) == if Commanded(rows[id]) then 1 else 0)
  }

  /** Only spokes of the job are commanded. */
  predicate OnlyRows(rows: Rows, sent: seq<string>) {
    forall i :: 0 <= i < |sent| ==> sent[i] in rows
  }

  /** Before the timeout no row has timed out. */
  predicate Open(rows: Rows) {
    forall id :: id in rows ==> rows[id].agent != TimedOut && rows[id].spoke != TimedOut
  }

  lemma {:induction false} PollKeys(rows: Rows, listed: seq<Listed>)
    ensures PollRows(rows, listed).Keys == rows.Keys
  {
    if listed != [] {
      PollKeys(rows, listed[..|listed| - 1]);
    }
  }

  lemma TimesSnoc(sent: seq<string>, id: string, x: string)
    ensures Times(sent + [x], id) == Times(sent, id) + if id == x then 1 else 0
  {
    assert (sent + [x])[..|sent|] == sent;
  }

  lemma TurnCommands(row: Row, v: Versions)
    requires row.agent != TimedOut && row.spoke != TimedOut
    ensures Turn(row, v).agent != TimedOut && Turn(row, v).spoke != TimedOut
    ensures Commanded(Turn(row, v)) <==> Commanded(row) || Commands(row, v)
    ensures !(Commanded(row) && Commands(row, v))
  {
  }

  /** One spoke's turn keeps the balance. */
  lemma TurnBalanced(rows: Rows, sent: seq<string>, l: Listed)
    requires Balanced(rows, sent) && Open(rows) && l.id in rows
    ensures var r := rows[l.id := Turn(rows[l.id], l.versions)];
      Open(r) && Balanced(r, if Commands(rows[l.id], l.versions) then sent + [l.id] else sent)
  {
    var r := rows[l.id := Turn(rows[l.id], l.versions)];
    TurnCommands(rows[l.id], l.versions);
    forall id | id in r
      ensures Times(sent, id) == if Commanded(rows[id]) then 1 else 0
      ensures Times(sent + [l.id], id) == Times(sent, id) + if id == l.id then 1 else 0
    {
      TimesSnoc(sent, id, l.id);
    }
  }

  lemma {:induction false} PollBalanced(rows: Rows, listed: seq<Listed>, sent: seq<string>)
    requires Balanced(rows, sent) && OnlyRows(rows, sent) && Open(rows)
    ensures var r, t := PollRows(rows, listed), sent + PollCommands(rows, listed);
      Balanced(r, t) && OnlyRows(r, t) && Open(r)
  {
    if listed == [] {
      assert sent + [] == sent;
    } else {
      var front, l := listed[..|listed| - 1], listed[|listed| - 1];
      var r := PollRows(rows, front);
      PollBalanced(rows, front, sent);
      PollKeys(rows, front);
      PollKeys(rows, listed);
      var before := sent + PollCommands(rows, front);
      assert sent + (PollCommands(rows, front) + [l.id]) == before + [l.id];
      assert sent + (PollCommands(rows, front) + []) == before;
      if l.id in r {
        TurnBalanced(r, before, l);
      }
    }
  }

  /** A poll commands spokes in the order in which it lists them. */
  lemma {:induction false} CommandsInOrder(rows: Rows, listed: seq<Listed>) returns (places: seq<nat>)
    ensures forall p, q :: 0 <= p < q < |places| ==> places[p] < places[q]
    ensures |PollCommands(rows, listed)| == |places|
    ensures forall p :: 0 <= p < |places| ==>
      places[p] < |listed| && PollCommands(rows, listed)[p] == listed[places[p]].id
  {
    places := [];
    if listed != [] {
      var n := |listed| - 1;
      places := CommandsInOrder(rows, listed[..n]);
      if |PollCommands(rows, listed)| > |places| {
        places := places + [n];
      }
    }
  }

  // ---------------------------------------------------------------------------------
  // The job.

  /** What each poll lists: `lists(i)` is read by poll `i`. */
  type Lists = nat -> seq<Listed>

  /** The rows after the first `n` polls. */
  function RowsAfter(rows: Rows, lists: Lists, n: nat): Rows {
    if n == 0 then rows else PollRows(RowsAfter(rows, lists, n - 1), lists(n - 1))
  }

  function SentAfter(rows: Rows, lists: Lists, n: nat): seq<string> {
    if n == 0 then []
    else SentAfter(rows, lists, n - 1) + PollCommands(RowsAfter(rows, lists, n - 1), lists(n - 1))
  }

  /** Whether a poll leaves every spoke it lists resolved at that spoke's turn: `all_done`. */
  predicate PollDone(rows: Rows, listed: seq<Listed>) {
    listed == []
    || (PollDone(rows, listed[..|listed| - 1])
        && var r, l := PollRows(rows, listed[..|listed| - 1]), listed[|listed| - 1];
           (l.id in r ==> Resolved(Turn(r[l.id], l.versions))))
  }

  /** Poll `i` of a job finds everything done. */
  predicate DoneAt(rows: Rows, lists: Lists, i: nat) {
    PollDone(RowsAfter(rows, lists, i), lists(i))
  }

  class Job {
    var rows: Rows
    var completed: bool
    var sent: seq<string>

    constructor (rows: Rows)
      ensures this.rows == rows && !completed && sent == []
    {
      this.rows, completed, sent := rows, false, [];
    }

    /** One spoke's turn in a poll. */
    static method RowTurn(stored: Row, v: Versions) returns (row: Row, command: bool, done: bool)
      ensures row == Turn(stored, v)
      ensures command <==> Commands(stored, v)
      ensures done <==> Resolved(Turn(stored, v))
    {
      row, command, done := stored, false, true;
      if row.agent == Waiting {
        if Changed(v.agent, row.agentBefore) {
          row := row.(agent := Updated, agentAfter := v.agent);
          command := true;
        } else if row.checks >= MAX_CHECKS {
          row := row.(agent := Current, agentAfter := v.agent);
          command := true;
        } else {
          row := row.(checks := row.checks + 1);
          done := false;
        }
      }
      if row.spoke == Waiting {
        if Changed(v.spoke, row.spokeBefore) {
          row := row.(spoke := Updated, spokeAfter := v.spoke);
        } else {
          done := false;
        }
      }
    }

    /** One poll over the listed spokes. */
    method Poll(listed: seq<Listed>) returns (allDone: bool)
      modifies this`rows, this`sent
      ensures rows == PollRows(old(rows), listed)
      ensures sent == old(sent) + PollCommands(old(rows), listed)
      ensures allDone <==> PollDone(old(rows), listed)
    {
      allDone := true;
      ghost var rows0, sent0 := rows, sent;
      for i := 0 to |listed|
        invariant rows == PollRows(rows0, listed[..i])
        invariant sent == sent0 + PollCommands(rows0, listed[..i])
        invariant allDone <==> PollDone(rows0, listed[..i])
      {
        ghost var upTo := listed[..i + 1];
        assert upTo[..|upTo| - 1] == listed[..i] && upTo[|upTo| - 1] == listed[i];
        var id := listed[i].id;
        if id in rows {
          var row, command, done := RowTurn(rows[id], listed[i].versions);
          if command {
            sent := sent + [id];
          }
          rows := rows[id := row];
          allDone := allDone && done;
        }
      }
      assert listed[..|listed|] == listed;
    }

    /**
     The polling loop.  `clock(i)` is the time read before poll `i`; a poll and its sleep take at
     least 15 seconds.
     */
    method Watch(start: int, clock: nat -> int, lists: Lists) returns (polls: nat, early: bool)
      requires sent == [] && start <= clock(0)
      requires forall i: nat :: clock(i) + 15 <= clock(i + 1)
      modifies this`rows, this`sent
      ensures sent == SentAfter(old(rows), lists, polls) && rows == RowsAfter(old(rows), lists, polls)
      ensures polls <= 40 && (forall i :: 0 <= i < polls ==> clock(i) < start + 600)
      ensures early || clock(polls) >= start + 600
      ensures early ==> polls > 0 && DoneAt(old(rows), lists, polls - 1)
      ensures forall i :: 0 <= i < polls && (early ==> i < polls - 1) ==> !DoneAt(old(rows), lists, i)
    {
      var deadline := start + TIMEOUT_SECS;
      ghost var rows0 := rows;
      polls, early := 0, false;
      while !early && clock(polls) < deadline
        invariant rows == RowsAfter(rows0, lists, polls)
        invariant sent == SentAfter(rows0, lists, polls)
        invariant early ==> polls > 0 && DoneAt(rows0, lists, polls - 1)
        invariant forall i :: 0 <= i < polls && (early ==> i < polls - 1) ==> !DoneAt(rows0, lists, i)
        invariant start + POLL_SECS * polls <= clock(polls)
        invariant polls == 0 || start + POLL_SECS * (polls - 1) < deadline
        invariant forall i :: 0 <= i < polls ==> clock(i) < deadline
        decreases !early, deadline - clock(polls)
      {
        early := Poll(lists(polls));
        polls := polls + 1;
      }
    }

    /** The whole job: the loop, and the time-out of whatever is still waiting unless it ended early. */
    method Run(start: int, clock: nat -> int, lists: Lists) returns (polls: nat, early: bool)
      requires !completed && sent == [] && start <= clock(0)
      requires forall i: nat :: clock(i) + 15 <= clock(i + 1)
      modifies this
      ensures completed && sent == SentAfter(old(rows), lists, polls)
      ensures polls <= 40 && (forall i :: 0 <= i < polls ==> clock(i) < start + 600)
      ensures early || clock(polls) >= start + 600
      ensures early ==> polls > 0 && DoneAt(old(rows), lists, polls - 1)
      ensures forall i :: 0 <= i < polls && (early ==> i < polls - 1) ==> !DoneAt(old(rows), lists, i)
      ensures early ==> rows == RowsAfter(old(rows), lists, polls)
      ensures !early ==> rows == ExpireAll(RowsAfter(old(rows), lists, polls))
    {
      polls, early := Watch(start, clock, lists);
      if !early {
        rows := ExpireAll(rows);
      }
      completed := true;
    }
  }

  // ---------------------------------------------------------------------------------
  // What the job guarantees.

  lemma {:induction false} JobBalanced(rows: Rows, lists: Lists, n: nat)
    requires Open(rows) && forall id :: id in rows ==> rows[id].agent == Waiting
    ensures Balanced(RowsAfter(rows, lists, n), SentAfter(rows, lists, n))
    ensures OnlyRows(RowsAfter(rows, lists, n), SentAfter(rows, lists, n)) && Open(RowsAfter(rows, lists, n))
  {
    if n > 0 {
      JobBalanced(rows, lists, n - 1);
      PollBalanced(RowsAfter(rows, lists, n - 1), lists(n - 1), SentAfter(rows, lists, n - 1));
    }
  }

  /**
   Update commands: after any polls, and after the timeout, a spoke has been sent exactly one update
   if its agent is updated or current and none otherwise, and no other spoke has been sent any.
   */
  lemma CommandsMatchAgents(rows: Rows, lists: Lists, n: nat, id: string)
    requires Open(rows) && forall x :: x in rows ==> rows[x].agent == Waiting
    ensures var r, sent := RowsAfter(rows, lists, n), SentAfter(rows, lists, n);
      && (id in r ==> Times(sent, id) == if r[id].agent == Updated || r[id].agent == Current then 1 else 0)
      && (id in r ==> Expire(r[id]).agent == (if r[id].agent == Waiting then TimedOut else r[id].agent)
                      && Expire(r[id]).spoke == (if r[id].spoke == Waiting then TimedOut else r[id].spoke))
      && (id !in r ==> Times(sent, id) == 0)
  {
    JobBalanced(rows, lists, n);
    if id !in RowsAfter(rows, lists, n) {
      NotSent(SentAfter(rows, lists, n), id);
    }
  }

  lemma {:induction false} NotSent(sent: seq<string>, id: string)
    requires forall i :: 0 <= i < |sent| ==> sent[i] != id
    ensures Times(sent, id) == 0
  {
    if sent != [] {
      NotSent(sent[..|sent| - 1], id);
    }
  }

  /** What one poll reads about a spoke; more than one entry if the list names it more than once. */
  function PollReads(listed: seq<Listed>, id: string): seq<Versions> {
    if listed == [] then []
    else
      var front, l := listed[..|listed| - 1], listed[|listed| - 1];
      PollReads(front, id) + if l.id == id then [l.versions] else []
  }

  /** Everything the first `n` polls read about a spoke. */
  function Readings(lists: Lists, n: nat, id: string): seq<Versions> {
    if n == 0 then [] else Readings(lists, n - 1, id) + PollReads(lists(n - 1), id)
  }

  /** A spoke's row after its own readings, ignoring every other spoke. */
  function Turns(row: Row, seen: seq<Versions>): Row {
    if seen == [] then row else Turn(Turns(row, seen[..|seen| - 1]), seen[|seen| - 1])
  }

  lemma {:induction false} TurnsConcat(row: Row, a: seq<Versions>, b: seq<Versions>)
    ensures Turns(row, a + b) == Turns(Turns(row, a), b)
  {
    if b == [] {
      assert a + b == a;
    } else {
      assert (a + b)[..|a + b| - 1] == a + b[..|b| - 1];
      TurnsConcat(row, a, b[..|b| - 1]);
    }
  }

  lemma {:induction false} PollIsTurns(rows: Rows, listed: seq<Listed>, id: string)
    requires id in rows
    ensures id in PollRows(rows, listed)
    ensures PollRows(rows, listed)[id] == Turns(rows[id], PollReads(listed, id))
  {
    if listed != [] {
      var front, l := listed[..|listed| - 1], listed[|listed| - 1];
      PollIsTurns(rows, front, id);
      TurnsConcat(rows[id], PollReads(front, id), if l.id == id then [l.versions] else []);
    }
  }

  /** The spokes do not interfere: each row of a job depends only on what was read about its own spoke. */
  lemma {:induction false} RowsIndependent(rows: Rows, lists: Lists, n: nat, id: string)
    requires id in rows
    ensures id in RowsAfter(rows, lists, n)
    ensures RowsAfter(rows, lists, n)[id] == Turns(rows[id], Readings(lists, n, id))
  {
    if n > 0 {
      RowsIndependent(rows, lists, n - 1, id);
      PollIsTurns(RowsAfter(rows, lists, n - 1), lists(n - 1), id);
      TurnsConcat(rows[id], Readings(lists, n - 1, id), PollReads(lists(n - 1), id));
    }
  }

  /** The first reading that shows another version than before the update; the number of readings if none does. */
  function FirstChange(seen: seq<Option<string>>, before: Option<string>): nat {
    if seen == [] then 0
    else
      var k := FirstChange(seen[..|seen| - 1], before);
      if k < |seen| - 1 || Changed(seen[|seen| - 1], before) then k else |seen|
  }

  lemma {:induction false} FirstChangeIsFirst(seen: seq<Option<string>>, before: Option<string>)
    ensures var k := FirstChange(seen, before);
      && k <= |seen|
      && (forall i :: 0 <= i < k ==> !Changed(seen[i], before))
      && (k < |seen| ==> Changed(seen[k], before))
  {
    if seen != [] {
      FirstChangeIsFirst(seen[..|seen| - 1], before);
    }
  }

  /**
   The agent's verdict: Updated exactly when one of the first five readings shows a new version, with
   the first such version recorded; Current exactly when there have been five and none of them does.
   */
  lemma {:induction false} AgentVerdict(row: Row, seen: seq<Versions>)
    requires row.agent == Waiting && row.checks == 0
    ensures var k, r := FirstChange(AgentReadings(seen), row.agentBefore), Turns(row, seen);
      && k <= |seen| && r.agentBefore == row.agentBefore
      && r.agent == (if k < |seen| && k <= MAX_CHECKS then Updated
                     else if |seen| > MAX_CHECKS then Current
                     else Waiting)
      && (r.agent == Updated ==> r.agentAfter == seen[k].agent)
      && (r.agent == Current ==> r.agentAfter == seen[MAX_CHECKS].agent)
      && (r.agent == Waiting ==> r.checks == |seen|)
  {
    if seen != [] {
      var n := |seen| - 1;
      assert AgentReadings(seen)[..n] == AgentReadings(seen[..n]);
      AgentVerdict(row, seen[..n]);
    }
  }

  /** The spoke's verdict: Updated exactly when some reading shows a new version; the first one is recorded. */
  lemma {:induction false} SpokeVerdict(row: Row, seen: seq<Versions>)
    requires row.spoke == Waiting
    ensures var k, r := FirstChange(SpokeReadings(seen), row.spokeBefore), Turns(row, seen);
      && k <= |seen| && r.spokeBefore == row.spokeBefore
      && r.spoke == (if k < |seen| then Updated else Waiting)
      && (k < |seen| ==> r.spokeAfter == seen[k].spoke)
  {
    if seen != [] {
      var n := |seen| - 1;
      assert SpokeReadings(seen)[..n] == SpokeReadings(seen[..n]);
      SpokeVerdict(row, seen[..n]);
    }
  }

  /** A reading shows another version than `before`; no reading, or an empty one, shows none. */
  predicate Differs(seen: Option<string>, before: Option<string>) {
    seen != None && seen != before
  }

  lemma AgentDiffers(row: Row, seen: seq<Versions>)
    ensures var k := FirstChange(AgentReadings(seen), row.agentBefore);
      && k <= |seen| && (forall i :: 0 <= i < k ==> !Differs(seen[i].agent, row.agentBefore))
      && (k < |seen| ==> Differs(seen[k].agent, row.agentBefore))
  {
    FirstChangeIsFirst(AgentReadings(seen), row.agentBefore);
    assert forall i :: 0 <= i < |seen| ==>
      (Differs(seen[i].agent, row.agentBefore) <==> Changed(AgentReadings(seen)[i], row.agentBefore));
  }

  /**
   The agent in plain terms: updated exactly when one of the first five readings gives a version that is not the
   one before; current exactly when five or more readings came and none of the first five does, with the fifth
   recorded; and waiting otherwise.
   */
  lemma AgentOutcome(row: Row, seen: seq<Versions>)
    requires row.agent == Waiting && row.checks == 0
    ensures var r := Turns(row, seen);
      && (r.agent == Updated <==> exists i :: 0 <= i < 5 && i < |seen| && Differs(seen[i].agent, row.agentBefore))
      && (r.agent == Current <==>
            |seen| >= 5 && forall i :: 0 <= i < 5 ==> !Differs(seen[i].agent, row.agentBefore))
      && (r.agent == Updated || r.agent == Current || r.agent == Waiting)
      && (r.agent == Current ==> r.agentAfter == seen[4].agent)
  {
    AgentVerdict(row, seen);
    AgentDiffers(row, seen);
  }

  /** The version recorded for an updated agent is the first new one. */
  lemma AgentRecorded(row: Row, seen: seq<Versions>, i: nat)
    requires row.agent == Waiting && row.checks == 0 && i < 5 && i < |seen|
    requires Differs(seen[i].agent, row.agentBefore)
    requires forall j :: 0 <= j < i ==> !Differs(seen[j].agent, row.agentBefore)
    ensures Turns(row, seen).agent == Updated && Turns(row, seen).agentAfter == seen[i].agent
  {
    AgentVerdict(row, seen);
    AgentDiffers(row, seen);
    assert FirstChange(AgentReadings(seen), row.agentBefore) == i;
  }

  /** The same for the spoke's own version, which may change at any reading. */
  lemma SpokeOutcome(row: Row, seen: seq<Versions>)
    requires row.spoke == Waiting
    ensures var r := Turns(row, seen);
      && (r.spoke == Updated <==> exists i :: 0 <= i < |seen| && Differs(seen[i].spoke, row.spokeBefore))
      && (r.spoke == Updated || r.spoke == Waiting)
    ensures forall i :: 0 <= i < |seen| && Differs(seen[i].spoke, row.spokeBefore)
                        && (forall j :: 0 <= j < i ==> !Differs(seen[j].spoke, row.spokeBefore)) ==>
      Turns(row, seen).spokeAfter == seen[i].spoke
  {
    SpokeVerdict(row, seen);
    FirstChangeIsFirst(SpokeReadings(seen), row.spokeBefore);
    assert forall i :: 0 <= i < |seen| ==>
      (Differs(seen[i].spoke, row.spokeBefore) <==> Changed(SpokeReadings(seen)[i], row.spokeBefore));
  }

  function AgentReadings(seen: seq<Versions>): (r: seq<Option<string>>)
    ensures |r| == |seen|
  {
    seq(|seen|, i requires 0 <= i < |seen| => seen[i].agent)
  }

  function SpokeReadings(seen: seq<Versions>): (r: seq<Option<string>>)
    ensures |r| == |seen|
  {
    seq(|seen|, i requires 0 <= i < |seen| => seen[i].spoke)
  }

  /** Five readings settle a spoke's agent one way or the other. */
  lemma SettledAfterFive(rows: Rows, lists: Lists, n: nat, id: string)
    requires id in rows && rows[id].agent == Waiting && rows[id].checks == 0
    ensures id in RowsAfter(rows, lists, n)
    ensures RowsAfter(rows, lists, n)[id].agent == Waiting ==> |Readings(lists, n, id)| < 5
    ensures |Readings(lists, n, id)| >= 5 ==> Commanded(RowsAfter(rows, lists, n)[id])
  {
    RowsIndependent(rows, lists, n, id);
    AgentVerdict(rows[id], Readings(lists, n, id));
  }

  lemma ResolvedStays(row: Row, v: Versions)
    requires Resolved(row)
    ensures Turn(row, v) == row
  {
  }

  predicate UniqueListed(listed: seq<Listed>) {
    forall i, j :: 0 <= i < j < |listed| ==> listed[i].id != listed[j].id
  }

  /** A poll resolves every spoke of the job that it lists. */
  predicate AllResolved(rows: Rows, listed: seq<Listed>) {
    var r := PollRows(rows, listed);
    forall i :: 0 <= i < |listed| && listed[i].id in r ==>
      r[listed[i].id].agent != Waiting && r[listed[i].id].spoke != Waiting
  }

  /** Whether the last listed spoke is done does not bear on the others. */
  lemma ResolvedFront(rows: Rows, listed: seq<Listed>)
    requires listed != [] && UniqueListed(listed)
    ensures var front, l := listed[..|listed| - 1], listed[|listed| - 1];
      var r := PollRows(rows, listed);
      AllResolved(rows, listed) <==> AllResolved(rows, front) && (l.id in r ==> Resolved(r[l.id]))
  {
    var n := |listed| - 1;
    var front, r, p := listed[..n], PollRows(rows, listed), PollRows(rows, listed[..n]);
    PollKeys(rows, listed);
    PollKeys(rows, front);
    forall i | 0 <= i < n && listed[i].id in r ensures p[listed[i].id] == r[listed[i].id] {
      assert listed[i].id != listed[n].id;
    }
    assert forall i :: 0 <= i < n ==> front[i] == listed[i];
  }

  /**
   Early completion, exactly: a poll ends the job if and only if every spoke of the job that it lists
   is resolved.  Spokes that are no longer listed are not waited for.
   */
  lemma {:induction false} PollDoneExactly(rows: Rows, listed: seq<Listed>)
    requires UniqueListed(listed)
    ensures PollDone(rows, listed) <==> AllResolved(rows, listed)
  {
    if listed != [] {
      var n := |listed| - 1;
      PollDoneExactly(rows, listed[..n]);
      ResolvedFront(rows, listed);
      PollKeys(rows, listed);
      PollKeys(rows, listed[..n]);
    }
  }

  /** With or without repeats, completion means that every listed spoke is resolved. */
  lemma {:induction false} DoneMeansResolved(rows: Rows, listed: seq<Listed>, i: nat)
    requires PollDone(rows, listed) && i < |listed| && listed[i].id in rows
    ensures var r, id := PollRows(rows, listed), listed[i].id;
      id in r && r[id].agent != Waiting && r[id].spoke != Waiting
  {
    var front, l := listed[..|listed| - 1], listed[|listed| - 1];
    PollKeys(rows, front);
    if i < |front| {
      DoneMeansResolved(rows, front, i);
      ResolvedStays(PollRows(rows, front)[listed[i].id], l.versions);
    }
  }
}
