/**
 A reseed job (app/routers/backups.py): one command per spoke, and after each of a spoke's first
 three error reports a delayed retry.  Sending takes time, so reports and timers of any spoke may
 fall between the start of a send and its result.
 */
module Reseed {
  import opened Prelude

  const MAX_RETRIES := 3

  datatype SpokeState = SpokeState(status: string, retries: nat)

  predicate IsSuccess(status: string) {
    status == "done" || status == "completed"
  }

  predicate IsError(status: string) {
    status == "error" || status == "failed"
  }

  /** _refresh_backup_job_status: what the states of the spokes say about the job. */
  function JobStatus(spokes: map<string, SpokeState>): string {
    if forall s :: s in spokes ==> IsSuccess(spokes[s].status) then "completed"
    else if forall s :: s in spokes ==> IsSuccess(spokes[s].status) || IsError(spokes[s].status) then "failed"
    else "running"
  }

  /** The status that the hub shows for these states of the spokes, in the states' own words. */
  ghost predicate Shows(spokes: map<string, SpokeState>, status: string) {
    && (status == "completed" <==> forall s :: s in spokes ==> spokes[s].status in {"done", "completed"})
    && (status == "failed" <==>
          && (forall s :: s in spokes ==> spokes[s].status in {"done", "completed", "error", "failed"})
          && exists s :: s in spokes && spokes[s].status in {"error", "failed"})
    && (status == "running" <==>
          exists s :: s in spokes && spokes[s].status !in {"done", "completed", "error", "failed"})
  }

  lemma JobStatusShows(spokes: map<string, SpokeState>)
    ensures Shows(spokes, JobStatus(spokes))
  {
  }

  /** What a progress report makes of a spoke's state. */
  function Reported(state: SpokeState, status: string): SpokeState {
    if !IsError(status) then SpokeState(status, state.retries)
    else if state.retries + 1 <= MAX_RETRIES then SpokeState("retrying", state.retries + 1)
    else SpokeState(status, state.retries + 1)
  }

  predicate StartsTimer(state: SpokeState, status: string) {
    IsError(status) && state.retries + 1 <= MAX_RETRIES
  }

  predicate ShouldRetry(state: SpokeState, k: nat) {
    state.status == "retrying" && state.retries == k
  }

  function AfterSend(sent: bool): string {
    if sent then "running" else "queued"
  }

  class ReseedJob {
    var spokeStatus: map<string, SpokeState>
    var status: string

    constructor (spokeIds: seq<string>)
      ensures status == "running"
      ensures spokeStatus == map s | s in spokeIds :: SpokeState("pending", 0)
    {
      status := "running";
      spokeStatus := map s | s in spokeIds :: SpokeState("pending", 0);
    }

    method RefreshStatus()
      modifies this`status
      ensures status == JobStatus(spokeStatus) && Shows(spokeStatus, status)
    {
      JobStatusShows(spokeStatus);
      if |spokeStatus| == 0 {
        status := "completed";
      } else if forall s :: s in spokeStatus ==> IsSuccess(spokeStatus[s].status) {
        status := "completed";
      } else if forall s :: s in spokeStatus ==> IsSuccess(spokeStatus[s].status) || IsError(spokeStatus[s].status) {
        status := if exists s :: s in spokeStatus && IsError(spokeStatus[s].status) then "failed" else "completed";
      } else {
        status := "running";
      }
    }

    /** update_backup_progress for a reseed job; `timer` is the retry it schedules, if any. */
    method UpdateProgress(spokeId: string, reported: string) returns (known: bool, timer: Option<nat>)
      modifies this
      ensures known <==> spokeId in old(spokeStatus)
      ensures !known ==> spokeStatus == old(spokeStatus) && status == old(status) && timer == None
      ensures known ==>
        && spokeStatus == old(spokeStatus)[spokeId := Reported(old(spokeStatus)[spokeId], reported)]
        && status == JobStatus(spokeStatus) && Shows(spokeStatus, status)
        && timer == (if StartsTimer(old(spokeStatus)[spokeId], reported)
                     then Some(spokeStatus[spokeId].retries) else None)
    {
      timer := None;
      known := spokeId in spokeStatus;
      if !known {
        return;
      }
      var next, retries := reported, spokeStatus[spokeId].retries;
      if IsError(reported) {
        retries := retries + 1;
        if retries <= MAX_RETRIES {
          next := "retrying";
          timer := Some(retries);
        }
      }
      spokeStatus := spokeStatus[spokeId := SpokeState(next, retries)];
      RefreshStatus();
    }

    /** The end of a retry's send. */
    method FinishRetry(spokeId: string, sent: bool)
      requires spokeId in spokeStatus
      modifies this
      ensures spokeStatus == old(spokeStatus)[spokeId := SpokeState(AfterSend(sent), old(spokeStatus)[spokeId].retries)]
      ensures status == JobStatus(spokeStatus) && Shows(spokeStatus, status)
    {
      spokeStatus := spokeStatus[spokeId := spokeStatus[spokeId].(status := if sent then "running" else "queued")];
      RefreshStatus();
    }
  }

  // ---------------------------------------------------------------------------------
  // Runs.

  /**
   The job, the first sends still to do and under way, the sleeping timers and the retries being
   sent, and the history: every dispatch, and each spoke's number of error reports.
   */
  datatype Sys = Sys(
    spokes: map<string, SpokeState>,
    status: string,
    todo: seq<string>,
    starting: Option<string>,
    timers: set<(string, nat)>,
    sending: set<(string, nat)>,
    dispatched: seq<(string, nat)>,
    errors: map<string, nat>)

  datatype Event =
    | Start
    | Started(sent: bool)
    | Progress(spoke: string, reported: string)
    | Fire(spoke: string, k: nat)
    | Resent(spoke: string, k: nat, sent: bool)

  function Created(ids: seq<string>): Sys {
    Sys(map s | s in ids :: SpokeState("pending", 0), "running", ids, None, {}, {}, [], map s | s in ids :: 0)
  }

  function SetStatus(s: Sys, spoke: string, status: string): map<string, SpokeState>
    requires spoke in s.spokes
  {
    s.spokes[spoke := s.spokes[spoke].(status := status)]
  }

  function Apply(s: Sys, e: Event): Sys {
    match e
    case Start =>
      if s.starting.None? && s.todo != []
      then s.(todo := s.todo[1..], starting := Some(s.todo[0]), dispatched := s.dispatched + [(s.todo[0], 0)])
      else s
    case Started(sent) =>
      if s.starting.Some? && s.starting.value in s.spokes
      then s.(spokes := SetStatus(s, s.starting.value, AfterSend(sent)), starting := None)
      else s
    case Progress(x, reported) =>
      if x in s.spokes && x in s.errors then
        var spokes := s.spokes[x := Reported(s.spokes[x], reported)];
        s.(spokes := spokes, status := JobStatus(spokes),
           timers := s.timers + (if StartsTimer(s.spokes[x], reported) then {(x, spokes[x].retries)} else {}),
           errors := s.errors[x := s.errors[x] + if IsError(reported) then 1 else 0])
      else s
    case Fire(x, k) =>
      if (x, k) in s.timers then
        var woken := s.(timers := s.timers - {(x, k)});
        if x in s.spokes && ShouldRetry(s.spokes[x], k)
        then woken.(sending := s.sending + {(x, k)}, dispatched := s.dispatched + [(x, k)])
        else woken
      else s
    case Resent(x, k, sent) =>
      if (x, k) in s.sending && x in s.spokes then
        var spokes := SetStatus(s, x, AfterSend(sent));
        s.(spokes := spokes, status := JobStatus(spokes), sending := s.sending - {(x, k)})
      else s
  }

  function Run(s: Sys, es: seq<Event>): Sys
    decreases |es|
  {
    if es == [] then s else Run(Apply(s, es[0]), es[1..])
  }

  predicate Distinct<T(==)>(xs: seq<T>) {
    forall i, j :: 0 <= i < j < |xs| ==> xs[i] != xs[j]
  }

  predicate Counted(s: Sys) {
    s.errors.Keys == s.spokes.Keys && forall x :: x in s.spokes ==> s.spokes[x].retries == s.errors[x]
  }

  /** Timers belong to error reports that came, and have not been dispatched. */
  ghost predicate TimersFresh(s: Sys) {
    forall x, k :: (x, k) in s.timers ==>
      x in s.spokes && 1 <= k <= MAX_RETRIES && k <= s.spokes[x].retries && (x, k) !in s.dispatched
  }

  predicate DispatchesKnown(s: Sys) {
    forall i :: 0 <= i < |s.dispatched| ==>
      var (x, k) := s.dispatched[i];
      x in s.spokes && k <= MAX_RETRIES && k <= s.spokes[x].retries && (k == 0 ==> x !in s.todo)
  }

  predicate Queue(s: Sys) {
    Distinct(s.todo) && (forall i :: 0 <= i < |s.todo| ==> s.todo[i] in s.spokes)
    && (s.starting.Some? ==> s.starting.value in s.spokes)
  }

  /** A spoke is in an error state only after its fourth error report, and so is a failed job. */
  predicate FailuresEarned(s: Sys) {
    (forall x :: x in s.spokes && IsError(s.spokes[x].status) ==> s.spokes[x].retries > MAX_RETRIES)
    && (s.status == "failed" ==> exists x :: x in s.spokes && s.spokes[x].retries > MAX_RETRIES)
  }

  ghost predicate Inv(s: Sys) {
    Counted(s) && TimersFresh(s) && DispatchesKnown(s) && Distinct(s.dispatched) && Queue(s) && FailuresEarned(s)
  }

  predicate Grows(s: Sys, t: Sys) {
    (forall x :: x in s.spokes ==> x in t.spokes && s.spokes[x].retries <= t.spokes[x].retries)
    && s.dispatched <= t.dispatched
  }

  lemma ProgressStep(s: Sys, x: string, reported: string)
    requires Inv(s)
    ensures Inv(Apply(s, Progress(x, reported))) && Grows(s, Apply(s, Progress(x, reported)))
  {
    var t := Apply(s, Progress(x, reported));
    if x in s.spokes {
      assert FailuresEarned(t) by {
        if t.status == "failed" {
          var y :| y in t.spokes && !IsSuccess(t.spokes[y].status);
          assert IsError(t.spokes[y].status);
        }
      }
      assert TimersFresh(t);
      assert DispatchesKnown(t);
    }
  }

  lemma FireStep(s: Sys, x: string, k: nat)
    requires Inv(s)
    ensures Inv(Apply(s, Fire(x, k))) && Grows(s, Apply(s, Fire(x, k)))
  {
  }

  lemma ResentStep(s: Sys, x: string, k: nat, sent: bool)
    requires Inv(s)
    ensures Inv(Apply(s, Resent(x, k, sent))) && Grows(s, Apply(s, Resent(x, k, sent)))
  {
    var t := Apply(s, Resent(x, k, sent));
    if t.status == "failed" && t.status != s.status {
      var y :| y in t.spokes && !IsSuccess(t.spokes[y].status);
      assert IsError(t.spokes[y].status);
    }
    if t.status == "failed" && t.status == s.status {
      var y :| y in s.spokes && s.spokes[y].retries > MAX_RETRIES;
      assert t.spokes[y].retries > MAX_RETRIES;
    }
  }

  lemma StartStep(s: Sys, e: Event)
    requires Inv(s) && (e.Start? || e.Started?)
    ensures Inv(Apply(s, e)) && Grows(s, Apply(s, e))
  {
    var t := Apply(s, e);
    if t.status == "failed" {
      var y :| y in s.spokes && s.spokes[y].retries > MAX_RETRIES;
      assert t.spokes[y].retries > MAX_RETRIES;
    }
    if e.Start? && t != s {
      assert s.todo[0] !in s.todo[1..];
      assert forall i :: 0 <= i < |s.todo| - 1 ==> s.todo[1..][i] == s.todo[i + 1];
    }
  }

  lemma Step(s: Sys, e: Event)
    requires Inv(s)
    ensures Inv(Apply(s, e)) && Grows(s, Apply(s, e))
  {
    match e
    case Progress(x, reported) => ProgressStep(s, x, reported);
    case Fire(x, k) => FireStep(s, x, k);
    case Resent(x, k, sent) => ResentStep(s, x, k, sent);
    case Start => StartStep(s, e);
    case Started(sent) => StartStep(s, e);
  }

  lemma {:induction false} RunKeeps(s: Sys, es: seq<Event>)
    requires Inv(s)
    ensures Inv(Run(s, es)) && Grows(s, Run(s, es))
    decreases |es|
  {
    if es != [] {
      Step(s, es[0]);
      RunKeeps(Apply(s, es[0]), es[1..]);
    }
  }

  lemma CreatedInv(ids: seq<string>)
    requires Distinct(ids) && ids != []
    ensures Inv(Created(ids))
  {
  }

  // ---------------------------------------------------------------------------------
  // What the runs guarantee.

  /** How many retries of a spoke were dispatched. */
  function RetryCount(d: seq<(string, nat)>, x: string): nat {
    if d == [] then 0
    else RetryCount(d[..|d| - 1], x) + if d[|d| - 1].0 == x && d[|d| - 1].1 > 0 then 1 else 0
  }

  function Bit(b: bool): nat {
    if b then 1 else 0
  }

  lemma {:induction false} RetryCountBound(d: seq<(string, nat)>, x: string)
    requires Distinct(d) && forall i :: 0 <= i < |d| ==> d[i].1 <= MAX_RETRIES
    ensures RetryCount(d, x) == Bit((x, 1) in d) + Bit((x, 2) in d) + Bit((x, 3) in d)
  {
    if d != [] {
      var b := d[..|d| - 1];
      RetryCountBound(b, x);
      assert d == b + [d[|d| - 1]];
      assert d[|d| - 1] !in b;
    }
  }

  /**
   Retry bound: for any interleaving of sends, reports and timers of a job with distinct spokes,
   no command (job, spoke, number) is dispatched twice and no spoke gets more than three retries.
   */
  lemma DispatchedOnce(ids: seq<string>, es: seq<Event>, x: string)
    requires Distinct(ids) && ids != []
    ensures Distinct(Run(Created(ids), es).dispatched) && RetryCount(Run(Created(ids), es).dispatched, x) <= 3
  {
    CreatedInv(ids);
    RunKeeps(Created(ids), es);
    RetryCountBound(Run(Created(ids), es).dispatched, x);
  }

  /** The first `n` sends one after the other, all recorded before the next. */
  function Starts(n: nat): seq<Event> {
    if n == 0 then [] else [Start, Started(true)] + Starts(n - 1)
  }

  function FirstSends(ids: seq<string>): seq<(string, nat)> {
    seq(|ids|, i requires 0 <= i < |ids| => (ids[i], 0))
  }

  lemma {:induction false} StartsDispatchAll(s: Sys)
    requires s.starting.None? && forall i :: 0 <= i < |s.todo| ==> s.todo[i] in s.spokes
    ensures Run(s, Starts(|s.todo|)).dispatched == s.dispatched + FirstSends(s.todo)
    decreases |s.todo|
  {
    if s.todo == [] {
      assert s.dispatched + FirstSends(s.todo) == s.dispatched;
    } else {
      var es, rest := Starts(|s.todo|), Starts(|s.todo| - 1);
      var a := Apply(s, Start);
      var b := Apply(a, Started(true));
      assert es[1..][0] == Started(true) && es[1..][1..] == rest;
      assert Run(s, es) == Run(a, es[1..]) == Run(b, rest);
      assert forall i :: 0 <= i < |b.todo| ==> b.todo[i] == s.todo[i + 1];
      StartsDispatchAll(b);
      assert FirstSends(s.todo) == [(s.todo[0], 0)] + FirstSends(s.todo[1..]);
    }
  }

  /** No run of a job dispatches a command twice exactly when no spoke was requested twice. */
  lemma DispatchedOnceExactly(ids: seq<string>)
    requires ids != []
    ensures (forall es :: Distinct(Run(Created(ids), es).dispatched)) <==> Distinct(ids)
  {
    if Distinct(ids) {
      forall es ensures Distinct(Run(Created(ids), es).dispatched) {
        DispatchedOnce(ids, es, "");
      }
    } else {
      var s := Created(ids);
      StartsDispatchAll(s);
      var d := Run(s, Starts(|ids|)).dispatched;
      var i, j :| 0 <= i < j < |ids| && ids[i] == ids[j];
      assert d == FirstSends(ids) && d[i] == d[j];
    }
  }

  /** Retry `k` is out of reach: a later error report came, or its timer is gone. */
  ghost predicate Superseded(s: Sys, x: string, k: nat) {
    x in s.spokes && k > 0 && (x, k) !in s.dispatched
    && (s.spokes[x].retries > k || (s.spokes[x].retries == k && (x, k) !in s.timers))
  }

  lemma SupersededStep(s: Sys, e: Event, x: string, k: nat)
    requires Inv(s) && Superseded(s, x, k)
    ensures Superseded(Apply(s, e), x, k)
  {
    Step(s, e);
  }

  /** A timer that a later error report has superseded never dispatches, whatever happens next. */
  lemma {:induction false} SupersededNeverDispatches(s: Sys, es: seq<Event>, x: string, k: nat)
    requires Inv(s) && Superseded(s, x, k)
    ensures (x, k) !in Run(s, es).dispatched
    decreases |es|
  {
    if es != [] {
      Step(s, es[0]);
      SupersededStep(s, es[0], x, k);
      SupersededNeverDispatches(Apply(s, es[0]), es[1..], x, k);
    }
  }

  /** How many error reports of a spoke a run brings. */
  function ErrorReports(es: seq<Event>, x: string): nat
    decreases |es|
  {
    if es == [] then 0
    else
      (if es[0].Progress? && es[0].spoke == x && es[0].reported in {"error", "failed"} then 1 else 0)
      + ErrorReports(es[1..], x)
  }

  lemma {:induction false} ErrorsCounted(s: Sys, es: seq<Event>, x: string)
    requires x in s.spokes && x in s.errors
    ensures var t := Run(s, es); x in t.spokes && x in t.errors && t.errors[x] == s.errors[x] + ErrorReports(es, x)
    decreases |es|
  {
    if es != [] {
      ErrorsCounted(Apply(s, es[0]), es[1..], x);
    }
  }

  /** The retry count is the number of error reports, and a failed job had some spoke report four. */
  lemma FailureNeedsFourErrors(ids: seq<string>, es: seq<Event>)
    requires Distinct(ids) && ids != []
    ensures var t := Run(Created(ids), es);
      && (forall x :: x in ids ==> x in t.spokes && t.spokes[x].retries == ErrorReports(es, x))
      && (t.status == "failed" ==> exists x :: x in ids && ErrorReports(es, x) >= 4)
  {
    CreatedInv(ids);
    RunKeeps(Created(ids), es);
    var t := Run(Created(ids), es);
    forall x | x in ids ensures x in t.spokes && t.spokes[x].retries == ErrorReports(es, x) {
      ErrorsCounted(Created(ids), es, x);
    }
    if t.status == "failed" {
      var x :| x in t.spokes && t.spokes[x].retries > MAX_RETRIES;
      RunSpokes(Created(ids), es);
      assert x in ids;
    }
  }

  lemma {:induction false} RunSpokes(s: Sys, es: seq<Event>)
    ensures Run(s, es).spokes.Keys == s.spokes.Keys
    decreases |es|
  {
    if es != [] {
      RunSpokes(Apply(s, es[0]), es[1..]);
    }
  }

  /**
   What a report does: the first three error reports of a spoke make it wait for a retry and set a timer
   with their number; the fourth and all others, and every other report, show what was reported.
   */
  lemma ReportOutcome(ids: seq<string>, es: seq<Event>, x: string, reported: string)
    requires Distinct(ids) && x in ids
    ensures var s, n := Run(Created(ids), es), ErrorReports(es, x) + 1;
      var t := Apply(s, Progress(x, reported));
      && x in t.spokes
      && (if reported in {"error", "failed"} && n <= 3
          then t.spokes[x].status == "retrying" && t.timers == s.timers + {(x, n)}
          else t.spokes[x].status == reported && t.timers == s.timers)
  {
    CreatedInv(ids);
    RunKeeps(Created(ids), es);
    ErrorsCounted(Created(ids), es, x);
  }

  /** The record of a send shows its spoke as running, or as queued if the send failed. */
  lemma RecordShows(s: Sys, x: string, k: nat, sent: bool)
    requires x in s.spokes
    ensures var shown := s.spokes[x := s.spokes[x].(status := if sent then "running" else "queued")];
      && ((x, k) in s.sending ==> Apply(s, Resent(x, k, sent)).spokes == shown)
      && (s.starting == Some(x) ==> Apply(s, Started(sent)).spokes == shown)
  {
  }

  /** A spoke reports only after its first send has been recorded. */
  predicate InOrder(s: Sys, e: Event) {
    e.Progress? ==> e.spoke !in s.todo && s.starting != Some(e.spoke)
  }

  predicate InOrderRun(s: Sys, es: seq<Event>)
    decreases |es|
  {
    es == [] || (InOrder(s, es[0]) && InOrderRun(Apply(s, es[0]), es[1..]))
  }

  /** The job's status is what its spokes' states say; spokes not yet started are still pending. */
  predicate StatusTrue(s: Sys) {
    s.status == JobStatus(s.spokes)
    && (forall i :: 0 <= i < |s.todo| ==> s.todo[i] in s.spokes && s.spokes[s.todo[i]] == SpokeState("pending", 0))
    && (s.starting.Some? ==> s.starting.value in s.spokes && s.spokes[s.starting.value] == SpokeState("pending", 0))
  }

  ghost predicate NoEarlyTimers(s: Sys) {
    (forall x, k :: (x, k) in s.sending ==> x !in s.todo && s.starting != Some(x))
    && (forall x, k :: (x, k) in s.timers ==> x !in s.todo && s.starting != Some(x))
    && Distinct(s.todo) && (s.starting.Some? ==> s.starting.value !in s.todo)
  }

  lemma StatusStep(s: Sys, e: Event)
    requires StatusTrue(s) && NoEarlyTimers(s) && InOrder(s, e)
    ensures StatusTrue(Apply(s, e)) && NoEarlyTimers(Apply(s, e))
  {
    var t := Apply(s, e);
    if e.Start? && t != s {
      assert forall i :: 0 <= i < |s.todo| - 1 ==> s.todo[1..][i] == s.todo[i + 1];
      assert s.todo[0] in s.todo;
    }
    if e.Started? && t != s {
      assert !IsSuccess(s.spokes[s.starting.value].status) && !IsError(s.spokes[s.starting.value].status);
      assert !IsSuccess(t.spokes[s.starting.value].status) && !IsError(t.spokes[s.starting.value].status);
    }
  }

  lemma {:induction false} StatusRun(s: Sys, es: seq<Event>)
    requires StatusTrue(s) && NoEarlyTimers(s) && InOrderRun(s, es)
    ensures StatusTrue(Run(s, es)) && NoEarlyTimers(Run(s, es))
    decreases |es|
  {
    if es != [] {
      StatusStep(s, es[0]);
      StatusRun(Apply(s, es[0]), es[1..]);
    }
  }

  lemma CreatedStatus(ids: seq<string>)
    requires Distinct(ids) && ids != []
    ensures StatusTrue(Created(ids)) && NoEarlyTimers(Created(ids))
  {
    assert ids[0] in Created(ids).spokes;
    assert Created(ids).spokes[ids[0]].status == "pending";
  }

  /** Job status: in every run of a job whose reports come in order, the status is that of the spokes' states. */
  lemma StatusFollowsSpokes(ids: seq<string>, es: seq<Event>)
    requires Distinct(ids) && ids != [] && InOrderRun(Created(ids), es)
    ensures var t := Run(Created(ids), es); t.status == JobStatus(t.spokes) && Shows(t.spokes, t.status)
  {
    CreatedStatus(ids);
    StatusRun(Created(ids), es);
    JobStatusShows(Run(Created(ids), es).spokes);
  }

  /**
   A report that overtakes the record of its spoke's first send can leave the status wrong: that
   record is not followed by a refresh, and keeps the status true exactly when the job was running.
   */
  lemma OvertakenStartExactly(s: Sys, sent: bool)
    requires s.starting.Some? && s.starting.value in s.spokes && s.status == JobStatus(s.spokes)
    ensures var t := Apply(s, Started(sent)); t.status == JobStatus(t.spokes) <==> s.status == "running"
  {
    var t := Apply(s, Started(sent));
    var x := s.starting.value;
    assert !IsSuccess(t.spokes[x].status) && !IsError(t.spokes[x].status);
  }

  // ---------------------------------------------------------------------------------
  // When a retry goes out.

  /** The event records the end of one of the spoke's sends, the first one or a retry. */
  predicate Records(s: Sys, e: Event, x: string) {
    match e
    case Started(_) => s.starting == Some(x)
    case Resent(y, k, _) => y == x && (x, k) in s.sending
    case _ => false
  }

  predicate RecordIn(s: Sys, es: seq<Event>, x: string)
    decreases |es|
  {
    es != [] && (Records(s, es[0], x) || RecordIn(Apply(s, es[0]), es[1..], x))
  }

  /** Before timer `k` of the spoke fires, and without another report of that spoke. */
  predicate Unfired(es: seq<Event>, x: string, k: nat) {
    forall i :: 0 <= i < |es| ==> es[i] != Fire(x, k) && !(es[i].Progress? && es[i].spoke == x)
  }

  predicate Asleep(s: Sys, x: string, k: nat) {
    x in s.spokes && s.spokes[x].retries == k && (x, k) in s.timers
  }

  lemma SleepStep(s: Sys, e: Event, x: string, k: nat)
    requires Asleep(s, x, k) && Unfired([e], x, k)
    ensures Asleep(Apply(s, e), x, k)
    ensures ShouldRetry(Apply(s, e).spokes[x], k) <==> ShouldRetry(s.spokes[x], k) && !Records(s, e, x)
  {
    assert [e][0] == e;
  }

  lemma {:induction false} SleepRun(s: Sys, es: seq<Event>, x: string, k: nat)
    requires Asleep(s, x, k) && Unfired(es, x, k)
    ensures Asleep(Run(s, es), x, k)
    ensures ShouldRetry(Run(s, es).spokes[x], k) <==> ShouldRetry(s.spokes[x], k) && !RecordIn(s, es, x)
    decreases |es|
  {
    if es != [] {
      assert Unfired([es[0]], x, k);
      SleepStep(s, es[0], x, k);
      SleepRun(Apply(s, es[0]), es[1..], x, k);
    }
  }

  /**
   Retries: after an error report that starts a timer, and with no other report of the spoke before
   the timer fires, the retry goes out exactly when no record of one of the spoke's sends, be it the
   first or a retry, falls between the report and the firing.  Otherwise it never goes out.
   */
  lemma RetryDispatchesExactly(s: Sys, x: string, reported: string, es: seq<Event>, more: seq<Event>)
    requires Inv(s) && x in s.spokes && StartsTimer(s.spokes[x], reported)
    requires Unfired(es, x, s.spokes[x].retries + 1)
    ensures var k := s.spokes[x].retries + 1;
      var a := Apply(s, Progress(x, reported));
      var t := Run(a, es);
      var u := Apply(t, Fire(x, k));
      && (!RecordIn(a, es, x) ==> u.dispatched == t.dispatched + [(x, k)])
      && (RecordIn(a, es, x) ==> (x, k) !in Run(u, more).dispatched)
  {
    var k := s.spokes[x].retries + 1;
    var a := Apply(s, Progress(x, reported));
    Step(s, Progress(x, reported));
    SleepRun(a, es, x, k);
    RunKeeps(a, es);
    var t := Run(a, es);
    Step(t, Fire(x, k));
    if RecordIn(a, es, x) {
      SupersededNeverDispatches(Apply(t, Fire(x, k)), more, x, k);
    }
  }
}
