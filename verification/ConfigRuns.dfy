/**
 Every interleaving of the store calls that touch a spoke's configuration versions.  An
 acknowledgement is three calls (look up, record, apply), an edit of the row two (read, save), and
 a direct push three (read, save, enqueue); any other step may fall between them.
 */
module ConfigRuns {
  import opened Prelude
  import opened CommandQueue
  import opened ConfigSync

  /** Where a running `_handle_spoke_ack` stands. */
  datatype Acking =
    | Found(id: string, version: int, result: Option<AckResult>)
    | Recorded(version: int)

  /** A direct push that has been saved but not yet enqueued. */
  datatype Raw = Raw(version: int, carried: int, config: map<string, Option<string>>)

  /** What an endpoint makes of the row it holds before saving it. */
  datatype Write =
    | BumpRow(config: map<string, Option<string>>)
    | RawRow(config: map<string, Option<string>>, carried: int)
    | PlainRow
    | FirstRow(config: map<string, Option<string>>)
    | ResetRow

  function Written(r: Spoke, w: Write): Spoke {
    match w
    case BumpRow(config) => r.(config := config, configVersion := r.configVersion + 1)
    case RawRow(config, _) => r.(config := config, configVersion := r.configVersion + 1)
    case PlainRow => r
    case FirstRow(config) =>
      if Restarts(r, w) then r.(config := config, configVersion := 1, appliedVersion := 0) else r
    case ResetRow => r.(configVersion := 0, appliedVersion := 0)
  }

  /** The writes that start the versions over. */
  predicate Restarts(r: Spoke, w: Write) {
    w.ResetRow? || (w.FirstRow? && r.config == map[] && w.config != map[])
  }

  /** The hub, the rows that endpoints hold, the handlers under way, and the versions applied so far. */
  datatype Sys = Sys(
    hub: Hub,
    rows: map<nat, Spoke>,
    acks: map<nat, Acking>,
    raws: map<nat, Raw>,
    applied: seq<int>)

  datatype Event =
    | ReadRow(k: nat)                 // get_spoke or list_spokes
    | SaveRow(k: nat, w: Write)       // save_spoke of the row held since then
    | EnqueueRaw(k: nat, id: string, now: int)
    | EnsurePush(id: string, now: int)
    | EnsureClearPush(id: string, now: int)
    | PollInbox(now: int)
    | MarkPushed(ids: set<string>, now: int)
    | ReadAck(k: nat, id: string, result: Option<AckResult>)
    | RecordAck(k: nat, now: int)
    | ApplyAck(k: nat, now: int)
    | CheckDrift
    | EnqueueOther(c: Command, now: int)
    | ClearQueue
    | PurgeExpired(now: int)
    | SetTenant(tenant: Tenant)
    | SetStatus(status: SpokeStatus)

  /** The held row overwrites whatever is stored; its holder goes on with what it has written. */
  function Saved(s: Sys, k: nat, w: Write): Sys
    requires k in s.rows
  {
    var r := s.rows[k];
    s.(hub := s.hub.(spoke := Written(r, w)),
       rows := s.rows[k := Written(r, w)],
       raws := if w.RawRow? then s.raws[k := Raw(r.configVersion + 1, w.carried, w.config)] else s.raws,
       applied := if Restarts(r, w) then [] else s.applied)
  }

  function Apply(s: Sys, e: Event): Sys {
    match e
    case ReadRow(k) => s.(rows := s.rows[k := s.hub.spoke])
    case SaveRow(k, w) => if k in s.rows then Saved(s, k, w) else s
    case EnqueueRaw(k, id, now) =>
      if k in s.raws
      then s.(hub := RawEnqueue(s.hub, id, s.raws[k].version, s.raws[k].carried, s.raws[k].config, now),
              raws := s.raws - {k})
      else s
    case EnsurePush(id, now) => s.(hub := Ensure(s.hub, id, now))
    case EnsureClearPush(id, now) => s.(hub := EnsureClear(s.hub, id, now))
    case PollInbox(now) => s.(hub := Poll(s.hub, now))
    case MarkPushed(ids, now) => s.(hub := s.hub.(queue := Mark(Active(s.hub.queue, now), ids, now)))
    case ReadAck(k, id, result) => s.(acks := s.acks[k := Found(id, VersionToApply(s.hub.queue, id, result), result)])
    case RecordAck(k, now) =>
      if k in s.acks && s.acks[k].Found?
      then s.(hub := AckQueue(s.hub, s.acks[k].id, now, s.acks[k].result),
              acks := s.acks[k := Recorded(s.acks[k].version)])
      else s
    case ApplyAck(k, now) =>
      if k in s.acks && s.acks[k].Recorded? then
        if s.acks[k].version > 0
        then s.(hub := MarkApplied(s.hub, s.acks[k].version, now),
                applied := s.applied + [s.acks[k].version],
                acks := s.acks - {k})
        else s.(acks := s.acks - {k})
      else s
    case CheckDrift => s.(hub := Drift(s.hub))
    case EnqueueOther(c, now) => s.(hub := s.hub.(queue := Active(s.hub.queue, now) + [c]))
    case ClearQueue => s.(hub := s.hub.(queue := []))
    case PurgeExpired(now) => s.(hub := s.hub.(queue := Active(s.hub.queue, now)))
    case SetTenant(tenant) => s.(hub := s.hub.(tenant := tenant))
    case SetStatus(status) => s.(hub := s.hub.(spoke := s.hub.spoke.(status := status)))
  }

  /**
   What a save stores, and its holder goes on with: an edit and a direct push the new configuration under the next
   version, a first configuration version 1 and a reset version 0 with nothing applied, anything else the held row.
   */
  lemma SaveStores(s: Sys, k: nat, w: Write)
    requires k in s.rows
    ensures var r, t := s.rows[k], Apply(s, SaveRow(k, w));
      && t.rows == s.rows[k := t.hub.spoke] && t.hub.queue == s.hub.queue
      && (w.BumpRow? || w.RawRow? ==> t.hub.spoke == r.(config := w.config, configVersion := r.configVersion + 1))
      && (w.FirstRow? && r.config == map[] && w.config != map[] ==>
            t.hub.spoke == r.(config := w.config, configVersion := 1, appliedVersion := 0))
      && (w.ResetRow? ==> t.hub.spoke == r.(configVersion := 0, appliedVersion := 0))
      && (w.PlainRow? || (w.FirstRow? && (r.config != map[] || w.config == map[])) ==> t.hub.spoke == r)
  {
  }

  predicate Restarting(s: Sys, e: Event) {
    e.SaveRow? && e.k in s.rows && Restarts(s.rows[e.k], e.w)
  }

  /** A held row may be saved: nothing has been applied since, and the stored version is not set back. */
  predicate Keeps(s: Sys, k: nat, w: Write)
    requires k in s.rows
  {
    s.rows[k].appliedVersion == s.hub.spoke.appliedVersion
    && s.hub.spoke.configVersion <= Written(s.rows[k], w).configVersion
  }

  /** Nothing queued, in a handler or about to be enqueued carries a version above `top`. */
  predicate Below(s: Sys, top: int) {
    && (forall i :: 0 <= i < |s.hub.queue| && s.hub.queue[i].kind == ConfigUpdate ==>
          s.hub.queue[i].payload.stampedVersion <= top)
    && (forall k :: k in s.acks ==> s.acks[k].version <= top)
    && (forall k :: k in s.raws ==> s.raws[k].version <= top)
  }

  /** A directly pushed configuration carries no version key of its own, or the right one. */
  predicate OwnKey(s: Sys, k: nat, w: Write)
    requires k in s.rows
  {
    w.RawRow? ==> k !in s.raws && w.carried in {0, s.rows[k].configVersion + 1}
  }

  predicate CleanSave(s: Sys, k: nat, w: Write)
    requires k in s.rows
  {
    OwnKey(s, k, w)
    && if Restarts(s.rows[k], w) then Below(s, Written(s.rows[k], w).configVersion) else Keeps(s, k, w)
  }

  /** A clean step; commands enqueued from outside are not configuration updates. */
  predicate Clean(s: Sys, e: Event) {
    match e
    case SaveRow(k, w) => k in s.rows ==> CleanSave(s, k, w)
    case EnqueueOther(c, now) => c.kind != ConfigUpdate
    case ReadAck(k, id, result) => k !in s.acks
    case _ => true
  }

  function Run(s: Sys, es: seq<Event>): Sys
    decreases |es|
  {
    if es == [] then s else Run(Apply(s, es[0]), es[1..])
  }

  predicate CleanRun(s: Sys, es: seq<Event>)
    decreases |es|
  {
    es == [] || (Clean(s, es[0]) && CleanRun(Apply(s, es[0]), es[1..]))
  }

  // ---------------------------------------------------------------------------------
  // Versions are bounded by the spoke's own version.

  predicate PushesBounded(q: seq<Command>, top: int) {
    forall i :: 0 <= i < |q| && q[i].kind == ConfigUpdate ==>
      0 < q[i].payload.stampedVersion <= top && ReadVersion(q[i].payload) == q[i].payload.stampedVersion
  }

  predicate AcksBounded(acks: map<nat, Acking>, top: int) {
    forall k :: k in acks ==> acks[k].version <= top
  }

  predicate RawsBounded(raws: map<nat, Raw>, top: int) {
    forall k :: k in raws ==> 0 < raws[k].version <= top && raws[k].carried in {0, raws[k].version}
  }

  predicate RowsBounded(rows: map<nat, Spoke>) {
    forall k :: k in rows ==> 0 <= rows[k].appliedVersion <= rows[k].configVersion
  }

  predicate Bounded(s: Sys) {
    && 0 <= s.hub.spoke.appliedVersion <= s.hub.spoke.configVersion
    && RowsBounded(s.rows)
    && s.hub.spoke.appliedVersion == Largest(s.applied, 0)
    && PushesBounded(s.hub.queue, s.hub.spoke.configVersion)
    && AcksBounded(s.acks, s.hub.spoke.configVersion)
    && RawsBounded(s.raws, s.hub.spoke.configVersion)
  }

  lemma {:induction false} ActiveBounded(q: seq<Command>, now: int, top: int)
    requires PushesBounded(q, top)
    ensures PushesBounded(Active(q, now), top)
  {
    if q != [] {
      assert PushesBounded(q[1..], top);
      ActiveBounded(q[1..], now, top);
    }
  }

  lemma BoundedQueueStep(s: Sys, e: Event)
    requires Bounded(s) && Clean(s, e)
    requires e.EnqueueRaw? || e.EnqueueOther? || e.PollInbox? || e.MarkPushed? || e.PurgeExpired?
    ensures Bounded(Apply(s, e)) && Apply(s, e).hub.spoke.configVersion == s.hub.spoke.configVersion
    ensures Apply(s, e).applied == s.applied
  {
    ActiveBounded(s.hub.queue, e.now, s.hub.spoke.configVersion);
  }

  lemma BoundedAckStep(s: Sys, e: Event)
    requires Bounded(s) && Clean(s, e)
    requires e.ReadAck? || e.RecordAck? || e.ApplyAck?
    ensures Bounded(Apply(s, e)) && Apply(s, e).hub.spoke.configVersion == s.hub.spoke.configVersion
    ensures s.applied <= Apply(s, e).applied && s.hub.spoke.appliedVersion <= Apply(s, e).hub.spoke.appliedVersion
  {
    var t := Apply(s, e);
    if e.ApplyAck? && t.applied != s.applied {
      assert t.applied[..|t.applied| - 1] == s.applied;
    }
  }

  /**
   What a save does: if it starts the versions over, the bounds hold afterwards exactly when nothing
   under way carries a higher version; any other save keeps the bounds and the stored version from
   falling exactly when nothing has been applied since the read and the version on file has not
   passed the one written.
   */
  lemma SaveExactly(s: Sys, k: nat, w: Write)
    requires Bounded(s) && k in s.rows && OwnKey(s, k, w)
    ensures Restarts(s.rows[k], w) ==>
      (Bounded(Saved(s, k, w)) <==> Below(s, Written(s.rows[k], w).configVersion))
    ensures !Restarts(s.rows[k], w) ==>
      (Bounded(Saved(s, k, w)) && s.hub.spoke.configVersion <= Saved(s, k, w).hub.spoke.configVersion <==>
        Keeps(s, k, w))
  {
  }

  lemma BoundedStep(s: Sys, e: Event)
    requires Bounded(s) && Clean(s, e)
    ensures Bounded(Apply(s, e))
    ensures !Restarting(s, e) ==>
      s.hub.spoke.configVersion <= Apply(s, e).hub.spoke.configVersion
      && s.hub.spoke.appliedVersion <= Apply(s, e).hub.spoke.appliedVersion
      && s.applied <= Apply(s, e).applied
  {
    if e.EnqueueRaw? || e.EnqueueOther? || e.PollInbox? || e.MarkPushed? || e.PurgeExpired? {
      BoundedQueueStep(s, e);
    } else if e.ReadAck? || e.RecordAck? || e.ApplyAck? {
      BoundedAckStep(s, e);
    } else if e.SaveRow? && e.k in s.rows {
      SaveExactly(s, e.k, e.w);
    }
  }

  predicate NoRestarts(s: Sys, es: seq<Event>)
    decreases |es|
  {
    es == [] || (!Restarting(s, es[0]) && NoRestarts(Apply(s, es[0]), es[1..]))
  }

  /**
   Version safety: over every clean run the applied version never passes the spoke's own version,
   equals the largest version applied since the last restart (late, repeated and out-of-order
   acknowledgements included), no queued push carries a version above the spoke's own, and between
   restarts no version falls.
   */
  lemma {:induction false} VersionSafety(s: Sys, es: seq<Event>)
    requires Bounded(s) && CleanRun(s, es)
    ensures Bounded(Run(s, es))
    ensures NoRestarts(s, es) ==>
      s.hub.spoke.configVersion <= Run(s, es).hub.spoke.configVersion
      && s.hub.spoke.appliedVersion <= Run(s, es).hub.spoke.appliedVersion
      && s.applied <= Run(s, es).applied
    decreases |es|
  {
    if es != [] {
      BoundedStep(s, es[0]);
      VersionSafety(Apply(s, es[0]), es[1..]);
    }
  }

  // ---------------------------------------------------------------------------------
  // Restarting the versions.

  /** A handler that holds a version applies it, whatever the row says by then. */
  lemma HandlerApplies(s: Sys, j: nat, now: int) returns (es: seq<Event>)
    requires j in s.acks && s.acks[j].version > 0
    ensures CleanRun(s, es)
    ensures var t := Run(s, es).hub.spoke;
      t.configVersion == s.hub.spoke.configVersion && t.appliedVersion >= s.acks[j].version
  {
    var last := ApplyAck(j, now);
    assert [last][1..] == [];
    es := [last];
    if s.acks[j].Found? {
      var e := RecordAck(j, now);
      assert [e, last][1..] == [last];
      assert Run(Apply(s, e), [last]) == Apply(Apply(s, e), last);
      es := [e, last];
    }
  }

  /** A queued push that is acknowledged now gets applied. */
  lemma QueuedPushApplies(s: Sys, i: nat, j: nat, now: int) returns (es: seq<Event>)
    requires UniqueIds(s.hub.queue) && i < |s.hub.queue| && j !in s.acks
    requires s.hub.queue[i].kind == ConfigUpdate && s.hub.queue[i].payload.stampedVersion > 0
    ensures CleanRun(s, es)
    ensures var t := Run(s, es).hub.spoke;
      t.configVersion == s.hub.spoke.configVersion && t.appliedVersion >= s.hub.queue[i].payload.stampedVersion
  {
    var e := ReadAck(j, s.hub.queue[i].id, None);
    var u := Apply(s, e);
    assert FirstIndex(s.hub.queue, s.hub.queue[i].id) == i;
    var rest := HandlerApplies(u, j, now);
    es := [e] + rest;
    assert es[0] == e && es[1..] == rest;
  }

  /** A direct push under way gets enqueued, acknowledged and applied. */
  lemma RawPushApplies(s: Sys, k: nat, j: nat, id: string, now: int) returns (es: seq<Event>)
    requires UniqueIds(s.hub.queue) && k in s.raws && s.raws[k].version > 0 && j !in s.acks && !HasId(s.hub.queue, id)
    ensures CleanRun(s, es)
    ensures var t := Run(s, es).hub.spoke;
      t.configVersion == s.hub.spoke.configVersion && t.appliedVersion >= s.raws[k].version
  {
    var e := EnqueueRaw(k, id, now);
    var u := Apply(s, e);
    var a := Active(s.hub.queue, now);
    UniqueActive(s.hub.queue, now);
    ActiveMembers(s.hub.queue, now);
    forall i | 0 <= i < |a| ensures a[i].id != id {
      assert a[i] in a;
    }
    var rest := QueuedPushApplies(u, |a|, j, now);
    es := [e] + rest;
    assert es[0] == e && es[1..] == rest;
  }

  predicate VersionsInOrder(s: Sys) {
    s.hub.spoke.appliedVersion <= s.hub.spoke.configVersion
  }

  /**
   Restarts: after a save that starts the versions over, applied stays within config_version in every
   clean continuation exactly when nothing queued, in a handler or about to be enqueued carries a
   higher version.  Otherwise an acknowledgement that comes late overtakes the restart.
   */
  lemma RestartSafeExactly(s: Sys, k: nat, w: Write, j: nat, id: string, now: int)
    requires Bounded(s) && UniqueIds(s.hub.queue) && k in s.rows && Restarts(s.rows[k], w)
    requires j !in s.acks && !HasId(s.hub.queue, id)
    ensures (forall es :: CleanRun(Saved(s, k, w), es) ==> VersionsInOrder(Run(Saved(s, k, w), es)))
       <==> Below(s, Written(s.rows[k], w).configVersion)
  {
    var t := Saved(s, k, w);
    if Below(s, t.hub.spoke.configVersion) {
      SaveExactly(s, k, w);
      forall es | CleanRun(t, es) ensures VersionsInOrder(Run(t, es)) {
        VersionSafety(t, es);
      }
    } else {
      var es := RestartOvertaken(s, k, w, j, id, now);
    }
  }

  predicate Above(c: Command, top: int) {
    c.kind == ConfigUpdate && c.payload.stampedVersion > top
  }

  lemma RestartOvertaken(s: Sys, k: nat, w: Write, j: nat, id: string, now: int) returns (es: seq<Event>)
    requires Bounded(s) && UniqueIds(s.hub.queue) && k in s.rows && Restarts(s.rows[k], w)
    requires j !in s.acks && !HasId(s.hub.queue, id) && !Below(s, Written(s.rows[k], w).configVersion)
    ensures CleanRun(Saved(s, k, w), es) && !VersionsInOrder(Run(Saved(s, k, w), es))
  {
    var t := Saved(s, k, w);
    var top := t.hub.spoke.configVersion;
    if j0 :| j0 in s.acks && s.acks[j0].version > top {
      es := HandlerApplies(t, j0, now);
    } else if i :| 0 <= i < |s.hub.queue| && Above(s.hub.queue[i], top) {
      es := QueuedPushApplies(t, i, j, now);
    } else {
      var r :| r in s.raws && s.raws[r].version > top;
      es := RawPushApplies(t, r, j, id, now);
    }
  }

  // ---------------------------------------------------------------------------------
  // The gap between reading a row and saving it.

  /** The steps that may change the stored row. */
  predicate WritesRow(e: Event) {
    e.SaveRow? || e.EnsurePush? || e.ApplyAck? || e.CheckDrift? || e.SetStatus?
  }

  predicate LeavesGap(es: seq<Event>, k: nat) {
    forall i :: 0 <= i < |es| ==> !WritesRow(es[i]) && es[i] != ReadRow(k)
  }

  lemma {:induction false} GapLeavesRow(s: Sys, k: nat, es: seq<Event>)
    requires k in s.rows && LeavesGap(es, k)
    ensures Run(s, es).hub.spoke == s.hub.spoke
    ensures k in Run(s, es).rows && Run(s, es).rows[k] == s.rows[k]
    decreases |es|
  {
    if es != [] {
      GapLeavesRow(Apply(s, es[0]), k, es[1..]);
    }
  }

  /**
   When no write of the row falls between a read and its save, the save is clean exactly if it carries no foreign
   key and, where it restarts the versions, nothing above the restart is under way.
   */
  lemma UndisturbedSaveKeeps(s: Sys, k: nat, es: seq<Event>, w: Write)
    requires LeavesGap(es, k)
    ensures var t := Run(Apply(s, ReadRow(k)), es);
      && k in t.rows && t.rows[k] == s.hub.spoke && (!Restarts(s.hub.spoke, w) ==> Keeps(t, k, w))
      && (Clean(t, SaveRow(k, w)) <==>
            OwnKey(t, k, w) && (Restarts(s.hub.spoke, w) ==> Below(t, Written(s.hub.spoke, w).configVersion)))
  {
    GapLeavesRow(Apply(s, ReadRow(k)), k, es);
  }

  /**
   An acknowledgement in the gap is forgotten: with an edit's read before it and its save after it,
   the applied version stays the largest applied exactly when the acknowledged version was no news.
   */
  lemma StaleSaveForgetsAck(s: Sys, k: nat, j: nat, now: int, config: map<string, Option<string>>)
    requires Bounded(s) && j in s.acks && s.acks[j].Recorded? && s.acks[j].version > 0
    ensures var t := Apply(Apply(Apply(s, ReadRow(k)), ApplyAck(j, now)), SaveRow(k, BumpRow(config)));
      && t.hub.spoke.configVersion == s.hub.spoke.configVersion + 1
      && t.hub.spoke.appliedVersion == s.hub.spoke.appliedVersion
      && (Bounded(t) <==> s.acks[j].version <= s.hub.spoke.appliedVersion)
  {
    var u := Apply(Apply(s, ReadRow(k)), ApplyAck(j, now));
    BoundedStep(s, ReadRow(k));
    BoundedStep(Apply(s, ReadRow(k)), ApplyAck(j, now));
    SaveExactly(u, k, BumpRow(config));
  }

  // ---------------------------------------------------------------------------------
  // No version is pushed twice.

  predicate DistinctVersions(q: seq<Command>) {
    forall i, j :: 0 <= i < j < |q| && q[i].kind == ConfigUpdate && q[j].kind == ConfigUpdate ==>
      q[i].payload.stampedVersion != q[j].payload.stampedVersion
  }

  /** Pushes saved but not yet enqueued have versions of their own. */
  predicate RawsApart(s: Sys) {
    (forall k, i :: k in s.raws && 0 <= i < |s.hub.queue| && s.hub.queue[i].kind == ConfigUpdate ==>
       s.hub.queue[i].payload.stampedVersion != s.raws[k].version)
    && (forall k, m :: k in s.raws && m in s.raws && k != m ==> s.raws[k].version != s.raws[m].version)
  }

  /** No queued push and no direct push under way has this version. */
  predicate Unused(s: Sys, version: int) {
    && (forall i :: 0 <= i < |s.hub.queue| && s.hub.queue[i].kind == ConfigUpdate ==>
          s.hub.queue[i].payload.stampedVersion != version)
    && (forall k :: k in s.raws ==> s.raws[k].version != version)
  }

  /**
   No `Ensure` falls between saving and enqueueing a direct push of the current version, and a direct
   push saves a version that is not in use.
   */
  predicate GapFree(s: Sys, e: Event) {
    match e
    case EnsurePush(id, now) => forall k :: k in s.raws ==> s.raws[k].version != s.hub.spoke.configVersion
    case SaveRow(k, w) => k in s.rows && w.RawRow? ==> Unused(s, s.rows[k].configVersion + 1)
    case _ => true
  }

  /** The version a direct push saves is unused if the version on file is still the one that was read. */
  lemma CurrentRowUnused(s: Sys, k: nat)
    requires Bounded(s) && k in s.rows && s.rows[k].configVersion == s.hub.spoke.configVersion
    ensures Unused(s, s.rows[k].configVersion + 1)
  {
  }

  predicate GapFreeRun(s: Sys, es: seq<Event>)
    decreases |es|
  {
    es == [] || (Clean(s, es[0]) && GapFree(s, es[0]) && GapFreeRun(Apply(s, es[0]), es[1..]))
  }

  lemma {:induction false} ActiveDistinct(q: seq<Command>, now: int)
    requires DistinctVersions(q)
    ensures DistinctVersions(Active(q, now))
  {
    if q != [] {
      ActiveDistinct(q[1..], now);
      var rest := Active(q[1..], now);
      forall j | 0 <= j < |rest|
        ensures q[0].kind == ConfigUpdate && rest[j].kind == ConfigUpdate ==>
          q[0].payload.stampedVersion != rest[j].payload.stampedVersion
      {
        var i := ActiveOrigin(q[1..], now, j);
        assert q[i + 1] == rest[j];
      }
    }
  }

  lemma PurgeDistinct(s: Sys, now: int)
    requires DistinctVersions(s.hub.queue) && RawsApart(s)
    ensures var t := s.(hub := s.hub.(queue := Active(s.hub.queue, now))); DistinctVersions(t.hub.queue) && RawsApart(t)
  {
    ActiveDistinct(s.hub.queue, now);
    ActiveMembers(s.hub.queue, now);
    var q := Active(s.hub.queue, now);
    forall i | 0 <= i < |q| ensures q[i] in s.hub.queue {}
  }

  /** A queue with the same kinds and versions, place by place. */
  predicate SameVersions(p: seq<Command>, q: seq<Command>) {
    |p| == |q|
    && forall i :: 0 <= i < |p| ==>
         p[i].kind == q[i].kind && p[i].payload.stampedVersion == q[i].payload.stampedVersion
  }

  lemma SameVersionsDistinct(s: Sys, t: Sys)
    requires DistinctVersions(s.hub.queue) && RawsApart(s)
    requires SameVersions(s.hub.queue, t.hub.queue) && t.raws == s.raws
    ensures DistinctVersions(t.hub.queue) && RawsApart(t)
  {
  }

  lemma DistinctQueueStep(s: Sys, e: Event)
    requires DistinctVersions(s.hub.queue) && RawsApart(s) && Clean(s, e)
    requires e.EnqueueOther? || e.PollInbox? || e.MarkPushed? || e.PurgeExpired?
    ensures DistinctVersions(Apply(s, e).hub.queue) && RawsApart(Apply(s, e))
  {
    PurgeDistinct(s, e.now);
    var p := s.(hub := s.hub.(queue := Active(s.hub.queue, e.now)));
    if !e.EnqueueOther? {
      SameVersionsDistinct(p, Apply(s, e));
    }
  }

  lemma DistinctRawStep(s: Sys, k: nat, id: string, now: int)
    requires DistinctVersions(s.hub.queue) && RawsApart(s)
    ensures var t := Apply(s, EnqueueRaw(k, id, now)); DistinctVersions(t.hub.queue) && RawsApart(t)
  {
    PurgeDistinct(s, now);
  }

  lemma DistinctEnsureStep(s: Sys, id: string, now: int)
    requires Bounded(s) && DistinctVersions(s.hub.queue) && RawsApart(s) && GapFree(s, EnsurePush(id, now))
    ensures var t := s.(hub := Ensure(s.hub, id, now)); DistinctVersions(t.hub.queue) && RawsApart(t)
  {
    if Ensure(s.hub, id, now) != s.hub {
      forall i | 0 <= i < |s.hub.queue| && s.hub.queue[i].kind == ConfigUpdate
        ensures s.hub.queue[i].payload.stampedVersion != s.hub.spoke.configVersion
      {
        assert !IsPushOf(s.hub.queue[i], s.hub.spoke.configVersion);
      }
    }
  }

  lemma DistinctSave(s: Sys, k: nat, w: Write)
    requires DistinctVersions(s.hub.queue) && RawsApart(s) && k in s.rows && OwnKey(s, k, w)
    requires w.RawRow? ==> Unused(s, s.rows[k].configVersion + 1)
    ensures DistinctVersions(Saved(s, k, w).hub.queue) && RawsApart(Saved(s, k, w))
  {
  }

  lemma DistinctAckStep(s: Sys, e: Event)
    requires DistinctVersions(s.hub.queue) && RawsApart(s)
    requires e.ReadAck? || e.RecordAck? || e.ApplyAck?
    ensures DistinctVersions(Apply(s, e).hub.queue) && RawsApart(Apply(s, e))
  {
    SameVersionsDistinct(s, Apply(s, e));
  }

  lemma DistinctRowStep(s: Sys, e: Event)
    requires DistinctVersions(s.hub.queue) && RawsApart(s) && Clean(s, e) && GapFree(s, e)
    requires e.ReadRow? || e.SaveRow? || e.CheckDrift? || e.SetTenant? || e.SetStatus?
    ensures DistinctVersions(Apply(s, e).hub.queue) && RawsApart(Apply(s, e))
  {
    if e.SaveRow? {
      if e.k in s.rows {
        DistinctSave(s, e.k, e.w);
      }
    } else {
      SameVersionsDistinct(s, Apply(s, e));
    }
  }

  lemma DistinctStep(s: Sys, e: Event)
    requires Bounded(s) && DistinctVersions(s.hub.queue) && RawsApart(s) && Clean(s, e) && GapFree(s, e)
    ensures DistinctVersions(Apply(s, e).hub.queue) && RawsApart(Apply(s, e))
  {
    if e.EnqueueOther? || e.PollInbox? || e.MarkPushed? || e.PurgeExpired? {
      DistinctQueueStep(s, e);
    } else if e.EnqueueRaw? {
      DistinctRawStep(s, e.k, e.id, e.now);
    } else if e.EnsurePush? {
      DistinctEnsureStep(s, e.id, e.now);
    } else if e.ReadAck? || e.RecordAck? || e.ApplyAck? {
      DistinctAckStep(s, e);
    } else if e.ReadRow? || e.SaveRow? || e.CheckDrift? || e.SetTenant? || e.SetStatus? {
      DistinctRowStep(s, e);
    }
  }

  /**
   Distinctness: when direct pushes save unused versions and no `Ensure` falls into their gap, no
   version is queued twice.
   */
  lemma {:induction false} VersionsPushedOnce(s: Sys, es: seq<Event>)
    requires Bounded(s) && DistinctVersions(s.hub.queue) && RawsApart(s) && GapFreeRun(s, es)
    ensures DistinctVersions(Run(s, es).hub.queue)
    decreases |es|
  {
    if es != [] {
      BoundedStep(s, es[0]);
      DistinctStep(s, es[0]);
      VersionsPushedOnce(Apply(s, es[0]), es[1..]);
    }
  }

  /**
   The gap matters: when an `Ensure` falls between save and enqueue, the version ends up queued
   twice exactly when the spoke is approved.
   */
  lemma EnsureInGapDuplicates(h: Hub, config: map<string, Option<string>>, id: string, id': string, now: int)
    requires PushesBounded(h.queue, h.spoke.configVersion) && DistinctVersions(h.queue)
    requires 0 <= h.spoke.appliedVersion <= h.spoke.configVersion
    ensures var v := h.spoke.configVersion + 1;
      var t := RawEnqueue(Ensure(RawSave(h, config), id, now), id', v, 0, config, now);
      DistinctVersions(t.queue) <==> h.spoke.status != Approved
  {
    var v := h.spoke.configVersion + 1;
    var saved := RawSave(h, config);
    var ensured := Ensure(saved, id, now);
    var a := Active(ensured.queue, now);
    var t := RawEnqueue(ensured, id', v, 0, config, now);
    ActiveBounded(h.queue, now, h.spoke.configVersion);
    ActiveDistinct(h.queue, now);
    if h.spoke.status == Approved {
      ActiveConcat(h.queue, [PushCommand(saved, id, now)], now);
      var n := |Active(h.queue, now)|;
      assert a == Active(h.queue, now) + [PushCommand(saved, id, now)];
      assert t.queue[n].payload.stampedVersion == t.queue[n + 1].payload.stampedVersion == v;
    }
  }

  lemma ActiveHas(q: seq<Command>, now: int, version: int)
    ensures (exists i :: 0 <= i < |Active(q, now)| && Active(q, now)[i].kind == ConfigUpdate
                         && Active(q, now)[i].payload.stampedVersion == version)
       <==> exists c :: c in q && Live(c, now) && c.kind == ConfigUpdate && c.payload.stampedVersion == version
  {
    ActiveMembers(q, now);
    var a := Active(q, now);
    forall i | 0 <= i < |a| ensures a[i] in a {}
  }

  /**
   A direct push from a held row queues a version twice exactly when a live command has that version
   already, which takes a write in the gap.
   */
  lemma StaleDirectPushExactly(s: Sys, k: nat, w: Write, id: string, now: int)
    requires Bounded(s) && DistinctVersions(s.hub.queue) && k in s.rows && w.RawRow?
    ensures var v := s.rows[k].configVersion + 1;
      var t := Apply(Apply(s, SaveRow(k, w)), EnqueueRaw(k, id, now));
      DistinctVersions(t.hub.queue) <==>
      !exists c :: c in s.hub.queue && Live(c, now) && c.kind == ConfigUpdate && c.payload.stampedVersion == v
  {
    var v := s.rows[k].configVersion + 1;
    var t := Apply(Apply(s, SaveRow(k, w)), EnqueueRaw(k, id, now));
    var a := Active(s.hub.queue, now);
    ActiveDistinct(s.hub.queue, now);
    ActiveHas(s.hub.queue, now, v);
    assert t.hub.queue[..|a|] == a && t.hub.queue[|a|].payload.stampedVersion == v;
    if DistinctVersions(t.hub.queue) {
      forall i | 0 <= i < |a| && a[i].kind == ConfigUpdate ensures a[i].payload.stampedVersion != v {
        assert t.hub.queue[i] == a[i];
      }
    }
  }

  /** A step that saves no row but the stored one, restarts only what is drained, and pushes no foreign key. */
  predicate Undisturbed(s: Sys, e: Event) {
    match e
    case SaveRow(k, w) => k in s.rows ==>
      && s.rows[k] == s.hub.spoke && OwnKey(s, k, w)
      && (Restarts(s.rows[k], w) ==> Below(s, Written(s.rows[k], w).configVersion))
    case _ => Clean(s, e)
  }

  /** Such steps, with no `Ensure` between save and enqueue of a direct push. */
  predicate UndisturbedRun(s: Sys, es: seq<Event>)
    decreases |es|
  {
    es == []
    || (Undisturbed(s, es[0]) && (es[0].EnsurePush? ==> GapFree(s, es[0])) && UndisturbedRun(Apply(s, es[0]), es[1..]))
  }

  lemma UndisturbedStep(s: Sys, e: Event)
    requires Bounded(s) && Undisturbed(s, e) && (e.EnsurePush? ==> GapFree(s, e))
    ensures Clean(s, e) && GapFree(s, e)
  {
    if e.SaveRow? && e.k in s.rows {
      CurrentRowUnused(s, e.k);
    }
  }

  /** When no write of a row falls between its read and its save, both kinds of safety hold over the whole run. */
  lemma {:induction false} UndisturbedRunsAreSafe(s: Sys, es: seq<Event>)
    requires Bounded(s) && DistinctVersions(s.hub.queue) && RawsApart(s) && UndisturbedRun(s, es)
    ensures CleanRun(s, es) && GapFreeRun(s, es)
    ensures Bounded(Run(s, es)) && DistinctVersions(Run(s, es).hub.queue)
    decreases |es|
  {
    if es != [] {
      UndisturbedStep(s, es[0]);
      BoundedStep(s, es[0]);
      DistinctStep(s, es[0]);
      UndisturbedRunsAreSafe(Apply(s, es[0]), es[1..]);
    }
  }

  /**
   So a heartbeat between the read and the save of a direct push makes it queue its version twice
   exactly when that heartbeat finds drift.
   */
  lemma HeartbeatInGapDuplicates(s: Sys, k: nat, w: Write, id: string, id': string, now: int)
    requires Bounded(s) && DistinctVersions(s.hub.queue) && w.RawRow?
    ensures var u := Apply(Apply(Apply(s, ReadRow(k)), CheckDrift), EnsurePush(id, now));
      var t := Apply(Apply(u, SaveRow(k, w)), EnqueueRaw(k, id', now));
      DistinctVersions(t.hub.queue) <==> !Drifted(s.hub)
  {
    var d := Apply(Apply(s, ReadRow(k)), CheckDrift);
    var u := Apply(d, EnsurePush(id, now));
    var v := s.hub.spoke.configVersion + 1;
    BoundedStep(s, ReadRow(k));
    BoundedStep(Apply(s, ReadRow(k)), CheckDrift);
    BoundedStep(d, EnsurePush(id, now));
    HeartbeatDistinct(s.hub, id, now);
    StaleDirectPushExactly(u, k, w, id', now);
  }

  /** A heartbeat's check and push queue the next version, live, exactly on drift. */
  lemma HeartbeatDistinct(h: Hub, id: string, now: int)
    requires PushesBounded(h.queue, h.spoke.configVersion) && DistinctVersions(h.queue)
    requires 0 <= h.spoke.appliedVersion <= h.spoke.configVersion
    ensures var q := Ensure(Drift(h), id, now).queue; var v := h.spoke.configVersion + 1;
      && DistinctVersions(q)
      && ((exists c :: c in q && Live(c, now) && c.kind == ConfigUpdate && c.payload.stampedVersion == v) <==>
        Drifted(h))
  {
    var q := Ensure(Drift(h), id, now).queue;
    var v := h.spoke.configVersion + 1;
    if Drifted(h) {
      assert q[|h.queue|] == PushCommand(Drift(h), id, now);
      assert q[|h.queue|] in q;
    }
  }

  /**
   The key matters: a directly pushed configuration that carries a `config_version` of its own
   is not recognised by the next `Ensure`, which queues the same version again exactly when the
   spoke is approved and the carried key is neither absent nor the new version.
   */
  lemma CarriedKeyDuplicates(h: Hub, config: map<string, Option<string>>, carried: int, id: string, id': string,
                             now: int)
    requires PushesBounded(h.queue, h.spoke.configVersion) && DistinctVersions(h.queue)
    requires 0 <= h.spoke.appliedVersion <= h.spoke.configVersion
    ensures var v := h.spoke.configVersion + 1;
      var t := Ensure(RawEnqueue(RawSave(h, config), id, v, carried, config, now), id', now);
      DistinctVersions(t.queue) <==> h.spoke.status != Approved || carried == 0 || carried == v
  {
    var v := h.spoke.configVersion + 1;
    var raw := RawEnqueue(RawSave(h, config), id, v, carried, config, now);
    var t := Ensure(raw, id', now);
    ActiveBounded(h.queue, now, h.spoke.configVersion);
    ActiveDistinct(h.queue, now);
    var n := |Active(h.queue, now)|;
    assert raw.queue[n].payload.stampedVersion == v;
    assert DistinctVersions(raw.queue);
    if carried == 0 || carried == v {
      assert IsPushOf(raw.queue[n], v);
    } else if h.spoke.status == Approved {
      assert !HasPushOf(raw.queue, v);
      assert t.queue == raw.queue + [PushCommand(raw, id', now)];
      assert t.queue[n] == raw.queue[n] && t.queue[n + 1].payload.stampedVersion == v;
    }
  }

  // ---------------------------------------------------------------------------------
  // Runs in which every acknowledgement succeeds.

  predicate AppliedOrRecorded(s: Sys, version: int) {
    version <= s.hub.spoke.appliedVersion
    || exists k :: k in s.acks && s.acks[k].Recorded? && s.acks[k].version == version
  }

  /** Whatever is executed has been applied or is about to be. */
  predicate ExecutedApplies(s: Sys) {
    forall i :: 0 <= i < |s.hub.queue| && s.hub.queue[i].kind == ConfigUpdate && s.hub.queue[i].status == Executed ==>
      AppliedOrRecorded(s, s.hub.queue[i].payload.stampedVersion)
  }

  /** A handler that has read its command holds that command's version. */
  predicate HandlersKnow(s: Sys) {
    forall k, i :: k in s.acks && s.acks[k].Found? && 0 <= i < |s.hub.queue| ==>
      s.hub.queue[i].id == s.acks[k].id && s.hub.queue[i].kind == ConfigUpdate ==>
        s.acks[k].version == s.hub.queue[i].payload.stampedVersion
  }

  predicate Succeeding(s: Sys) {
    UniqueIds(s.hub.queue) && ExecutedApplies(s) && HandlersKnow(s)
  }

  predicate FreshId(s: Sys, id: string) {
    !HasId(s.hub.queue, id) && forall k :: k in s.acks && s.acks[k].Found? ==> s.acks[k].id != id
  }

  /** New ids are unused, and no acknowledgement reports failure. */
  predicate Success(s: Sys, e: Event) {
    match e
    case SaveRow(k, w) => Restarting(s, e) ==> Below(s, 0)
    case EnqueueRaw(k, id, now) => FreshId(s, id)
    case EnsurePush(id, now) => FreshId(s, id)
    case EnsureClearPush(id, now) => FreshId(s, id)
    case EnqueueOther(c, now) => FreshId(s, c.id) && c.status == Queued
    case ReadAck(k, id, result) => Successful(result)
    case _ => true
  }

  predicate SuccessRun(s: Sys, es: seq<Event>)
    decreases |es|
  {
    es == [] || (Clean(s, es[0]) && Success(s, es[0]) && SuccessRun(Apply(s, es[0]), es[1..]))
  }

  lemma PurgeSucceeding(s: Sys, now: int)
    requires Succeeding(s)
    ensures Succeeding(s.(hub := s.hub.(queue := Active(s.hub.queue, now))))
    ensures forall i :: 0 <= i < |Active(s.hub.queue, now)| ==> Active(s.hub.queue, now)[i] in s.hub.queue
  {
    UniqueActive(s.hub.queue, now);
    ActiveMembers(s.hub.queue, now);
    var t := s.(hub := s.hub.(queue := Active(s.hub.queue, now)));
    forall i | 0 <= i < |t.hub.queue| ensures t.hub.queue[i] in s.hub.queue {}
  }

  lemma SucceedingAppend(s: Sys, c: Command)
    requires Succeeding(s) && FreshId(s, c.id) && c.status == Queued
    ensures Succeeding(s.(hub := s.hub.(queue := s.hub.queue + [c])))
  {
    var t := s.(hub := s.hub.(queue := s.hub.queue + [c]));
    assert forall v :: AppliedOrRecorded(s, v) ==> AppliedOrRecorded(t, v);
  }

  /** Changing the queue without executing anything, or changing what else there is of the hub. */
  lemma SucceedingAdvance(s: Sys, t: Sys)
    requires Succeeding(s) && t.acks == s.acks && t.hub.spoke.appliedVersion == s.hub.spoke.appliedVersion
    requires |t.hub.queue| == |s.hub.queue|
    requires forall i :: 0 <= i < |s.hub.queue| ==>
      && t.hub.queue[i].id == s.hub.queue[i].id && t.hub.queue[i].kind == s.hub.queue[i].kind
      && t.hub.queue[i].payload == s.hub.queue[i].payload
      && (t.hub.queue[i].status == Executed ==> s.hub.queue[i].status == Executed)
    ensures Succeeding(t)
  {
    assert forall v :: AppliedOrRecorded(s, v) ==> AppliedOrRecorded(t, v);
  }

  lemma PurgeFresh(s: Sys, now: int, id: string)
    requires FreshId(s, id)
    ensures FreshId(s.(hub := s.hub.(queue := Active(s.hub.queue, now))), id)
  {
    ActiveMembers(s.hub.queue, now);
    var a := Active(s.hub.queue, now);
    forall i | 0 <= i < |a| ensures a[i].id != id {
      assert a[i] in a;
    }
  }

  lemma SucceedingQueueStep(s: Sys, e: Event)
    requires Succeeding(s) && Success(s, e)
    requires e.EnqueueRaw? || e.EnqueueOther? || e.PollInbox? || e.MarkPushed? || e.PurgeExpired?
    ensures Succeeding(Apply(s, e))
  {
    PurgeSucceeding(s, e.now);
    var p := s.(hub := s.hub.(queue := Active(s.hub.queue, e.now)));
    var t := Apply(s, e);
    if e.EnqueueOther? {
      PurgeFresh(s, e.now, e.c.id);
      SucceedingAppend(p, e.c);
    } else if e.EnqueueRaw? {
      if e.k in s.raws {
        PurgeFresh(s, e.now, e.id);
        SucceedingAppend(p, t.hub.queue[|p.hub.queue|]);
        SucceedingAdvance(p.(hub := t.hub), t);
      }
    } else {
      SucceedingAdvance(p, t);
    }
  }

  /** A version that is applied or recorded stays so through every step of a handler. */
  lemma HandlerKeepsRecorded(s: Sys, e: Event, v: int)
    requires Bounded(s) && Clean(s, e) && AppliedOrRecorded(s, v)
    requires e.ReadAck? || e.RecordAck? || e.ApplyAck?
    ensures AppliedOrRecorded(Apply(s, e), v)
  {
    var t := Apply(s, e);
    if v > s.hub.spoke.appliedVersion {
      var k :| k in s.acks && s.acks[k].Recorded? && s.acks[k].version == v;
      if k in t.acks { assert t.acks[k].Recorded? && t.acks[k].version == v; }
    }
  }

  lemma SucceedingRecordStep(s: Sys, k: nat, now: int)
    requires Bounded(s) && Succeeding(s)
    ensures Succeeding(Apply(s, RecordAck(k, now)))
  {
    var e := RecordAck(k, now);
    var t := Apply(s, e);
    forall v | AppliedOrRecorded(s, v) ensures AppliedOrRecorded(t, v) {
      HandlerKeepsRecorded(s, e, v);
    }
    if t != s {
      assert t.acks[k].Recorded?;
      assert AppliedOrRecorded(t, s.acks[k].version);
    }
  }

  lemma SucceedingAckStep(s: Sys, e: Event)
    requires Bounded(s) && Succeeding(s) && Clean(s, e) && Success(s, e)
    requires e.ReadAck? || e.RecordAck? || e.ApplyAck?
    ensures Succeeding(Apply(s, e))
  {
    if e.RecordAck? {
      SucceedingRecordStep(s, e.k, e.now);
    } else {
      forall v | AppliedOrRecorded(s, v) ensures AppliedOrRecorded(Apply(s, e), v) {
        HandlerKeepsRecorded(s, e, v);
      }
    }
  }

  lemma SucceedingSave(s: Sys, k: nat, w: Write)
    requires Succeeding(s) && k in s.rows
    requires if Restarts(s.rows[k], w) then Below(s, 0) && Bounded(s) else Keeps(s, k, w)
    ensures Succeeding(Saved(s, k, w))
  {
    var t := Saved(s, k, w);
    if !Restarts(s.rows[k], w) {
      assert forall v :: AppliedOrRecorded(s, v) ==> AppliedOrRecorded(t, v);
    }
  }

  lemma SucceedingStep(s: Sys, e: Event)
    requires Bounded(s) && Succeeding(s) && Clean(s, e) && Success(s, e)
    ensures Succeeding(Apply(s, e))
  {
    var t := Apply(s, e);
    if e.EnqueueRaw? || e.EnqueueOther? || e.PollInbox? || e.MarkPushed? || e.PurgeExpired? {
      SucceedingQueueStep(s, e);
    } else if e.ReadAck? || e.RecordAck? || e.ApplyAck? {
      SucceedingAckStep(s, e);
    } else if e.SaveRow? {
      if e.k in s.rows {
        SucceedingSave(s, e.k, e.w);
      }
    } else {
      assert forall v :: AppliedOrRecorded(s, v) ==> AppliedOrRecorded(t, v);
    }
  }

  /** Nothing is under way and every executed push has been applied. */
  predicate Quiet(h: Hub) {
    && UniqueIds(h.queue)
    && 0 <= h.spoke.appliedVersion <= h.spoke.configVersion
    && PushesBounded(h.queue, h.spoke.configVersion)
    && (forall i :: 0 <= i < |h.queue| && h.queue[i].kind == ConfigUpdate && h.queue[i].status == Executed ==>
          h.queue[i].payload.stampedVersion <= h.spoke.appliedVersion)
  }

  /** A spoke that has just been approved: nothing pushed, nothing under way. */
  lemma NewSpokeStarts(spoke: Spoke, tenant: Tenant)
    requires spoke.configVersion == spoke.appliedVersion == 0
    ensures var s := Sys(Hub(spoke, [], tenant), map[], map[], map[], []);
      Bounded(s) && Succeeding(s) && DistinctVersions(s.hub.queue) && RawsApart(s)
  {
  }

  /**
   Every clean run with fresh ids, without failed acknowledgements, and without a restart while a version is
   under way leads to quiet states between handlers.
   */
  lemma {:induction false} SuccessfulRunsAreQuiet(s: Sys, es: seq<Event>)
    requires Bounded(s) && Succeeding(s) && SuccessRun(s, es)
    requires Run(s, es).acks == map[]
    ensures Quiet(Run(s, es).hub)
    decreases |es|
  {
    if es == [] {
      forall i | 0 <= i < |s.hub.queue| && s.hub.queue[i].kind == ConfigUpdate && s.hub.queue[i].status == Executed
        ensures s.hub.queue[i].payload.stampedVersion <= s.hub.spoke.appliedVersion
      {
        assert AppliedOrRecorded(s, s.hub.queue[i].payload.stampedVersion);
      }
    } else {
      BoundedStep(s, es[0]);
      SucceedingStep(s, es[0]);
      SuccessfulRunsAreQuiet(Apply(s, es[0]), es[1..]);
    }
  }
}
