/**
 What the configuration protocol does for a tenant whose payload is empty, as it is by default: every
 telemetry report of a spoke with a version starts its versions over, so that a round ends in sync only
 for certain acknowledgements, and a spoke can be out of sync for good.
 */
module EmptyPayload {
  import opened Prelude
  import opened CommandQueue
  import opened ConfigSync
  import opened ConfigRuns
  import opened Convergence

  /** The applied version a report leaves: a spoke with a version starts over. */
  function Base(h: Hub): int {
    if h.spoke.configVersion > 0 then 0 else h.spoke.appliedVersion
  }

  /** An approved spoke, with versions that count from 0, of a tenant without a payload. */
  predicate NoPayload(h: Hub) {
    Current(h) && !HasPayload(h.tenant) && 0 <= h.spoke.configVersion && 0 <= Base(h)
  }

  // ---------------------------------------------------------------------------------
  // One round.

  /** The report brings no first configuration to a spoke without a version. */
  predicate NoFirst(h: Hub, b: Beat) {
    h.spoke.configVersion > 0 || h.spoke.config != map[] || b.reported == map[]
  }

  /** The report first starts the versions over and tells the spoke to clear its configuration. */
  function Cleared(h: Hub, b: Beat): Hub {
    EnsureClear(ResetVersions(FirstConfig(h, b.reported)), b.clearId, b.now)
  }

  /**
   A report with an empty payload leaves the next poll nothing to queue: with a current hash no version is
   pending, with a stale one its drift check has pushed the version above the base unless one is left over.
   */
  lemma EmptyReport(h: Hub, b: Beat)
    requires NoPayload(h) && NoFirst(h, b)
    ensures var r := Reported(h, b);
      && NoPayload(r) && r.tenant == h.tenant && r.spoke.appliedVersion == Base(h) && Ensure(r, b.id', b.now) == r
      && h.queue <= r.queue && r.spoke.config == FirstConfig(h, b.reported).spoke.config
      && (!Stale(h) ==> !Stale(r) && r.spoke.configVersion == 0)
      && (Stale(h) ==> r.spoke.configVersion == Base(h) + 1 && (Stale(r) <==> HasPushOf(h.queue, Base(h) + 1)))
      && (!Stale(h) ==> forall c :: c in r.queue && c.kind == ConfigUpdate ==> c in h.queue)
  {
    ClearLeavesCommand(ResetVersions(FirstConfig(h, b.reported)), b.clearId, b.now);
    var c := if h.spoke.configVersion > 0 then Cleared(h, b) else h;
    assert Reported(h, b) == Heartbeat(c, b.id, b.now);
    if Stale(h) {
      EnsureLeavesPush(Drift(c), b.id, b.now);
    }
  }

  predicate HasLivePush(q: seq<Command>, version: int, now: int) {
    exists c :: c in q && IsPushOf(c, version) && Live(c, now)
  }

  /** The pushes after a poll are those that live. */
  lemma PollPushes(q: seq<Command>, now: int)
    ensures forall v :: HasPushOf(Deliver(Active(q, now), now), v) <==> HasLivePush(q, v, now)
  {
    ActiveMembers(q, now);
    var a, p := Active(q, now), Deliver(Active(q, now), now);
    forall v ensures HasPushOf(p, v) <==> HasLivePush(q, v, now) {
      if HasPushOf(p, v) {
        var i :| 0 <= i < |p| && IsPushOf(p[i], v);
        assert a[i] in a;
      }
      if HasLivePush(q, v, now) {
        var c :| c in q && IsPushOf(c, v) && Live(c, now);
        var i :| 0 <= i < |a| && a[i] == c;
        assert IsPushOf(p[i], v);
      }
    }
  }

  lemma SamePushesHave(p: seq<Command>, q: seq<Command>)
    requires SamePushes(p, q)
    ensures forall v :: HasPushOf(q, v) <==> HasPushOf(p, v)
  {
    forall v ensures HasPushOf(q, v) <==> HasPushOf(p, v) {
      assert forall i :: 0 <= i < |p| ==> (IsPushOf(p[i], v) <==> IsPushOf(q[i], v));
    }
  }

  /**
   With an empty payload a round ends in sync exactly when, for a current hash, it starts over from version 0
   and its acknowledgements apply nothing and, for a stale one, no left-over command reads the version to be
   pushed and the acknowledgements apply just that version.
   */
  lemma EmptyRoundExactly(h: Hub, b: Beat)
    requires NoPayload(h) && NoFirst(h, b)
    ensures InSync(Round(h, b)) <==>
      if Stale(h) then !HasPushOf(h.queue, Base(h) + 1) && RoundMax(h, b) == Base(h) + 1
      else Base(h) == RoundMax(h, b) == 0
  {
    EmptyReport(h, b);
    AcksApply(Polled(h, b), b.acks, b.now);
  }

  // ---------------------------------------------------------------------------------
  // Prompt acknowledgements.

  /** None comes late, for a push that was executed before the round. */
  predicate Prompt(q: seq<Command>, acks: AckList) {
    forall j, i :: 0 <= j < |acks| && 0 <= i < |q| && q[i].kind == ConfigUpdate && q[i].status == Executed ==>
      q[i].id != acks[j].0
  }

  /** The push that a report queues for a stale hash. */
  function FirstPush(h: Hub, b: Beat): Command {
    NewCommand(b.id, ConfigUpdate, Payload(1, 1, h.tenant.payload), b.now + DAY)
  }

  /** The configuration updates in the queue after a report; it adds no other command but the clear. */
  lemma ReportPushes(h: Hub, b: Beat)
    requires NoPayload(h) && h.spoke.configVersion > 0
    ensures var q, pushed := Reported(h, b).queue, Stale(h) && !HasPushOf(h.queue, 1);
      && (forall c :: c in q && c.kind == ConfigUpdate ==> c in h.queue || (pushed && c == FirstPush(h, b)))
      && (forall c :: c in q && c.id != b.clearId ==> c in h.queue || (pushed && c == FirstPush(h, b)))
      && (pushed ==> FirstPush(h, b) in q)
  {
    ClearLeavesCommand(ResetVersions(FirstConfig(h, b.reported)), b.clearId, b.now);
    var c, r := Cleared(h, b), Reported(h, b);
    if Stale(h) && !HasPushOf(h.queue, 1) {
      assert r.queue == c.queue + [FirstPush(h, b)];
      assert r.queue[|c.queue|] in r.queue;
    }
  }

  /** What a poll leaves was there before, and is executed only if it was. */
  lemma PollOrigin(q: seq<Command>, now: int, c: Command)
    requires c in Deliver(Active(q, now), now)
    ensures exists d :: d in q && DeliverOne(d, now) == c
  {
    var a := Active(q, now);
    ActiveMembers(q, now);
    var i :| 0 <= i < |a| && Deliver(a, now)[i] == c;
    assert a[i] in q && DeliverOne(a[i], now) == c;
  }

  /** A live command whose id is its own is found, delivered, after the poll. */
  lemma PollFinds(q: seq<Command>, now: int, c: Command)
    requires c in q && Live(c, now) && forall d :: d in q && d.id == c.id ==> d == c
    ensures FindCommand(Deliver(Active(q, now), now), c.id) == Some(DeliverOne(c, now))
  {
    var a, p := Active(q, now), Deliver(Active(q, now), now);
    ActiveMembers(q, now);
    var i :| 0 <= i < |a| && a[i] == c;
    assert p[i].id == c.id;
    PollOrigin(q, now, p[FirstIndex(p, c.id)]);
  }

  predicate PromptRound(h: Hub, b: Beat) {
    && AllExecuted(h.queue) && Prompt(h.queue, b.acks) && AcksAll(Polled(h, b).queue, b.acks)
    && !HasId(h.queue, b.id) && b.clearId != b.id
  }

  /** A push is polled from the old queue, or it is the one the report queued. */
  lemma PolledPush(h: Hub, b: Beat, c: Command) returns (d: Command)
    requires NoPayload(h) && h.spoke.configVersion > 0 && c in Polled(h, b).queue && c.kind == ConfigUpdate
    ensures DeliverOne(d, b.now) == c
    ensures d in h.queue || (Stale(h) && !HasPushOf(h.queue, 1) && d == FirstPush(h, b))
  {
    EmptyReport(h, b);
    PollOrigin(Reported(h, b).queue, b.now, c);
    d :| d in Reported(h, b).queue && DeliverOne(d, b.now) == c;
    ReportPushes(h, b);
  }

  lemma PromptMisses(q: seq<Command>, acks: AckList, c: Command, j: nat)
    requires AllExecuted(q) && Prompt(q, acks) && c in q && c.kind == ConfigUpdate && j < |acks|
    ensures c.id != acks[j].0
  {
    var i :| 0 <= i < |q| && q[i] == c;
    assert q[i].id != acks[j].0;
  }

  /** Prompt acknowledgements mark at most the version that the report itself pushed. */
  lemma PromptMarks(h: Hub, b: Beat, j: nat)
    requires NoPayload(h) && h.spoke.configVersion > 0 && PromptRound(h, b) && j < |b.acks|
    ensures var v := VersionToApply(Polled(h, b).queue, b.acks[j].0, b.acks[j].1);
      v == 0 || (v == 1 && Stale(h) && !HasPushOf(h.queue, 1))
  {
    var p := Polled(h, b).queue;
    var k := FirstIndex(p, b.acks[j].0);
    if k < |p| && p[k].kind == ConfigUpdate {
      var d := PolledPush(h, b, p[k]);
      if d in h.queue {
        PromptMisses(h.queue, b.acks, d, j);
      }
    }
  }

  /** They do mark it. */
  lemma PromptReaches(h: Hub, b: Beat)
    requires NoPayload(h) && h.spoke.configVersion > 0 && PromptRound(h, b) && Stale(h) && !HasPushOf(h.queue, 1)
    ensures exists j :: 0 <= j < |b.acks| && VersionToApply(Polled(h, b).queue, b.acks[j].0, b.acks[j].1) == 1
  {
    EmptyReport(h, b);
    ReportPushes(h, b);
    var q, p := Reported(h, b).queue, Polled(h, b).queue;
    forall d | d in h.queue ensures d.id != b.id {
      var n :| 0 <= n < |h.queue| && h.queue[n] == d;
    }
    PollFinds(q, b.now, FirstPush(h, b));
    var k := FirstIndex(p, b.id);
    assert p[k].kind == ConfigUpdate && p[k].status != Executed;
    var j :| 0 <= j < |b.acks| && b.acks[j].0 == p[k].id;
  }

  /**
   When all earlier pushes are executed, and every acknowledgement is prompt and successful, the round ends
   in sync exactly when the last pushed hash is current or nothing left over reads version 1.
   */
  lemma PromptRoundExactly(h: Hub, b: Beat)
    requires NoPayload(h) && h.spoke.configVersion > 0 && PromptRound(h, b)
    ensures InSync(Round(h, b)) <==> !Stale(h) || !HasPushOf(h.queue, 1)
  {
    EmptyRoundExactly(h, b);
    MaxAckedMeaning(Polled(h, b).queue, b.acks);
    forall j | 0 <= j < |b.acks|
      ensures var v := VersionToApply(Polled(h, b).queue, b.acks[j].0, b.acks[j].1);
        v == 0 || (v == 1 && Stale(h) && !HasPushOf(h.queue, 1))
    {
      PromptMarks(h, b, j);
    }
    if Stale(h) && !HasPushOf(h.queue, 1) {
      PromptReaches(h, b);
    }
  }

  // ---------------------------------------------------------------------------------
  // Any number of rounds with a current hash.

  lemma SameLivePushes(p: seq<Command>, q: seq<Command>, now: int)
    requires p <= q && forall c :: c in q && c.kind == ConfigUpdate ==> c in p
    ensures forall v :: HasLivePush(p, v, now) <==> HasLivePush(q, v, now)
  {
    assert forall c :: c in p ==> c in q;
  }

  /** One round with a current hash: version 0, the same hash, and only the pushes that still live. */
  lemma CurrentRound(h: Hub, b: Beat)
    requires NoPayload(h) && !Stale(h) && NoFirst(h, b)
    ensures var t := Round(h, b);
      && NoPayload(t) && !Stale(t) && t.tenant == h.tenant && t.spoke.config == FirstConfig(h, b.reported).spoke.config
      && t.spoke.configVersion == 0 && t.spoke.appliedVersion == Max(RoundMax(h, b), Base(h))
      && (forall v :: HasPushOf(t.queue, v) <==> HasLivePush(h.queue, v, b.now))
  {
    EmptyReport(h, b);
    PollPushes(Reported(h, b).queue, b.now);
    SameLivePushes(h.queue, Reported(h, b).queue, b.now);
    AcksApply(Polled(h, b), b.acks, b.now);
    SamePushesHave(Polled(h, b).queue, Round(h, b).queue);
  }

  /** No round of the run takes over a first configuration. */
  predicate NoFirsts(h: Hub, bs: seq<Beat>) {
    bs == [] || (NoFirsts(h, bs[..|bs| - 1]) && NoFirst(Rounds(h, bs[..|bs| - 1]), bs[|bs| - 1]))
  }

  /** No round's acknowledgements mark a version. */
  predicate NothingMarked(h: Hub, bs: seq<Beat>) {
    bs == [] || (NothingMarked(h, bs[..|bs| - 1]) && RoundMax(Rounds(h, bs[..|bs| - 1]), bs[|bs| - 1]) == 0)
  }

  /**
   With an empty payload and a current hash every number of rounds, whatever is acknowledged, leaves version 0
   and adds no push; after any of them the spoke is in sync exactly when it started over from an applied version
   0 and no acknowledgement of any round has marked a version.
   */
  lemma {:induction false} EmptySettles(h: Hub, bs: seq<Beat>)
    requires NoPayload(h) && !Stale(h) && NoFirsts(h, bs)
    ensures var t := Rounds(h, bs);
      && NoPayload(t) && !Stale(t) && t.tenant == h.tenant
      && (forall v :: HasPushOf(t.queue, v) ==> HasPushOf(h.queue, v))
      && (bs != [] ==> t.spoke.configVersion == 0 && (InSync(t) <==> Base(h) == 0 && NothingMarked(h, bs)))
  {
    if bs != [] {
      var front, b := bs[..|bs| - 1], bs[|bs| - 1];
      EmptySettles(h, front);
      var u := Rounds(h, front);
      CurrentRound(u, b);
      forall v | HasLivePush(u.queue, v, b.now) ensures HasPushOf(u.queue, v) {
        var c :| c in u.queue && IsPushOf(c, v) && Live(c, b.now);
        var i :| 0 <= i < |u.queue| && u.queue[i] == c;
      }
    }
  }

  /** The hub counts a version as applied that it no longer has. */
  predicate Ahead(h: Hub) {
    NoPayload(h) && !Stale(h) && h.spoke.configVersion == 0 < h.spoke.appliedVersion
  }

  /** That is for good: no rounds, however many and whatever they acknowledge, bring such a spoke in sync. */
  lemma AheadForGood(h: Hub, bs: seq<Beat>)
    requires Ahead(h) && NoFirsts(h, bs)
    ensures Ahead(Rounds(h, bs)) && !InSync(Rounds(h, bs))
    ensures forall v :: HasPushOf(Rounds(h, bs).queue, v) ==> HasPushOf(h.queue, v)
  {
    EmptySettles(h, bs);
  }

  /**
   A repeated acknowledgement is enough: for a spoke with a version, in sync or not, whose hash is current, one
   successful acknowledgement of a live push, executed before or not, leaves the hub ahead of itself.
   */
  lemma RepeatedAckLeavesAhead(h: Hub, b: Beat, c: Command)
    requires NoPayload(h) && !Stale(h) && h.spoke.configVersion > 0
    requires UniqueIds(h.queue) && c in h.queue && c.kind == ConfigUpdate && c.payload.stampedVersion > 0
    requires Live(c, b.now) && c.id != b.clearId && b.acks == [(c.id, None)]
    ensures Ahead(Round(h, b)) && Round(h, b).spoke.appliedVersion == c.payload.stampedVersion
  {
    CurrentRound(h, b);
    EmptyReport(h, b);
    ReportPushes(h, b);
    PollFinds(Reported(h, b).queue, b.now, c);
    var p := Polled(h, b).queue;
    assert VersionToApply(p, c.id, None) == c.payload.stampedVersion;
    assert b.acks[0] == (c.id, None) && MaxAcked(p, b.acks[1..]) == 0;
  }

  // ---------------------------------------------------------------------------------
  // The spoke that never gets in sync.

  /** A stale hash, and a left-over command that reads version 1 and lives until `limit`. */
  predicate Stuck(h: Hub, limit: int) {
    && Current(h) && !HasPayload(h.tenant) && h.spoke.configVersion > 0 && Stale(h)
    && exists i :: 0 <= i < |h.queue| && IsPushOf(h.queue[i], 1) && h.queue[i].expiresAt >= limit
  }

  lemma {:induction false} AcksKeepStuck(h: Hub, acks: AckList, now: int, limit: int)
    requires Stuck(h, limit)
    ensures Stuck(HandleAcks(h, acks, now), limit)
    ensures HandleAcks(h, acks, now).spoke.lastPushedHash == h.spoke.lastPushedHash
    decreases |acks|
  {
    if acks != [] {
      var i :| 0 <= i < |h.queue| && IsPushOf(h.queue[i], 1) && h.queue[i].expiresAt >= limit;
      var t := HandleAck(h, acks[0].0, now, acks[0].1);
      assert IsPushOf(t.queue[i], 1) && t.queue[i].expiresAt >= limit;
      AcksKeepStuck(t, acks[1..], now, limit);
    }
  }

  lemma ReportKeepsStuck(h: Hub, b: Beat, limit: int)
    requires Stuck(h, limit)
    ensures Stuck(Reported(h, b), limit) && Reported(h, b).spoke.configVersion == 1
    ensures Reported(h, b).spoke.lastPushedHash == h.spoke.lastPushedHash
  {
    var i :| 0 <= i < |h.queue| && IsPushOf(h.queue[i], 1) && h.queue[i].expiresAt >= limit;
    ClearLeavesCommand(ResetVersions(FirstConfig(h, b.reported)), b.clearId, b.now);
    var c := Cleared(h, b);
    assert c.queue[i] == h.queue[i];
    assert HasPushOf(c.queue, 1);
    assert Reported(h, b) == Drift(c);
  }

  lemma PollKeepsStuck(h: Hub, id: string, now: int, limit: int)
    requires Stuck(h, limit) && h.spoke.configVersion == 1 && now < limit
    ensures Stuck(InboxPoll(h, id, now), limit) && InboxPoll(h, id, now).spoke == h.spoke
  {
    var i :| 0 <= i < |h.queue| && IsPushOf(h.queue[i], 1) && h.queue[i].expiresAt >= limit;
    assert HasPushOf(h.queue, 1) && Ensure(h, id, now) == h;
    ActiveMembers(h.queue, now);
    var a := Active(h.queue, now);
    assert h.queue[i] in a;
    var j :| 0 <= j < |a| && a[j] == h.queue[i];
    assert IsPushOf(Deliver(a, now)[j], 1);
  }

  lemma RoundKeepsStuck(h: Hub, b: Beat, limit: int)
    requires Stuck(h, limit) && b.now < limit
    ensures Stuck(Round(h, b), limit) && Round(h, b).spoke.lastPushedHash == h.spoke.lastPushedHash
  {
    ReportKeepsStuck(h, b, limit);
    PollKeepsStuck(Reported(h, b), b.id', b.now, limit);
    AcksKeepStuck(Polled(h, b), b.acks, b.now, limit);
  }

  /**
   Such a spoke does not get in sync while that command lives: whatever reports, polls and acknowledgements
   follow, each report restarts version 1 and no push of it goes out.
   */
  lemma {:induction false} EmptyNeverInSync(h: Hub, bs: seq<Beat>, limit: int)
    requires Stuck(h, limit) && forall i :: 0 <= i < |bs| ==> bs[i].now < limit
    ensures Stuck(Rounds(h, bs), limit) && !InSync(Rounds(h, bs))
    ensures Rounds(h, bs).spoke.lastPushedHash == h.spoke.lastPushedHash
  {
    if bs != [] {
      EmptyNeverInSync(h, bs[..|bs| - 1], limit);
      RoundKeepsStuck(Rounds(h, bs[..|bs| - 1]), bs[|bs| - 1], limit);
    }
  }
}
