/**
 What repeated heartbeats, inbox polls and acknowledgements achieve: convergence when every
 acknowledgement succeeds, the stall a failed acknowledgement causes and how it ends, and the
 recovery after a version reset.
 */
module Convergence {
  import opened Prelude
  import opened CommandQueue
  import opened ConfigSync
  import opened ConfigRuns

  type AckList = seq<(string, Option<AckResult>)>

  /** Acknowledgements handled one after the other. */
  function HandleAcks(h: Hub, acks: AckList, now: int): Hub
    decreases |acks|
  {
    if acks == [] then h else HandleAcks(HandleAck(h, acks[0].0, now, acks[0].1), acks[1..], now)
  }

  /** A telemetry report, an inbox poll and acknowledgements; the ids are for the commands that may be created. */
  datatype Beat = Beat(
    reported: map<string, Option<string>>,
    clearId: string,
    id: string,
    id': string,
    now: int,
    acks: AckList)

  function Reported(h: Hub, b: Beat): Hub {
    Telemetry(h, b.reported, b.clearId, b.id, b.now)
  }

  /** After the report and the poll. */
  function Polled(h: Hub, b: Beat): Hub {
    InboxPoll(Reported(h, b), b.id', b.now)
  }

  function Round(h: Hub, b: Beat): Hub {
    HandleAcks(Polled(h, b), b.acks, b.now)
  }

  function Rounds(h: Hub, bs: seq<Beat>): Hub {
    if bs == [] then h else Round(Rounds(h, bs[..|bs| - 1]), bs[|bs| - 1])
  }

  /** The tenant has a payload, and the report brings no first configuration. */
  predicate Plain(h: Hub, b: Beat) {
    HasPayload(h.tenant) && (h.spoke.config != map[] || b.reported == map[])
  }

  /** The acknowledgements all succeed and reach every configuration update not yet executed. */
  predicate AcksAll(q: seq<Command>, acks: AckList) {
    (forall j :: 0 <= j < |acks| ==> Successful(acks[j].1))
    && forall i :: 0 <= i < |q| && q[i].kind == ConfigUpdate && q[i].status != Executed ==>
         exists j :: 0 <= j < |acks| && acks[j].0 == q[i].id
  }

  predicate AllLive(q: seq<Command>, now: int) {
    forall i :: 0 <= i < |q| ==> Live(q[i], now)
  }

  predicate AllExecuted(q: seq<Command>) {
    forall i :: 0 <= i < |q| && q[i].kind == ConfigUpdate ==> q[i].status == Executed
  }

  predicate InSync(h: Hub) {
    h.spoke.configVersion == h.spoke.appliedVersion
    && h.spoke.lastPushedHash == Some(AuthoritativeSlice(h.tenant))
  }

  predicate Current(h: Hub) {
    h.spoke.status == Approved && h.tenant.present
  }

  /** The tenant's payload differs from what was last pushed. */
  predicate Stale(h: Hub) {
    h.spoke.lastPushedHash != Some(AuthoritativeSlice(h.tenant))
  }

  // ---------------------------------------------------------------------------------
  // Acknowledging everything catches the applied version up.

  /** Same commands, none of them taken back. */
  predicate SamePushes(p: seq<Command>, q: seq<Command>) {
    |p| == |q|
    && forall i :: 0 <= i < |p| ==>
         && p[i].id == q[i].id && p[i].kind == q[i].kind && p[i].payload == q[i].payload
         && p[i].expiresAt == q[i].expiresAt && (p[i].status == Executed ==> q[i].status == Executed)
  }

  /** Nothing but the applied version and its time stamp differs. */
  predicate OnlyApplied(s: Spoke, t: Spoke) {
    && t.id == s.id && t.status == s.status && t.config == s.config
    && t.configVersion == s.configVersion && t.lastPushedHash == s.lastPushedHash
  }

  lemma AckKeepsPushes(h: Hub, id: string, now: int, result: Option<AckResult>)
    requires UniqueIds(h.queue)
    ensures var t := HandleAck(h, id, now, result);
      && SamePushes(h.queue, t.queue) && t.tenant == h.tenant && OnlyApplied(h.spoke, t.spoke)
      && h.spoke.appliedVersion <= t.spoke.appliedVersion
      && (forall i :: 0 <= i < |h.queue| && h.queue[i].id == id ==> t.queue[i].status == Executed)
      && (forall i :: 0 <= i < |h.queue| && h.queue[i].id != id ==> t.queue[i] == h.queue[i])
  {
  }

  lemma AckKeepsQuiet(h: Hub, id: string, now: int, result: Option<AckResult>)
    requires Quiet(h) && Successful(result)
    ensures Quiet(HandleAck(h, id, now, result))
  {
    AckKeepsPushes(h, id, now, result);
    var t := HandleAck(h, id, now, result);
    var k := FirstIndex(h.queue, id);
    if k < |h.queue| && h.queue[k].kind == ConfigUpdate {
      assert h.queue[k].payload.stampedVersion <= t.spoke.appliedVersion;
    }
  }

  lemma {:induction false} AcksKeepQuiet(h: Hub, acks: AckList, now: int)
    requires Quiet(h) && forall j :: 0 <= j < |acks| ==> Successful(acks[j].1)
    ensures var t := HandleAcks(h, acks, now);
      && Quiet(t) && SamePushes(h.queue, t.queue) && t.tenant == h.tenant
      && OnlyApplied(h.spoke, t.spoke) && h.spoke.appliedVersion <= t.spoke.appliedVersion
      && (forall i, j :: 0 <= i < |h.queue| && 0 <= j < |acks| && h.queue[i].id == acks[j].0 ==>
            t.queue[i].status == Executed)
    decreases |acks|
  {
    if acks != [] {
      var u := HandleAck(h, acks[0].0, now, acks[0].1);
      AckKeepsPushes(h, acks[0].0, now, acks[0].1);
      AckKeepsQuiet(h, acks[0].0, now, acks[0].1);
      AcksKeepQuiet(u, acks[1..], now);
      var t := HandleAcks(h, acks, now);
      forall i, j | 0 <= i < |h.queue| && 0 <= j < |acks| && h.queue[i].id == acks[j].0
        ensures t.queue[i].status == Executed
      {
        if j > 0 { assert u.queue[i].id == acks[1..][j - 1].0; }
      }
    }
  }

  /** An executed push of the current version means that version is applied. */
  lemma ExecutedPushApplied(h: Hub, i: nat)
    requires Quiet(h) && i < |h.queue| && IsPushOf(h.queue[i], h.spoke.configVersion) && h.queue[i].status == Executed
    ensures h.spoke.appliedVersion == h.spoke.configVersion
  {
  }

  lemma AcksExecuteAll(p: seq<Command>, q: seq<Command>, acks: AckList)
    requires AcksAll(p, acks) && SamePushes(p, q)
    requires forall i, j :: 0 <= i < |p| && 0 <= j < |acks| && p[i].id == acks[j].0 ==> q[i].status == Executed
    ensures AllExecuted(q)
  {
    forall i | 0 <= i < |q| && q[i].kind == ConfigUpdate ensures q[i].status == Executed {
      if p[i].status != Executed {
        var j :| 0 <= j < |acks| && acks[j].0 == p[i].id;
      }
    }
  }

  /** After all acknowledgements, a spoke whose current version is queued has applied it. */
  lemma AcksCatchUp(h: Hub, acks: AckList, now: int)
    requires Quiet(h) && AcksAll(h.queue, acks)
    requires PushPending(h.spoke) ==> HasPushOf(h.queue, h.spoke.configVersion)
    ensures var t := HandleAcks(h, acks, now);
      && Quiet(t) && SamePushes(h.queue, t.queue) && AllExecuted(t.queue) && t.tenant == h.tenant
      && OnlyApplied(h.spoke, t.spoke) && t.spoke.appliedVersion == h.spoke.configVersion
  {
    var t := HandleAcks(h, acks, now);
    AcksKeepQuiet(h, acks, now);
    AcksExecuteAll(h.queue, t.queue, acks);
    if PushPending(h.spoke) {
      var i :| 0 <= i < |h.queue| && IsPushOf(h.queue[i], h.spoke.configVersion);
      assert t.queue[i].kind == ConfigUpdate && t.queue[i].payload == h.queue[i].payload;
      ExecutedPushApplied(t, i);
    }
  }

  lemma EnsureKeepsQuiet(h: Hub, id: string, now: int)
    requires Quiet(h) && AllLive(h.queue, now) && !HasId(h.queue, id)
    ensures Quiet(Ensure(h, id, now)) && AllLive(Ensure(h, id, now).queue, now)
  {
  }

  lemma DeliverMoves(q: seq<Command>, now: int)
    ensures SamePushes(q, Deliver(q, now)) && (UniqueIds(q) ==> UniqueIds(Deliver(q, now)))
    ensures forall i :: 0 <= i < |q| ==> (Deliver(q, now)[i].status == Executed <==> q[i].status == Executed)
  {
  }

  lemma PollKeepsQuiet(h: Hub, now: int)
    requires Quiet(h) && AllLive(h.queue, now)
    ensures Quiet(Poll(h, now)) && SamePushes(h.queue, Poll(h, now).queue)
  {
    assert Active(h.queue, now) == h.queue by {
      ActiveAllLive(h.queue, now);
    }
    DeliverMoves(h.queue, now);
  }

  lemma HeartbeatKeepsQuiet(h: Hub, id: string, now: int)
    requires Quiet(h) && Current(h) && AllLive(h.queue, now) && !HasId(h.queue, id)
    ensures var b := Heartbeat(h, id, now); Quiet(b) && Current(b) && AllLive(b.queue, now) && b.tenant == h.tenant
    ensures Drifted(h) ==>
      Heartbeat(h, id, now).queue == h.queue + [PushCommand(Drift(h), id, now)]
    ensures !PushPending(h.spoke) ==>
      var b := Heartbeat(h, id, now);
      b.spoke.lastPushedHash == Some(AuthoritativeSlice(h.tenant))
      && (PushPending(b.spoke) ==> HasPushOf(b.queue, b.spoke.configVersion))
  {
    if Drifted(h) {
      assert !HasPushOf(h.queue, h.spoke.configVersion + 1);
      EnsureKeepsQuiet(Drift(h), id, now);
      EnsureLeavesPush(Drift(h), id, now);
    }
  }

  lemma InboxKeepsQuiet(b: Hub, id: string, now: int)
    requires Quiet(b) && Current(b) && AllLive(b.queue, now) && !HasId(b.queue, id)
    ensures var p := InboxPoll(b, id, now);
      && Quiet(p) && p.spoke == Ensure(b, id, now).spoke && p.tenant == b.tenant
      && SamePushes(Ensure(b, id, now).queue, p.queue)
      && (PushPending(p.spoke) ==> HasPushOf(p.queue, p.spoke.configVersion))
      && (PushPending(b.spoke) && HasPushOf(b.queue, b.spoke.configVersion) ==> p.spoke == b.spoke)
  {
    var e := Ensure(b, id, now);
    EnsureKeepsQuiet(b, id, now);
    EnsureLeavesPush(b, id, now);
    PollKeepsQuiet(e, now);
    var p := Poll(e, now);
    if PushPending(p.spoke) {
      var i :| 0 <= i < |e.queue| && IsPushOf(e.queue[i], e.spoke.configVersion);
      assert IsPushOf(p.queue[i], p.spoke.configVersion);
    }
  }

  // ---------------------------------------------------------------------------------
  // Convergence.

  /** The ids a round's two possible pushes get are new. */
  predicate FreshRound(h: Hub, b: Beat) {
    !HasId(h.queue, b.id) && !HasId(Reported(h, b).queue, b.id')
  }

  /** A round of a spoke with a payload whose acknowledgements reach every push. */
  predicate FullRound(h: Hub, b: Beat) {
    Plain(h, b) && FreshRound(h, b) && AcksAll(Polled(h, b).queue, b.acks)
  }

  /** One round always ends with everything queued executed and the current version applied. */
  lemma RoundCatchesUp(h: Hub, b: Beat)
    requires Quiet(h) && Current(h) && AllLive(h.queue, b.now) && FullRound(h, b)
    ensures var t := Round(h, b);
      && Quiet(t) && Current(t) && t.tenant == h.tenant && t.spoke.config == h.spoke.config
      && AllExecuted(t.queue) && !PushPending(t.spoke) && SamePushes(Polled(h, b).queue, t.queue)
      && (!PushPending(h.spoke) ==> InSync(t))
  {
    PayloadTelemetry(h, b.reported, b.clearId, b.id, b.now);
    HeartbeatKeepsQuiet(h, b.id, b.now);
    InboxKeepsQuiet(Reported(h, b), b.id', b.now);
    AcksCatchUp(Polled(h, b), b.acks, b.now);
  }

  /** When the report finds drift, the round ends with the tenant's current payload applied. */
  lemma DriftRoundDelivers(h: Hub, b: Beat)
    requires Quiet(h) && Current(h) && AllLive(h.queue, b.now) && FullRound(h, b) && Drifted(h)
    ensures var t := Round(h, b);
      && InSync(t) && t.spoke.configVersion == h.spoke.configVersion + 1
      && |t.queue| == |h.queue| + 1
      && IsPushOf(t.queue[|h.queue|], t.spoke.configVersion)
      && t.queue[|h.queue|].payload == Payload(t.spoke.configVersion, t.spoke.configVersion, h.tenant.payload)
      && t.queue[|h.queue|].status == Executed
  {
    RoundCatchesUp(h, b);
    PayloadTelemetry(h, b.reported, b.clearId, b.id, b.now);
    HeartbeatKeepsQuiet(h, b.id, b.now);
    InboxKeepsQuiet(Reported(h, b), b.id', b.now);
    AcksCatchUp(Polled(h, b), b.acks, b.now);
    var r := Reported(h, b);
    assert IsPushOf(r.queue[|h.queue|], r.spoke.configVersion);
  }

  lemma EnsureKeepsLive(h: Hub, id: string, now: int, later: int)
    requires AllLive(h.queue, later) && later < now + DAY
    ensures AllLive(Ensure(h, id, now).queue, later) && AllLive(Heartbeat(h, id, now).queue, later)
  {
  }

  lemma RoundKeepsLive(h: Hub, b: Beat, later: int)
    requires Quiet(h) && Current(h) && AllLive(h.queue, later) && FullRound(h, b) && b.now <= later < b.now + DAY
    ensures AllLive(Round(h, b).queue, later)
  {
    assert AllLive(h.queue, b.now);
    RoundCatchesUp(h, b);
    PayloadTelemetry(h, b.reported, b.clearId, b.id, b.now);
    EnsureKeepsLive(h, b.id, b.now, later);
    EnsureKeepsLive(Reported(h, b), b.id', b.now, later);
    HeartbeatKeepsQuiet(h, b.id, b.now);
    InboxKeepsQuiet(Reported(h, b), b.id', b.now);
  }

  /**
   Convergence: from every quiet state of an approved spoke whose tenant exists and has a payload, two
   rounds of telemetry, inbox poll and successful acknowledgements, in any order and with any repeats,
   bring the spoke in sync, provided nothing expires meanwhile.
   */
  lemma Converges(h: Hub, b1: Beat, b2: Beat)
    requires Quiet(h) && Current(h) && AllLive(h.queue, b2.now) && b1.now <= b2.now < b1.now + DAY
    requires FullRound(h, b1) && FullRound(Round(h, b1), b2)
    ensures var t := Round(Round(h, b1), b2);
      InSync(t) && AllExecuted(t.queue) && Quiet(t) && Current(t) && t.tenant == h.tenant
  {
    assert AllLive(h.queue, b1.now);
    RoundCatchesUp(h, b1);
    RoundKeepsLive(h, b1, b2.now);
    RoundCatchesUp(Round(h, b1), b2);
  }

  /** The hub between rounds: in sync, with every push executed. */
  predicate Settled(h: Hub) {
    Quiet(h) && InSync(h) && AllExecuted(h.queue)
  }

  /** An acknowledgement that comes late, again or with a failure is harmless then. */
  lemma LateAckHarmless(h: Hub, id: string, now: int, result: Option<AckResult>)
    requires Settled(h)
    ensures var t := HandleAck(h, id, now, result);
      && Settled(t) && t.tenant == h.tenant && Ids(t.queue) == Ids(h.queue)
      && OnlyApplied(h.spoke, t.spoke) && t.spoke.appliedVersion == h.spoke.appliedVersion
  {
    AckKeepsPushes(h, id, now, result);
  }

  lemma {:induction false} LateAcksHarmless(h: Hub, acks: AckList, now: int)
    requires Settled(h)
    ensures var t := HandleAcks(h, acks, now);
      && Settled(t) && t.tenant == h.tenant && Ids(t.queue) == Ids(h.queue)
      && OnlyApplied(h.spoke, t.spoke) && t.spoke.appliedVersion == h.spoke.appliedVersion
    decreases |acks|
  {
    if acks != [] {
      LateAckHarmless(h, acks[0].0, now, acks[0].1);
      LateAcksHarmless(HandleAck(h, acks[0].0, now, acks[0].1), acks[1..], now);
    }
  }

  lemma PurgeKeepsSettled(h: Hub, now: int)
    requires Settled(h)
    ensures Settled(Poll(h, now)) && Ids(Poll(h, now).queue) == Ids(Active(h.queue, now))
  {
    ActiveMembers(h.queue, now);
    UniqueActive(h.queue, now);
    ActiveBounded(h.queue, now, h.spoke.configVersion);
    var a := Active(h.queue, now);
    forall i | 0 <= i < |a| ensures a[i] in h.queue {}
  }

  /** One round at any time with any acknowledgements. */
  lemma RoundStaysInSync(h: Hub, b: Beat)
    requires Settled(h) && Plain(h, b)
    ensures var t := Round(h, b);
      && Settled(t) && t.tenant == h.tenant && Ids(t.queue) == Ids(Active(h.queue, b.now))
      && OnlyApplied(h.spoke, t.spoke) && t.spoke.appliedVersion == h.spoke.appliedVersion
  {
    PayloadTelemetry(h, b.reported, b.clearId, b.id, b.now);
    assert Polled(h, b) == Poll(h, b.now);
    PurgeKeepsSettled(h, b.now);
    LateAcksHarmless(Polled(h, b), b.acks, b.now);
  }

  /** The ids that are left when every round has dropped what had expired by then. */
  function IdsLeft(h: Hub, bs: seq<Beat>): seq<string> {
    if bs == [] then Ids(h.queue)
    else Ids(Active(Rounds(h, bs[..|bs| - 1]).queue, bs[|bs| - 1].now))
  }

  /**
   Stability: once in sync with everything executed, every number of later rounds, at any times and
   with any late, repeated or failing acknowledgements, keeps both versions, the hash and the payload,
   and only ever drops expired commands.
   */
  lemma {:induction false} StaysInSync(h: Hub, bs: seq<Beat>)
    requires Settled(h) && forall i :: 0 <= i < |bs| ==> Plain(h, bs[i])
    ensures var t := Rounds(h, bs);
      && Settled(t) && t.tenant == h.tenant && Ids(t.queue) == IdsLeft(h, bs) && NothingAdded(h.queue, t.queue)
      && OnlyApplied(h.spoke, t.spoke) && t.spoke.appliedVersion == h.spoke.appliedVersion
  {
    if bs != [] {
      var front, b := bs[..|bs| - 1], bs[|bs| - 1];
      StaysInSync(h, front);
      var u := Rounds(h, front);
      RoundStaysInSync(u, b);
      IdsNothingAdded(u.queue, Rounds(h, bs).queue, b.now);
      NothingAddedTwice(h.queue, u.queue, Rounds(h, bs).queue);
    }
  }

  predicate NothingAdded(p: seq<Command>, q: seq<Command>) {
    forall c :: c in q ==> HasId(p, c.id)
  }

  lemma NothingAddedTwice(p: seq<Command>, q: seq<Command>, r: seq<Command>)
    requires NothingAdded(p, q) && NothingAdded(q, r)
    ensures NothingAdded(p, r)
  {
    forall c | c in r ensures HasId(p, c.id) {
      var i :| 0 <= i < |q| && q[i].id == c.id;
      assert q[i] in q;
    }
  }

  lemma IdsNothingAdded(p: seq<Command>, q: seq<Command>, now: int)
    requires Ids(q) == Ids(Active(p, now))
    ensures NothingAdded(p, q)
  {
    var a := Active(p, now);
    ActiveMembers(p, now);
    forall c | c in q ensures HasId(p, c.id) {
      var i :| 0 <= i < |q| && q[i] == c;
      assert Ids(q)[i] == Ids(a)[i];
      assert a[i] in a;
    }
  }

  // ---------------------------------------------------------------------------------
  // Which changes of a tenant's payload are pushed.

  /** The payload gives `key` the value `v`. */
  predicate Gives(t: Tenant, key: string, v: string) {
    key in t.payload && t.payload[key] == Some(v)
  }

  function UsbList(t: Tenant): Option<string> {
    if "usb_vidpids" in t.payload then t.payload["usb_vidpids"] else None
  }

  lemma ManagedSlices(s: Tenant, t: Tenant)
    requires s.present && t.present && s.hubEnabled && t.hubEnabled
    ensures AuthoritativeSlice(s) == AuthoritativeSlice(t) <==> forall k, v :: Gives(s, k, v) <==> Gives(t, k, v)
  {
    var a, b := AuthoritativeSlice(s), AuthoritativeSlice(t);
    if a == b {
      forall k, v ensures Gives(s, k, v) <==> Gives(t, k, v) {
        assert Gives(s, k, v) <==> k in a && a[k] == Some(v);
        assert Gives(t, k, v) <==> k in b && b[k] == Some(v);
      }
    }
    if forall k, v :: Gives(s, k, v) <==> Gives(t, k, v) {
      forall k ensures (k in a <==> k in b) && (k in a ==> a[k] == b[k]) {
        if k in a { assert Gives(s, k, a[k].value); }
        if k in b { assert Gives(t, k, b[k].value); }
      }
    }
  }

  /** Hub-managed before and after: the heartbeat finds drift exactly when some key has got, lost or changed a value. */
  lemma ManagedDriftExactly(h: Hub, t: Tenant)
    requires Settled(h) && h.tenant.present && h.tenant.hubEnabled && t.hubEnabled
    ensures Drifted(h.(tenant := t)) <==>
      h.spoke.status == Approved && t.present && exists k, v :: Gives(h.tenant, k, v) != Gives(t, k, v)
  {
    if t.present {
      ManagedSlices(h.tenant, t);
    }
  }

  /** Not hub-managed before and after: exactly when the USB list has changed; an absent list is a null one. */
  lemma UsbDriftExactly(h: Hub, t: Tenant)
    requires Settled(h) && !h.tenant.hubEnabled && !t.hubEnabled
    ensures Drifted(h.(tenant := t)) <==> h.spoke.status == Approved && t.present && UsbList(h.tenant) != UsbList(t)
  {
    var a, b := AuthoritativeSlice(h.tenant), AuthoritativeSlice(t);
    assert a["usb_vidpids"] == UsbList(h.tenant) && b["usb_vidpids"] == UsbList(t);
  }

  lemma SwitchedSlices(m: Tenant, u: Tenant)
    requires m.present && m.hubEnabled && !u.hubEnabled
    ensures AuthoritativeSlice(m) == AuthoritativeSlice(u) <==>
      UsbList(u).Some? && forall k, v :: Gives(m, k, v) <==> k == "usb_vidpids" && UsbList(u) == Some(v)
  {
    var a, b := AuthoritativeSlice(m), AuthoritativeSlice(u);
    if a == b {
      assert "usb_vidpids" in a && a["usb_vidpids"] == UsbList(u);
      forall k, v ensures Gives(m, k, v) <==> k == "usb_vidpids" && UsbList(u) == Some(v) {
        assert Gives(m, k, v) <==> k in a && a[k] == Some(v);
      }
    }
    if UsbList(u).Some? && forall k, v :: Gives(m, k, v) <==> k == "usb_vidpids" && UsbList(u) == Some(v) {
      assert Gives(m, "usb_vidpids", UsbList(u).value);
      forall k ensures (k in a <==> k in b) && (k in a ==> a[k] == b[k]) {
        if k in a { assert Gives(m, k, a[k].value); }
      }
    }
  }

  /** Switched on or off: always, unless the USB list is all that the managed payload gives, and stays. */
  lemma SwitchDriftExactly(h: Hub, t: Tenant)
    requires Settled(h) && h.tenant.present && h.tenant.hubEnabled != t.hubEnabled
    ensures var m, u := if t.hubEnabled then t else h.tenant, if t.hubEnabled then h.tenant else t;
      Drifted(h.(tenant := t)) <==>
        h.spoke.status == Approved && t.present
        && !(UsbList(u).Some? && forall k, v :: Gives(m, k, v) <==> k == "usb_vidpids" && UsbList(u) == Some(v))
  {
    if t.present {
      SwitchedSlices(if t.hubEnabled then t else h.tenant, if t.hubEnabled then h.tenant else t);
    }
  }

  /** The change is one that the hub pushes. */
  ghost predicate OwnedChange(s: Tenant, t: Tenant) {
    s.hubEnabled == t.hubEnabled
    && if t.hubEnabled then exists k, v :: Gives(s, k, v) != Gives(t, k, v) else UsbList(s) != UsbList(t)
  }

  /** Then one round brings the spoke the whole new payload, under the next version, and that version is applied. */
  lemma OwnedChangeDelivered(h: Hub, t: Tenant, b: Beat)
    requires Settled(h) && Current(h) && t.present && OwnedChange(h.tenant, t)
    requires AllLive(h.queue, b.now) && FullRound(h.(tenant := t), b)
    ensures var u, v := Round(h.(tenant := t), b), h.spoke.configVersion + 1;
      && u.spoke.configVersion == u.spoke.appliedVersion == v
      && |u.queue| == |h.queue| + 1 && u.queue[|h.queue|].kind == ConfigUpdate
      && u.queue[|h.queue|].payload == Payload(v, v, t.payload) && u.queue[|h.queue|].status == Executed
  {
    if t.hubEnabled {
      ManagedDriftExactly(h, t);
    } else {
      UsbDriftExactly(h, t);
    }
    DriftRoundDelivers(h.(tenant := t), b);
  }

  /**
   Without hub-managed configuration only the USB list is authoritative: any other payload change
   leaves an in-sync spoke in sync, so no number of rounds pushes it.
   */
  lemma UnownedChangeNotPushed(h: Hub, t: Tenant, bs: seq<Beat>)
    requires Settled(h) && !h.tenant.hubEnabled && !t.hubEnabled
    requires UsbList(h.tenant) == UsbList(t)
    requires forall i :: 0 <= i < |bs| ==> Plain(h.(tenant := t), bs[i])
    ensures var u := Rounds(h.(tenant := t), bs);
      && OnlyApplied(h.spoke, u.spoke) && u.spoke.appliedVersion == h.spoke.appliedVersion
      && NothingAdded(h.queue, u.queue)
  {
    StaysInSync(h.(tenant := t), bs);
  }

  // ---------------------------------------------------------------------------------
  // What any acknowledgements apply.

  /** The largest version that the acknowledgements mark as applied, 0 for none. */
  function MaxAcked(q: seq<Command>, acks: AckList): (m: int)
    ensures m >= 0
    decreases |acks|
  {
    if acks == [] then 0 else Max(VersionToApply(q, acks[0].0, acks[0].1), MaxAcked(q, acks[1..]))
  }

  /** It is reached by one of them and exceeded by none. */
  lemma {:induction false} MaxAckedMeaning(q: seq<Command>, acks: AckList)
    ensures forall j :: 0 <= j < |acks| ==> VersionToApply(q, acks[j].0, acks[j].1) <= MaxAcked(q, acks)
    ensures MaxAcked(q, acks) > 0 ==>
      exists j :: 0 <= j < |acks| && VersionToApply(q, acks[j].0, acks[j].1) == MaxAcked(q, acks)
    decreases |acks|
  {
    if acks != [] {
      MaxAckedMeaning(q, acks[1..]);
      forall j | 0 < j < |acks| ensures acks[j] == acks[1..][j - 1] {}
      if MaxAcked(q, acks) > VersionToApply(q, acks[0].0, acks[0].1) {
        var j :| 0 <= j < |acks[1..]| && VersionToApply(q, acks[1..][j].0, acks[1..][j].1) == MaxAcked(q, acks[1..]);
        assert acks[j + 1] == acks[1..][j];
      }
    }
  }

  lemma SameFirst(p: seq<Command>, q: seq<Command>, id: string)
    requires SamePushes(p, q)
    ensures FirstIndex(p, id) == FirstIndex(q, id)
  {
    var i, j := FirstIndex(p, id), FirstIndex(q, id);
    assert i < |p| ==> q[i].id == p[i].id;
    assert j < |q| ==> p[j].id == q[j].id;
  }

  lemma {:induction false} SameMax(p: seq<Command>, q: seq<Command>, acks: AckList)
    requires SamePushes(p, q)
    ensures MaxAcked(p, acks) == MaxAcked(q, acks)
    decreases |acks|
  {
    if acks != [] {
      SameFirst(p, q, acks[0].0);
      SameMax(p, q, acks[1..]);
    }
  }

  /** Whatever the acknowledgements, in whatever order, the applied version rises to the largest one they mark. */
  lemma {:induction false} AcksApply(h: Hub, acks: AckList, now: int)
    requires 0 <= h.spoke.appliedVersion
    ensures var t := HandleAcks(h, acks, now);
      && SamePushes(h.queue, t.queue) && t.tenant == h.tenant && OnlyApplied(h.spoke, t.spoke)
      && t.spoke.appliedVersion == Max(MaxAcked(h.queue, acks), h.spoke.appliedVersion)
    decreases |acks|
  {
    if acks != [] {
      var u := HandleAck(h, acks[0].0, now, acks[0].1);
      AcksApply(u, acks[1..], now);
      SameMax(h.queue, u.queue, acks[1..]);
    }
  }

  // ---------------------------------------------------------------------------------
  // Any round, exactly.

  /** What the acknowledgements of a round mark, seen from the queue its poll leaves. */
  function RoundMax(h: Hub, b: Beat): int {
    MaxAcked(Polled(h, b).queue, b.acks)
  }

  /**
   Whatever is queued and acknowledged, a round of an approved spoke with a payload ends in sync exactly in these
   cases.  With a version pending: its acknowledgements apply that version and no higher one, and the version is
   not yet queued if the hash is stale.  With a stale hash and nothing pending: no left-over command reads the
   version above the applied one, and just that version is applied.  Else: nothing above the version is applied.
   */
  lemma RoundExactly(h: Hub, b: Beat)
    requires Current(h) && Plain(h, b) && 0 <= h.spoke.appliedVersion
    ensures var v, a, m := h.spoke.configVersion, h.spoke.appliedVersion, RoundMax(h, b);
      InSync(Round(h, b)) <==>
        if PushPending(h.spoke) then Max(m, a) == v && (Stale(h) ==> !HasPushOf(h.queue, v))
        else if Stale(h) then m == a + 1 && !HasPushOf(h.queue, a + 1)
        else Max(m, a) == v
  {
    PayloadTelemetry(h, b.reported, b.clearId, b.id, b.now);
    EnsureLeavesPush(Drift(h), b.id, b.now);
    AcksApply(Polled(h, b), b.acks, b.now);
  }

  /** A report that brings a first configuration starts version 1, which the round then has to apply. */
  lemma FirstRoundExactly(h: Hub, b: Beat)
    requires Current(h) && h.spoke.config == map[] && b.reported != map[]
    requires HasPayload(h.tenant) || h.spoke.configVersion <= 0
    ensures InSync(Round(h, b)) <==> RoundMax(h, b) == 1 && (Stale(h) ==> !HasPushOf(h.queue, 1))
  {
    assert Reported(h, b) == FirstConfig(h, b.reported);
    AcksApply(Polled(h, b), b.acks, b.now);
  }

  // ---------------------------------------------------------------------------------
  // A failed acknowledgement stalls the spoke until its command expires.

  /** A poll hands out the pending version exactly when it still waits or was never queued. */
  lemma PollHandsOutPending(h: Hub, id: string, now: int)
    requires h.spoke.status == Approved && PushPending(h.spoke)
    ensures (exists c :: c in Waiting(Active(Ensure(h, id, now).queue, now)) && IsPushOf(c, h.spoke.configVersion))
       <==> !HasPushOf(h.queue, h.spoke.configVersion)
            || exists c :: c in h.queue && IsPushOf(c, h.spoke.configVersion) && c.status == Queued && Live(c, now)
  {
    var e := Ensure(h, id, now);
    WaitingMembers(Active(e.queue, now));
    ActiveMembers(e.queue, now);
    if !HasPushOf(h.queue, h.spoke.configVersion) {
      var c := PushCommand(h, id, now);
      assert e.queue[|h.queue|] == c;
      assert c in Waiting(Active(e.queue, now));
    }
  }

  /** The hub acting on its own before `limit`, with only failing acknowledgements. */
  predicate Unaided(e: Event, limit: int) {
    match e
    case EnsurePush(id, now) => now < limit
    case PollInbox(now) => now < limit
    case MarkPushed(ids, now) => now < limit
    case PurgeExpired(now) => now < limit
    case ReadAck(k, id, result) => !Successful(result)
    case RecordAck(k, now) => true
    case ApplyAck(k, now) => true
    case CheckDrift => true
    case SetTenant(t) => true
    case _ => false
  }

  predicate Stalled(s: Sys, limit: int) {
    && s.hub.spoke.status == Approved && PushPending(s.hub.spoke)
    && (forall k :: k in s.acks ==> s.acks[k].version <= 0)
    && exists c ::
         c in s.hub.queue && IsPushOf(c, s.hub.spoke.configVersion) && c.status == Executed && c.expiresAt >= limit
  }

  lemma StallPurge(q: seq<Command>, ids: set<string>, c: Command, limit: int, now: int)
    requires c in q && c.status == Executed && c.expiresAt >= limit && now < limit
    ensures c in Active(q, now) && c in Mark(Active(q, now), ids, now) && c in Deliver(Active(q, now), now)
    ensures NothingAdded(q, Active(q, now))
    ensures NothingAdded(q, Mark(Active(q, now), ids, now)) && NothingAdded(q, Deliver(Active(q, now), now))
  {
    var a := Active(q, now);
    ActiveMembers(q, now);
    var j :| 0 <= j < |a| && a[j] == c;
    assert Mark(a, ids, now)[j] == c && Deliver(a, now)[j] == c;
    forall m | 0 <= m < |a| ensures HasId(q, a[m].id) {
      assert a[m] in q;
    }
  }

  lemma StallStep(s: Sys, e: Event, limit: int)
    requires Stalled(s, limit) && Unaided(e, limit)
    ensures Stalled(Apply(s, e), limit) && Apply(s, e).hub.spoke == s.hub.spoke
    ensures NothingAdded(s.hub.queue, Apply(s, e).hub.queue)
  {
    var c :| c in s.hub.queue && IsPushOf(c, s.hub.spoke.configVersion) && c.status == Executed && c.expiresAt >= limit;
    var t := Apply(s, e);
    if e.PollInbox? || e.MarkPushed? || e.PurgeExpired? {
      StallPurge(s.hub.queue, if e.MarkPushed? then e.ids else {}, c, limit, e.now);
      assert c in t.hub.queue;
    } else if e.RecordAck? {
      var i :| 0 <= i < |s.hub.queue| && s.hub.queue[i] == c;
      assert t.hub.queue[i] in t.hub.queue && IsPushOf(t.hub.queue[i], s.hub.spoke.configVersion);
    } else if e.EnsurePush? {
      assert HasPushOf(s.hub.queue, s.hub.spoke.configVersion);
    }
  }

  predicate UnaidedRun(es: seq<Event>, limit: int) {
    forall i :: 0 <= i < |es| ==> Unaided(es[i], limit)
  }

  /**
   Stall: once the pending version's command is executed without having been applied, no run of
   drift checks, ensures, polls, pushes, tenant edits and failing acknowledgements before that
   command expires changes the spoke at all or queues anything.
   */
  lemma {:induction false} FailedAckStalls(s: Sys, es: seq<Event>, limit: int)
    requires Stalled(s, limit) && UnaidedRun(es, limit)
    ensures Run(s, es).hub.spoke == s.hub.spoke && NothingAdded(s.hub.queue, Run(s, es).hub.queue)
    decreases |es|
  {
    if es != [] {
      StallStep(s, es[0], limit);
      FailedAckStalls(Apply(s, es[0]), es[1..], limit);
      var p, q := Apply(s, es[0]).hub.queue, Run(s, es).hub.queue;
      forall c | c in q ensures HasId(s.hub.queue, c.id) {
        var i :| 0 <= i < |p| && p[i].id == c.id;
        assert p[i] in p;
      }
    }
  }

  /** A failing acknowledgement of the pending version's command is what stalls, if no other handler will apply any. */
  lemma FailingAckStalls(s: Sys, k: nat, i: nat, now: int, result: Option<AckResult>, es: seq<Event>)
    requires s.hub.spoke.status == Approved && PushPending(s.hub.spoke) && UniqueIds(s.hub.queue) && i < |s.hub.queue|
    requires IsPushOf(s.hub.queue[i], s.hub.spoke.configVersion) && !Successful(result)
    requires (forall j :: j in s.acks ==> s.acks[j].version <= 0) && UnaidedRun(es, s.hub.queue[i].expiresAt)
    ensures var t := Apply(Apply(s, ReadAck(k, s.hub.queue[i].id, result)), RecordAck(k, now));
      && Stalled(t, s.hub.queue[i].expiresAt)
      && Run(t, es).hub.spoke == s.hub.spoke && NothingAdded(t.hub.queue, Run(t, es).hub.queue)
  {
    var t := Apply(Apply(s, ReadAck(k, s.hub.queue[i].id, result)), RecordAck(k, now));
    assert t.hub.queue[i] in t.hub.queue;
    FailedAckStalls(t, es, s.hub.queue[i].expiresAt);
  }

  /**
   The stall ends with the expiry: the first poll at or after it drops the dead command and the
   second one hands out a fresh push of the pending version with the tenant's current payload.
   */
  lemma ExpiryEndsStall(h: Hub, id: string, id': string, now: int, now': int)
    requires h.spoke.status == Approved && PushPending(h.spoke) && HasPushOf(h.queue, h.spoke.configVersion)
    requires forall c :: c in h.queue && IsPushOf(c, h.spoke.configVersion) ==> !Live(c, now)
    ensures var p := InboxPoll(h, id, now);
      && p.spoke == h.spoke && !HasPushOf(p.queue, h.spoke.configVersion)
      && PushCommand(h, id', now') in Waiting(Active(Ensure(p, id', now').queue, now'))
  {
    var a := Active(h.queue, now);
    ActiveMembers(h.queue, now);
    var p := InboxPoll(h, id, now);
    forall i | 0 <= i < |p.queue| ensures !IsPushOf(p.queue[i], h.spoke.configVersion) {
      assert a[i] in a;
    }
    var e := Ensure(p, id', now');
    assert e.queue[|p.queue|] == PushCommand(h, id', now');
    ActiveMembers(e.queue, now');
    WaitingMembers(Active(e.queue, now'));
  }

  // ---------------------------------------------------------------------------------
  // Version resets.

  /**
   Recovery: whatever the versions of an approved spoke without a pending push, a stale hash makes
   the drift check set its version just above the applied one, and the ensure that follows leaves
   a command of that version, adding at most one.  It adds one, with the tenant's current payload
   and hash, exactly when no command left over from before the reset reads that version.
   */
  lemma DriftRecovers(h: Hub, id: string, now: int)
    requires Current(h) && !PushPending(h.spoke) && h.spoke.lastPushedHash != Some(AuthoritativeSlice(h.tenant))
    ensures var v := h.spoke.appliedVersion + 1; var t := Ensure(Drift(h), id, now);
      && t.spoke.configVersion == v && PushPending(t.spoke) && HasPushOf(t.queue, v)
      && |h.queue| <= |t.queue| <= |h.queue| + 1
      && (t.queue == h.queue <==> HasPushOf(h.queue, v))
      && (!HasPushOf(h.queue, v) ==>
            t.queue == h.queue + [NewCommand(id, ConfigUpdate, Payload(v, v, h.tenant.payload), now + DAY)]
            && t.spoke.lastPushedHash == Some(AuthoritativeSlice(h.tenant)))
  {
    EnsureLeavesPush(Drift(h), id, now);
  }

  /**
   The exception is a stall: if a left-over command of that very version is already executed, the
   recovering push never goes out before that command expires.
   */
  lemma LeftoverStallsRecovery(s: Sys, c: Command, es: seq<Event>)
    requires Current(s.hub) && Drifted(s.hub) && s.acks == map[]
    requires c in s.hub.queue && IsPushOf(c, s.hub.spoke.appliedVersion + 1) && c.status == Executed
    requires UnaidedRun(es, c.expiresAt)
    ensures var t := Run(Apply(s, CheckDrift), es);
      && t.hub.spoke.appliedVersion == s.hub.spoke.appliedVersion
      && t.hub.spoke.configVersion == s.hub.spoke.appliedVersion + 1
      && NothingAdded(s.hub.queue, t.hub.queue)
  {
    FailedAckStalls(Apply(s, CheckDrift), es, c.expiresAt);
  }
}
