/**
 The configuration versions of one spoke (app/store.py): what each locked store call does to
 the spoke's row and its command queue, as functions on values.  `HubStore` proves its methods
 against them; `ConfigRuns` and `Convergence` prove what the protocol built from them keeps.
 */
module ConfigSync {
  import opened Prelude
  import opened CommandQueue

  const DAY := 86400

  datatype SpokeStatus = Pending | Approved | Revoked

  /** The hub-owned slice of a configuration; it stands for its own SHA-256 digest. */
  type Slice = map<string, Option<string>>

  datatype Spoke = Spoke(
    id: string,
    status: SpokeStatus,
    config: map<string, Option<string>>,
    configVersion: int,
    appliedVersion: int,
    lastAppliedAt: Option<int>,
    lastPushedHash: Option<Slice>)

  /**
   What the config code reads of a tenant: whether it still exists, whether the hub manages
   its whole configuration, and the payload `_build_spoke_config_payload` returns for it now.
   */
  datatype Tenant = Tenant(present: bool, hubEnabled: bool, payload: map<string, Option<string>>)

  /** One spoke as the config code sees it. */
  datatype Hub = Hub(spoke: Spoke, queue: seq<Command>, tenant: Tenant)

  /** The keys the hub owns: every non-null key when it manages the config, else the USB list. */
  function AuthoritativeSlice(t: Tenant): Slice {
    if t.present && t.hubEnabled then
      map k | k in t.payload && t.payload[k].Some? :: t.payload[k]
    else
      map["usb_vidpids" := if "usb_vidpids" in t.payload then t.payload["usb_vidpids"] else None]
  }

  /** The version `ensure_config_update_command` reads: `config_version`, or else `__config_version`. */
  function ReadVersion(p: Payload): int {
    if p.configVersion != 0 then p.configVersion else p.stampedVersion
  }

  predicate IsPushOf(c: Command, version: int) {
    c.kind == ConfigUpdate && ReadVersion(c.payload) == version
  }

  predicate HasPushOf(q: seq<Command>, version: int) {
    exists i :: 0 <= i < |q| && IsPushOf(q[i], version)
  }

  predicate PushPending(s: Spoke) {
    s.configVersion > s.appliedVersion
  }

  /** The command that `ensure_config_update_command` appends. */
  function PushCommand(h: Hub, id: string, now: int): Command {
    NewCommand(id, ConfigUpdate,
      Payload(h.spoke.configVersion, h.spoke.configVersion, h.tenant.payload), now + DAY)
  }

  /** ensure_config_update_command */
  function Ensure(h: Hub, id: string, now: int): Hub {
    if h.spoke.status != Approved || !PushPending(h.spoke) || HasPushOf(h.queue, h.spoke.configVersion) then h
    else h.(queue := h.queue + [PushCommand(h, id, now)],
            spoke := h.spoke.(lastPushedHash := Some(AuthoritativeSlice(h.tenant))))
  }

  predicate Drifted(h: Hub) {
    h.spoke.status == Approved && !PushPending(h.spoke) && h.tenant.present
    && h.spoke.lastPushedHash != Some(AuthoritativeSlice(h.tenant))
  }

  /** check_and_fix_config_drift; `Drifted` is its result. */
  function Drift(h: Hub): Hub {
    if Drifted(h) then h.(spoke := h.spoke.(configVersion := h.spoke.appliedVersion + 1)) else h
  }

  /** mark_spoke_config_applied */
  function MarkApplied(h: Hub, version: int, now: int): Hub {
    h.(spoke := h.spoke.(appliedVersion := Max(version, h.spoke.appliedVersion), lastAppliedAt := Some(now)))
  }

  predicate ClearOutstanding(q: seq<Command>) {
    exists i :: 0 <= i < |q| && q[i].kind == ConfigClear && q[i].status != Executed
  }

  /** ensure_config_clear_command */
  function EnsureClear(h: Hub, id: string, now: int): Hub {
    if h.spoke.status != Approved || ClearOutstanding(h.queue) then h
    else h.(queue := h.queue + [NewCommand(id, ConfigClear, Payload(0, 0, map[]), now + DAY)])
  }

  /** An administrator's edit: the version is bumped, the push itself is left to `Ensure`. */
  function Bump(h: Hub): Hub {
    h.(spoke := h.spoke.(configVersion := h.spoke.configVersion + 1))
  }

  /**
   _queue_spoke_config_push and toggle_auto_provision save the bumped spoke with its new
   configuration first and enqueue that configuration afterwards.  `carried` is the
   `config_version` key of the configuration itself, 0 when it has none.
   */
  function RawSave(h: Hub, config: map<string, Option<string>>): Hub {
    Bump(h).(spoke := Bump(h).spoke.(config := config))
  }

  function RawEnqueue(h: Hub, id: string, version: int, carried: int, config: map<string, Option<string>>,
                      now: int): Hub {
    h.(queue := Active(h.queue, now)
                + [NewCommand(id, ConfigUpdate, Payload(carried, version, config), now + DAY)])
  }

  /** get_queued_commands */
  function Poll(h: Hub, now: int): Hub {
    h.(queue := Deliver(Active(h.queue, now), now))
  }

  /** _get_spoke_inbox */
  function InboxPoll(h: Hub, id: string, now: int): Hub {
    Poll(Ensure(h, id, now), now)
  }

  /** The version that a successful acknowledgement of `id` will mark as applied, 0 for none. */
  function VersionToApply(q: seq<Command>, id: string, result: Option<AckResult>): int {
    match FindCommand(q, id)
    case Some(c) => if c.kind == ConfigUpdate && Successful(result) then Max(c.payload.stampedVersion, 0) else 0
    case None => 0
  }

  function AckQueue(h: Hub, id: string, now: int, result: Option<AckResult>): Hub {
    h.(queue := Ack(h.queue, id, now, result))
  }

  /** _handle_spoke_ack when nothing interleaves with its three store calls. */
  function HandleAck(h: Hub, id: string, now: int, result: Option<AckResult>): Hub {
    var version := VersionToApply(h.queue, id, result);
    var acked := AckQueue(h, id, now, result);
    if version > 0 then MarkApplied(acked, version, now) else acked
  }

  /** The reset that update_tenant_hub_config and an emptied payload perform. */
  function ResetVersions(h: Hub): Hub {
    h.(spoke := h.spoke.(configVersion := 0, appliedVersion := 0))
  }

  /** The first configuration a spoke reports restarts its versions. */
  function FirstConfig(h: Hub, config: map<string, Option<string>>): Hub {
    if h.spoke.config == map[] && config != map[]
    then h.(spoke := h.spoke.(config := config, configVersion := 1, appliedVersion := 0))
    else h
  }

  /** A telemetry heartbeat's drift check, which pushes at once when it finds drift. */
  function Heartbeat(h: Hub, id: string, now: int): Hub {
    if Drifted(h) then Ensure(Drift(h), id, now) else h
  }

  /** tenant_has_spoke_config_payload */
  predicate HasPayload(t: Tenant) {
    exists k :: k in t.payload && t.payload[k].Some?
  }

  /** The versions' part of _apply_spoke_telemetry. */
  function Telemetry(h: Hub, reported: map<string, Option<string>>, clearId: string, id: string, now: int): Hub {
    var first := FirstConfig(h, reported);
    var kept :=
      if h.tenant.present && h.spoke.configVersion > 0 && !HasPayload(h.tenant)
      then EnsureClear(ResetVersions(first), clearId, now)
      else first;
    Heartbeat(kept, id, now)
  }

  /** What becomes of the row that a connection holds: it is changed in place, and held on to. */
  function HeldAfter(t: Tenant, held: Spoke, reported: map<string, Option<string>>): Spoke {
    var first := FirstConfig(Hub(held, [], t), reported).spoke;
    if t.present && held.configVersion > 0 && !HasPayload(t) then first.(configVersion := 0, appliedVersion := 0)
    else first
  }

  /** The same for a row `held` that need not be the stored one, and that may be saved for a new name alone. */
  function TelemetryFrom(h: Hub, held: Spoke, renamed: bool, reported: map<string, Option<string>>, clearId: string,
                         id: string, now: int): Hub {
    var emptied := h.tenant.present && held.configVersion > 0 && !HasPayload(h.tenant);
    var cleared := if emptied then EnsureClear(h, clearId, now) else h;
    var row := HeldAfter(h.tenant, held, reported);
    Heartbeat(if renamed || row != held then cleared.(spoke := row) else cleared, id, now)
  }

  /** update_tenant_hub_config for one spoke: bump and push when managed, reset and clear otherwise. */
  function AdminUpdate(h: Hub, managed: bool, id: string, now: int): Hub {
    if h.spoke.status != Approved then h
    else if managed then Ensure(Bump(h), id, now)
    else if h.spoke.configVersion > 0 then EnsureClear(ResetVersions(h), id, now)
    else h
  }

  // ---------------------------------------------------------------------------------
  // What each step leaves behind.

  lemma EnsureLeavesPush(h: Hub, id: string, now: int)
    ensures h.spoke.status == Approved && PushPending(h.spoke) ==>
      HasPushOf(Ensure(h, id, now).queue, h.spoke.configVersion)
    ensures |h.queue| <= |Ensure(h, id, now).queue| <= |h.queue| + 1
    ensures Ensure(Ensure(h, id, now), id, now) == Ensure(h, id, now)
  {
    var q := Ensure(h, id, now).queue;
    if h.spoke.status == Approved && PushPending(h.spoke) && !HasPushOf(h.queue, h.spoke.configVersion) {
      assert IsPushOf(q[|h.queue|], h.spoke.configVersion);
    }
  }

  /** A clear command is left outstanding for an approved spoke, never a second one, and no push is touched. */
  lemma ClearLeavesCommand(h: Hub, id: string, now: int)
    ensures var t := EnsureClear(h, id, now);
      var waits := exists c :: c in h.queue && c.kind == ConfigClear && (c.status == Queued || c.status == Delivered);
      && t.spoke == h.spoke && t.tenant == h.tenant && h.queue <= t.queue
      && (t.queue == h.queue <==> h.spoke.status != Approved || waits)
      && (h.spoke.status == Approved ==> ClearOutstanding(t.queue))
      && (forall v :: HasPushOf(t.queue, v) <==> HasPushOf(h.queue, v))
      && EnsureClear(t, id, now) == t
  {
    var t := EnsureClear(h, id, now);
    assert forall i :: 0 <= i < |h.queue| ==> t.queue[i] == h.queue[i];
    if t.queue != h.queue {
      assert t.queue[|h.queue|].kind == ConfigClear;
    }
  }

  /**
   An administrator's update: a managed spoke gets its next version, and a push of it exactly when the
   applied version is not ahead of the old one, as a late acknowledgement after a restart can leave it;
   one that is no longer managed starts over at version 0 with a clear command, and nothing of either
   if it never had a version.
   */
  lemma AdminUpdateMeaning(h: Hub, managed: bool, id: string, now: int)
    ensures var t := AdminUpdate(h, managed, id, now);
      && (h.spoke.status != Approved ==> t == h)
      && (h.spoke.status == Approved && managed ==>
            && t.spoke.configVersion == h.spoke.configVersion + 1 && t.spoke.appliedVersion == h.spoke.appliedVersion
            && (PushPending(t.spoke) <==> h.spoke.appliedVersion <= h.spoke.configVersion)
            && (PushPending(t.spoke) ==> HasPushOf(t.queue, t.spoke.configVersion))
            && (!PushPending(t.spoke) ==> t.queue == h.queue))
      && (h.spoke.status == Approved && !managed && h.spoke.configVersion > 0 ==>
            t.spoke.configVersion == t.spoke.appliedVersion == 0 && ClearOutstanding(t.queue))
      && (h.spoke.status == Approved && !managed && h.spoke.configVersion <= 0 ==> t == h)
  {
    EnsureLeavesPush(Bump(h), id, now);
    ClearLeavesCommand(ResetVersions(h), id, now);
  }

  /**
   A heartbeat after the tenant's payload became empty: the approved spoke is reset and told to clear its
   configuration, and yet the same heartbeat starts version 1, with a push of the empty payload unless a
   command that reads version 1 is left over, exactly when the hash of the last push is stale.
   */
  lemma EmptiedPayload(h: Hub, reported: map<string, Option<string>>, clearId: string, id: string, now: int)
    requires h.spoke.status == Approved && h.tenant.present && h.spoke.configVersion > 0 && !HasPayload(h.tenant)
    ensures var t := Telemetry(h, reported, clearId, id, now);
      && t.spoke.appliedVersion == 0 && ClearOutstanding(t.queue)
      && (h.spoke.lastPushedHash == Some(AuthoritativeSlice(h.tenant)) ==> t.spoke.configVersion == 0)
      && (h.spoke.lastPushedHash != Some(AuthoritativeSlice(h.tenant)) ==>
            t.spoke.configVersion == 1 && HasPushOf(t.queue, 1)
            && (!HasPushOf(h.queue, 1) ==>
              t.queue[|t.queue| - 1] == NewCommand(id, ConfigUpdate, Payload(1, 1, h.tenant.payload), now + DAY)))
  {
    var reset := ResetVersions(FirstConfig(h, reported));
    var cleared := EnsureClear(reset, clearId, now);
    ClearLeavesCommand(reset, clearId, now);
    EnsureLeavesPush(Drift(cleared), id, now);
    var t := Telemetry(h, reported, clearId, id, now);
    ClearStays(cleared.queue, t.queue);
  }

  /** With a payload, and no first configuration to take over, a heartbeat is its drift check alone. */
  lemma PayloadTelemetry(h: Hub, reported: map<string, Option<string>>, clearId: string, id: string, now: int)
    requires HasPayload(h.tenant) && (h.spoke.config != map[] || reported == map[])
    ensures Telemetry(h, reported, clearId, id, now) == Heartbeat(h, id, now)
  {
  }

  /** With the stored row in hand it is the atomic step. */
  lemma TelemetryFromCurrent(h: Hub, renamed: bool, reported: map<string, Option<string>>, clearId: string, id: string,
                             now: int)
    ensures TelemetryFrom(h, h.spoke, renamed, reported, clearId, id, now) == Telemetry(h, reported, clearId, id, now)
  {
  }

  /**
   What the hub queues at `now`, a push, a clear or a direct push, is there for every poll before the same
   time of the next day and for none after.
   */
  lemma QueuedForADay(h: Hub, id: string, version: int, carried: int, config: map<string, Option<string>>, now: int,
                      later: int)
    requires !HasId(h.queue, id)
    ensures var t := Ensure(h, id, now); t.queue != h.queue ==>
      |t.queue| == |h.queue| + 1 && (HasId(Active(t.queue, later), id) <==> later < now + 86400)
    ensures var t := EnsureClear(h, id, now); t.queue != h.queue ==>
      |t.queue| == |h.queue| + 1 && (HasId(Active(t.queue, later), id) <==> later < now + 86400)
    ensures var t := RawEnqueue(h, id, version, carried, config, now);
      HasId(Active(t.queue, later), id) <==> later < now + 86400
  {
    QueuedUntil(h.queue, NewCommand(id, ConfigUpdate, Payload(h.spoke.configVersion, h.spoke.configVersion,
                                                              h.tenant.payload), now + 86400), later);
    QueuedUntil(h.queue, NewCommand(id, ConfigClear, Payload(0, 0, map[]), now + 86400), later);
    ActiveMembers(h.queue, now);
    assert forall i :: 0 <= i < |Active(h.queue, now)| ==> Active(h.queue, now)[i] in h.queue;
    QueuedUntil(Active(h.queue, now), NewCommand(id, ConfigUpdate, Payload(carried, version, config), now + 86400),
                later);
  }

  lemma QueuedUntil(q: seq<Command>, c: Command, later: int)
    requires !HasId(q, c.id)
    ensures HasId(Active(q + [c], later), c.id) <==> later < c.expiresAt
  {
    var a := Active(q + [c], later);
    ActiveMembers(q + [c], later);
    assert (q + [c])[|q|] == c;
    if later < c.expiresAt {
      assert c in a;
    }
    if i :| 0 <= i < |a| && a[i].id == c.id {
      assert a[i] in q + [c];
      assert a[i] == c;
    }
  }

  /** An acknowledgement of an unapplied version applies it exactly if it does not say that it failed. */
  lemma AckAppliesExactly(h: Hub, i: nat, now: int, result: Option<AckResult>)
    requires UniqueIds(h.queue) && i < |h.queue| && h.queue[i].kind == ConfigUpdate
    requires 0 <= h.spoke.appliedVersion < h.queue[i].payload.stampedVersion
    ensures var t := HandleAck(h, h.queue[i].id, now, result);
      && t.queue[i].status == Executed
      && (if result.None? || result.value.success.None? || result.value.success.value
          then t.spoke == h.spoke.(appliedVersion := h.queue[i].payload.stampedVersion, lastAppliedAt := Some(now))
          else t.spoke == h.spoke)
  {
    assert FirstIndex(h.queue, h.queue[i].id) == i;
    if result.Some? && result.value.success.Some? && !result.value.success.value {
      assert result.value.success == Some(false);
    }
  }

  /**
   Whether a tenant has a payload: with a current hash and no first configuration a report starts the versions
   of an approved spoke over exactly when its tenant exists and gives no key a value.
   */
  lemma ReportResetsExactly(h: Hub, reported: map<string, Option<string>>, clearId: string, id: string, now: int)
    requires h.spoke.status == Approved && h.spoke.configVersion > 0
    requires h.spoke.config != map[] || reported == map[]
    requires h.spoke.lastPushedHash == Some(AuthoritativeSlice(h.tenant))
    ensures var t := Telemetry(h, reported, clearId, id, now);
      if h.tenant.present && forall k :: k in h.tenant.payload ==> h.tenant.payload[k] == None
      then t.spoke == h.spoke.(configVersion := 0, appliedVersion := 0) && ClearOutstanding(t.queue)
      else t == h
  {
    var reset := ResetVersions(FirstConfig(h, reported));
    ClearLeavesCommand(reset, clearId, now);
  }

  /**
   A report writes the row that its connection holds over the stored one exactly when it renames the spoke, brings
   its first configuration, or finds the tenant without a payload; what the stored row had applied is lost then.
   */
  lemma HeldRowSaved(h: Hub, held: Spoke, renamed: bool, reported: map<string, Option<string>>, clearId: string,
                     id: string, now: int)
    ensures var t := TelemetryFrom(h, held, renamed, reported, clearId, id, now);
      var first := held.config == map[] && reported != map[];
      var emptied := h.tenant.present && held.configVersion > 0
                     && forall k :: k in h.tenant.payload ==> h.tenant.payload[k] == None;
      var row := if renamed || first || emptied then held else h.spoke;
      && t.spoke.config == (if first then reported else row.config) && t.spoke.status == row.status
      && t.spoke.appliedVersion == (if first || emptied then 0 else row.appliedVersion)
  {
  }

  /** A direct push stores the new configuration under the next version, and sends the same under that version. */
  lemma DirectPushSends(h: Hub, id: string, carried: int, config: map<string, Option<string>>, now: int)
    ensures var t := RawEnqueue(RawSave(h, config), id, h.spoke.configVersion + 1, carried, config, now);
      && t.spoke == h.spoke.(config := config, configVersion := h.spoke.configVersion + 1) && t.queue != []
      && var c := t.queue[|t.queue| - 1];
        c.id == id && c.kind == ConfigUpdate && c.status == Queued
        && c.payload == Payload(carried, t.spoke.configVersion, t.spoke.config)
  {
  }

  lemma ClearStays(p: seq<Command>, q: seq<Command>)
    requires p <= q && ClearOutstanding(p)
    ensures ClearOutstanding(q)
  {
    var i :| 0 <= i < |p| && p[i].kind == ConfigClear && p[i].status != Executed;
    assert q[i] == p[i];
  }
}
