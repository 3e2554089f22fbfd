/**
 The hub's store for one tenant (app/store.py) with its spoke rows and command queues, and the
 handlers that drive the configuration protocol through it.  Every method is one call that the
 store makes under its lock, or a handler made of such calls; times and new command ids come
 from outside.
 */
module HubStore {
  import opened Prelude
  import opened CommandQueue
  import opened ConfigSync

  function FindSpoke(spokes: seq<Spoke>, id: string): Option<Spoke> {
    if spokes == [] then None
    else if spokes[0].id == id then Some(spokes[0])
    else FindSpoke(spokes[1..], id)
  }

  function Without(spokes: seq<Spoke>, id: string): seq<Spoke> {
    if spokes == [] then []
    else if spokes[0].id == id then Without(spokes[1..], id)
    else [spokes[0]] + Without(spokes[1..], id)
  }

  function QueueOf(queues: map<string, seq<Command>>, id: string): seq<Command> {
    if id in queues then queues[id] else []
  }

  lemma {:induction false} SavedSpoke(spokes: seq<Spoke>, spoke: Spoke, id: string)
    ensures FindSpoke(Without(spokes, spoke.id) + [spoke], id)
         == if id == spoke.id then Some(spoke) else FindSpoke(spokes, id)
  {
    var w := Without(spokes, spoke.id);
    if spokes == [] {
      assert w + [spoke] == [spoke];
    } else {
      SavedSpoke(spokes[1..], spoke, id);
      if spokes[0].id != spoke.id {
        assert (w + [spoke])[1..] == Without(spokes[1..], spoke.id) + [spoke];
      }
    }
  }

  lemma {:induction false} FoundAt(spokes: seq<Spoke>, id: string, i: nat)
    requires i < |spokes| && spokes[i].id == id && forall j :: 0 <= j < i ==> spokes[j].id != id
    ensures FindSpoke(spokes, id) == Some(spokes[i])
  {
    if i > 0 {
      FoundAt(spokes[1..], id, i - 1);
    }
  }

  lemma {:induction false} FoundNowhere(spokes: seq<Spoke>, id: string)
    requires forall j :: 0 <= j < |spokes| ==> spokes[j].id != id
    ensures FindSpoke(spokes, id) == None
  {
    if spokes != [] {
      FoundNowhere(spokes[1..], id);
    }
  }

  lemma {:induction false} WaitingSnoc(q: seq<Command>, c: Command)
    ensures Waiting(q + [c]) == Waiting(q) + (if c.status == Queued then [c] else [])
  {
    if q == [] {
      assert q + [c] == [c];
      assert Waiting([c]) == (if c.status == Queued then [c] else []);
    } else {
      assert (q + [c])[1..] == q[1..] + [c];
      WaitingSnoc(q[1..], c);
    }
  }

  /** How many expired commands the queues of `files` hold. */
  function ExpiredIn(files: seq<string>, queues: map<string, seq<Command>>, now: int): int {
    if files == [] then 0
    else ExpiredIn(files[..|files| - 1], queues, now)
         + |QueueOf(queues, files[|files| - 1])| - |Active(QueueOf(queues, files[|files| - 1]), now)|
  }

  /** That counts every expired command once: it adds up over files and over the parts of a queue. */
  lemma ExpiredParts(files: seq<string>, f: string, queues: map<string, seq<Command>>, p: seq<Command>, q: seq<Command>,
                     c: Command, now: int)
    ensures ExpiredIn([], queues, now) == 0
    ensures ExpiredIn(files + [f], queues, now) == ExpiredIn(files, queues, now) + ExpiredIn([f], queues, now)
    ensures ExpiredIn([f], queues[f := p + q], now)
         == ExpiredIn([f], queues[f := p], now) + ExpiredIn([f], queues[f := q], now)
    ensures ExpiredIn([f], queues[f := [c]], now) == if c.expiresAt <= now then 1 else 0
  {
    assert (files + [f])[..|files|] == files && [f][..0] == [];
    ActiveConcat(p, q, now);
    assert Active([c], now) == if Live(c, now) then [c] + [] else [];
  }

  /** A row of a queue file; the purge cannot tell the expiry of an unreadable one. */
  datatype QueueRow = Readable(c: Command) | Unreadable

  function Readables(raw: seq<QueueRow>): seq<Command> {
    if raw == [] then []
    else
      var before, last := Readables(raw[..|raw| - 1]), raw[|raw| - 1];
      if last.Readable? then before + [last.c] else before
  }

  lemma ReadablesSnoc(raw: seq<QueueRow>, row: QueueRow)
    ensures Readables(raw + [row]) == if row.Readable? then Readables(raw) + [row.c] else Readables(raw)
  {
    assert (raw + [row])[..|raw|] == raw;
  }

  lemma ActiveSnoc(q: seq<Command>, c: Command, now: int)
    ensures Active(q + [c], now) == if Live(c, now) then Active(q, now) + [c] else Active(q, now)
  {
    ActiveConcat(q, [c], now);
    assert Active([c], now) == if Live(c, now) then [c] + [] else [];
    assert Active(q, now) + [] == Active(q, now);
  }

  function ViewOf(spokes: seq<Spoke>, queues: map<string, seq<Command>>, tenant: Tenant, id: string): Option<Hub> {
    match FindSpoke(spokes, id)
    case Some(s) => Some(Hub(s, QueueOf(queues, id), tenant))
    case None => None
  }

  predicate UniqueSpokes(spokes: seq<Spoke>) {
    forall i, j :: 0 <= i < j < |spokes| ==> spokes[i].id != spokes[j].id
  }

  class HubStore {
    var spokes: seq<Spoke>
    var queues: map<string, seq<Command>>
    var tenant: Tenant

    constructor (tenant: Tenant)
      ensures spokes == [] && queues == map[] && this.tenant == tenant
    {
      spokes, queues, this.tenant := [], map[], tenant;
    }

    /** One spoke as the configuration protocol sees it, if it exists. */
    ghost function View(id: string): Option<Hub>
      reads this
    {
      ViewOf(spokes, queues, tenant, id)
    }

    // -------------------------------------------------------------------------------
    // Spoke rows.

    method GetSpoke(id: string) returns (found: Option<Spoke>)
      ensures found == FindSpoke(spokes, id)
    {
      for i := 0 to |spokes|
        invariant forall j :: 0 <= j < i ==> spokes[j].id != id
      {
        if spokes[i].id == id {
          FoundAt(spokes, id, i);
          return Some(spokes[i]);
        }
      }
      FoundNowhere(spokes, id);
      return None;
    }

    method SaveSpoke(spoke: Spoke)
      modifies this`spokes
      ensures spokes == Without(old(spokes), spoke.id) + [spoke]
      ensures forall id :: FindSpoke(spokes, id) == if id == spoke.id then Some(spoke) else FindSpoke(old(spokes), id)
      ensures forall k :: k != spoke.id ==> View(k) == old(View(k))
    {
      forall id ensures FindSpoke(Without(spokes, spoke.id) + [spoke], id)
                     == if id == spoke.id then Some(spoke) else FindSpoke(spokes, id)
      {
        SavedSpoke(spokes, spoke, id);
      }
      spokes := Without(spokes, spoke.id) + [spoke];
    }

    // -------------------------------------------------------------------------------
    // Command queues.

    method EnqueueCommand(id: string, command: Command, now: int)
      modifies this`queues
      ensures queues == old(queues)[id := Active(QueueOf(old(queues), id), now) + [command]]
    {
      queues := queues[id := Active(QueueOf(queues, id), now) + [command]];
    }

    method PeekQueuedCommands(id: string, now: int) returns (waiting: seq<Command>)
      modifies this`queues
      ensures waiting == Waiting(Active(QueueOf(old(queues), id), now))
      ensures QueueOf(queues, id) == Active(QueueOf(old(queues), id), now)
      ensures forall k :: k != id ==> QueueOf(queues, k) == QueueOf(old(queues), k)
    {
      var commands := QueueOf(queues, id);
      var active := Active(commands, now);
      if |active| != |commands| {
        queues := queues[id := active];
      } else {
        ActiveSameLength(commands, now);
      }
      return Waiting(active);
    }

    method MarkCommandsDelivered(id: string, ids: seq<string>, now: int)
      modifies this`queues
      ensures ids == [] ==> queues == old(queues)
      ensures ids != [] ==>
        queues == old(queues)[id := Mark(Active(QueueOf(old(queues), id), now), (set k | k in ids), now)]
    {
      if ids == [] {
        return;
      }
      var wanted := set k | k in ids;
      var active := Active(QueueOf(queues, id), now);
      ghost var before := active;
      for i := 0 to |active|
        invariant |active| == |before|
        invariant forall j :: 0 <= j < i ==> active[j] == MarkOne(before[j], wanted, now)
        invariant forall j :: i <= j < |before| ==> active[j] == before[j]
      {
        if active[i].id in wanted && active[i].status == Queued {
          active := active[i := active[i].(status := Delivered, deliveredAt := Some(now))];
        }
      }
      assert active == Mark(before, wanted, now);
      queues := queues[id := active];
    }

    method GetQueuedCommands(id: string, now: int) returns (handedOut: seq<Command>)
      modifies this`queues
      ensures queues == old(queues)[id := Deliver(Active(QueueOf(old(queues), id), now), now)]
      ensures handedOut == Deliver(Waiting(Active(QueueOf(old(queues), id), now)), now)
    {
      var active := Active(QueueOf(queues, id), now);
      ghost var before := active;
      handedOut := [];
      for i := 0 to |active|
        invariant |active| == |before|
        invariant forall j :: 0 <= j < i ==> active[j] == DeliverOne(before[j], now)
        invariant forall j :: i <= j < |before| ==> active[j] == before[j]
        invariant handedOut == Deliver(Waiting(before[..i]), now)
        invariant queues == old(queues)
      {
        WaitingSnoc(before[..i], before[i]);
        assert before[..i + 1] == before[..i] + [before[i]];
        if active[i].status == Queued {
          active := active[i := active[i].(status := Delivered, deliveredAt := Some(now))];
          handedOut := handedOut + [active[i]];
        }
      }
      assert before[..|before|] == before;
      assert active == Deliver(before, now);
      queues := queues[id := active];
    }

    method GetCommand(id: string, commandId: string) returns (found: Option<Command>)
      ensures found == FindCommand(QueueOf(queues, id), commandId)
    {
      var commands := QueueOf(queues, id);
      for i := 0 to |commands|
        invariant forall j :: 0 <= j < i ==> commands[j].id != commandId
      {
        if commands[i].id == commandId {
          assert FirstIndex(commands, commandId) == i;
          return Some(commands[i]);
        }
      }
      assert FirstIndex(commands, commandId) == |commands|;
      return None;
    }

    method AckCommand(id: string, commandId: string, now: int, result: Option<AckResult>)
      modifies this`queues
      ensures queues == old(queues)[id := Ack(QueueOf(old(queues), id), commandId, now, result)]
    {
      var commands := QueueOf(queues, id);
      var i := 0;
      while i < |commands| && commands[i].id != commandId
        invariant 0 <= i <= |commands|
        invariant forall j :: 0 <= j < i ==> commands[j].id != commandId
      {
        i := i + 1;
      }
      assert FirstIndex(commands, commandId) == i;
      if i < |commands| {
        commands := commands[i := AckOne(commands[i], now, result)];
      }
      queues := queues[id := commands];
    }

    /** Clears one spoke's queue and reports how many commands it held. */
    method ClearCommandQueue(id: string) returns (total: nat)
      modifies this`queues
      ensures queues == old(queues)[id := []] && total == |QueueOf(old(queues), id)|
    {
      total := |QueueOf(queues, id)|;
      queues := queues[id := []];
    }

    /** One queue file's turn in a purge. */
    method PurgeQueue(id: string, now: int) returns (purged: int)
      modifies this`queues
      ensures QueueOf(queues, id) == Active(QueueOf(old(queues), id), now)
      ensures forall k :: k != id ==> QueueOf(queues, k) == QueueOf(old(queues), k)
      ensures purged == |QueueOf(old(queues), id)| - |QueueOf(queues, id)|
    {
      var commands := QueueOf(queues, id);
      var kept := Active(commands, now);
      ActiveMembers(commands, now);
      if |kept| < |commands| {
        queues := queues[id := kept];
      } else {
        ActiveSameLength(commands, now);
      }
      purged := |commands| - |kept|;
    }

    /** One queue file's turn on its rows as stored: expired and unreadable ones go, and both are counted. */
    static method PurgeRows(raw: seq<QueueRow>, now: int) returns (kept: seq<QueueRow>, purged: nat)
      ensures Readables(kept) == Active(Readables(raw), now) && Unreadable !in kept
      ensures purged == |raw| - |kept|
    {
      kept := [];
      for i := 0 to |raw|
        invariant Readables(kept) == Active(Readables(raw[..i]), now) && Unreadable !in kept && |kept| <= i
      {
        ReadablesSnoc(raw[..i], raw[i]);
        ReadablesSnoc(kept, raw[i]);
        assert raw[..i + 1] == raw[..i] + [raw[i]];
        if raw[i].Readable? {
          ActiveSnoc(Readables(raw[..i]), raw[i].c, now);
          if Live(raw[i].c, now) {
            kept := kept + [raw[i]];
          }
        }
      }
      assert raw[..|raw|] == raw;
      purged := |raw| - |kept|;
    }

    /** Purges every queue file once and reports how many commands expired. */
    method PurgeExpiredCommands(files: seq<string>, now: int) returns (total: int)
      requires forall i, j :: 0 <= i < j < |files| ==> files[i] != files[j]
      modifies this`queues
      ensures forall i :: 0 <= i < |files| ==> QueueOf(queues, files[i]) == Active(QueueOf(old(queues), files[i]), now)
      ensures forall k :: (forall i :: 0 <= i < |files| ==> files[i] != k) ==>
        QueueOf(queues, k) == QueueOf(old(queues), k)
      ensures total == ExpiredIn(files, old(queues), now)
    {
      total := 0;
      ghost var before := queues;
      for i := 0 to |files|
        invariant forall j :: 0 <= j < i ==> QueueOf(queues, files[j]) == Active(QueueOf(before, files[j]), now)
        invariant forall k :: (forall j :: 0 <= j < i ==> files[j] != k) ==> QueueOf(queues, k) == QueueOf(before, k)
        invariant total == ExpiredIn(files[..i], before, now)
      {
        assert QueueOf(queues, files[i]) == QueueOf(before, files[i]);
        assert files[..i + 1][..i] == files[..i];
        var purged := PurgeQueue(files[i], now);
        total := total + purged;
      }
      assert files[..|files|] == files;
    }

    // -------------------------------------------------------------------------------
    // Configuration versions.

    method MarkSpokeConfigApplied(id: string, version: int, now: int)
      modifies this`spokes
      ensures View(id) == match old(View(id))
                          case Some(h) => Some(MarkApplied(h, version, now))
                          case None => None
      ensures forall k :: k != id ==> View(k) == old(View(k))
    {
      var found := GetSpoke(id);
      if found.None? {
        return;
      }
      var spoke := found.value;
      FindSpokeId(spokes, id);
      if version > spoke.appliedVersion {
        spoke := spoke.(appliedVersion := version);
      }
      spoke := spoke.(lastAppliedAt := Some(now));
      SaveSpoke(spoke);
    }

    method EnsureConfigUpdateCommand(id: string, newId: string, now: int)
      modifies this`spokes, this`queues
      ensures View(id) == match old(View(id))
                          case Some(h) => Some(Ensure(h, newId, now))
                          case None => None
      ensures forall k :: k != id ==> View(k) == old(View(k)) && QueueOf(queues, k) == QueueOf(old(queues), k)
    {
      var found := GetSpoke(id);
      if found.None? || found.value.status != Approved || found.value.configVersion <= found.value.appliedVersion {
        return;
      }
      var spoke := found.value;
      FindSpokeId(spokes, id);
      var commands := QueueOf(queues, id);
      var target := spoke.configVersion;
      for i := 0 to |commands|
        invariant forall j :: 0 <= j < i ==> !IsPushOf(commands[j], target)
      {
        if commands[i].kind == ConfigUpdate && ReadVersion(commands[i].payload) == target {
          assert IsPushOf(commands[i], target);
          return;
        }
      }
      var payload := Payload(target, target, tenant.payload);
      queues := queues[id := commands + [NewCommand(newId, ConfigUpdate, payload, now + DAY)]];
      spoke := spoke.(lastPushedHash := Some(AuthoritativeSlice(tenant)));
      SaveSpoke(spoke);
    }

    method CheckAndFixConfigDrift(id: string) returns (drifted: bool)
      modifies this`spokes
      ensures drifted <==> old(View(id)).Some? && Drifted(old(View(id)).value)
      ensures View(id) == match old(View(id))
                          case Some(h) => Some(Drift(h))
                          case None => None
      ensures forall k :: k != id ==> View(k) == old(View(k))
    {
      var found := GetSpoke(id);
      if found.None? || found.value.status != Approved {
        return false;
      }
      var spoke := found.value;
      FindSpokeId(spokes, id);
      if spoke.configVersion > spoke.appliedVersion || !tenant.present {
        return false;
      }
      if spoke.lastPushedHash == Some(AuthoritativeSlice(tenant)) {
        return false;
      }
      spoke := spoke.(configVersion := spoke.appliedVersion + 1);
      SaveSpoke(spoke);
      return true;
    }

    method EnsureConfigClearCommand(id: string, newId: string, now: int)
      modifies this`queues
      ensures View(id) == match old(View(id))
                          case Some(h) => Some(EnsureClear(h, newId, now))
                          case None => None
      ensures forall k :: k != id ==> View(k) == old(View(k)) && QueueOf(queues, k) == QueueOf(old(queues), k)
    {
      var found := GetSpoke(id);
      if found.None? || found.value.status != Approved {
        return;
      }
      var commands := QueueOf(queues, id);
      for i := 0 to |commands|
        invariant forall j :: 0 <= j < i ==> !(commands[j].kind == ConfigClear && commands[j].status != Executed)
      {
        if commands[i].kind == ConfigClear && commands[i].status != Executed {
          return;
        }
      }
      queues := queues[id := commands + [NewCommand(newId, ConfigClear, Payload(0, 0, map[]), now + DAY)]];
    }

    // -------------------------------------------------------------------------------
    // Handlers built from the calls above.

    method GetSpokeInbox(id: string, newId: string, now: int) returns (handedOut: seq<Command>)
      modifies this`spokes, this`queues
      ensures old(View(id)).Some? ==>
        && View(id) == Some(InboxPoll(old(View(id)).value, newId, now))
        && handedOut == Deliver(Waiting(Active(Ensure(old(View(id)).value, newId, now).queue, now)), now)
      ensures forall k :: k != id ==> View(k) == old(View(k))
    {
      EnsureConfigUpdateCommand(id, newId, now);
      handedOut := GetQueuedCommands(id, now);
    }

    method HandleSpokeAck(id: string, commandId: string, now: int, result: Option<AckResult>)
      modifies this`spokes, this`queues
      ensures old(View(id)).Some? ==> View(id) == Some(HandleAck(old(View(id)).value, commandId, now, result))
      ensures forall k :: k != id ==> View(k) == old(View(k))
    {
      var command := GetCommand(id, commandId);
      AckCommand(id, commandId, now, result);
      if command.Some? && command.value.kind == ConfigUpdate && Successful(result) {
        var version := command.value.payload.stampedVersion;
        if version > 0 {
          MarkSpokeConfigApplied(id, version, now);
        }
      }
    }

    /** The drift half of a telemetry heartbeat. */
    method FixDrift(id: string, newId: string, now: int)
      modifies this`spokes, this`queues
      ensures View(id) == match old(View(id))
                          case Some(h) => Some(Heartbeat(h, newId, now))
                          case None => None
      ensures forall k :: k != id ==> View(k) == old(View(k))
    {
      var drifted := CheckAndFixConfigDrift(id);
      if drifted {
        EnsureConfigUpdateCommand(id, newId, now);
      }
    }

    /**
     A telemetry report.  `held` is the row its connection holds, possibly since long before; it is saved
     when the report renames the spoke or changes versions, whatever is stored by then.  `spoke` is what
     the connection holds afterwards.
     */
    method ApplySpokeTelemetry(held: Spoke, renamed: bool, reported: map<string, Option<string>>,
                               clearId: string, newId: string, now: int)
      returns (spoke: Spoke)
      modifies this`spokes, this`queues
      ensures spoke == HeldAfter(tenant, held, reported)
      ensures old(View(held.id)).Some? ==>
        View(held.id) == Some(TelemetryFrom(old(View(held.id)).value, held, renamed, reported, clearId, newId, now))
      ensures old(View(held.id)) == Some(Hub(held, QueueOf(old(queues), held.id), tenant)) ==>
        View(held.id) == Some(Telemetry(old(View(held.id)).value, reported, clearId, newId, now))
      ensures forall k :: k != held.id ==> View(k) == old(View(k))
    {
      spoke := held;
      var id, changed := held.id, renamed;
      if spoke.config == map[] && reported != map[] {
        spoke := spoke.(config := reported, configVersion := 1, appliedVersion := 0);
        changed := true;
      }
      if tenant.present && held.configVersion > 0 && !HasPayload(tenant) {
        spoke := spoke.(configVersion := 0, appliedVersion := 0);
        EnsureConfigClearCommand(id, clearId, now);
        changed := true;
      }
      if changed {
        SaveSpoke(spoke);
      }
      FixDrift(id, newId, now);
      ghost var view := old(View(id));
      if view.Some? && view.value.spoke == held {
        TelemetryFromCurrent(view.value, renamed, reported, clearId, newId, now);
      }
    }

    /**
     A direct push of the stored configuration with the changes of `body` and without the credentials;
     `carried` is the number that its own `config_version` key reads as.
     */
    method QueueSpokeConfigPush(id: string, body: map<string, Option<string>>, carried: int, newId: string, now: int)
      returns (ok: bool)
      modifies this`spokes, this`queues
      ensures ok <==> old(View(id)).Some?
      ensures ok ==> var h := old(View(id)).value; var config := PushedConfig(h.spoke.config, body);
        View(id) == Some(RawEnqueue(RawSave(h, config), newId, h.spoke.configVersion + 1, carried, config, now))
      ensures forall k :: k != id ==> View(k) == old(View(k))
    {
      var found := GetSpoke(id);
      if found.None? {
        return false;
      }
      FindSpokeId(spokes, id);
      var config := (found.value.config + body) - AUTH_KEYS;
      var spoke := found.value.(config := config, configVersion := found.value.configVersion + 1);
      SaveSpoke(spoke);
      EnqueueCommand(id, NewCommand(newId, ConfigUpdate, Payload(carried, spoke.configVersion, config), now + DAY),
                     now);
      return true;
    }

    /** One turn of update_tenant_hub_config's loop, on a row as it was when it was listed. */
    method UpdateSpoke(listed: Spoke, managed: bool, newId: string, now: int)
      modifies this`spokes, this`queues
      ensures View(listed.id) == UpdatedFrom(old(View(listed.id)), listed, QueueOf(old(queues), listed.id), tenant,
                                             managed, newId, now)
      ensures forall k :: k != listed.id ==> View(k) == old(View(k)) && QueueOf(queues, k) == QueueOf(old(queues), k)
    {
      if listed.status == Approved {
        if managed {
          SaveSpoke(listed.(configVersion := listed.configVersion + 1));
          EnsureConfigUpdateCommand(listed.id, newId, now);
        } else if listed.configVersion > 0 {
          SaveSpoke(listed.(configVersion := 0, appliedVersion := 0));
          EnsureConfigClearCommand(listed.id, newId, now);
        }
      }
    }

    /** The loop over the listed rows, whatever is stored when their turns come. */
    method UpdateSpokes(listed: seq<Spoke>, managed: bool, newIds: string -> string, now: int)
      requires UniqueSpokes(listed)
      modifies this`spokes, this`queues
      ensures forall i :: 0 <= i < |listed| ==>
        View(listed[i].id) == UpdatedFrom(old(View(listed[i].id)), listed[i], QueueOf(old(queues), listed[i].id),
                                          tenant, managed, newIds(listed[i].id), now)
      ensures forall k :: (forall i :: 0 <= i < |listed| ==> listed[i].id != k) ==> View(k) == old(View(k))
    {
      for i := 0 to |listed|
        invariant forall k :: (forall j :: 0 <= j < i ==> listed[j].id != k) ==>
          View(k) == old(View(k)) && QueueOf(queues, k) == QueueOf(old(queues), k)
        invariant forall j :: 0 <= j < i ==>
          View(listed[j].id) == UpdatedFrom(old(View(listed[j].id)), listed[j], QueueOf(old(queues), listed[j].id),
                                            tenant, managed, newIds(listed[j].id), now)
      {
        UpdateSpoke(listed[i], managed, newIds(listed[i].id), now);
      }
    }

    /**
     Saves the tenant's configuration and bumps or resets every approved spoke; `configured` says whether
     the configuration has any entry, `newIds` supplies command ids.
     */
    method UpdateTenantHubConfig(t: Tenant, configured: bool, newIds: string -> string, now: int)
      requires UniqueSpokes(spokes)
      modifies this
      ensures tenant == t
      ensures forall id :: View(id) == Updated(old(View(id)), t, t.hubEnabled && configured, newIds(id), now)
    {
      tenant := t;
      ghost var listed, queues0, managed := spokes, queues, t.hubEnabled && configured;
      UpdateSpokes(spokes, t.hubEnabled && configured, newIds, now);
      forall id ensures View(id) == Updated(ViewOf(listed, queues0, t, id), t, managed, newIds(id), now) {
        if j :| 0 <= j < |listed| && listed[j].id == id {
          FoundAt(listed, id, j);
        } else {
          FoundNowhere(listed, id);
        }
      }
    }
  }

  /** Credentials that are never stored or pushed. */
  const AUTH_KEYS: set<string> := {
    "admin_password", "auth_provider", "local_users",
    "auth_ldap_url", "auth_ldap_bind_dn", "auth_ldap_bind_password",
    "auth_ldap_user_base", "auth_ldap_user_filter", "auth_ldap_group_admin", "auth_ldap_group_viewer",
    "auth_radius_host", "auth_radius_port", "auth_radius_secret",
    "auth_radius_role_attr", "auth_radius_admin_val",
    "auth_tacacs_host", "auth_tacacs_port", "auth_tacacs_secret", "auth_tacacs_admin_priv"
  }

  function PushedConfig(config: map<string, Option<string>>,
                        body: map<string, Option<string>>): map<string, Option<string>> {
    (config + body) - AUTH_KEYS
  }

  /** What a pushed configuration holds: no credential, else the new value if there is one, else the stored one. */
  lemma PushedConfigMeaning(config: map<string, Option<string>>, body: map<string, Option<string>>, key: string)
    ensures var c := PushedConfig(config, body);
      && (key in c <==> (key in body || key in config) && key !in {
            "admin_password", "auth_provider", "local_users",
            "auth_ldap_url", "auth_ldap_bind_dn", "auth_ldap_bind_password",
            "auth_ldap_user_base", "auth_ldap_user_filter", "auth_ldap_group_admin", "auth_ldap_group_viewer",
            "auth_radius_host", "auth_radius_port", "auth_radius_secret",
            "auth_radius_role_attr", "auth_radius_admin_val",
            "auth_tacacs_host", "auth_tacacs_port", "auth_tacacs_secret", "auth_tacacs_admin_priv"})
      && (key in c ==> c[key] == if key in body then body[key] else config[key])
  {
  }

  /** An update's turn on a listed row: it writes that row over whatever is stored, or does nothing. */
  function UpdatedFrom(view: Option<Hub>, listed: Spoke, queue: seq<Command>, t: Tenant, managed: bool, newId: string,
                       now: int): Option<Hub> {
    if listed.status == Approved && (managed || listed.configVersion > 0)
    then Some(AdminUpdate(Hub(listed, queue, t), managed, newId, now))
    else view
  }

  /**
   The turn in plain terms: an unapproved row, and an unmanaged one that never had a version, changes nothing;
   any other is written with its next version, or with none.
   */
  lemma UpdatedFromMeaning(view: Option<Hub>, listed: Spoke, queue: seq<Command>, t: Tenant, managed: bool,
                           newId: string, now: int)
    ensures var u := UpdatedFrom(view, listed, queue, t, managed, newId, now);
      && (listed.status != Approved || (!managed && listed.configVersion <= 0) ==> u == view)
      && (listed.status == Approved && (managed || listed.configVersion > 0) ==>
            && u.Some? && u.value.tenant == t && u.value.spoke.config == listed.config
            && u.value.spoke.configVersion == (if managed then listed.configVersion + 1 else 0)
            && u.value.spoke.appliedVersion == (if managed then listed.appliedVersion else 0))
  {
  }

  function Updated(view: Option<Hub>, t: Tenant, managed: bool, newId: string, now: int): Option<Hub> {
    match view
    case Some(h) => Some(AdminUpdate(h.(tenant := t), managed, newId, now))
    case None => None
  }

  lemma {:induction false} ActiveSameLength(q: seq<Command>, now: int)
    requires |Active(q, now)| == |q|
    ensures Active(q, now) == q
  {
    if q != [] {
      ActiveMembers(q[1..], now);
      ActiveSameLength(q[1..], now);
    }
  }

  lemma {:induction false} FindSpokeId(spokes: seq<Spoke>, id: string)
    ensures FindSpoke(spokes, id).Some? ==> FindSpoke(spokes, id).value.id == id
  {
    if spokes != [] {
      FindSpokeId(spokes[1..], id);
    }
  }
}
