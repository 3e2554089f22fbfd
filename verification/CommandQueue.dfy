/**
 The per-spoke command queue of app/store.py, as a value: what each locked queue function
 does to the list of commands.  `HubStore` proves its loops against these functions, and
 `QueueRuns` proves what every interleaving of them keeps.
 */
module CommandQueue {
  import opened Prelude

  datatype Status = Queued | Delivered | Executed

  datatype Kind = ConfigUpdate | ConfigClear | OtherKind(name: string)

  /**
   The part of a command's payload that the hub itself reads back: the two version keys
   (`config_version` and `__config_version`, 0 when the key is absent) and the configuration.
   */
  datatype Payload = Payload(
    configVersion: int,
    stampedVersion: int,
    config: map<string, Option<string>>)

  /** The `result` object of an acknowledgement; `success` may be left out by the spoke. */
  datatype AckResult = AckResult(success: Option<bool>, detail: string)

  datatype Command = Command(
    id: string,
    kind: Kind,
    payload: Payload,
    status: Status,
    expiresAt: int,
    deliveredAt: Option<int>,
    executedAt: Option<int>,
    result: Option<AckResult>)

  /** A command as every producer creates it. */
  function NewCommand(id: string, kind: Kind, payload: Payload, expiresAt: int): Command {
    Command(id, kind, payload, Queued, expiresAt, None, None, None)
  }

  /** An acknowledgement counts as successful unless it says otherwise. */
  predicate Successful(result: Option<AckResult>) {
    result.None? || result.value.success != Some(false)
  }

  predicate Live(c: Command, now: int) {
    c.expiresAt > now
  }

  predicate HasId(q: seq<Command>, id: string) {
    exists i :: 0 <= i < |q| && q[i].id == id
  }

  predicate UniqueIds(q: seq<Command>) {
    forall i, j :: 0 <= i < j < |q| ==> q[i].id != q[j].id
  }

  /** The commands that have not expired, in order. */
  function Active(q: seq<Command>, now: int): seq<Command> {
    if q == [] then []
    else if Live(q[0], now) then [q[0]] + Active(q[1..], now)
    else Active(q[1..], now)
  }

  /** The commands still waiting to be handed out, in order. */
  function Waiting(q: seq<Command>): seq<Command> {
    if q == [] then []
    else if q[0].status == Queued then [q[0]] + Waiting(q[1..])
    else Waiting(q[1..])
  }

  function Ids(q: seq<Command>): seq<string> {
    seq(|q|, i requires 0 <= i < |q| => q[i].id)
  }

  function MarkOne(c: Command, ids: set<string>, now: int): Command {
    if c.id in ids && c.status == Queued
    then c.(status := Delivered, deliveredAt := Some(now))
    else c
  }

  function Mark(q: seq<Command>, ids: set<string>, now: int): seq<Command> {
    seq(|q|, i requires 0 <= i < |q| => MarkOne(q[i], ids, now))
  }

  function DeliverOne(c: Command, now: int): Command {
    if c.status == Queued then c.(status := Delivered, deliveredAt := Some(now)) else c
  }

  function Deliver(q: seq<Command>, now: int): seq<Command> {
    seq(|q|, i requires 0 <= i < |q| => DeliverOne(q[i], now))
  }

  function AckOne(c: Command, now: int, result: Option<AckResult>): Command {
    c.(status := Executed, executedAt := Some(now), result := if result.Some? then result else c.result)
  }

  /** Where the first command with the given id stands, or the length of the queue. */
  function FirstIndex(q: seq<Command>, id: string): (k: nat)
    ensures k <= |q|
    ensures forall j :: 0 <= j < k ==> q[j].id != id
    ensures k < |q| ==> q[k].id == id
  {
    if q == [] || q[0].id == id then 0 else 1 + FirstIndex(q[1..], id)
  }

  /** The first command with the given id is executed; with no such command nothing changes. */
  function Ack(q: seq<Command>, id: string, now: int, result: Option<AckResult>): seq<Command> {
    var k := FirstIndex(q, id);
    if k < |q| then q[k := AckOne(q[k], now, result)] else q
  }

  function FindCommand(q: seq<Command>, id: string): Option<Command> {
    var k := FirstIndex(q, id);
    if k < |q| then Some(q[k]) else None
  }

  // ---------------------------------------------------------------------------------
  // What the functions above do to membership, by element.

  lemma {:induction false} ActiveMembers(q: seq<Command>, now: int)
    ensures |Active(q, now)| <= |q|
    ensures forall c :: c in Active(q, now) <==> c in q && Live(c, now)
  {
    if q != [] {
      ActiveMembers(q[1..], now);
      assert q == [q[0]] + q[1..];
    }
  }

  lemma {:induction false} WaitingMembers(q: seq<Command>)
    ensures |Waiting(q)| <= |q|
    ensures forall c :: c in Waiting(q) <==> c in q && c.status == Queued
  {
    if q != [] {
      WaitingMembers(q[1..]);
      assert q == [q[0]] + q[1..];
    }
  }

  lemma {:induction false} ActiveAllLive(q: seq<Command>, now: int)
    requires forall c :: c in q ==> Live(c, now)
    ensures Active(q, now) == q
  {
    if q != [] {
      assert q[0] in q;
      forall c | c in q[1..] ensures Live(c, now) { assert c in q; }
      ActiveAllLive(q[1..], now);
    }
  }

  lemma {:induction false} ActiveConcat(p: seq<Command>, q: seq<Command>, now: int)
    ensures Active(p + q, now) == Active(p, now) + Active(q, now)
  {
    if p == [] {
      assert p + q == q;
    } else {
      assert (p + q)[1..] == p[1..] + q;
      ActiveConcat(p[1..], q, now);
    }
  }

  /** Each active command comes from the queue, no earlier than where it now stands. */
  lemma {:induction false} ActiveOrigin(q: seq<Command>, now: int, j: nat) returns (i: nat)
    requires j < |Active(q, now)|
    ensures i < |q| && q[i] == Active(q, now)[j] && j <= i
  {
    if Live(q[0], now) {
      if j == 0 {
        i := 0;
      } else {
        i := ActiveOrigin(q[1..], now, j - 1);
        i := i + 1;
      }
    } else {
      i := ActiveOrigin(q[1..], now, j);
      i := i + 1;
    }
  }

  /** Two active commands stand in the order in which they stood in the queue. */
  lemma {:induction false} ActiveKeepsOrder(q: seq<Command>, now: int, j: nat, m: nat) returns (i: nat, n: nat)
    requires j < m < |Active(q, now)|
    ensures i < n < |q| && q[i] == Active(q, now)[j] && q[n] == Active(q, now)[m]
  {
    if !Live(q[0], now) {
      i, n := ActiveKeepsOrder(q[1..], now, j, m);
      i, n := i + 1, n + 1;
    } else if j == 0 {
      n := ActiveOrigin(q[1..], now, m - 1);
      i, n := 0, n + 1;
    } else {
      i, n := ActiveKeepsOrder(q[1..], now, j - 1, m - 1);
      i, n := i + 1, n + 1;
    }
  }

  lemma {:induction false} UniqueActive(q: seq<Command>, now: int)
    requires UniqueIds(q)
    ensures UniqueIds(Active(q, now))
  {
    if q != [] {
      UniqueActive(q[1..], now);
      var rest := Active(q[1..], now);
      forall j | 0 <= j < |rest| ensures rest[j].id != q[0].id {
        var i := ActiveOrigin(q[1..], now, j);
        assert q[i + 1] == rest[j];
      }
    }
  }

  /**
   With unique ids an acknowledgement executes exactly the command it names, and keeps its result if it
   brings none.
   */
  lemma AckMeaning(q: seq<Command>, id: string, now: int, result: Option<AckResult>, i: nat)
    requires UniqueIds(q) && i < |q|
    ensures var a := Ack(q, id, now, result);
      && |a| == |q| && a[i] == q[i].(status := a[i].status, executedAt := a[i].executedAt, result := a[i].result)
      && (q[i].id != id ==> a[i] == q[i])
      && (q[i].id == id ==> a[i].status == Executed && a[i].executedAt == Some(now)
                            && a[i].result == if result.Some? then result else q[i].result)
  {
    var k := FirstIndex(q, id);
    assert k < |q| && k != i ==> q[k].id != q[i].id;
  }
}
