/**
 Every interleaving of the queue functions of one spoke: enqueueing, inbox polls,
 acknowledgements, purges, clears, and any number of WebSocket pushes, each of which is
 split where app/ws.py gives up control (peek, send, mark).
 */
module QueueRuns {
  import opened Prelude
  import opened CommandQueue

  /** Where a running `push_spoke_commands` stands. */
  datatype Push =
    | Peeked(ids: set<string>)
    | Sending(ids: set<string>, socket: nat)
    | Sent(ids: set<string>)

  /** When a command entered the queue (as a running number) and when it expires. */
  datatype Issue = Issue(seqNo: nat, expiresAt: int)

  /**
   The queue, the pushes under way and the registered socket, followed by the history of
   the run: what was enqueued, what inbox polls returned, what each successful send carried,
   what was acknowledged or cleared, and the latest time read so far.
   */
  datatype Net = Net(
    queue: seq<Command>,
    pushes: map<nat, Push>,
    connection: Option<nat>,
    issued: map<string, Issue>,
    next: nat,
    inbox: seq<string>,
    sent: seq<set<string>>,
    acked: set<string>,
    cleared: set<string>,
    clock: int)

  datatype Event =
    | Enqueue(c: Command, now: int)            // enqueue_command
    | Append(c: Command)                       // the ensure_* functions: no purge
    | Inbox(now: int)                          // get_queued_commands
    | PushPeek(k: nat, now: int)               // push_spoke_commands up to its send
    | SendStart(k: nat)                        // send_to_spoke finds the socket
    | SendEnd(k: nat, ok: bool)                // the send returns or raises
    | PushMark(k: nat, now: int)               // mark_commands_delivered
    | Acknowledge(id: string, now: int, result: Option<AckResult>)
    | Purge(now: int)
    | Clear
    | Register(socket: nat)
    | Unregister(socket: nat)

  function IdSet(q: seq<Command>): set<string> {
    set i | 0 <= i < |q| :: q[i].id
  }

  function Drop(s: Net, k: nat): Net {
    s.(pushes := s.pushes - {k})
  }

  function Purged(s: Net, now: int): Net {
    s.(queue := Active(s.queue, now), clock := Max(s.clock, now))
  }

  function Appended(s: Net, c: Command): Net {
    s.(queue := s.queue + [c], issued := s.issued[c.id := Issue(s.next, c.expiresAt)], next := s.next + 1)
  }

  function Polled(s: Net, now: int): Net {
    s.(queue := Deliver(s.queue, now), inbox := s.inbox + Ids(Waiting(s.queue)))
  }

  function Apply(s: Net, e: Event): Net {
    match e
    case Enqueue(c, now) => Appended(Purged(s, now), c)
    case Append(c) => Appended(s, c)
    case Inbox(now) => Polled(Purged(s, now), now)
    case PushPeek(k, now) =>
      if s.connection.None? then s
      else
        var t := Purged(s, now);
        if Waiting(t.queue) == [] then t else t.(pushes := t.pushes[k := Peeked(IdSet(Waiting(t.queue)))])
    case SendStart(k) =>
      if k in s.pushes && s.pushes[k].Peeked? then
        if s.connection.None? then Drop(s, k)
        else s.(pushes := s.pushes[k := Sending(s.pushes[k].ids, s.connection.value)])
      else s
    case SendEnd(k, ok) =>
      if k in s.pushes && s.pushes[k].Sending? then
        if ok then s.(pushes := s.pushes[k := Sent(s.pushes[k].ids)], sent := s.sent + [s.pushes[k].ids])
        else Drop(s, k).(connection := if s.connection == Some(s.pushes[k].socket) then None else s.connection)
      else s
    case PushMark(k, now) =>
      if k in s.pushes && s.pushes[k].Sent?
      then var t := Purged(Drop(s, k), now); t.(queue := Mark(t.queue, s.pushes[k].ids, now))
      else s
    case Acknowledge(id, now, result) => s.(queue := Ack(s.queue, id, now, result), acked := s.acked + {id})
    case Purge(now) => Purged(s, now)
    case Clear => s.(queue := [], cleared := s.cleared + IdSet(s.queue))
    case Register(socket) => s.(connection := Some(socket))
    case Unregister(socket) => s.(connection := if s.connection == Some(socket) then None else s.connection)
  }

  /** Commands enter the queue fresh: queued, under an id never used before. */
  predicate Fresh(s: Net, e: Event) {
    (e.Enqueue? || e.Append? ==> e.c.id !in s.issued && e.c.status == Queued)
    && (e.PushPeek? ==> e.k !in s.pushes)
  }

  function Run(s: Net, es: seq<Event>): Net
    decreases |es|
  {
    if es == [] then s else Run(Apply(s, es[0]), es[1..])
  }

  predicate FreshRun(s: Net, es: seq<Event>)
    decreases |es|
  {
    es == [] || (Fresh(s, es[0]) && FreshRun(Apply(s, es[0]), es[1..]))
  }

  const START := Net([], map[], None, map[], 0, [], [], {}, {}, 0)

  // ---------------------------------------------------------------------------------
  // What holds in every reachable state.

  /** The queue lists issued commands in the order they were issued. */
  predicate Ordered(q: seq<Command>, issued: map<string, Issue>) {
    (forall i :: 0 <= i < |q| ==> q[i].id in issued && issued[q[i].id].expiresAt == q[i].expiresAt)
    && (forall i, j :: 0 <= i < j < |q| ==> issued[q[i].id].seqNo < issued[q[j].id].seqNo)
  }

  predicate Numbered(issued: map<string, Issue>, next: nat) {
    forall id :: id in issued ==> issued[id].seqNo < next
  }

  /** Inbox results are issued commands, in the order they were issued. */
  predicate InboxInOrder(inbox: seq<string>, issued: map<string, Issue>) {
    (forall i :: 0 <= i < |inbox| ==> inbox[i] in issued)
    && (forall i, j :: 0 <= i < j < |inbox| ==> issued[inbox[i]].seqNo < issued[inbox[j]].seqNo)
  }

  function LastPolled(inbox: seq<string>, issued: map<string, Issue>): int
    requires InboxInOrder(inbox, issued)
  {
    if inbox == [] then -1 else issued[inbox[|inbox| - 1]].seqNo
  }

  /** Whatever still waits was issued after everything an inbox poll has returned. */
  predicate WaitingIsLater(q: seq<Command>, issued: map<string, Issue>, last: int) {
    forall i :: 0 <= i < |q| && q[i].status == Queued ==> q[i].id in issued && last < issued[q[i].id].seqNo
  }

  /** Nothing is delivered without a handout and nothing executed without an acknowledgement. */
  predicate Attributed(q: seq<Command>, given: set<string>, acked: set<string>) {
    forall i :: 0 <= i < |q| ==>
      (q[i].status == Delivered ==> q[i].id in given) && (q[i].status == Executed ==> q[i].id in acked)
  }

  /** Whatever some successful send carried. */
  function SentIds(sent: seq<set<string>>): set<string> {
    if sent == [] then {} else SentIds(sent[..|sent| - 1]) + sent[|sent| - 1]
  }

  lemma SentSnoc(sent: seq<set<string>>, ids: set<string>)
    ensures SentIds(sent + [ids]) == SentIds(sent) + ids
  {
    assert (sent + [ids])[..|sent|] == sent;
  }

  predicate SendsRecorded(pushes: map<nat, Push>, sent: set<string>) {
    forall k :: k in pushes && pushes[k].Sent? ==> pushes[k].ids <= sent
  }

  function StatusRank(st: Status): nat {
    match st case Queued => 0 case Delivered => 1 case Executed => 2
  }

  const GONE: nat := 3

  /** How far a command has come; `GONE` once it has left the queue. */
  function RankOf(q: seq<Command>, id: string): (r: nat)
    ensures r <= GONE
  {
    if q == [] then GONE else if q[0].id == id then StatusRank(q[0].status) else RankOf(q[1..], id)
  }

  /** A command is gone only because it was cleared or because its expiry has passed. */
  predicate NothingLost(q: seq<Command>, issued: map<string, Issue>, cleared: set<string>, clock: int) {
    forall id :: id in issued ==> RankOf(q, id) < GONE || id in cleared || issued[id].expiresAt <= clock
  }

  predicate ClearedGone(q: seq<Command>, issued: map<string, Issue>, cleared: set<string>) {
    (forall id :: id in cleared ==> id in issued)
    && (forall i :: 0 <= i < |q| ==> q[i].id !in cleared)
  }

  function Given(s: Net): set<string> {
    (set id | id in s.inbox) + SentIds(s.sent)
  }

  predicate Inv(s: Net) {
    && Ordered(s.queue, s.issued)
    && Numbered(s.issued, s.next)
    && InboxInOrder(s.inbox, s.issued)
    && WaitingIsLater(s.queue, s.issued, LastPolled(s.inbox, s.issued))
    && Attributed(s.queue, Given(s), s.acked)
    && SendsRecorded(s.pushes, SentIds(s.sent))
    && NothingLost(s.queue, s.issued, s.cleared, s.clock)
    && ClearedGone(s.queue, s.issued, s.cleared)
  }

  predicate RanksRise(p: seq<Command>, q: seq<Command>, issued: map<string, Issue>) {
    forall id :: id in issued ==> RankOf(p, id) <= RankOf(q, id)
  }

  /** What a run may change: ranks only rise, history only grows. */
  predicate Evolves(s: Net, t: Net) {
    && (forall id :: id in s.issued ==> id in t.issued && t.issued[id] == s.issued[id])
    && RanksRise(s.queue, t.queue, s.issued)
    && s.inbox <= t.inbox && s.sent <= t.sent && s.acked <= t.acked && s.cleared <= t.cleared
    && s.clock <= t.clock
  }

  // ---------------------------------------------------------------------------------
  // Ranks under each queue function.

  lemma {:induction false} RankAt(q: seq<Command>, issued: map<string, Issue>, i: nat)
    requires Ordered(q, issued) && i < |q|
    ensures RankOf(q, q[i].id) == StatusRank(q[i].status)
  {
    if i > 0 {
      assert issued[q[0].id].seqNo < issued[q[i].id].seqNo;
      RankAt(q[1..], issued, i - 1);
    }
  }

  lemma {:induction false} RankFound(q: seq<Command>, id: string) returns (i: nat)
    requires RankOf(q, id) < GONE
    ensures i < |q| && q[i].id == id && RankOf(q, id) == StatusRank(q[i].status)
  {
    if q[0].id == id {
      i := 0;
    } else {
      i := RankFound(q[1..], id);
      i := i + 1;
    }
  }

  lemma {:induction false} RankAbsent(q: seq<Command>, id: string)
    requires forall i :: 0 <= i < |q| ==> q[i].id != id
    ensures RankOf(q, id) == GONE
  {
    if q != [] {
      RankAbsent(q[1..], id);
    }
  }

  lemma {:induction false} RankActive(q: seq<Command>, issued: map<string, Issue>, now: int, id: string)
    requires Ordered(q, issued) && id in issued
    ensures RankOf(q, id) <= RankOf(Active(q, now), id)
    ensures issued[id].expiresAt > now ==> RankOf(q, id) == RankOf(Active(q, now), id)
  {
    if q != [] {
      RankActive(q[1..], issued, now, id);
      if !Live(q[0], now) && q[0].id == id {
        forall i | 0 <= i < |q[1..]| ensures q[1..][i].id != id {
          assert issued[q[0].id].seqNo < issued[q[i + 1].id].seqNo;
        }
        RankAbsent(q[1..], id);
      }
    }
  }

  /** `q` is `p` with some commands moved forward in place. */
  predicate Advanced(p: seq<Command>, q: seq<Command>) {
    |p| == |q|
    && forall i :: 0 <= i < |p| ==>
         p[i].id == q[i].id && p[i].expiresAt == q[i].expiresAt && StatusRank(p[i].status) <= StatusRank(q[i].status)
  }

  lemma {:induction false} RankAdvanced(p: seq<Command>, q: seq<Command>, id: string)
    requires Advanced(p, q)
    ensures RankOf(p, id) <= RankOf(q, id)
    ensures RankOf(p, id) < GONE ==> RankOf(q, id) < GONE
  {
    if p != [] {
      RankAdvanced(p[1..], q[1..], id);
    }
  }

  lemma {:induction false} RankAppend(q: seq<Command>, c: Command, id: string)
    ensures id != c.id ==> RankOf(q + [c], id) == RankOf(q, id)
    ensures RankOf(q + [c], c.id) < GONE
  {
    if q == [] {
      assert q + [c] == [c];
    } else {
      assert (q + [c])[1..] == q[1..] + [c];
      RankAppend(q[1..], c, id);
    }
  }

  // ---------------------------------------------------------------------------------
  // Order under each queue function.

  lemma {:induction false} OrderedActive(q: seq<Command>, issued: map<string, Issue>, now: int)
    requires Ordered(q, issued)
    ensures Ordered(Active(q, now), issued)
  {
    if q != [] {
      OrderedActive(q[1..], issued, now);
      var rest := Active(q[1..], now);
      forall j | 0 <= j < |rest| ensures issued[q[0].id].seqNo < issued[rest[j].id].seqNo {
        var i := ActiveOrigin(q[1..], now, j);
        assert q[i + 1] == rest[j];
      }
    }
  }

  lemma {:induction false} OrderedWaiting(q: seq<Command>, issued: map<string, Issue>, last: int)
    requires Ordered(q, issued) && WaitingIsLater(q, issued, last)
    ensures Ordered(Waiting(q), issued)
    ensures forall j :: 0 <= j < |Waiting(q)| ==> last < issued[Waiting(q)[j].id].seqNo
  {
    if q != [] {
      OrderedWaiting(q[1..], issued, last);
      if q[0].status == Queued {
        assert Ordered(q[1..], issued);
        forall i | 0 <= i < |q[1..]| ensures issued[q[0].id].seqNo < issued[q[1..][i].id].seqNo {
          assert q[1..][i] == q[i + 1];
        }
        WaitingAfterHead(q[1..], issued, issued[q[0].id].seqNo);
      }
    }
  }

  lemma {:induction false} WaitingAfterHead(q: seq<Command>, issued: map<string, Issue>, low: int)
    requires Ordered(q, issued)
    requires forall i :: 0 <= i < |q| ==> low < issued[q[i].id].seqNo
    ensures forall j :: 0 <= j < |Waiting(q)| ==>
      Waiting(q)[j].id in issued && low < issued[Waiting(q)[j].id].seqNo
  {
    if q != [] {
      assert q[0].id in issued;
      WaitingAfterHead(q[1..], issued, low);
    }
  }

  lemma OrderedAppend(q: seq<Command>, issued: map<string, Issue>, next: nat, c: Command)
    requires Ordered(q, issued) && Numbered(issued, next) && c.id !in issued
    ensures Ordered(q + [c], issued[c.id := Issue(next, c.expiresAt)])
  {
  }

  // ---------------------------------------------------------------------------------
  // One step keeps the invariant and evolves.

  /** The effect of purging expired commands at `now`, which five of the steps begin with. */
  lemma PurgeStep(s: Net, now: int)
    requires Inv(s)
    ensures Inv(Purged(s, now)) && Evolves(s, Purged(s, now))
  {
    var q := Active(s.queue, now);
    OrderedActive(s.queue, s.issued, now);
    forall j | 0 <= j < |q|
      ensures exists i :: 0 <= i < |s.queue| && s.queue[i] == q[j]
    {
      var i := ActiveOrigin(s.queue, now, j);
    }
    assert RanksRise(s.queue, q, s.issued) && NothingLost(q, s.issued, s.cleared, Max(s.clock, now)) by {
      PurgeRanks(s.queue, s.issued, s.cleared, s.clock, now);
    }
  }

  lemma PurgeRanks(q: seq<Command>, issued: map<string, Issue>, cleared: set<string>, clock: int, now: int)
    requires Ordered(q, issued) && NothingLost(q, issued, cleared, clock)
    ensures RanksRise(q, Active(q, now), issued)
    ensures NothingLost(Active(q, now), issued, cleared, Max(clock, now))
  {
    forall id | id in issued
      ensures RankOf(q, id) <= RankOf(Active(q, now), id)
      ensures RankOf(Active(q, now), id) < GONE || id in cleared || issued[id].expiresAt <= Max(clock, now)
    {
      RankActive(q, issued, now, id);
    }
  }

  /** Moving commands forward in place, given that the handouts and acknowledgements are on record. */
  lemma AdvanceStep(s: Net, t: Net)
    requires Inv(s)
    requires t == s.(queue := t.queue, acked := t.acked) && s.acked <= t.acked
    requires Advanced(s.queue, t.queue) && Attributed(t.queue, Given(t), t.acked)
    ensures Inv(t) && Evolves(s, t)
  {
    assert RanksRise(s.queue, t.queue, s.issued) && NothingLost(t.queue, s.issued, s.cleared, s.clock) by {
      forall id ensures RankOf(s.queue, id) <= RankOf(t.queue, id)
        ensures RankOf(s.queue, id) < GONE ==> RankOf(t.queue, id) < GONE
      {
        RankAdvanced(s.queue, t.queue, id);
      }
    }
  }

  lemma AckStep(s: Net, id: string, now: int, result: Option<AckResult>)
    requires Inv(s)
    ensures Inv(Apply(s, Acknowledge(id, now, result))) && Evolves(s, Apply(s, Acknowledge(id, now, result)))
  {
    var t := Apply(s, Acknowledge(id, now, result));
    assert Given(t) == Given(s);
    AdvanceStep(s, t);
  }

  lemma MarkStep(s: Net, ids: set<string>, now: int)
    requires Inv(s) && ids <= SentIds(s.sent)
    ensures var t := s.(queue := Mark(s.queue, ids, now)); Inv(t) && Evolves(s, t)
  {
    var t := s.(queue := Mark(s.queue, ids, now));
    assert Given(t) == Given(s);
    AdvanceStep(s, t);
  }

  lemma AppendStep(s: Net, c: Command)
    requires Inv(s) && c.id !in s.issued && c.status == Queued
    ensures Inv(Appended(s, c)) && Evolves(s, Appended(s, c))
  {
    var t := Appended(s, c);
    OrderedAppend(s.queue, s.issued, s.next, c);
    assert Given(t) == Given(s);
    assert LastPolled(t.inbox, t.issued) == LastPolled(s.inbox, s.issued);
    assert LastPolled(s.inbox, s.issued) < s.next;
    assert RanksRise(s.queue, t.queue, s.issued) && NothingLost(t.queue, t.issued, t.cleared, t.clock) by {
      forall id ensures id != c.id ==> RankOf(t.queue, id) == RankOf(s.queue, id)
        ensures RankOf(t.queue, c.id) < GONE
      {
        RankAppend(s.queue, c, id);
      }
    }
  }

  /** Every command that was waiting is among those handed out. */
  lemma HandedOut(q: seq<Command>, i: nat)
    requires i < |q| && q[i].status == Queued
    ensures q[i].id in Ids(Waiting(q))
  {
    WaitingMembers(q);
    assert q[i] in Waiting(q);
    var j :| 0 <= j < |Waiting(q)| && Waiting(q)[j] == q[i];
    assert Ids(Waiting(q))[j] == q[i].id;
  }

  lemma PollExtendsInbox(q: seq<Command>, inbox: seq<string>, issued: map<string, Issue>)
    requires Ordered(q, issued) && InboxInOrder(inbox, issued)
    requires WaitingIsLater(q, issued, LastPolled(inbox, issued))
    ensures InboxInOrder(inbox + Ids(Waiting(q)), issued)
  {
    var w := Waiting(q);
    OrderedWaiting(q, issued, LastPolled(inbox, issued));
    var all := inbox + Ids(w);
    forall i, j | 0 <= i < j < |all| ensures issued[all[i]].seqNo < issued[all[j]].seqNo {
      if i < |inbox| <= j {
        assert issued[all[i]].seqNo <= LastPolled(inbox, issued);
        assert all[j] == w[j - |inbox|].id;
      } else if |inbox| <= i {
        assert all[i] == w[i - |inbox|].id && all[j] == w[j - |inbox|].id;
      }
    }
  }

  lemma DeliverRanks(q: seq<Command>, issued: map<string, Issue>, cleared: set<string>, clock: int, now: int)
    requires NothingLost(q, issued, cleared, clock)
    ensures RanksRise(q, Deliver(q, now), issued) && NothingLost(Deliver(q, now), issued, cleared, clock)
  {
    forall id
      ensures RankOf(q, id) <= RankOf(Deliver(q, now), id)
      ensures RankOf(q, id) < GONE ==> RankOf(Deliver(q, now), id) < GONE
    {
      RankAdvanced(q, Deliver(q, now), id);
    }
  }

  lemma DeliverAttributed(s: Net, now: int)
    requires Attributed(s.queue, Given(s), s.acked)
    ensures var t := Polled(s, now); Attributed(t.queue, Given(t), t.acked)
  {
    forall i | 0 <= i < |s.queue| && s.queue[i].status == Queued ensures s.queue[i].id in Given(Polled(s, now)) {
      HandedOut(s.queue, i);
    }
  }

  /** After a delivery nothing waits, and order and clearings are as before. */
  lemma DeliverOrdered(q: seq<Command>, issued: map<string, Issue>, cleared: set<string>, now: int, last: int)
    requires Ordered(q, issued) && ClearedGone(q, issued, cleared)
    ensures var d := Deliver(q, now);
      Ordered(d, issued) && WaitingIsLater(d, issued, last) && ClearedGone(d, issued, cleared)
  {
  }

  lemma DeliverStep(s: Net, now: int)
    requires Inv(s)
    ensures Inv(Polled(s, now)) && Evolves(s, Polled(s, now))
  {
    var t := Polled(s, now);
    PollExtendsInbox(s.queue, s.inbox, s.issued);
    DeliverRanks(s.queue, s.issued, s.cleared, s.clock, now);
    DeliverAttributed(s, now);
    DeliverOrdered(s.queue, s.issued, s.cleared, now, LastPolled(t.inbox, s.issued));
  }

  /** A step that leaves the queue and its history alone, apart from pushes and sends. */
  lemma PushStep(s: Net, t: Net)
    requires Inv(s)
    requires t == s.(pushes := t.pushes, connection := t.connection, sent := t.sent) && s.sent <= t.sent
    requires SentIds(s.sent) <= SentIds(t.sent) && SendsRecorded(t.pushes, SentIds(t.sent))
    ensures Inv(t) && Evolves(s, t)
  {
    assert Given(s) <= Given(t);
  }

  lemma ClearStep(s: Net)
    requires Inv(s)
    ensures Inv(Apply(s, Clear)) && Evolves(s, Apply(s, Clear))
  {
    var t := Apply(s, Clear);
    forall id | id in s.issued && RankOf(s.queue, id) < GONE ensures id in t.cleared {
      var i := RankFound(s.queue, id);
    }
  }

  lemma EvolvesTransitive(s: Net, t: Net, u: Net)
    requires Evolves(s, t) && Evolves(t, u)
    ensures Evolves(s, u)
  {
  }

  lemma EnqueueStep(s: Net, c: Command, now: int)
    requires Inv(s) && Fresh(s, Enqueue(c, now))
    ensures Inv(Apply(s, Enqueue(c, now))) && Evolves(s, Apply(s, Enqueue(c, now)))
  {
    PurgeStep(s, now);
    var p := Purged(s, now);
    AppendStep(p, c);
    EvolvesTransitive(s, p, Appended(p, c));
  }

  lemma InboxStep(s: Net, now: int)
    requires Inv(s)
    ensures Inv(Polled(Purged(s, now), now)) && Evolves(s, Polled(Purged(s, now), now))
  {
    var p := Purged(s, now);
    assert Inv(p) && Evolves(s, p) by {
      PurgeStep(s, now);
    }
    assert Inv(Polled(p, now)) && Evolves(p, Polled(p, now)) by {
      DeliverStep(p, now);
    }
    EvolvesTransitive(s, p, Polled(p, now));
  }

  lemma PushPeekStep(s: Net, k: nat, now: int)
    requires Inv(s) && Fresh(s, PushPeek(k, now))
    ensures Inv(Apply(s, PushPeek(k, now))) && Evolves(s, Apply(s, PushPeek(k, now)))
  {
    var t := Apply(s, PushPeek(k, now));
    PushStep(s, s);
    if s.connection.Some? {
      PurgeStep(s, now);
      PushStep(Purged(s, now), t);
      EvolvesTransitive(s, Purged(s, now), t);
    }
  }

  lemma PushMarkStep(s: Net, k: nat, now: int)
    requires Inv(s)
    ensures Inv(Apply(s, PushMark(k, now))) && Evolves(s, Apply(s, PushMark(k, now)))
  {
    PushStep(s, s);
    if k in s.pushes && s.pushes[k].Sent? {
      var d := Drop(s, k);
      PushStep(s, d);
      PurgeStep(d, now);
      var p := Purged(d, now);
      MarkStep(p, s.pushes[k].ids, now);
      EvolvesTransitive(s, d, p);
      EvolvesTransitive(s, p, Apply(s, PushMark(k, now)));
    }
  }

  lemma SendEndStep(s: Net, k: nat, ok: bool)
    requires Inv(s)
    ensures Inv(Apply(s, SendEnd(k, ok))) && Evolves(s, Apply(s, SendEnd(k, ok)))
  {
    if k in s.pushes {
      SentSnoc(s.sent, s.pushes[k].ids);
    }
    PushStep(s, Apply(s, SendEnd(k, ok)));
  }

  lemma Step(s: Net, e: Event)
    requires Inv(s) && Fresh(s, e)
    ensures Inv(Apply(s, e)) && Evolves(s, Apply(s, e))
  {
    match e
    case Enqueue(c, now) => EnqueueStep(s, c, now);
    case Append(c) => AppendStep(s, c);
    case Inbox(now) => InboxStep(s, now);
    case PushPeek(k, now) => PushPeekStep(s, k, now);
    case PushMark(k, now) => PushMarkStep(s, k, now);
    case Acknowledge(id, now, result) => AckStep(s, id, now, result);
    case Purge(now) => PurgeStep(s, now);
    case Clear => ClearStep(s);
    case SendStart(k) => PushStep(s, Apply(s, e));
    case SendEnd(k, ok) => SendEndStep(s, k, ok);
    case Register(socket) => PushStep(s, Apply(s, e));
    case Unregister(socket) => PushStep(s, Apply(s, e));
  }

  /** The invariant and the evolution hold over every fresh run from every state that has it. */
  lemma {:induction false} RunKeeps(s: Net, es: seq<Event>)
    requires Inv(s) && FreshRun(s, es)
    ensures Inv(Run(s, es)) && Evolves(s, Run(s, es))
    decreases |es|
  {
    if es != [] {
      Step(s, es[0]);
      RunKeeps(Apply(s, es[0]), es[1..]);
      EvolvesTransitive(s, Apply(s, es[0]), Run(s, es));
    }
  }

  lemma StartInv()
    ensures Inv(START)
  {
  }

  // ---------------------------------------------------------------------------------
  // What the runs guarantee.

  /** Commands that are in both queues stand in the same order in both. */
  predicate SameOrder(p: seq<Command>, q: seq<Command>) {
    forall i, j, m, n :: 0 <= i < |p| && 0 <= j < |p| && 0 <= m < |q| && 0 <= n < |q| ==>
      p[i].id == q[m].id && p[j].id == q[n].id ==> (i < j <==> m < n)
  }

  /**
   Lifecycle: along any run a command's rank (queued, delivered, executed, gone) never drops,
   so no mark that arrives late demotes an acknowledged command; ids stay unique; and two
   commands that are still in the queue stand in the same order.
   */
  lemma Lifecycle(s: Net, es: seq<Event>)
    requires Inv(s) && FreshRun(s, es)
    ensures RanksRise(s.queue, Run(s, es).queue, s.issued)
    ensures UniqueIds(Run(s, es).queue)
    ensures SameOrder(s.queue, Run(s, es).queue)
  {
    RunKeeps(s, es);
    UniqueByNumber(Run(s, es));
    OrderKept(s, Run(s, es));
  }

  lemma OrderKept(s: Net, t: Net)
    requires Inv(s) && Inv(t) && Evolves(s, t)
    ensures SameOrder(s.queue, t.queue)
  {
    forall i, j, m, n | 0 <= i < |s.queue| && 0 <= j < |s.queue| && 0 <= m < |t.queue| && 0 <= n < |t.queue|
      ensures s.queue[i].id == t.queue[m].id && s.queue[j].id == t.queue[n].id ==> (i < j <==> m < n)
    {
      PositionByNumber(s, i, j);
      PositionByNumber(t, m, n);
    }
  }

  lemma UniqueByNumber(t: Net)
    requires Inv(t)
    ensures UniqueIds(t.queue)
  {
    forall i, j | 0 <= i < j < |t.queue| ensures t.queue[i].id != t.queue[j].id {
      assert t.issued[t.queue[i].id].seqNo < t.issued[t.queue[j].id].seqNo;
    }
  }

  lemma PositionByNumber(s: Net, i: nat, j: nat)
    requires Inv(s) && i < |s.queue| && j < |s.queue|
    ensures s.queue[i].id in s.issued && s.queue[j].id in s.issued
    ensures i < j <==> s.issued[s.queue[i].id].seqNo < s.issued[s.queue[j].id].seqNo
  {
    if j < i {
      assert s.issued[s.queue[j].id].seqNo < s.issued[s.queue[i].id].seqNo;
    }
  }

  /**
   No loss: a command that is in the queue now is still in it after any run, unless the run
   cleared the queue or read a time at or past the command's expiry.
   */
  lemma NoLiveCommandLost(s: Net, es: seq<Event>, i: nat)
    requires Inv(s) && FreshRun(s, es) && i < |s.queue|
    ensures var t := Run(s, es);
      RankOf(t.queue, s.queue[i].id) < GONE || s.queue[i].id in t.cleared - s.cleared || s.queue[i].expiresAt <= t.clock
  {
    RunKeeps(s, es);
    assert s.queue[i].id in Run(s, es).issued;
  }

  /** Inbox polls return every command at most once over the whole run, in enqueue order. */
  lemma InboxOnceInOrder(es: seq<Event>)
    requires FreshRun(START, es)
    ensures var t := Run(START, es);
      && (forall i :: 0 <= i < |t.inbox| ==> t.inbox[i] in t.issued)
      && (forall i, j :: 0 <= i < j < |t.inbox| ==>
            t.inbox[i] != t.inbox[j] && t.issued[t.inbox[i]].seqNo < t.issued[t.inbox[j]].seqNo)
  {
    StartInv();
    RunKeeps(START, es);
  }

  /** On the WebSocket path nothing becomes delivered without a send that carried it and returned true. */
  lemma DeliveredWasHandedOut(es: seq<Event>, i: nat)
    requires FreshRun(START, es) && i < |Run(START, es).queue|
    ensures var t := Run(START, es);
      && (t.queue[i].status == Delivered ==> t.queue[i].id in t.inbox || t.queue[i].id in SentIds(t.sent))
      && (t.queue[i].status == Executed ==> t.queue[i].id in t.acked)
  {
    StartInv();
    RunKeeps(START, es);
    assert Attributed(Run(START, es).queue, Given(Run(START, es)), Run(START, es).acked);
  }

  /**
   At least once: whatever pushes fail or stay unfinished, an inbox poll leaves every command
   that was enqueued, not cleared, not acknowledged and not yet expired handed out by one of
   the two paths.
   */
  lemma AtLeastOnce(s: Net, now: int, id: string)
    requires Inv(s)
    requires var t := Apply(s, Inbox(now));
      id in t.issued && id !in t.cleared && id !in t.acked && t.issued[id].expiresAt > t.clock
    ensures id in Apply(s, Inbox(now)).inbox || id in SentIds(Apply(s, Inbox(now)).sent)
  {
    var t := Apply(s, Inbox(now));
    InboxStep(s, now);
    var i := RankFound(t.queue, id);
    assert t.queue[i] == DeliverOne(Active(s.queue, now)[i], now);
    assert Attributed(t.queue, Given(t), t.acked);
  }

  // ---------------------------------------------------------------------------------
  // Time stamps.

  /** The times of the polls and marks of a run, and of its acknowledgements. */
  function HandoutTimes(es: seq<Event>): set<int> {
    set i | 0 <= i < |es| && (es[i].Inbox? || es[i].PushMark?) :: es[i].now
  }

  function AckTimes(es: seq<Event>): set<int> {
    set i | 0 <= i < |es| && es[i].Acknowledge? :: es[i].now
  }

  /**
   A queued command has no stamps, a delivered one that of a poll or mark, and an executed one that of an
   acknowledgement.
   */
  predicate Stamped(q: seq<Command>, handouts: set<int>, acks: set<int>) {
    forall i :: 0 <= i < |q| ==> StampedOne(q[i], handouts, acks)
  }

  predicate StampedOne(c: Command, handouts: set<int>, acks: set<int>) {
    && (c.deliveredAt.Some? ==> c.deliveredAt.value in handouts) && (c.executedAt.Some? ==> c.executedAt.value in acks)
    && (c.status == Queued ==> c.deliveredAt == None) && (c.status == Delivered ==> c.deliveredAt.Some?)
    && (c.status == Executed <==> c.executedAt.Some?)
  }

  /** Commands enter the queue without stamps. */
  predicate Unstamped(e: Event) {
    (e.Enqueue? || e.Append?) ==> e.c.status == Queued && e.c.deliveredAt == None && e.c.executedAt == None
  }

  lemma ActiveStamped(q: seq<Command>, now: int, handouts: set<int>, acks: set<int>)
    requires Stamped(q, handouts, acks)
    ensures Stamped(Active(q, now), handouts, acks)
  {
    ActiveMembers(q, now);
    forall i | 0 <= i < |Active(q, now)| ensures StampedOne(Active(q, now)[i], handouts, acks) {
      assert Active(q, now)[i] in q;
    }
  }

  lemma StampStep(s: Net, e: Event, handouts: set<int>, acks: set<int>)
    requires Stamped(s.queue, handouts, acks) && Unstamped(e)
    requires (e.Inbox? || e.PushMark? ==> e.now in handouts) && (e.Acknowledge? ==> e.now in acks)
    ensures Stamped(Apply(s, e).queue, handouts, acks)
  {
    match e
    case Enqueue(c, now) => ActiveStamped(s.queue, now, handouts, acks);
    case Inbox(now) => ActiveStamped(s.queue, now, handouts, acks);
    case PushPeek(k, now) => ActiveStamped(s.queue, now, handouts, acks);
    case PushMark(k, now) => ActiveStamped(s.queue, now, handouts, acks);
    case Purge(now) => ActiveStamped(s.queue, now, handouts, acks);
    case _ =>
  }

  lemma {:induction false} StampRun(s: Net, es: seq<Event>, handouts: set<int>, acks: set<int>)
    requires Stamped(s.queue, handouts, acks) && forall i :: 0 <= i < |es| ==> Unstamped(es[i])
    requires HandoutTimes(es) <= handouts && AckTimes(es) <= acks
    ensures Stamped(Run(s, es).queue, handouts, acks)
    decreases |es|
  {
    if es != [] {
      var rest := es[1..];
      forall t | t in HandoutTimes(rest) ensures t in handouts {
        var i :| 0 <= i < |rest| && (rest[i].Inbox? || rest[i].PushMark?) && rest[i].now == t;
        assert es[i + 1] == rest[i] && t in HandoutTimes(es);
      }
      forall t | t in AckTimes(rest) ensures t in acks {
        var i :| 0 <= i < |rest| && rest[i].Acknowledge? && rest[i].now == t;
        assert es[i + 1] == rest[i] && t in AckTimes(es);
      }
      assert es[0].Inbox? || es[0].PushMark? ==> es[0].now in HandoutTimes(es);
      assert es[0].Acknowledge? ==> es[0].now in AckTimes(es);
      StampStep(s, es[0], handouts, acks);
      StampRun(Apply(s, es[0]), rest, handouts, acks);
    }
  }

  /** In every run a command is stamped as delivered and as executed, at a time of an event that does so. */
  lemma TimesRecorded(es: seq<Event>)
    requires forall i :: 0 <= i < |es| ==> Unstamped(es[i])
    ensures Stamped(Run(START, es).queue, HandoutTimes(es), AckTimes(es))
  {
    StampRun(START, es, HandoutTimes(es), AckTimes(es));
  }
}
