/**
 The hub's side of one spoke's WebSocket (app/ws.py).  `push_spoke_commands` gives up control while
 its send is under way, so everything other tasks do meanwhile is a parameter; the methods here are
 proved to be the push events of `QueueRuns`, whose theorems therefore speak about this code.
 */
module Relay {
  import opened Prelude
  import opened CommandQueue
  import opened QueueRuns

  /** An event of another task: it may be anything but a step of push `k`. */
  predicate Foreign(e: Event, k: nat) {
    match e
    case PushPeek(j, _) => j != k
    case SendStart(j) => j != k
    case SendEnd(j, _) => j != k
    case PushMark(j, _) => j != k
    case _ => true
  }

  predicate AllForeign(es: seq<Event>, k: nat) {
    forall i :: 0 <= i < |es| ==> Foreign(es[i], k)
  }

  lemma {:induction false} ForeignLeavesPush(s: Net, es: seq<Event>, k: nat)
    requires AllForeign(es, k)
    ensures k in Run(s, es).pushes <==> k in s.pushes
    ensures k in s.pushes ==> Run(s, es).pushes[k] == s.pushes[k]
    decreases |es|
  {
    if es != [] {
      OneForeign(s, es[0], k);
      ForeignLeavesPush(Apply(s, es[0]), es[1..], k);
    }
  }

  lemma OneForeign(s: Net, e: Event, k: nat)
    requires Foreign(e, k)
    ensures k in Apply(s, e).pushes <==> k in s.pushes
    ensures k in s.pushes ==> Apply(s, e).pushes[k] == s.pushes[k]
  {
  }

  lemma {:induction false} RunConcat(s: Net, a: seq<Event>, b: seq<Event>)
    ensures Run(s, a + b) == Run(Run(s, a), b)
    decreases |a|
  {
    if a == [] {
      assert a + b == b;
    } else {
      assert (a + b)[0] == a[0] && (a + b)[1..] == a[1..] + b;
      RunConcat(Apply(s, a[0]), a[1..], b);
    }
  }

  /** The events of one push with what other tasks do while it sends. */
  function PushEvents(s: Net, k: nat, now: int, meanwhile: seq<Event>, ok: bool, later: int): seq<Event> {
    if s.connection.None? || Waiting(Active(s.queue, now)) == [] then [PushPeek(k, now)]
    else [PushPeek(k, now), SendStart(k)] + meanwhile + [SendEnd(k, ok)] + if ok then [PushMark(k, later)] else []
  }

  class SpokeChannel {
    var queue: seq<Command>
    var connection: Option<nat>
    ghost var net: Net

    ghost predicate Valid()
      reads this
    {
      net.queue == queue && net.connection == connection
    }

    constructor ()
      ensures Valid() && net == START
    {
      queue, connection, net := [], None, START;
    }

    method RegisterSpoke(socket: nat)
      requires Valid()
      modifies this
      ensures Valid() && net == Apply(old(net), Register(socket))
      ensures connection == Some(socket) && queue == old(queue)
    {
      connection := Some(socket);
      net := Apply(net, Register(socket));
    }

    /** Only the registered socket is removed: a late close of a replaced one leaves its successor. */
    method UnregisterSpoke(socket: nat)
      requires Valid()
      modifies this
      ensures Valid() && net == Apply(old(net), Unregister(socket))
      ensures connection == (if old(connection) == Some(socket) then None else old(connection)) && queue == old(queue)
    {
      if connection == Some(socket) {
        connection := None;
      }
      net := Apply(net, Unregister(socket));
    }

    /** `peek_queued_commands`: expired commands are dropped, the waiting ones returned. */
    method Peek(now: int) returns (waiting: seq<Command>)
      modifies this`queue
      ensures queue == Active(old(queue), now) && waiting == Waiting(queue)
    {
      queue := Active(queue, now);
      waiting := Waiting(queue);
    }

    /** Other tasks run; they leave the queue `q` and the socket `c`. */
    method Yield(q: seq<Command>, c: Option<nat>, ghost events: seq<Event>)
      requires Valid() && q == Run(net, events).queue && c == Run(net, events).connection
      modifies this
      ensures Valid() && net == Run(old(net), events)
    {
      queue, connection, net := q, c, Run(net, events);
    }

    /** `mark_commands_delivered`: whatever of these is still there and still waiting. */
    method MarkDelivered(ids: set<string>, now: int)
      modifies this`queue
      ensures queue == Mark(Active(old(queue), now), ids, now)
    {
      queue := Mark(Active(queue, now), ids, now);
    }

    /**
     `send_to_spoke`: the socket registered now is used; if its send fails it is removed, unless another
     one has taken its place meanwhile.  `q` and `c` are what other tasks, by the events `meanwhile`, have
     made of queue and socket when the send is over; `ok` is its outcome.
     */
    method SendToSpoke(q: seq<Command>, c: Option<nat>, ok: bool, ghost k: nat, ghost meanwhile: seq<Event>)
      returns (sent: bool)
      requires Valid() && k in net.pushes && net.pushes[k].Peeked? && AllForeign(meanwhile, k)
      requires var t := Run(Apply(net, SendStart(k)), meanwhile); q == t.queue && c == t.connection
      modifies this
      ensures Valid() && (sent <==> old(connection).Some? && ok)
      ensures old(connection).None? ==> net == Apply(old(net), SendStart(k))
      ensures old(connection).Some? ==> net == Apply(Run(Apply(old(net), SendStart(k)), meanwhile), SendEnd(k, ok))
      ensures sent ==> k in net.pushes && net.pushes[k] == Sent(old(net).pushes[k].ids)
      ensures old(connection).None? ==> queue == old(queue) && connection == None
      ensures old(connection).Some? ==> queue == q && connection == if !ok && c == old(connection) then None else c
    {
      net := Apply(net, SendStart(k));
      if connection.None? {
        return false;
      }
      var socket := connection.value;
      ForeignLeavesPush(net, meanwhile, k);
      Yield(q, c, meanwhile);
      net := Apply(net, SendEnd(k, ok));
      if !ok && connection == Some(socket) {
        connection := None;
      }
      return ok;
    }

    /** A push: peek, send, and mark only if the send returned. */
    method PushSpokeCommands(now: int, q: seq<Command>, c: Option<nat>, ok: bool, later: int,
                             ghost k: nat, ghost meanwhile: seq<Event>) returns (pushed: bool)
      requires Valid() && k !in net.pushes && AllForeign(meanwhile, k)
      requires var t := Run(SendStarted(net, k, now), meanwhile); q == t.queue && c == t.connection
      modifies this
      ensures Valid() && net == Run(old(net), PushEvents(old(net), k, now, meanwhile, ok, later))
      ensures pushed <==> old(connection).Some? && (Waiting(Active(old(queue), now)) == [] || ok)
      ensures old(connection).None? ==> queue == old(queue) && connection == None
      ensures old(connection).Some? && Waiting(Active(old(queue), now)) == [] ==>
        queue == Active(old(queue), now) && connection == old(connection)
      ensures old(connection).Some? && Waiting(Active(old(queue), now)) != [] ==>
        && queue == (if ok then Mark(Active(q, later), IdSet(Waiting(Active(old(queue), now))), later) else q)
        && connection == (if !ok && c == old(connection) then None else c)
    {
      PushRuns(net, k, now, meanwhile, ok, later);
      if connection.None? {
        return false;
      }
      var commands := Peek(now);
      net := Apply(net, PushPeek(k, now));
      if commands == [] {
        return true;
      }
      var ids := IdSet(commands);
      assert net.pushes[k] == Peeked(ids);
      pushed := SendToSpoke(q, c, ok, k, meanwhile);
      if pushed {
        MarkDelivered(ids, later);
        net := Apply(net, PushMark(k, later));
      }
    }
  }

  /** The state when the send of a push begins. */
  function SendStarted(s: Net, k: nat, now: int): Net {
    Apply(Apply(s, PushPeek(k, now)), SendStart(k))
  }

  /** The run of a push, step by step. */
  lemma PushRuns(s: Net, k: nat, now: int, meanwhile: seq<Event>, ok: bool, later: int)
    ensures var t := Apply(Run(SendStarted(s, k, now), meanwhile), SendEnd(k, ok));
      Run(s, PushEvents(s, k, now, meanwhile, ok, later)) ==
        if s.connection.None? || Waiting(Active(s.queue, now)) == [] then Apply(s, PushPeek(k, now))
        else if ok then Apply(t, PushMark(k, later)) else t
  {
    var peek, start, end := PushPeek(k, now), SendStart(k), SendEnd(k, ok);
    var mark := if ok then [PushMark(k, later)] else [];
    RunConcat(s, [peek, start] + meanwhile + [end], mark);
    RunConcat(s, [peek, start] + meanwhile, [end]);
    RunConcat(s, [peek, start], meanwhile);
    assert [peek, start][1..] == [start];
  }

  /**
   A push that fails marks nothing: apart from expired commands, the queue it leaves is the one other
   tasks left, so every live command it had peeked can be handed out again.
   */
  lemma FailedPushMarksNothing(s: Net, k: nat, now: int, meanwhile: seq<Event>, later: int)
    requires k !in s.pushes && AllForeign(meanwhile, k)
    requires s.connection.Some? && Waiting(Active(s.queue, now)) != []
    ensures var t := Run(s, PushEvents(s, k, now, meanwhile, false, later));
      && t.queue == Run(SendStarted(s, k, now), meanwhile).queue
      && t.sent == Run(SendStarted(s, k, now), meanwhile).sent
      && (meanwhile == [] ==> t.queue == Active(s.queue, now) && t.connection.None?)
  {
    PushRuns(s, k, now, meanwhile, false, later);
  }
}
