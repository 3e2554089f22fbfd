/**
 How often a command is handed out over the two delivery paths together.  An inbox poll hands out and
 marks in one step, a push between its peek and its mark; so a command is handed out again exactly when
 a poll or another push's peek falls between the peek and the mark of a push that holds it.
 */
module Handouts {
  import opened Prelude
  import opened CommandQueue
  import opened QueueRuns

  /** How many successful sends carried a command. */
  function Batches(sent: seq<set<string>>, id: string): nat {
    if sent == [] then 0 else Batches(sent[..|sent| - 1], id) + if id in sent[|sent| - 1] then 1 else 0
  }

  lemma BatchesSnoc(sent: seq<set<string>>, ids: set<string>, id: string)
    ensures Batches(sent + [ids], id) == Batches(sent, id) + if id in ids then 1 else 0
  {
    assert (sent + [ids])[..|sent|] == sent;
  }

  lemma {:induction false} SentOnce(sent: seq<set<string>>, id: string)
    ensures id in SentIds(sent) <==> Batches(sent, id) > 0
  {
    if sent != [] {
      SentOnce(sent[..|sent| - 1], id);
    }
  }

  /** How often a command has been handed out; inbox polls return it at most once (InboxOnceInOrder). */
  function Handed(s: Net, id: string): nat {
    (if id in s.inbox then 1 else 0) + Batches(s.sent, id)
  }

  /** The pushes that hold a command and have not sent it yet. */
  function Unsent(s: Net, id: string): set<nat> {
    set k | k in s.pushes && !s.pushes[k].Sent? && id in s.pushes[k].ids
  }

  /** The handouts there have been, and those that pushes have begun. */
  function Claims(s: Net, id: string): nat {
    Handed(s, id) + |Unsent(s, id)|
  }

  /** Some push between its peek and its mark holds the command. */
  predicate Held(s: Net, id: string) {
    exists k :: k in s.pushes && id in s.pushes[k].ids
  }

  predicate Waits(s: Net, id: string, now: int) {
    id in IdSet(Waiting(Active(s.queue, now)))
  }

  /** A poll, or another push's peek, between the peek and the mark of a push that holds the command. */
  predicate Overlap(s: Net, e: Event, id: string) {
    match e
    case Inbox(now) => Waits(s, id, now) && Held(s, id)
    case PushPeek(_, now) => s.connection.Some? && Waits(s, id, now) && Held(s, id)
    case _ => false
  }

  predicate OverlapIn(s: Net, es: seq<Event>, id: string)
    decreases |es|
  {
    es != [] && (Overlap(s, es[0], id) || OverlapIn(Apply(s, es[0]), es[1..], id))
  }

  // ---------------------------------------------------------------------------------
  // Waiting commands.

  /** A waiting command is queued, and no inbox poll has returned it. */
  lemma WaitsMeaning(s: Net, id: string, now: int)
    requires Inv(s) && Waits(s, id, now)
    ensures id in s.issued && RankOf(s.queue, id) == 0 && id !in s.inbox
  {
    var w := Waiting(Active(s.queue, now));
    WaitingMembers(Active(s.queue, now));
    ActiveMembers(s.queue, now);
    var j :| 0 <= j < |w| && w[j].id == id;
    assert w[j] in w;
    var i :| 0 <= i < |s.queue| && s.queue[i] == w[j];
    RankAt(s.queue, s.issued, i);
    assert forall m :: 0 <= m < |s.inbox| ==> s.issued[s.inbox[m]].seqNo <= LastPolled(s.inbox, s.issued);
  }

  /** What a poll adds to the inbox is what waits. */
  lemma InboxAdds(s: Net, now: int, id: string)
    ensures id in Apply(s, Inbox(now)).inbox <==> id in s.inbox || Waits(s, id, now)
  {
    var w := Waiting(Active(s.queue, now));
    assert forall i :: 0 <= i < |w| ==> Ids(w)[i] == w[i].id;
    assert id in Ids(w) <==> id in IdSet(w);
  }

  /** After a poll nothing is queued. */
  lemma {:induction false} DeliveredNotQueued(q: seq<Command>, now: int, id: string)
    ensures RankOf(Deliver(q, now), id) != 0
  {
    if q != [] {
      assert Deliver(q, now)[1..] == Deliver(q[1..], now);
      DeliveredNotQueued(q[1..], now, id);
    }
  }

  /** After a mark nothing marked is queued. */
  lemma {:induction false} MarkedNotQueued(q: seq<Command>, ids: set<string>, now: int, id: string)
    requires id in ids
    ensures RankOf(Mark(q, ids, now), id) != 0
  {
    if q != [] {
      assert Mark(q, ids, now)[1..] == Mark(q[1..], ids, now);
      MarkedNotQueued(q[1..], ids, now, id);
    }
  }

  // ---------------------------------------------------------------------------------
  // At most once without overlap.

  /** Claimed at most once, and while it is still queued after that, by a push that holds it. */
  predicate Once(s: Net, id: string) {
    && (Claims(s, id) > 0 || Held(s, id) ==> id in s.issued)
    && Claims(s, id) <= 1
    && (Claims(s, id) > 0 && RankOf(s.queue, id) == 0 ==> Held(s, id))
  }

  /** A step that leaves pushes and handouts alone; ranks only rise. */
  lemma OnceQuietStep(s: Net, t: Net, id: string)
    requires Once(s, id) && Evolves(s, t)
    requires t.pushes == s.pushes && t.sent == s.sent && t.inbox == s.inbox
    ensures Once(t, id) && Claims(t, id) == Claims(s, id)
  {
    assert Unsent(t, id) == Unsent(s, id);
  }

  lemma OnceInbox(s: Net, now: int, id: string)
    requires Inv(s) && Once(s, id) && !Overlap(s, Inbox(now), id)
    ensures Once(Apply(s, Inbox(now)), id)
  {
    var t := Apply(s, Inbox(now));
    InboxAdds(s, now, id);
    DeliveredNotQueued(Active(s.queue, now), now, id);
    assert Unsent(t, id) == Unsent(s, id);
    if Waits(s, id, now) {
      WaitsMeaning(s, id, now);
    }
  }

  lemma PeekedClaims(s: Net, t: Net, k: nat, ids: set<string>, id: string)
    requires k !in s.pushes && t.pushes == s.pushes[k := Peeked(ids)] && t.sent == s.sent && t.inbox == s.inbox
    ensures Claims(t, id) == Claims(s, id) + if id in ids then 1 else 0
  {
    assert Unsent(t, id) == Unsent(s, id) + if id in ids then {k} else {};
  }

  /** A push that begins with the waiting commands `ids`. */
  lemma OncePeeked(s: Net, t: Net, k: nat, ids: set<string>, id: string)
    requires Once(s, id) && k !in s.pushes && Evolves(s, t)
    requires t.pushes == s.pushes[k := Peeked(ids)] && t.sent == s.sent && t.inbox == s.inbox
    requires id in ids ==> id in s.issued && RankOf(s.queue, id) == 0 && !Held(s, id)
    ensures Once(t, id)
  {
    PeekedClaims(s, t, k, ids, id);
    assert id in ids ==> id in t.pushes[k].ids;
    if Held(s, id) {
      var j :| j in s.pushes && id in s.pushes[j].ids;
      assert j in t.pushes && id in t.pushes[j].ids;
    }
  }

  lemma OncePeek(s: Net, k: nat, now: int, id: string)
    requires Inv(s) && Once(s, id) && k !in s.pushes && !Overlap(s, PushPeek(k, now), id)
    ensures Once(Apply(s, PushPeek(k, now)), id)
  {
    var t := Apply(s, PushPeek(k, now));
    PushPeekStep(s, k, now);
    if t.pushes == s.pushes {
      OnceQuietStep(s, t, id);
    } else {
      if Waits(s, id, now) {
        WaitsMeaning(s, id, now);
      }
      OncePeeked(s, t, k, IdSet(Waiting(Active(s.queue, now))), id);
    }
  }

  /** A push that ends without having sent anything gives its claim back. */
  lemma OnceDrop(s: Net, t: Net, k: nat, id: string)
    requires Once(s, id) && k in s.pushes && !s.pushes[k].Sent?
    requires t == Drop(s, k).(connection := t.connection)
    ensures Once(t, id)
  {
    if id in s.pushes[k].ids {
      assert Unsent(t, id) == Unsent(s, id) - {k} && k in Unsent(s, id);
    } else {
      assert Unsent(t, id) == Unsent(s, id);
      if Held(s, id) {
        var j :| j in s.pushes && id in s.pushes[j].ids;
        assert j in t.pushes && id in t.pushes[j].ids;
      }
    }
  }

  lemma OnceSend(s: Net, e: Event, id: string)
    requires Once(s, id) && (e.SendStart? || e.SendEnd?)
    ensures Once(Apply(s, e), id)
  {
    var t := Apply(s, e);
    if e.k in s.pushes && t != s {
      if e.k !in t.pushes {
        OnceDrop(s, t, e.k, id);
      } else {
        MovedPush(s, t, e.k, id);
      }
    }
  }

  /** A push that gets on keeps its claim, as a handout if it has sent. */
  lemma MovedPush(s: Net, t: Net, k: nat, id: string)
    requires k in s.pushes && k in t.pushes && !s.pushes[k].Sent? && t.pushes[k].ids == s.pushes[k].ids
    requires t == s.(pushes := s.pushes[k := t.pushes[k]], sent := t.sent)
    requires t.sent == if t.pushes[k].Sent? then s.sent + [s.pushes[k].ids] else s.sent
    ensures Claims(t, id) == Claims(s, id) && (Held(t, id) <==> Held(s, id))
    ensures Once(s, id) ==> Once(t, id)
  {
    BatchesSnoc(s.sent, s.pushes[k].ids, id);
    if t.pushes[k].Sent? && id in s.pushes[k].ids {
      assert Unsent(t, id) == Unsent(s, id) - {k} && k in Unsent(s, id);
    } else {
      assert Unsent(t, id) == Unsent(s, id);
    }
    assert forall j :: j in s.pushes ==> t.pushes[j].ids == s.pushes[j].ids;
  }

  lemma OnceMark(s: Net, k: nat, now: int, id: string)
    requires Inv(s) && Once(s, id)
    ensures Once(Apply(s, PushMark(k, now)), id)
    ensures Claims(Apply(s, PushMark(k, now)), id) == Claims(s, id)
  {
    var t := Apply(s, PushMark(k, now));
    if t != s && k in s.pushes && s.pushes[k].Sent? {
      PushMarkStep(s, k, now);
      assert Unsent(t, id) == Unsent(s, id);
      if id in s.pushes[k].ids {
        MarkedNotQueued(Active(s.queue, now), s.pushes[k].ids, now, id);
      } else if Held(s, id) {
        var j :| j in s.pushes && id in s.pushes[j].ids;
        assert j in t.pushes && id in t.pushes[j].ids;
      }
    }
  }

  lemma OnceStep(s: Net, e: Event, id: string)
    requires Inv(s) && Fresh(s, e) && Once(s, id) && !Overlap(s, e, id)
    ensures Once(Apply(s, e), id)
  {
    match e
    case Inbox(now) => OnceInbox(s, now, id);
    case PushPeek(k, now) => OncePeek(s, k, now, id);
    case SendStart(k) => OnceSend(s, e, id);
    case SendEnd(k, ok) => OnceSend(s, e, id);
    case PushMark(k, now) => OnceMark(s, k, now, id);
    case Enqueue(_, _) => Step(s, e); OnceQuietStep(s, Apply(s, e), id);
    case Append(_) => Step(s, e); OnceQuietStep(s, Apply(s, e), id);
    case Acknowledge(_, _, _) => Step(s, e); OnceQuietStep(s, Apply(s, e), id);
    case Purge(_) => Step(s, e); OnceQuietStep(s, Apply(s, e), id);
    case Clear => Step(s, e); OnceQuietStep(s, Apply(s, e), id);
    case Register(_) => Step(s, e); OnceQuietStep(s, Apply(s, e), id);
    case Unregister(_) => Step(s, e); OnceQuietStep(s, Apply(s, e), id);
  }

  /**
   At most once: in a run in which no poll and no other peek falls between the peek and the mark of a
   push that holds it, a command is handed out at most once over both paths, whichever sends fail.
   */
  lemma {:induction false} AtMostOnce(s: Net, es: seq<Event>, id: string)
    requires Inv(s) && FreshRun(s, es) && Once(s, id) && !OverlapIn(s, es, id)
    ensures Once(Run(s, es), id) && Handed(Run(s, es), id) <= 1
    decreases |es|
  {
    if es != [] {
      Step(s, es[0]);
      OnceStep(s, es[0], id);
      AtMostOnce(Apply(s, es[0]), es[1..], id);
    }
  }

  // ---------------------------------------------------------------------------------
  // Twice with overlap.

  /** No send fails, and none finds the socket gone. */
  predicate Sends(s: Net, e: Event) {
    match e
    case SendStart(k) => k in s.pushes && s.pushes[k].Peeked? ==> s.connection.Some?
    case SendEnd(k, ok) => ok
    case _ => true
  }

  predicate SendsRun(s: Net, es: seq<Event>)
    decreases |es|
  {
    es == [] || (Sends(s, es[0]) && SendsRun(Apply(s, es[0]), es[1..]))
  }

  lemma HeldClaims(s: Net, id: string)
    requires Inv(s) && Held(s, id)
    ensures Claims(s, id) > 0
  {
    var k :| k in s.pushes && id in s.pushes[k].ids;
    if s.pushes[k].Sent? {
      SentOnce(s.sent, id);
    } else {
      assert k in Unsent(s, id);
    }
  }

  lemma OverlapClaims(s: Net, e: Event, id: string)
    requires Inv(s) && Fresh(s, e) && Overlap(s, e, id)
    ensures Claims(Apply(s, e), id) >= 2
  {
    var t := Apply(s, e);
    HeldClaims(s, id);
    WaitsMeaning(s, id, e.now);
    if e.Inbox? {
      InboxAdds(s, e.now, id);
      assert Unsent(t, id) == Unsent(s, id);
    } else {
      assert Unsent(t, id) == Unsent(s, id) + {e.k};
    }
  }

  lemma ClaimsGrowPeek(s: Net, k: nat, now: int, id: string)
    requires k !in s.pushes
    ensures Claims(s, id) <= Claims(Apply(s, PushPeek(k, now)), id)
  {
    var t := Apply(s, PushPeek(k, now));
    if t.pushes == s.pushes {
      assert Unsent(t, id) == Unsent(s, id);
    } else {
      PeekedClaims(s, t, k, IdSet(Waiting(Active(s.queue, now))), id);
    }
  }

  lemma ClaimsGrowSend(s: Net, e: Event, id: string)
    requires Sends(s, e) && (e.SendStart? || e.SendEnd?)
    ensures Claims(s, id) <= Claims(Apply(s, e), id)
  {
    var t := Apply(s, e);
    if e.k in s.pushes && t != s {
      MovedPush(s, t, e.k, id);
    }
  }

  lemma ClaimsGrow(s: Net, e: Event, id: string)
    requires Fresh(s, e) && Sends(s, e)
    ensures Claims(s, id) <= Claims(Apply(s, e), id)
  {
    if e.PushPeek? {
      ClaimsGrowPeek(s, e.k, e.now, id);
    } else if e.SendStart? || e.SendEnd? {
      ClaimsGrowSend(s, e, id);
    } else {
      if e.Inbox? {
        InboxAdds(s, e.now, id);
      }
      assert Unsent(Apply(s, e), id) == Unsent(s, id);
    }
  }

  lemma {:induction false} ClaimsGrowAll(s: Net, es: seq<Event>, id: string)
    requires Inv(s) && FreshRun(s, es) && SendsRun(s, es)
    ensures Claims(Run(s, es), id) >= Claims(s, id)
    ensures OverlapIn(s, es, id) ==> Claims(Run(s, es), id) >= 2
    decreases |es|
  {
    if es != [] {
      Step(s, es[0]);
      ClaimsGrow(s, es[0], id);
      ClaimsGrowAll(Apply(s, es[0]), es[1..], id);
      if Overlap(s, es[0], id) {
        OverlapClaims(s, es[0], id);
      }
    }
  }

  lemma StartOnce(id: string)
    ensures Once(START, id)
  {
    assert Unsent(START, id) == {};
  }

  /**
   Exactly: in a run whose sends all succeed and have ended, a command is handed out more than once if
   and only if a poll, or another push's peek, fell between the peek and the mark of a push that held it.
   `FailedSends` extends this to every run.
   */
  lemma HandedOutTwiceExactly(es: seq<Event>, id: string)
    requires FreshRun(START, es) && SendsRun(START, es) && Unsent(Run(START, es), id) == {}
    ensures Handed(Run(START, es), id) > 1 <==> OverlapIn(START, es, id)
  {
    StartInv();
    StartOnce(id);
    ClaimsGrowAll(START, es, id);
    if !OverlapIn(START, es, id) {
      AtMostOnce(START, es, id);
    }
  }

  lemma RunCons(s: Net, e: Event, es: seq<Event>)
    ensures Run(s, [e] + es) == Run(Apply(s, e), es)
    ensures FreshRun(s, [e] + es) <==> Fresh(s, e) && FreshRun(Apply(s, e), es)
    ensures SendsRun(s, [e] + es) <==> Sends(s, e) && SendsRun(Apply(s, e), es)
  {
    assert ([e] + es)[1..] == es;
  }

  /** The only push of `c`, being sent. */
  function SendingOne(c: Command, now: int): Net {
    Net([c], map[0 := Sending({c.id}, 0)], Some(0), map[c.id := Issue(0, c.expiresAt)], 1, [], [], {}, {}, Max(0, now))
  }

  lemma OneWaits(c: Command, now: int)
    requires c.status == Queued && Live(c, now)
    ensures Active([c], now) == [c] && Waiting([c]) == [c] && IdSet([c]) == {c.id}
  {
    assert [c][0] == c && [c][1..] == [];
    assert c.id in IdSet([c]);
  }

  lemma SendingOneRun(c: Command, now: int, es: seq<Event>)
    requires c.status == Queued && Live(c, now)
    requires FreshRun(SendingOne(c, now), es) && SendsRun(SendingOne(c, now), es)
    ensures var run := [Enqueue(c, now)] + ([Register(0)] + ([PushPeek(0, now)] + ([SendStart(0)] + es)));
      FreshRun(START, run) && SendsRun(START, run) && Run(START, run) == Run(SendingOne(c, now), es)
  {
    var s1 := Apply(START, Enqueue(c, now));
    var s2 := Apply(s1, Register(0));
    var s3 := Apply(s2, PushPeek(0, now));
    assert s1.queue == [c];
    OneWaits(c, now);
    assert Apply(s3, SendStart(0)) == SendingOne(c, now);
    RunCons(s3, SendStart(0), es);
    RunCons(s2, PushPeek(0, now), [SendStart(0)] + es);
    RunCons(s1, Register(0), [PushPeek(0, now)] + ([SendStart(0)] + es));
    RunCons(START, Enqueue(c, now), [Register(0)] + ([PushPeek(0, now)] + ([SendStart(0)] + es)));
  }

  lemma PolledWhileSending(c: Command, now: int)
    requires c.status == Queued && Live(c, now)
    ensures var s, es := SendingOne(c, now), [Inbox(now)] + [SendEnd(0, true)];
      FreshRun(s, es) && SendsRun(s, es) && Handed(Run(s, es), c.id) == 2
  {
    var s4 := SendingOne(c, now);
    var s5 := Apply(s4, Inbox(now));
    var s6 := Apply(s5, SendEnd(0, true));
    OneWaits(c, now);
    InboxAdds(s4, now, c.id);
    assert s6.sent == [] + [{c.id}];
    BatchesSnoc([], {c.id}, c.id);
    RunCons(s5, SendEnd(0, true), []);
    RunCons(s4, Inbox(now), [SendEnd(0, true)]);
  }

  lemma SixEvents(a: Event, b: Event, c: Event, d: Event, e: Event, f: Event)
    ensures [a] + ([b] + ([c] + ([d] + ([e] + [f])))) == [a, b, c, d, e, f]
  {
  }

  /** Such a run: the command is polled between the push's look-up of the socket and the end of its send. */
  lemma HandedOutTwice(c: Command, now: int)
    requires c.status == Queued && Live(c, now)
    ensures var es := [Enqueue(c, now), Register(0), PushPeek(0, now), SendStart(0), Inbox(now), SendEnd(0, true)];
      FreshRun(START, es) && SendsRun(START, es) && Handed(Run(START, es), c.id) == 2
  {
    PolledWhileSending(c, now);
    SendingOneRun(c, now, [Inbox(now)] + [SendEnd(0, true)]);
    SixEvents(Enqueue(c, now), Register(0), PushPeek(0, now), SendStart(0), Inbox(now), SendEnd(0, true));
  }
}
