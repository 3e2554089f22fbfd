/**
 How often a command is handed out when sends fail: a push whose send does not succeed leaves the queue
 and the handouts as its purge and the removal of its socket alone would, so what counts is the run
 that is left when such pushes are reduced to these.
 */
module FailedSends {
  import opened Prelude
  import opened CommandQueue
  import opened QueueRuns
  import opened Handouts

  /** The push, under way now, ends with a successful send in the rest of the run. */
  predicate WillSend(s: Net, es: seq<Event>, k: nat)
    decreases |es|
  {
    && es != [] && k in s.pushes && !s.pushes[k].Sent?
    && var t := Apply(s, es[0]); k in t.pushes && (t.pushes[k].Sent? || WillSend(t, es[1..], k))
  }

  predicate Succeeds(s: Net, es: seq<Event>, k: nat) {
    k in s.pushes && (s.pushes[k].Sent? || WillSend(s, es, k))
  }

  /** The state without the pushes whose send does not succeed. */
  function Reduced(s: Net, es: seq<Event>): Net {
    s.(pushes := map k | k in s.pushes && Succeeds(s, es, k) :: s.pushes[k])
  }

  /** What is left of one event; `rest` is the rest of the run. */
  function Left(s: Net, e: Event, rest: seq<Event>): seq<Event> {
    match e
    case PushPeek(k, now) =>
      if s.connection.None? then [] else if Succeeds(Apply(s, e), rest, k) then [e] else [Purge(now)]
    case SendStart(k) => if Succeeds(Apply(s, e), rest, k) then [e] else []
    case SendEnd(k, ok) =>
      if k in s.pushes && s.pushes[k].Sending? then
        if ok then [e] else [Unregister(s.pushes[k].socket)]
      else []
    case _ => [e]
  }

  /** The run without the pushes whose send does not succeed: only their purges and socket removals are left. */
  function Successes(s: Net, es: seq<Event>): seq<Event>
    decreases |es|
  {
    if es == [] then [] else Left(s, es[0], es[1..]) + Successes(Apply(s, es[0]), es[1..])
  }

  lemma WillSendCons(s: Net, e: Event, rest: seq<Event>, k: nat)
    ensures WillSend(s, [e] + rest, k) <==>
      k in s.pushes && !s.pushes[k].Sent? && Succeeds(Apply(s, e), rest, k)
  {
    assert ([e] + rest)[1..] == rest;
  }

  /** Which pushes stay in the reduced state, told from the next state. */
  lemma ReducedKeys(s: Net, e: Event, rest: seq<Event>)
    ensures forall k :: k in Reduced(s, [e] + rest).pushes <==>
      k in s.pushes && (s.pushes[k].Sent? || Succeeds(Apply(s, e), rest, k))
  {
    forall k ensures k in Reduced(s, [e] + rest).pushes <==>
      k in s.pushes && (s.pushes[k].Sent? || Succeeds(Apply(s, e), rest, k))
    {
      WillSendCons(s, e, rest, k);
    }
  }

  /** What is left of `e` takes the reduced state to the reduced next state. */
  predicate Matches(s: Net, e: Event, rest: seq<Event>) {
    var r, t, es := Reduced(s, [e] + rest), Reduced(Apply(s, e), rest), Left(s, e, rest);
    if es == [] then r == t else |es| == 1 && Apply(r, es[0]) == t
  }

  lemma LeftPeek(s: Net, k: nat, now: int, rest: seq<Event>)
    requires k !in s.pushes
    ensures Matches(s, PushPeek(k, now), rest)
  {
    var e := PushPeek(k, now);
    ReducedKeys(s, e, rest);
    var r, t, es := Reduced(s, [e] + rest), Reduced(Apply(s, e), rest), Left(s, e, rest);
    if es == [] {
      assert r.pushes == t.pushes;
    } else {
      assert Apply(r, es[0]).pushes == t.pushes;
    }
  }

  lemma LeftStarted(s: Net, k: nat, rest: seq<Event>)
    requires k in s.pushes && s.pushes[k].Peeked? && s.connection.Some?
    ensures Matches(s, SendStart(k), rest)
  {
    var e, u := SendStart(k), Apply(s, SendStart(k));
    ReducedKeys(s, e, rest);
    var r, t := Reduced(s, [e] + rest), Reduced(u, rest);
    if Succeeds(u, rest, k) {
      assert Apply(r, e).pushes == t.pushes;
    } else {
      assert r.pushes == t.pushes;
    }
  }

  lemma LeftStart(s: Net, k: nat, rest: seq<Event>)
    ensures Matches(s, SendStart(k), rest)
  {
    var e, u := SendStart(k), Apply(s, SendStart(k));
    if k in s.pushes && s.pushes[k].Peeked? && s.connection.Some? {
      LeftStarted(s, k, rest);
    } else {
      ReducedKeys(s, e, rest);
      assert Reduced(s, [e] + rest).pushes == Reduced(u, rest).pushes;
    }
  }

  lemma LeftEnd(s: Net, k: nat, ok: bool, rest: seq<Event>)
    ensures Matches(s, SendEnd(k, ok), rest)
  {
    var e := SendEnd(k, ok);
    ReducedKeys(s, e, rest);
    var r, t, es := Reduced(s, [e] + rest), Reduced(Apply(s, e), rest), Left(s, e, rest);
    if es == [] {
      assert r.pushes == t.pushes;
    } else {
      assert Apply(r, es[0]).pushes == t.pushes;
    }
  }

  lemma LeftMark(s: Net, k: nat, now: int, rest: seq<Event>)
    ensures Matches(s, PushMark(k, now), rest)
  {
    var e := PushMark(k, now);
    ReducedKeys(s, e, rest);
    assert Apply(Reduced(s, [e] + rest), e).pushes == Reduced(Apply(s, e), rest).pushes;
  }

  lemma LeftOther(s: Net, e: Event, rest: seq<Event>)
    requires !e.PushPeek? && !e.SendStart? && !e.SendEnd? && !e.PushMark?
    ensures Matches(s, e, rest)
  {
    ReducedKeys(s, e, rest);
    assert Reduced(s, [e] + rest).pushes == Reduced(Apply(s, e), rest).pushes;
  }

  lemma LeftStep(s: Net, e: Event, rest: seq<Event>)
    requires Fresh(s, e)
    ensures Matches(s, e, rest)
  {
    match e
    case PushPeek(k, now) => LeftPeek(s, k, now, rest);
    case SendStart(k) => LeftStart(s, k, rest);
    case SendEnd(k, ok) => LeftEnd(s, k, ok, rest);
    case PushMark(k, now) => LeftMark(s, k, now, rest);
    case _ => LeftOther(s, e, rest);
  }

  lemma ReducedFresh(s: Net, e: Event, rest: seq<Event>)
    requires Fresh(s, e)
    ensures Left(s, e, rest) != [] ==>
      Fresh(Reduced(s, [e] + rest), Left(s, e, rest)[0]) && Sends(Reduced(s, [e] + rest), Left(s, e, rest)[0])
  {
    ReducedKeys(s, e, rest);
  }

  /** The reduced run follows the run, with only successful sends. */
  lemma {:induction false} SuccessesFollow(s: Net, es: seq<Event>)
    requires FreshRun(s, es)
    ensures var r, rs := Reduced(s, es), Successes(s, es);
      Run(r, rs) == Reduced(Run(s, es), []) && FreshRun(r, rs) && SendsRun(r, rs)
    decreases |es|
  {
    if es != [] {
      var e, rest := es[0], es[1..];
      assert [e] + rest == es;
      LeftStep(s, e, rest);
      ReducedFresh(s, e, rest);
      SuccessesFollow(Apply(s, e), rest);
      var left, more := Left(s, e, rest), Successes(Apply(s, e), rest);
      if left == [] {
        assert left + more == more;
      } else {
        assert left == [left[0]];
        RunCons(Reduced(s, es), left[0], more);
      }
    }
  }

  /**
   Exactly, whichever sends fail or have not ended: a command is handed out more than once if and only if, among
   the polls and the pushes whose send succeeds, one took it between the peek and the mark of a push that held it.
   */
  lemma HandedOutExactly(es: seq<Event>, id: string)
    requires FreshRun(START, es)
    ensures Handed(Run(START, es), id) > 1 <==> OverlapIn(START, Successes(START, es), id)
  {
    SuccessesFollow(START, es);
    assert Reduced(START, es) == START;
    var t := Run(START, Successes(START, es));
    assert Unsent(t, id) == {};
    HandedOutTwiceExactly(Successes(START, es), id);
  }
}
