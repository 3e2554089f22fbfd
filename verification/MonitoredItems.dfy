/**
 Monitored items of a tenant (app/tasks.py, `_check_monitored_items`): each poll finds an item or
 misses it, the time of the first miss decides its status, and an alert goes out when it has been
 missing for half an hour, repeated no sooner than half an hour after the last one.
 */
module MonitoredItems {
  import opened Prelude

  const WARN_SECS := 900
  const CRIT_SECS := 1800
  const NOTIFY_SECS := 1800

  datatype Kind = Site | AlertName | Insight | Client | Gateway | UnknownKind
  datatype Health = Ok | Warning | Missing

  datatype Item = Item(
    kind: Kind,
    identifier: string,
    failures: int,
    lastSeen: Option<int>,
    missingSince: Option<int>,
    status: Health,
    lastNotified: int,
    centralFirst: Option<string>,
    centralLast: Option<string>)

  /** What Central reports at one poll; time stamps only where it gives one. */
  datatype Report = Report(
    sites: set<string>,
    alerts: map<string, Option<string>>,
    insights: map<string, Option<string>>,
    clients: set<string>,
    devices: map<string, Option<string>>)

  /** Whether the item is there, with its time stamp; None for a kind that is not checked. */
  function Look(r: Report, item: Item): Option<(bool, Option<string>)> {
    match item.kind
    case Site => Some((item.identifier in r.sites, None))
    case AlertName => Some(if item.identifier in r.alerts then (true, r.alerts[item.identifier]) else (false, None))
    case Insight => Some(if item.identifier in r.insights then (true, r.insights[item.identifier]) else (false, None))
    case Client => Some((item.identifier in r.clients, None))
    case Gateway => Some(if item.identifier in r.devices then (true, r.devices[item.identifier]) else (false, None))
    case UnknownKind => None
  }

  function StatusAt(age: int): Health {
    if age >= CRIT_SECS then Missing else if age >= WARN_SECS then Warning else Ok
  }

  /** When the item went missing, given that it is missing at `now`; 0 counts as unset. */
  function MissedSince(item: Item, now: int): int {
    if item.missingSince.None? || item.missingSince == Some(0) then now else item.missingSince.value
  }

  predicate Alerts(item: Item, found: bool, now: int) {
    !found && now - MissedSince(item, now) >= NOTIFY_SECS && now - item.lastNotified > NOTIFY_SECS
  }

  function Found(item: Item, stamp: Option<string>, now: int): Item {
    var last := if stamp.Some? then stamp else item.centralLast;
    item.(failures := 0, lastSeen := Some(now), missingSince := None, status := Ok,
          centralLast := last, centralFirst := if item.centralFirst.Some? then item.centralFirst else last)
  }

  function Missed(item: Item, now: int): Item {
    var since := MissedSince(item, now);
    item.(missingSince := Some(since), failures := item.failures + 1, status := StatusAt(now - since),
          lastNotified := if Alerts(item, false, now) then now else item.lastNotified)
  }

  function PollItem(item: Item, found: bool, stamp: Option<string>, now: int): Item {
    if found then Found(item, stamp, now) else Missed(item, now)
  }

  /** One poll of an item in a report. */
  function Checked(r: Report, item: Item, now: int): Item {
    match Look(r, item)
    case Some((found, stamp)) => PollItem(item, found, stamp, now)
    case None => item
  }

  predicate AlertsIn(r: Report, item: Item, now: int) {
    Look(r, item).Some? && Alerts(item, Look(r, item).value.0, now)
  }

  function AlertedBelow(items: seq<Item>, r: Report, now: int): seq<nat> {
    if items == [] then []
    else
      AlertedBelow(items[..|items| - 1], r, now)
      + (if AlertsIn(r, items[|items| - 1], now) then [|items| - 1] else [])
  }

  predicate AnyChecked(items: seq<Item>) {
    items != [] && (items[|items| - 1].kind != UnknownKind || AnyChecked(items[..|items| - 1]))
  }

  /** `places` are those of the items that raise an alert, in order. */
  predicate AlertPlaces(items: seq<Item>, r: Report, now: int, places: seq<nat>) {
    && (forall p, q :: 0 <= p < q < |places| ==> places[p] < places[q])
    && (forall p :: 0 <= p < |places| ==> places[p] < |items|)
    && (forall i :: 0 <= i < |items| ==> (i in places <==> AlertsIn(r, items[i], now)))
  }

  predicate KnownKind(items: seq<Item>) {
    exists i :: 0 <= i < |items| && items[i].kind != UnknownKind
  }

  /** The alerts of a poll are those of the items that raise one, each once and in order. */
  lemma {:induction false} AlertedExactly(items: seq<Item>, r: Report, now: int)
    ensures AlertPlaces(items, r, now, AlertedBelow(items, r, now))
  {
    if items != [] {
      var n := |items| - 1;
      AlertedExactly(items[..n], r, now);
      forall i | 0 <= i < n ensures i in AlertedBelow(items[..n], r, now) <==> AlertsIn(r, items[i], now) {
        assert items[..n][i] == items[i];
      }
    }
  }

  /** A poll changes the stored items if one of them is of a known kind. */
  lemma {:induction false} CheckedExactly(items: seq<Item>)
    ensures AnyChecked(items) <==> KnownKind(items)
  {
    if items != [] {
      var n := |items| - 1;
      CheckedExactly(items[..n]);
      assert forall i :: 0 <= i < n ==> items[..n][i] == items[i];
    }
  }

  /** One item's turn in the loop. */
  method CheckItem(stored: Item, r: Report, now: int) returns (item: Item, checked: bool, alerted: bool)
    ensures item == Checked(r, stored, now)
    ensures checked <==> stored.kind != UnknownKind
    ensures alerted <==> AlertsIn(r, stored, now)
  {
    item, checked, alerted := stored, true, false;
    match Look(r, stored)
    case None =>
      checked := false;
    case Some((found, stamp)) =>
      if found {
        item := Found(stored, stamp, now);
      } else {
        if item.missingSince.None? || item.missingSince == Some(0) {
          item := item.(missingSince := Some(now));
        }
        var age := now - item.missingSince.value;
        item := item.(failures := item.failures + 1);
        if age >= CRIT_SECS {
          item := item.(status := Missing);
        } else if age >= WARN_SECS {
          item := item.(status := Warning);
        } else {
          item := item.(status := Ok);
        }
        if age >= NOTIFY_SECS && now - item.lastNotified > NOTIFY_SECS {
          item := item.(lastNotified := now);
          alerted := true;
        }
      }
  }

  /** The loop over the stored items, changing them in place; `notified` lists the alerts in order. */
  method CheckMonitoredItems(items: array<Item>, r: Report, now: int) returns (notified: seq<nat>, changed: bool)
    modifies items
    ensures forall i :: 0 <= i < items.Length ==> items[i] == Checked(r, old(items[i]), now)
    ensures notified == AlertedBelow(old(items[..]), r, now)
    ensures changed <==> AnyChecked(old(items[..]))
  {
    notified, changed := [], false;
    ghost var stored := items[..];
    for i := 0 to items.Length
      invariant forall j :: 0 <= j < i ==> items[j] == Checked(r, stored[j], now)
      invariant forall j :: i <= j < items.Length ==> items[j] == stored[j]
      invariant notified == AlertedBelow(stored[..i], r, now)
      invariant changed <==> AnyChecked(stored[..i])
    {
      ghost var upTo := stored[..i + 1];
      assert upTo[..|upTo| - 1] == stored[..i] && upTo[|upTo| - 1] == stored[i];
      var item, checked, alerted := CheckItem(items[i], r, now);
      items[i] := item;
      if alerted {
        notified := notified + [i];
      }
      changed := changed || checked;
    }
    assert stored[..items.Length] == stored;
  }

  // ---------------------------------------------------------------------------------
  // Whole runs of polls of one item.

  datatype Poll = Poll(found: bool, stamp: Option<string>, now: int)

  function Last(ps: seq<Poll>): Poll
    requires ps != []
  {
    ps[|ps| - 1]
  }

  function Before(ps: seq<Poll>): seq<Poll>
    requires ps != []
  {
    ps[..|ps| - 1]
  }

  function Run(item: Item, ps: seq<Poll>): Item {
    if ps == [] then item else PollItem(Run(item, Before(ps)), Last(ps).found, Last(ps).stamp, Last(ps).now)
  }

  /** Whether the last poll of the run raises an alert. */
  predicate AlertsLast(item: Item, ps: seq<Poll>)
    requires ps != []
  {
    Alerts(Run(item, Before(ps)), Last(ps).found, Last(ps).now)
  }

  /** Polls are at strictly increasing positive times. */
  predicate Clocked(ps: seq<Poll>) {
    (forall i :: 0 <= i < |ps| ==> 0 < ps[i].now) && (forall i, j :: 0 <= i < j < |ps| ==> ps[i].now < ps[j].now)
  }

  /** A new item, as the settings page stores it. */
  predicate Fresh(item: Item) {
    item.failures == 0 && item.missingSince == None && item.status == Ok && item.lastNotified == 0
  }

  /** How many polls at the end of the run missed the item. */
  function MissStreak(ps: seq<Poll>): (n: nat)
    ensures n <= |ps|
  {
    if ps == [] || Last(ps).found then 0 else 1 + MissStreak(Before(ps))
  }

  /** The time of the first poll of the miss streak that ends the run. */
  function StreakStart(ps: seq<Poll>): int
    requires MissStreak(ps) > 0
  {
    ps[|ps| - MissStreak(ps)].now
  }

  function Age(ps: seq<Poll>): int
    requires MissStreak(ps) > 0
  {
    Last(ps).now - StreakStart(ps)
  }

  /** The times of the alerts raised in the miss streak that ends the run. */
  function StreakAlerts(item: Item, ps: seq<Poll>): seq<int> {
    if ps == [] || Last(ps).found then []
    else StreakAlerts(item, Before(ps)) + (if AlertsLast(item, ps) then [Last(ps).now] else [])
  }

  lemma StreakSnoc(ps: seq<Poll>)
    requires ps != [] && !Last(ps).found
    ensures MissStreak(ps) == 1 + MissStreak(Before(ps))
    ensures StreakStart(ps) == if MissStreak(Before(ps)) > 0 then StreakStart(Before(ps)) else Last(ps).now
  {
  }

  /** What the stored item knows about the streak, which the next polls rely on. */
  predicate Knows(item: Item, ps: seq<Poll>) {
    var t := Run(item, ps);
    var alerts := StreakAlerts(item, ps);
    && t.failures == MissStreak(ps)
    && (MissStreak(ps) == 0 ==> t.missingSince == None)
    && (MissStreak(ps) > 0 ==> t.missingSince == Some(StreakStart(ps)))
    && (ps != [] ==> t.lastNotified <= Last(ps).now)
    && (alerts != [] ==> t.lastNotified == alerts[|alerts| - 1])
    && (alerts == [] && MissStreak(ps) > 0 ==> t.lastNotified < StreakStart(ps))
    && (ps == [] ==> t.lastNotified == 0)
  }

  lemma KnowsStep(item: Item, ps: seq<Poll>)
    requires ps != [] && Clocked(ps) && Knows(item, Before(ps))
    ensures Knows(item, ps)
  {
    var before := Before(ps);
    assert before != [] ==> Last(before).now < Last(ps).now;
    if !Last(ps).found {
      StreakSnoc(ps);
      if MissStreak(before) > 0 {
        assert 0 < StreakStart(before);
      }
    }
  }

  lemma {:induction false} RunKnows(item: Item, ps: seq<Poll>)
    requires Fresh(item) && Clocked(ps)
    ensures Knows(item, ps)
  {
    if ps != [] {
      RunKnows(item, Before(ps));
      KnowsStep(item, ps);
    }
  }

  /**
   Streak accuracy: after any run of polls the stored failure count is the length of the current
   miss streak, `missing_since` the time of its first poll, and the status the 15/30 minute
   threshold of its age.
   */
  lemma StreakAccuracy(item: Item, ps: seq<Poll>)
    requires Fresh(item) && Clocked(ps)
    ensures var t := Run(item, ps);
      && t.failures == MissStreak(ps)
      && t.missingSince == (if MissStreak(ps) == 0 then None else Some(StreakStart(ps)))
      && t.status == (if MissStreak(ps) == 0 || Age(ps) < 900 then Ok else if Age(ps) < 1800 then Warning else Missing)
  {
    RunKnows(item, ps);
    if ps != [] && !Last(ps).found {
      RunKnows(item, Before(ps));
      StreakSnoc(ps);
    }
  }

  /**
   When an alert goes out: exactly at the misses at least 30 minutes into the streak that come
   before any alert of that streak or more than 30 minutes after the last one.  Alerts of earlier
   streaks never suppress one.
   */
  lemma AlertExactly(item: Item, ps: seq<Poll>)
    requires Fresh(item) && Clocked(ps) && ps != []
    ensures AlertsLast(item, ps) <==>
      !Last(ps).found && Age(ps) >= 1800
      && var earlier := StreakAlerts(item, Before(ps));
        (earlier == [] || Last(ps).now - earlier[|earlier| - 1] > 1800)
  {
    RunKnows(item, Before(ps));
    if !Last(ps).found {
      StreakSnoc(ps);
      assert ps[|ps| - MissStreak(ps)].now > 0;
    }
  }

  /** The first poll that finds a streak 30 minutes old always raises its alert. */
  lemma FirstAlertNotSuppressed(item: Item, ps: seq<Poll>)
    requires Fresh(item) && Clocked(ps) && ps != [] && !Last(ps).found && Age(ps) >= 1800
    requires MissStreak(Before(ps)) > 0 ==> Age(Before(ps)) < 1800
    ensures AlertsLast(item, ps)
  {
    NoEarlyAlerts(item, Before(ps));
    AlertExactly(item, ps);
  }

  lemma {:induction false} NoEarlyAlerts(item: Item, ps: seq<Poll>)
    requires Fresh(item) && Clocked(ps) && (MissStreak(ps) > 0 ==> Age(ps) < NOTIFY_SECS)
    ensures StreakAlerts(item, ps) == []
  {
    if ps != [] && !Last(ps).found {
      StreakSnoc(ps);
      NoEarlyAlerts(item, Before(ps));
      AlertExactly(item, ps);
    }
  }

  /** Alert bound: `k` alerts within a streak mean that the last of them came at least `k` half hours into it. */
  lemma {:induction false} AlertBound(item: Item, ps: seq<Poll>)
    requires Fresh(item) && Clocked(ps) && MissStreak(ps) > 0
    ensures var alerts := StreakAlerts(item, ps);
      && 1800 * |alerts| <= Age(ps)
      && (alerts != [] ==>
        1800 * |alerts| <= alerts[|alerts| - 1] - StreakStart(ps) && alerts[|alerts| - 1] <= Last(ps).now)
  {
    var before := Before(ps);
    StreakSnoc(ps);
    AlertExactly(item, ps);
    if MissStreak(before) > 0 {
      AlertBound(item, before);
      assert Last(before).now < Last(ps).now;
    }
  }

  // ---------------------------------------------------------------------------------
  // A clock that may stand still between polls.

  predicate Steady(ps: seq<Poll>) {
    (forall i :: 0 <= i < |ps| ==> 0 < ps[i].now) && (forall i, j :: 0 <= i < j < |ps| ==> ps[i].now <= ps[j].now)
  }

  /** The time of the last alert of the whole run; 0 if there was none. */
  function LastAlert(item: Item, ps: seq<Poll>): int {
    if ps == [] then 0 else if AlertsLast(item, ps) then Last(ps).now else LastAlert(item, Before(ps))
  }

  predicate Remembers(item: Item, ps: seq<Poll>) {
    var t := Run(item, ps);
    && t.lastNotified == LastAlert(item, ps) <= (if ps == [] then 0 else Last(ps).now)
    && t.missingSince == (if MissStreak(ps) == 0 then None else Some(StreakStart(ps)))
    && (MissStreak(ps) > 0 && StreakAlerts(item, ps) == [] ==> LastAlert(item, ps) <= StreakStart(ps))
  }

  lemma {:induction false} RunRemembers(item: Item, ps: seq<Poll>)
    requires Fresh(item) && Steady(ps)
    ensures Remembers(item, ps)
  {
    if ps != [] {
      var before := Before(ps);
      RunRemembers(item, before);
      assert before != [] ==> Last(before).now <= Last(ps).now;
      if !Last(ps).found {
        StreakSnoc(ps);
        if MissStreak(before) > 0 {
          assert 0 < StreakStart(before);
        }
      }
    }
  }

  lemma {:induction false} NoAlertsYet(item: Item, ps: seq<Poll>)
    requires Fresh(item) && Steady(ps) && (MissStreak(ps) > 0 ==> Age(ps) < NOTIFY_SECS)
    ensures StreakAlerts(item, ps) == []
  {
    if ps != [] && !Last(ps).found {
      var before := Before(ps);
      StreakSnoc(ps);
      RunRemembers(item, before);
      assert before != [] ==> Last(before).now <= Last(ps).now;
      assert 0 < StreakStart(ps);
      NoAlertsYet(item, before);
    }
  }

  /**
   The first poll that finds a streak 30 minutes old raises its alert, unless the streak is exactly 30
   minutes old and began at the very time of the last alert before it.
   */
  lemma FirstAlertExactly(item: Item, ps: seq<Poll>)
    requires Fresh(item) && Steady(ps) && ps != [] && !Last(ps).found && Age(ps) >= 1800
    requires MissStreak(Before(ps)) > 0 ==> Age(Before(ps)) < 1800
    ensures AlertsLast(item, ps) <==> !(Age(ps) == 1800 && LastAlert(item, Before(ps)) == StreakStart(ps))
  {
    var before := Before(ps);
    StreakSnoc(ps);
    RunRemembers(item, before);
    NoAlertsYet(item, before);
    assert before != [] ==> Last(before).now <= Last(ps).now;
    assert 0 < StreakStart(ps);
  }

  // ---------------------------------------------------------------------------------
  // What is stored about the times an item was there.

  /** A stored time of 0 stands for none: the runs are the same from the first poll on. */
  lemma {:induction false} ZeroIsUnset(item: Item, ps: seq<Poll>)
    requires ps != []
    ensures Run(item.(missingSince := Some(0)), ps) == Run(item.(missingSince := None), ps)
  {
    if |ps| > 1 {
      ZeroIsUnset(item, Before(ps));
    }
  }

  /** Poll `i` is the last one that finds the item. */
  predicate LastFoundAt(ps: seq<Poll>, i: nat) {
    i < |ps| && ps[i].found && forall j :: i < j < |ps| ==> !ps[j].found
  }

  /** The time last seen is that of the last poll that found the item. */
  lemma {:induction false} LastSeenExactly(item: Item, ps: seq<Poll>, i: nat)
    ensures LastFoundAt(ps, i) ==> Run(item, ps).lastSeen == Some(ps[i].now)
    ensures (forall j :: 0 <= j < |ps| ==> !ps[j].found) ==> Run(item, ps).lastSeen == item.lastSeen
  {
    if ps != [] && !Last(ps).found {
      assert LastFoundAt(ps, i) ==> LastFoundAt(Before(ps), i);
      LastSeenExactly(item, Before(ps), i);
    }
  }

  /** Poll `i` is the first, or the last, one that finds the item with a time stamp of Central. */
  predicate FirstStampAt(ps: seq<Poll>, i: nat) {
    i < |ps| && ps[i].found && ps[i].stamp.Some? && forall j :: 0 <= j < i ==> !(ps[j].found && ps[j].stamp.Some?)
  }

  predicate LastStampAt(ps: seq<Poll>, i: nat) {
    i < |ps| && ps[i].found && ps[i].stamp.Some? && forall j :: i < j < |ps| ==> !(ps[j].found && ps[j].stamp.Some?)
  }

  predicate NoStamps(ps: seq<Poll>) {
    forall j :: 0 <= j < |ps| ==> !(ps[j].found && ps[j].stamp.Some?)
  }

  /** The stamps stored are the first and the last ones Central gave while the item was there. */
  lemma {:induction false} StampsExactly(item: Item, ps: seq<Poll>, i: nat)
    ensures LastStampAt(ps, i) ==> Run(item, ps).centralLast == ps[i].stamp
    ensures NoStamps(ps) ==> Run(item, ps).centralLast == item.centralLast
    ensures item.centralFirst.None? && item.centralLast.None? && FirstStampAt(ps, i) ==>
      Run(item, ps).centralFirst == ps[i].stamp
    ensures item.centralFirst.None? && item.centralLast.None? && NoStamps(ps) ==> Run(item, ps).centralFirst == None
  {
    if ps != [] {
      var before := Before(ps);
      assert LastStampAt(ps, i) && i < |ps| - 1 ==> LastStampAt(before, i);
      assert FirstStampAt(ps, i) ==> if i < |ps| - 1 then FirstStampAt(before, i) else NoStamps(before);
      StampsExactly(item, before, i);
    }
  }

  predicate FirstFoundAt(ps: seq<Poll>, i: nat) {
    i < |ps| && ps[i].found && forall j :: 0 <= j < i ==> !ps[j].found
  }

  /** An item stored with a last stamp alone gets its first one from the first poll that finds it, or else from that. */
  lemma {:induction false} OldStampMoves(item: Item, ps: seq<Poll>, i: nat)
    requires item.centralFirst.None? && item.centralLast.Some? && FirstFoundAt(ps, i)
    ensures Run(item, ps).centralFirst == if ps[i].stamp.Some? then ps[i].stamp else item.centralLast
  {
    var before := Before(ps);
    if i < |before| {
      OldStampMoves(item, before, i);
    } else {
      assert NoStamps(before);
      StampsExactly(item, before, 0);
      NeverFound(item, before);
    }
  }

  lemma {:induction false} NeverFound(item: Item, ps: seq<Poll>)
    requires forall j :: 0 <= j < |ps| ==> !ps[j].found
    ensures Run(item, ps).centralFirst == item.centralFirst
  {
    if ps != [] {
      NeverFound(item, Before(ps));
    }
  }

  /** Central's report names the item among those of its kind. */
  predicate Reported(r: Report, item: Item) {
    || (item.kind == Site && item.identifier in r.sites)
    || (item.kind == AlertName && item.identifier in r.alerts)
    || (item.kind == Insight && item.identifier in r.insights)
    || (item.kind == Client && item.identifier in r.clients)
    || (item.kind == Gateway && item.identifier in r.devices)
  }

  function StampIn(r: Report, item: Item): Option<string> {
    if item.kind == AlertName && item.identifier in r.alerts then r.alerts[item.identifier]
    else if item.kind == Insight && item.identifier in r.insights then r.insights[item.identifier]
    else if item.kind == Gateway && item.identifier in r.devices then r.devices[item.identifier]
    else None
  }

  /** A report is a poll of each item by its own kind; an item of no known kind is left alone. */
  lemma ReportPolls(r: Report, item: Item, now: int)
    ensures item.kind == UnknownKind ==> Checked(r, item, now) == item && !AlertsIn(r, item, now)
    ensures item.kind != UnknownKind ==>
      var ps := [Poll(Reported(r, item), StampIn(r, item), now)];
      Checked(r, item, now) == Run(item, ps) && (AlertsIn(r, item, now) <==> AlertsLast(item, ps))
  {
    var ps := [Poll(Reported(r, item), StampIn(r, item), now)];
    assert Before(ps) == [] && Last(ps) == ps[0];
  }

  /** The first time stamp Central ever gave for an item is kept for good. */
  lemma {:induction false} FirstStampKept(item: Item, ps: seq<Poll>)
    requires item.centralFirst.Some?
    ensures Run(item, ps).centralFirst == item.centralFirst
  {
    if ps != [] {
      FirstStampKept(item, Before(ps));
    }
  }
}
