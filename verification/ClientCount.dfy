/**
 The client-count alarm of the hub (app/tasks.py): per site a window of the samples of the last
 hour, the average over it, a saved baseline for sites with too few samples, and an alarm when the
 current count has dropped a quarter or more below the average.  Averages are exact rationals here.
 */
module ClientCount {
  import opened Prelude

  const MIN_SAMPLES := 3
  const DROP_PCT := 25.0
  const WINDOW_SECS := 3600

  datatype Sample = Sample(ts: int, count: int)
  datatype Baseline = Baseline(average: real, recordedAt: int)
  datatype Status = Ok | Degraded | NoData
  datatype Report = Report(current: int, average: real, drop: real, status: Status, ts: int,
                           stale: bool, recordedAt: Option<int>)

  // ---------------------------------------------------------------------------------
  // The window.

  /** The samples taken at `cutoff` or later, in order. */
  function Recent(samples: seq<Sample>, cutoff: int): seq<Sample> {
    if samples == [] then []
    else
      var last := samples[|samples| - 1];
      Recent(samples[..|samples| - 1], cutoff) + if last.ts >= cutoff then [last] else []
  }

  /** The window after a history of samples: each poll appends its own and drops the old ones. */
  function Window(history: seq<Sample>): seq<Sample> {
    if history == [] then []
    else
      var last := history[|history| - 1];
      Recent(Window(history[..|history| - 1]) + [last], last.ts - WINDOW_SECS)
  }

  /** No sample is earlier than the one before it. */
  predicate Sorted(samples: seq<Sample>) {
    |samples| < 2
    || (samples[|samples| - 2].ts <= samples[|samples| - 1].ts && Sorted(samples[..|samples| - 1]))
  }

  lemma {:induction false} SortedAtMost(samples: seq<Sample>, k: nat)
    requires Sorted(samples) && k < |samples|
    ensures samples[k].ts <= samples[|samples| - 1].ts
  {
    if k < |samples| - 1 {
      SortedAtMost(samples[..|samples| - 1], k);
    }
  }

  lemma {:induction false} RecentSnoc(samples: seq<Sample>, x: Sample, cutoff: int)
    ensures Recent(samples + [x], cutoff) == Recent(samples, cutoff) + if x.ts >= cutoff then [x] else []
  {
    assert (samples + [x])[..|samples|] == samples;
  }

  /** Cutting twice is cutting once at the later time. */
  lemma {:induction false} RecentTwice(samples: seq<Sample>, early: int, late: int)
    requires early <= late
    ensures Recent(Recent(samples, early), late) == Recent(samples, late)
  {
    if samples != [] {
      var front, last := samples[..|samples| - 1], samples[|samples| - 1];
      RecentTwice(front, early, late);
      if last.ts >= early {
        RecentSnoc(Recent(front, early), last, late);
      } else {
        assert Recent(samples, early) == Recent(front, early);
        assert Recent(samples, late) == Recent(front, late);
      }
    }
  }

  /**
   Nothing recent is lost: with a clock that does not run backwards the window, which forgets samples
   as it goes, is exactly the part of the whole history that lies in the last hour.
   */
  lemma {:induction false} WindowIsLastHour(history: seq<Sample>)
    requires history != [] && Sorted(history)
    ensures Window(history) == Recent(history, history[|history| - 1].ts - 3600)
  {
    var front, last := history[..|history| - 1], history[|history| - 1];
    assert history == front + [last];
    if front != [] {
      WindowIsLastHour(front);
      LaterCut(front, Window(front), last, front[|front| - 1].ts - WINDOW_SECS, last.ts - WINDOW_SECS);
    }
  }

  lemma LaterCut(front: seq<Sample>, window: seq<Sample>, last: Sample, before: int, cutoff: int)
    requires window == Recent(front, before) && before <= cutoff
    ensures Recent(window + [last], cutoff) == Recent(front + [last], cutoff)
  {
    RecentSnoc(window, last, cutoff);
    RecentSnoc(front, last, cutoff);
    RecentTwice(front, before, cutoff);
  }

  /** Where a kept sample comes from. */
  lemma {:induction false} RecentOrigin(samples: seq<Sample>, cutoff: int, k: nat) returns (i: nat)
    requires k < |Recent(samples, cutoff)|
    ensures i < |samples| && samples[i] == Recent(samples, cutoff)[k] && samples[i].ts >= cutoff
  {
    var front := samples[..|samples| - 1];
    if k < |Recent(front, cutoff)| {
      i := RecentOrigin(front, cutoff, k);
    } else {
      i := |samples| - 1;
    }
  }

  lemma {:induction false} RecentSorted(samples: seq<Sample>, cutoff: int)
    requires Sorted(samples)
    ensures Sorted(Recent(samples, cutoff))
  {
    if samples != [] {
      var front, last := samples[..|samples| - 1], samples[|samples| - 1];
      var kept := Recent(front, cutoff);
      RecentSorted(front, cutoff);
      assert (kept + [last])[..|kept|] == kept;
      if kept != [] {
        var i := RecentOrigin(front, cutoff, |kept| - 1);
        SortedAtMost(samples, i);
      }
    }
  }

  /** Whatever the clock does: the window ends in the newest sample and holds none older than an hour. */
  lemma {:induction false} WindowEnds(history: seq<Sample>)
    requires history != []
    ensures var w, now := Window(history), history[|history| - 1].ts;
      && w != [] && w[|w| - 1] == history[|history| - 1]
      && forall k :: 0 <= k < |w| ==> w[k].ts >= now - 3600
  {
    var front, last := history[..|history| - 1], history[|history| - 1];
    var cutoff := last.ts - WINDOW_SECS;
    RecentSnoc(Window(front), last, cutoff);
    forall k | 0 <= k < |Window(history)|
      ensures Window(history)[k].ts >= cutoff
    {
      var i := RecentOrigin(Window(front) + [last], cutoff, k);
    }
  }

  /** With a clock that does not run backwards the window is sorted and inside the last hour. */
  lemma {:induction false} WindowInLastHour(history: seq<Sample>)
    requires history != [] && Sorted(history)
    ensures var w, now := Window(history), history[|history| - 1].ts;
      Sorted(w) && forall k :: 0 <= k < |w| ==> now - 3600 <= w[k].ts <= now
  {
    var now := history[|history| - 1].ts;
    WindowIsLastHour(history);
    RecentSorted(history, now - WINDOW_SECS);
    forall k | 0 <= k < |Window(history)|
      ensures now - WINDOW_SECS <= Window(history)[k].ts <= now
    {
      var i := RecentOrigin(history, now - WINDOW_SECS, k);
      SortedAtMost(history, i);
    }
  }

  /** The samples of the last hour before the newest one, by their places in the history. */
  predicate LastHour(history: seq<Sample>, cutoff: int, kept: seq<nat>) {
    && (forall p, q :: 0 <= p < q < |kept| ==> kept[p] < kept[q])
    && (forall p :: 0 <= p < |kept| ==> kept[p] < |history|)
    && (forall i :: 0 <= i < |history| ==> (i in kept <==> history[i].ts >= cutoff))
  }

  function RecentPlaces(samples: seq<Sample>, cutoff: int): seq<nat> {
    if samples == [] then []
    else
      var front := RecentPlaces(samples[..|samples| - 1], cutoff);
      if samples[|samples| - 1].ts >= cutoff then front + [|samples| - 1] else front
  }

  lemma {:induction false} RecentPlacesAre(samples: seq<Sample>, cutoff: int)
    ensures LastHour(samples, cutoff, RecentPlaces(samples, cutoff))
  {
    if samples != [] {
      var n := |samples| - 1;
      var front := RecentPlaces(samples[..n], cutoff);
      RecentPlacesAre(samples[..n], cutoff);
      forall i | 0 <= i < n ensures i in front <==> samples[i].ts >= cutoff {
        assert samples[..n][i] == samples[i];
      }
    }
  }

  lemma {:induction false} RecentPicks(samples: seq<Sample>, cutoff: int)
    ensures var kept := RecentPlaces(samples, cutoff);
      |Recent(samples, cutoff)| == |kept|
      && forall p :: 0 <= p < |kept| ==> kept[p] < |samples| && Recent(samples, cutoff)[p] == samples[kept[p]]
  {
    if samples != [] {
      RecentPicks(samples[..|samples| - 1], cutoff);
    }
  }

  /** The window sample by sample: in order, those of the history no older than 3600 seconds, and only those. */
  lemma WindowExactly(history: seq<Sample>) returns (kept: seq<nat>)
    requires history != [] && Sorted(history)
    ensures LastHour(history, history[|history| - 1].ts - 3600, kept) && |Window(history)| == |kept|
    ensures forall p :: 0 <= p < |kept| ==> Window(history)[p] == history[kept[p]]
  {
    var cutoff := history[|history| - 1].ts - 3600;
    WindowIsLastHour(history);
    RecentPlacesAre(history, cutoff);
    RecentPicks(history, cutoff);
    kept := RecentPlaces(history, cutoff);
  }

  // ---------------------------------------------------------------------------------
  // Averages and the alarm.

  function Sum(samples: seq<Sample>): int {
    if samples == [] then 0 else Sum(samples[..|samples| - 1]) + samples[|samples| - 1].count
  }

  /** Sums of counts add up, however the samples are split. */
  lemma {:induction false} SumParts(a: seq<Sample>, b: seq<Sample>)
    ensures Sum(a + b) == Sum(a) + Sum(b) && Sum([]) == 0
    ensures |a| == 1 ==> Sum(a) == a[0].count
  {
    if b == [] {
      assert a + b == a;
      assert |a| == 1 ==> a[..0] == [];
    } else {
      assert (a + b)[..|a + b| - 1] == a + b[..|b| - 1];
      SumParts(a, b[..|b| - 1]);
    }
  }

  function Average(samples: seq<Sample>): real
    requires samples != []
  {
    Sum(samples) as real / |samples| as real
  }

  /** The drop of the current count below the average, in percent; averages below one give none. */
  function Drop(average: real, current: int): real {
    if average < 1.0 || average <= current as real then 0.0 else (average - current as real) / average * 100.0
  }

  function Alarm(average: real, current: int): Status {
    if Drop(average, current) >= DROP_PCT then Degraded else Ok
  }

  /** The baseline after a history: the average of the last window that had enough samples. */
  function BaselineAfter(saved: Option<Baseline>, history: seq<Sample>): Option<Baseline> {
    if history == [] then saved
    else
      var w := Window(history);
      if |w| < MIN_SAMPLES then BaselineAfter(saved, history[..|history| - 1])
      else Some(Baseline(Average(w), w[|w| - 1].ts))
  }

  /** What is reported for a site with this window and this baseline. */
  function Judge(w: seq<Sample>, baseline: Option<Baseline>): Report
    requires w != []
  {
    var current, ts := w[|w| - 1].count, w[|w| - 1].ts;
    if |w| >= MIN_SAMPLES then
      Report(current, Average(w), Drop(Average(w), current), Alarm(Average(w), current), ts, false, None)
    else if baseline.Some? then
      var a := baseline.value.average;
      Report(current, a, Drop(a, current), Alarm(a, current), ts, true, Some(baseline.value.recordedAt))
    else
      Report(current, current as real, 0.0, NoData, ts, false, None)
  }

  lemma TimesOrder(x: real, y: real, n: real)
    requires n > 0.0
    ensures x <= y <==> x * n <= y * n
  {
    if x <= y {
      assert x * n <= y * n;
    } else {
      assert y * n < x * n;
    }
  }

  lemma RatioAtLeast(x: real, a: real, t: real)
    requires a > 0.0
    ensures x / a >= t <==> x >= t * a
  {
    var q := x / a;
    assert q * a == x;
    TimesOrder(t, q, a);
  }

  lemma RatioAtMost(x: real, a: real, t: real)
    requires a > 0.0
    ensures x / a <= t <==> x <= t * a
  {
    var q := x / a;
    assert q * a == x;
    TimesOrder(q, t, a);
  }

  /** The alarm is raised exactly when the average is at least one and the count at most three quarters of it. */
  lemma AlarmThreshold(average: real, current: int)
    ensures Alarm(average, current) == Degraded <==> average >= 1.0 && 4.0 * current as real <= 3.0 * average
  {
    var c := current as real;
    if average >= 1.0 && average > c {
      RatioAtLeast(average - c, average, 0.25);
    }
  }

  lemma AverageTimes(w: seq<Sample>)
    requires w != []
    ensures Average(w) * |w| as real == Sum(w) as real
  {
  }

  /** The threshold for an average `a` of `n` counts that sum to `s`, in whole numbers. */
  lemma ThresholdOfSum(a: real, n: int, s: int, c: int)
    requires n > 0 && a * n as real == s as real
    ensures a >= 1.0 && 4.0 * c as real <= 3.0 * a <==> s >= n && 4 * (n * c) <= 3 * s
  {
    TimesOrder(1.0, a, n as real);
    ThreeQuarters(a, n, s, c);
  }

  lemma ThreeQuarters(a: real, n: int, s: int, c: int)
    requires n > 0 && a * n as real == s as real
    ensures 4.0 * c as real <= 3.0 * a <==> 4 * (n * c) <= 3 * s
  {
    var m := n as real;
    TimesOrder(4.0 * c as real, 3.0 * a, m);
    assert 3.0 * a * m == 3.0 * (a * m);
    assert 4.0 * c as real * m == 4.0 * (c as real * m);
    assert c as real * m == (n * c) as real;
  }

  /**
   The alarm in whole numbers: with at least three samples the site is degraded exactly when the
   average is at least one and the current count is at most three quarters of it.
   */
  lemma AlarmExactly(w: seq<Sample>, baseline: Option<Baseline>)
    requires |w| >= 3
    ensures var r, n, s := Judge(w, baseline), |w|, Sum(w);
      r.status == Degraded <==> s >= n && 4 * (n * r.current) <= 3 * s
  {
    var a, c := Average(w), w[|w| - 1].count;
    AverageTimes(w);
    ThresholdOfSum(a, |w|, Sum(w), c);
    AlarmThreshold(a, c);
  }

  /** What is reported: the newest sample, and the window's own average or, with too few samples, the saved one. */
  lemma AverageReported(w: seq<Sample>, baseline: Option<Baseline>)
    requires w != []
    ensures var r := Judge(w, baseline);
      && Sample(r.ts, r.current) == w[|w| - 1]
      && (|w| >= 3 ==> !r.stale && r.recordedAt == None && r.average * |w| as real == Sum(w) as real)
      && (|w| < 3 && baseline.Some? ==> r.stale && Baseline(r.average, r.recordedAt.value) == baseline.value)
      && (|w| < 3 && baseline.None? ==> !r.stale && r.average == r.current as real)
      && (r.status == NoData <==> |w| < 3 && baseline.None?)
  {
    AverageTimes(w);
  }

  /** The reported drop, multiplied out: how far the count lies below the average, in percent of the average. */
  lemma DropReported(w: seq<Sample>, baseline: Option<Baseline>)
    requires w != []
    ensures var r := Judge(w, baseline);
      if r.average < 1.0 || r.average <= r.current as real then r.drop == 0.0
      else r.drop * r.average == 100.0 * (r.average - r.current as real)
  {
    var r := Judge(w, baseline);
    if r.average >= 1.0 && r.average > r.current as real {
      DropTimes(r.average, r.current);
    }
  }

  lemma DropTimes(a: real, current: int)
    requires a >= 1.0 && a > current as real
    ensures Drop(a, current) * a == 100.0 * (a - current as real)
  {
    var q := (a - current as real) / a;
    assert q * a == a - current as real;
    assert q * 100.0 * a == 100.0 * (q * a);
  }

  /** The alarm for a site with fewer samples: from the saved baseline alone, or no data. */
  lemma AlarmFromBaseline(w: seq<Sample>, baseline: Option<Baseline>)
    requires 0 < |w| < 3
    ensures var r := Judge(w, baseline);
      (r.status == Degraded <==> baseline.Some? && baseline.value.average >= 1.0
                                    && 4.0 * r.current as real <= 3.0 * baseline.value.average)
  {
    if baseline.Some? {
      AlarmThreshold(baseline.value.average, w[|w| - 1].count);
    }
  }

  lemma DropBounds(a: real, current: int)
    ensures 0.0 <= Drop(a, current)
    ensures Drop(a, current) <= 100.0 <==> current >= 0 || a < 1.0
  {
    var c := current as real;
    if a >= 1.0 && a > c {
      RatioAtLeast(a - c, a, 0.0);
      RatioAtMost(a - c, a, 1.0);
    }
  }

  /** The drop is never negative, and at most 100 exactly when the count is not negative or no drop is computed. */
  lemma DropRange(w: seq<Sample>, baseline: Option<Baseline>)
    requires w != []
    ensures var r := Judge(w, baseline);
      && 0.0 <= r.drop
      && (r.drop <= 100.0 <==> r.current >= 0 || r.average < 1.0 || r.status == NoData)
  {
    DropBounds(Judge(w, baseline).average, w[|w| - 1].count);
  }

  lemma {:induction false} SumAtMost(w: seq<Sample>, top: int)
    requires forall k :: 0 <= k < |w| ==> w[k].count <= top
    ensures Sum(w) <= |w| * top
  {
    if w != [] {
      SumAtMost(w[..|w| - 1], top);
    }
  }

  /** A site whose current count is the largest in its window is OK and shows no drop. */
  lemma LargestIsOk(w: seq<Sample>, baseline: Option<Baseline>)
    requires |w| >= 3
    requires forall k :: 0 <= k < |w| ==> w[k].count <= w[|w| - 1].count
    ensures Judge(w, baseline).status == Ok && Judge(w, baseline).drop == 0.0
  {
    var c, n := w[|w| - 1].count, |w|;
    SumAtMost(w, c);
    AverageTimes(w);
    TimesOrder(Average(w), c as real, n as real);
    assert (n * c) as real == c as real * n as real;
  }

  lemma {:induction false} SumSteady(w: seq<Sample>, c: int)
    requires forall k :: 0 <= k < |w| ==> w[k].count == c
    ensures Sum(w) == |w| * c
  {
    if w != [] {
      SumSteady(w[..|w| - 1], c);
    }
  }

  /**
   An hour of constant counts clears every alarm: whatever came before, once all samples of the last
   hour are equal and there are three of them, the site is OK, without drop, at that very average.
   */
  lemma SteadyHourIsOk(history: seq<Sample>, saved: Option<Baseline>, c: int)
    requires history != [] && Sorted(history) && |Window(history)| >= 3
    requires forall i :: 0 <= i < |history| && history[i].ts >= history[|history| - 1].ts - 3600 ==>
      history[i].count == c
    ensures var r := Judge(Window(history), saved);
      r.status == Ok && r.drop == 0.0 && r.current == c && r.average == c as real
  {
    SteadyWindow(history, c);
    WindowEnds(history);
    SteadyIsOk(Window(history), saved, c);
  }

  lemma SteadyWindow(history: seq<Sample>, c: int)
    requires history != [] && Sorted(history)
    requires forall i :: 0 <= i < |history| && history[i].ts >= history[|history| - 1].ts - 3600 ==>
      history[i].count == c
    ensures forall k :: 0 <= k < |Window(history)| ==> Window(history)[k].count == c
  {
    var w, cutoff := Window(history), history[|history| - 1].ts - WINDOW_SECS;
    WindowIsLastHour(history);
    forall k | 0 <= k < |w| ensures w[k].count == c {
      var i := RecentOrigin(history, cutoff, k);
    }
  }

  lemma SteadyIsOk(w: seq<Sample>, saved: Option<Baseline>, c: int)
    requires |w| >= 3 && forall k :: 0 <= k < |w| ==> w[k].count == c
    ensures var r := Judge(w, saved);
      r.status == Ok && r.drop == 0.0 && r.current == c && r.average == c as real
  {
    LargestIsOk(w, saved);
    SumSteady(w, c);
    AverageTimes(w);
    SteadyAverage(Average(w), |w|, c);
  }

  lemma SteadyAverage(a: real, n: int, c: int)
    requires n > 0 && a * n as real == (n * c) as real
    ensures a == c as real
  {
    assert (n * c) as real == c as real * n as real;
    TimesOrder(a, c as real, n as real);
    TimesOrder(c as real, a, n as real);
  }

  /**
   The baseline: the average and time of the last window with at least three samples, or the saved one
   if there was none.  `p` is the part of the history that leads up to that window.
   */
  lemma {:induction false} BaselineIsLastFullWindow(saved: Option<Baseline>, history: seq<Sample>)
    returns (p: seq<Sample>)
    ensures p <= history && forall q :: p < q && q <= history ==> |Window(q)| < 3
    ensures p == [] ==> BaselineAfter(saved, history) == saved
    ensures p != [] ==> |Window(p)| >= 3
                        && BaselineAfter(saved, history) == Some(Baseline(Average(Window(p)), p[|p| - 1].ts))
  {
    p := history;
    if history != [] {
      WindowEnds(history);
      if |Window(history)| < MIN_SAMPLES {
        var front := history[..|history| - 1];
        p := BaselineIsLastFullWindow(saved, front);
        forall q | p < q && q <= history ensures |Window(q)| < MIN_SAMPLES {
          if |q| == |history| {
            assert q == history;
          } else {
            assert q <= front;
          }
        }
      }
    }
  }

  // ---------------------------------------------------------------------------------
  // The poller's state.

  function Get(m: map<string, seq<Sample>>, site: string): seq<Sample> {
    if site in m then m[site] else []
  }

  function Saved(m: map<string, Baseline>, site: string): Option<Baseline> {
    if site in m then Some(m[site]) else None
  }

  /** A site's history after a poll: a mapped site gets one sample, the others keep what they have. */
  function Later(h: map<string, seq<Sample>>, now: int, counts: map<string, int>, site: string): seq<Sample> {
    if site in counts then Get(h, site) + [Sample(now, counts[site])] else Get(h, site)
  }

  /** The histories of all sites after a poll. */
  function Extend(h: map<string, seq<Sample>>, now: int, counts: map<string, int>): map<string, seq<Sample>> {
    map site | site in h.Keys + counts.Keys :: Later(h, now, counts, site)
  }

  lemma ExtendAt(h: map<string, seq<Sample>>, now: int, counts: map<string, int>, site: string)
    ensures Get(Extend(h, now, counts), site) == Later(h, now, counts, site)
  {
  }

  lemma ExtendNonEmpty(h: map<string, seq<Sample>>, now: int, counts: map<string, int>)
    requires forall site :: site in h ==> h[site] != []
    ensures forall site :: site in Extend(h, now, counts) ==> Extend(h, now, counts)[site] != []
  {
  }

  lemma WindowSnoc(history: seq<Sample>, x: Sample)
    ensures Window(history + [x]) == Recent(Window(history) + [x], x.ts - WINDOW_SECS)
  {
    assert (history + [x])[..|history|] == history;
  }

  /** The baseline of a site with window `w` after a refresh. */
  function Refreshed(w: seq<Sample>, before: Option<Baseline>): Option<Baseline> {
    if |w| < MIN_SAMPLES then before else Some(Baseline(Average(w), w[|w| - 1].ts))
  }

  lemma BaselineSnoc(saved: Option<Baseline>, history: seq<Sample>, x: Sample)
    ensures BaselineAfter(saved, history + [x]) == Refreshed(Window(history + [x]), BaselineAfter(saved, history))
  {
    assert (history + [x])[..|history|] == history;
  }

  class ClientCounts {
    var samples: map<string, seq<Sample>>
    var baseline: map<string, Baseline>
    const loaded: map<string, Baseline>
    ghost var history: map<string, seq<Sample>>

    /** The windows are those of the histories. */
    ghost predicate WindowsOf(h: map<string, seq<Sample>>)
      reads this
    {
      && samples.Keys == h.Keys
      && (forall site :: site in h ==> h[site] != [])
      && (forall site :: Get(samples, site) == Window(Get(h, site)))
    }

    /** So are the baselines, over what was loaded when the hub started. */
    ghost predicate BaselinesOf(h: map<string, seq<Sample>>)
      reads this
    {
      forall site :: Saved(baseline, site) == BaselineAfter(Saved(loaded, site), Get(h, site))
    }

    ghost predicate Valid()
      reads this
    {
      WindowsOf(history) && BaselinesOf(history)
    }

    constructor (saved: map<string, Baseline>)
      ensures Valid() && history == map[] && loaded == saved
    {
      samples, baseline, loaded, history := map[], saved, saved, map[];
    }

    static method CutOff(all: seq<Sample>, cutoff: int) returns (kept: seq<Sample>)
      ensures kept == Recent(all, cutoff)
    {
      kept := [];
      for i := 0 to |all|
        invariant kept == Recent(all[..i], cutoff)
      {
        assert all[..i + 1][..i] == all[..i];
        if all[i].ts >= cutoff {
          kept := kept + [all[i]];
        }
      }
      assert all[..|all|] == all;
    }

    /** One site's new sample: appended, then the old ones are filtered out.  `h` is the site's history. */
    method AddSample(site: string, x: Sample, ghost h: seq<Sample>)
      requires Get(samples, site) == Window(h)
      modifies this`samples
      ensures samples.Keys == old(samples).Keys + {site}
      ensures Get(samples, site) == Window(h + [x])
      ensures forall other {:trigger Get(samples, other)} :: other != site ==>
        Get(samples, other) == Get(old(samples), other)
    {
      var kept := CutOff(Get(samples, site) + [x], x.ts - WINDOW_SECS);
      WindowSnoc(h, x);
      samples := samples[site := kept];
    }

    method AddSamples(now: int, counts: map<string, int>)
      requires forall site :: Get(samples, site) == Window(Get(history, site))
      modifies this`samples
      ensures samples.Keys == old(samples).Keys + counts.Keys
      ensures forall site :: Get(samples, site) == Window(Later(history, now, counts, site))
    {
      var todo := counts.Keys;
      while todo != {}
        invariant todo <= counts.Keys
        invariant samples.Keys == old(samples).Keys + (counts.Keys - todo)
        invariant forall site {:trigger Get(samples, site)} ::
          Get(samples, site) == Window(if site in todo then Get(history, site) else Later(history, now, counts, site))
      {
        var site :| site in todo;
        AddSample(site, Sample(now, counts[site]), Get(history, site));
        todo := todo - {site};
      }
    }

    /** All samples of a poll, with the histories brought up to date. */
    method TakeSamples(now: int, counts: map<string, int>)
      requires WindowsOf(history)
      modifies this`samples, this`history
      ensures history == Extend(old(history), now, counts) && WindowsOf(history)
    {
      ExtendNonEmpty(history, now, counts);
      AddSamples(now, counts);
      forall site ensures Get(Extend(history, now, counts), site) == Later(history, now, counts, site) {
        ExtendAt(history, now, counts, site);
      }
      history := Extend(history, now, counts);
    }

    /** Sites with enough samples get a new baseline. */
    method RefreshBaseline()
      modifies this`baseline
      ensures forall site :: Saved(baseline, site) == Refreshed(Get(samples, site), Saved(old(baseline), site))
    {
      var todo := samples.Keys;
      while todo != {}
        invariant todo <= samples.Keys
        invariant forall site :: site !in todo ==>
          Saved(baseline, site) == Refreshed(Get(samples, site), Saved(old(baseline), site))
        invariant forall site :: site in todo ==> Saved(baseline, site) == Saved(old(baseline), site)
      {
        var site :| site in todo;
        var w := samples[site];
        if |w| >= MIN_SAMPLES {
          baseline := baseline[site := Baseline(Average(w), w[|w| - 1].ts)];
        }
        todo := todo - {site};
      }
    }

    /** The reports of all sites that have samples, mapped or not. */
    method Payload() returns (result: map<string, Report>)
      requires forall site :: site in samples ==> samples[site] != []
      ensures result.Keys == samples.Keys
      ensures forall site :: site in result ==> result[site] == Judge(samples[site], Saved(baseline, site))
    {
      result := map[];
      var todo := samples.Keys;
      while todo != {}
        invariant todo <= samples.Keys && result.Keys == samples.Keys - todo
        invariant forall site :: site in result ==> result[site] == Judge(samples[site], Saved(baseline, site))
      {
        var site :| site in todo;
        result := result[site := Judge(samples[site], Saved(baseline, site))];
        todo := todo - {site};
      }
    }

    lemma FieldsOf(site: string)
      requires Valid() && site in samples
      ensures samples[site] == Window(history[site]) && samples[site] != []
      ensures Saved(baseline, site) == BaselineAfter(Saved(loaded, site), history[site])
    {
      assert Get(samples, site) == samples[site] && Get(history, site) == history[site];
      WindowEnds(history[site]);
    }

    /** One poll of a tenant's sites: every mapped site's count at `now`. */
    method Poll(now: int, counts: map<string, int>) returns (result: map<string, Report>)
      requires Valid()
      modifies this
      ensures Valid() && history == Extend(old(history), now, counts)
      ensures history.Keys == old(history).Keys + counts.Keys
      ensures forall site :: site in history ==>
        history[site] == (if site in old(history) then old(history)[site] else [])
                         + (if site in counts then [Sample(now, counts[site])] else [])
      ensures result.Keys == history.Keys
      ensures forall site :: site in result ==>
        result[site] == Judge(Window(history[site]), BaselineAfter(Saved(loaded, site), history[site]))
    {
      TakeSamples(now, counts);
      RefreshBaseline();
      forall site
        ensures Saved(baseline, site) == BaselineAfter(Saved(loaded, site), Get(history, site))
      {
        RefreshedBaseline(old(history), now, counts, Saved(loaded, site), site);
      }
      forall site | site in samples
        ensures samples[site] == Window(history[site]) && samples[site] != []
        ensures Saved(baseline, site) == BaselineAfter(Saved(loaded, site), history[site])
      {
        FieldsOf(site);
      }
      result := Payload();
    }
  }

  /** Refreshing the baseline of any site, mapped or not, gives the baseline of its new history. */
  lemma RefreshedBaseline(h: map<string, seq<Sample>>, now: int, counts: map<string, int>, saved: Option<Baseline>,
                          site: string)
    requires forall s :: s in h ==> h[s] != []
    ensures var g := Get(Extend(h, now, counts), site);
      BaselineAfter(saved, g) == Refreshed(Window(g), BaselineAfter(saved, Get(h, site)))
  {
    ExtendAt(h, now, counts, site);
    if site in counts {
      BaselineSnoc(saved, Get(h, site), Sample(now, counts[site]));
    }
  }
}
