/**
 * The web sleep-progress page (frontend/src/components/SleepProgress.jsx):
 * the sleep-factor toggle, the data-presence flags that gate the three
 * rings, the windows of the quality chart and the timeline, and the page
 * state that loads the summary, toggles factors and resets them when the
 * calendar day changes.
 *
 * Ring values are exact reals and percentages exact rational rounding;
 * the clock, the summary service and the factor service are parameters.
 */
module SleepProgress {
  import opened Wrappers
  import L = Lists

  // ---------------------------------------------------------------- sleep factors

  /** The chips shown above the rings. */
  const Factors: seq<string> := ["sick", "teething", "travel", "regression", "vaccines"]

  /** `x => x !== f` */
  function Other(f: string): string -> bool { x => x != f }

  /** A selected factor is removed (every occurrence); an unselected one is appended. */
  function Toggle(selected: seq<string>, f: string): (next: seq<string>)
    ensures f in next <==> f !in selected
  {
    if f in selected then L.Keep(selected, Other(f)) else selected + [f]
  }

  /** Toggling leaves the other factors as they were, as often as they were. */
  lemma ToggleKeepsOthers(selected: seq<string>, f: string, x: string)
    requires x != f
    ensures multiset(Toggle(selected, f))[x] == multiset(selected)[x]
  {
    L.KeepCounts(selected, Other(f), x);
  }

  /** Removing a selected factor removes every copy of it and nothing else. */
  lemma ToggleOffRemovesAll(selected: seq<string>, f: string)
    requires f in selected
    ensures multiset(Toggle(selected, f))[f] == 0
    ensures |Toggle(selected, f)| == |selected| - multiset(selected)[f]
  {
    var next := Toggle(selected, f);
    L.KeepCounts(selected, Other(f), f);
    DropCount(selected, f);
  }

  lemma {:induction false} DropCount(s: seq<string>, f: string)
    ensures |L.Keep(s, Other(f))| == |s| - multiset(s)[f]
    decreases |s|
  {
    if s != [] {
      DropCount(s[1..], f);
      assert s == [s[0]] + s[1..];
    }
  }

  /** Toggling an unselected factor twice restores the selection. */
  lemma ToggleTwiceRestores(selected: seq<string>, f: string)
    requires f !in selected
    ensures Toggle(Toggle(selected, f), f) == selected
  {
    L.KeepAppend(selected, [f], Other(f));
    L.KeepAll(selected, Other(f));
    assert L.Keep([f], Other(f)) == [];
  }

  /** Toggling a selected factor twice moves one copy of it to the end. */
  lemma ToggleTwiceMovesLast(selected: seq<string>, f: string)
    requires f in selected
    ensures Toggle(Toggle(selected, f), f) == L.Keep(selected, Other(f)) + [f]
  {}

  // ---------------------------------------------------------------- the summary

  /**
   * One point of the quality trend. A missing quality is given as 0, which
   * the `> 0` test treats alike.
   */
  datatype QualityPoint = QualityPoint(date: string, quality: int, factors: seq<string>)

  datatype TimelineDay = TimelineDay(date: string)

  /**
   * The progress summary. Per-day seconds and per-night wakings are given
   * with a missing value as 0, as `|| 0` reads them.
   */
  datatype Summary = Summary(
    trendSeconds: seq<int>,
    wakingsTrend: seq<int>,
    nightWakings: Option<int>,
    napsCount: Option<int>,
    qualityTrend: seq<QualityPoint>,
    timeline: seq<TimelineDay>)

  function OrZero(v: Option<int>): int { if v.Some? then v.value else 0 }

  function TrendOf(s: Option<Summary>): seq<int> { if s.Some? then s.value.trendSeconds else [] }
  function WakingsOf(s: Option<Summary>): seq<int> { if s.Some? then s.value.wakingsTrend else [] }
  function QualityOf(s: Option<Summary>): seq<QualityPoint> { if s.Some? then s.value.qualityTrend else [] }
  function TimelineOf(s: Option<Summary>): seq<TimelineDay> { if s.Some? then s.value.timeline else [] }

  /** `xs.some(v => v > 0)` */
  function SomePositive(xs: seq<int>): (r: bool)
    ensures r <==> exists i :: 0 <= i < |xs| && xs[i] > 0
  {
    if xs == [] then false
    else if xs[0] > 0 then true
    else
      var r := SomePositive(xs[1..]);
      assert forall i :: 1 <= i < |xs| ==> xs[i] == xs[1..][i - 1];
      r
  }

  /** A trend day counts as data when its seconds (hence its hours) are positive. */
  predicate HasTrendData(s: Option<Summary>) { SomePositive(TrendOf(s)) }

  predicate HasWakingData(s: Option<Summary>) { SomePositive(WakingsOf(s)) }

  // ---------------------------------------------------------------- the rings

  datatype Label = Dash | Percent(p: int)

  datatype Ring = Ring(value: real, reading: Label, subtitle: string, caption: string)

  const NoDataYet := "No data yet"
  const DailyGoalHours := 14
  const WakingsGoal := 1
  const NapsGoal := 3

  function Min(a: int, b: int): int { if a <= b then a else b }
  function Max(a: int, b: int): int { if a >= b then a else b }

  /** Math.max(lo, Math.min(hi, x)) */
  function Clamp(lo: int, hi: int, x: int): (r: int)
    requires lo <= hi
    ensures lo <= r <= hi
    ensures lo <= x <= hi ==> r == x
  {
    Max(lo, Min(hi, x))
  }

  /** Math.round(n / d): the nearest integer, halves rounded up. */
  function RoundDiv(n: int, d: int): (r: int)
    requires d > 0
    ensures 2 * d * r - d <= 2 * n < 2 * d * r + d
  {
    (2 * n + d) / (2 * d)
  }

  /** A ring with data shows its value and percentage; without, a dash and 'No data yet'. */
  function RingOf(has: bool, value: real, percent: int, subtitle: string, caption: string, idle: string): (r: Ring)
    ensures !has ==> r == Ring(0.0, Dash, NoDataYet, idle)
    ensures has ==> r == Ring(value, Percent(percent), subtitle, caption)
  {
    if has then Ring(value, Percent(percent), subtitle, caption) else Ring(0.0, Dash, NoDataYet, idle)
  }

  /** Seconds of the latest trend day, read only when there is trend data. */
  function LatestSeconds(s: Option<Summary>): int
  {
    var t := TrendOf(s);
    if HasTrendData(s) then t[|t| - 1] else 0
  }

  function DailyRing(s: Option<Summary>): Ring
  {
    var secs := LatestSeconds(s);
    RingOf(HasTrendData(s), secs as real / 3600.0,
           Clamp(0, 200, RoundDiv(secs * 100, 3600 * DailyGoalHours)),
           "Daily Sleep", "Progress toward daily sleep target", "Start chatting to log sleep")
  }

  /** The wakings fraction for a goal of at most one waking. */
  function WakingsPct(wakings: int): (pct: int)
    ensures pct == if wakings <= 0 then 1 else 0
  {
    Max(0, Min(1, (WakingsGoal - Min(WakingsGoal, wakings)) / Max(1, WakingsGoal)))
  }

  function WakingsRing(s: Option<Summary>): Ring
  {
    var has := HasWakingData(s);
    var w := if has then OrZero(s.value.nightWakings) else 0;
    RingOf(has, WakingsPct(w) as real, WakingsPct(w) * 100,
           "Night Wakings", "Closer to \U{2264}1 waking is better", "Collect a few nights to see this")
  }

  function NapsRing(s: Option<Summary>): Ring
  {
    var has := HasTrendData(s);
    var n := if has then OrZero(s.value.napsCount) else 0;
    RingOf(has, n as real, Clamp(0, 200, RoundDiv(n * 100, NapsGoal)),
           "Naps", "Progress toward daily naps goal", "Naps appear as you log days")
  }

  /** Without positive trend seconds the sleep and naps rings show a dash and 'No data yet'. */
  lemma NoTrendDataRings(s: Option<Summary>)
    requires forall i :: 0 <= i < |TrendOf(s)| ==> TrendOf(s)[i] <= 0
    ensures DailyRing(s).reading == Dash && DailyRing(s).subtitle == NoDataYet && DailyRing(s).value == 0.0
    ensures NapsRing(s).reading == Dash && NapsRing(s).subtitle == NoDataYet && NapsRing(s).value == 0.0
  {}

  /** With trend data the sleep ring shows the latest day's hours and a percentage in [0, 200]. */
  lemma TrendDataRing(s: Option<Summary>)
    requires exists i :: 0 <= i < |TrendOf(s)| && TrendOf(s)[i] > 0
    ensures DailyRing(s).value == TrendOf(s)[|TrendOf(s)| - 1] as real / 3600.0
    ensures DailyRing(s).reading.Percent? && 0 <= DailyRing(s).reading.p <= 200
  {}

  /** A day at the 14-hour goal is 100%, and twice the goal or more saturates at 200%. */
  lemma DailyGoalPercent(s: Option<Summary>)
    requires HasTrendData(s)
    ensures LatestSeconds(s) == 14 * 3600 ==> DailyRing(s).reading == Percent(100)
    ensures LatestSeconds(s) >= 28 * 3600 ==> DailyRing(s).reading == Percent(200)
  {}

  /** Three naps is 100%; six or more saturate at 200%. */
  lemma NapsGoalPercent(s: Option<Summary>)
    requires HasTrendData(s)
    ensures OrZero(s.value.napsCount) == 3 ==> NapsRing(s).reading == Percent(100)
    ensures OrZero(s.value.napsCount) >= 6 ==> NapsRing(s).reading == Percent(200)
  {}

  /**
   * The wakings ring: a dash and value 0 without waking data; otherwise 100%
   * for no waking last night and 0% for one or more.
   */
  lemma WakingsRingShows(s: Option<Summary>)
    ensures !HasWakingData(s) ==> WakingsRing(s).reading == Dash && WakingsRing(s).value == 0.0
    ensures HasWakingData(s) && OrZero(s.value.nightWakings) == 0 ==>
              WakingsRing(s).reading == Percent(100) && WakingsRing(s).value == 1.0
    ensures HasWakingData(s) && OrZero(s.value.nightWakings) >= 1 ==>
              WakingsRing(s).reading == Percent(0) && WakingsRing(s).value == 0.0
  {}

  // ---------------------------------------------------------------- the chart and the timeline

  /** slice(-14) of the quality trend. */
  function QualityWindow(s: Option<Summary>): seq<QualityPoint> { L.LastN(QualityOf(s), 14) }

  /** The chart is drawn only when some point of the window has positive quality. */
  predicate ShowsQualityChart(s: Option<Summary>)
  {
    var w := QualityWindow(s);
    exists i :: 0 <= i < |w| && w[i].quality > 0
  }

  /** slice(-9) of the timeline. */
  function TimelineWindow(s: Option<Summary>): seq<TimelineDay> { L.LastN(TimelineOf(s), 9) }

  /** Some point of the last 14 has positive quality exactly when some point of the window has. */
  lemma PositiveInWindow(q: seq<QualityPoint>)
    ensures var w := L.LastN(q, 14);
            (exists i :: 0 <= i < |w| && w[i].quality > 0) <==> (exists i :: |q| - |w| <= i < |q| && q[i].quality > 0)
  {
    var w := L.LastN(q, 14);
    var start := |q| - |w|;
    if exists i :: 0 <= i < |w| && w[i].quality > 0 {
      var i :| 0 <= i < |w| && w[i].quality > 0;
      assert q[start + i] == w[i];
    }
    if exists i :: start <= i < |q| && q[i].quality > 0 {
      var i :| start <= i < |q| && q[i].quality > 0;
      assert w[i - start] == q[i];
    }
  }

  /** The chart shows the last at most 14 points, in order, and only for positive quality among them. */
  lemma QualityWindowIsRecent(s: Option<Summary>)
    ensures |QualityWindow(s)| == Min(|QualityOf(s)|, 14)
    ensures QualityOf(s)[..|QualityOf(s)| - |QualityWindow(s)|] + QualityWindow(s) == QualityOf(s)
    ensures ShowsQualityChart(s) <==>
              exists i :: |QualityOf(s)| - |QualityWindow(s)| <= i < |QualityOf(s)| && QualityOf(s)[i].quality > 0
  {
    L.LastNIsSuffix(QualityOf(s), 14);
    PositiveInWindow(QualityOf(s));
  }

  /** The timeline shows the last at most 9 days, in order. */
  lemma TimelineWindowIsRecent(s: Option<Summary>)
    ensures var t := TimelineOf(s);
            |TimelineWindow(s)| == Min(|t|, 9) && t[..|t| - |TimelineWindow(s)|] + TimelineWindow(s) == t
  {
    L.LastNIsSuffix(TimelineOf(s), 9);
  }

  /** What the page shows once loaded: the rings, the chart's points (when drawn) and the timeline. */
  datatype Dashboard = Dashboard(daily: Ring, wakings: Ring, naps: Ring, chart: Option<seq<QualityPoint>>, timeline: seq<TimelineDay>)

  function DashboardOf(s: Option<Summary>): (d: Dashboard)
    ensures d.chart.Some? <==> ShowsQualityChart(s)
    ensures d.chart.Some? ==> d.chart.value == QualityWindow(s)
  {
    Dashboard(DailyRing(s), WakingsRing(s), NapsRing(s),
              if ShowsQualityChart(s) then Some(QualityWindow(s)) else None,
              TimelineWindow(s))
  }

  // ---------------------------------------------------------------- service replies

  /** The summary request either answers or throws an error, whose message may be empty. */
  datatype SummaryReply = Loaded(summary: Summary) | LoadFailed(message: string)

  const MsgLoadFailed := "Failed to load sleep progress"

  /** `e?.message || 'Failed to load sleep progress'` */
  function LoadError(message: string): (r: string)
    ensures r != []
    ensures message != [] ==> r == message
  {
    if message == [] then MsgLoadFailed else message
  }

  /** getFactors: the selected factor names per date, or a thrown error. */
  datatype FactorsReply = FactorsLoaded(byDate: map<string, seq<string>>) | FactorsFailed

  /** A date's entry replaces the selection when there is one (an empty list included). */
  function StoredFactors(reply: FactorsReply, today: string): Option<seq<string>>
  {
    if reply.FactorsLoaded? && today in reply.byDate then Some(reply.byDate[today]) else None
  }

  /** The factors saved for today, sent before the summary is refreshed. */
  datatype FactorsRequest = FactorsRequest(date: string, factors: seq<string>)

  /** setFactors then getProgressSummary: the refreshed summary, or a failure of either call. */
  datatype SaveReply = Saved(refreshed: Summary) | SaveFailed

  // ---------------------------------------------------------------- the page

  class Page {
    var loading: bool
    var error: string
    var summary: Option<Summary>
    var selectedFactors: seq<string>
    var currentDate: string

    constructor(today: string)
      ensures loading && error == [] && summary == None && selectedFactors == [] && currentDate == today
    {
      loading := true;
      error := [];
      summary := None;
      selectedFactors := [];
      currentDate := today;
    }

    /** `!loading && !error`: the page's content, or nothing. */
    function View(): (v: Option<Dashboard>)
      reads this
      ensures v.Some? <==> !loading && error == []
      ensures v.Some? ==> v.value == DashboardOf(summary)
    {
      if !loading && error == [] then Some(DashboardOf(summary)) else None
    }

    /** The mount-time load: the summary on success, the error message otherwise; loading ends either way. */
    method Load(reply: SummaryReply)
      modifies this
      ensures !loading && selectedFactors == old(selectedFactors) && currentDate == old(currentDate)
      ensures reply.Loaded? ==> summary == Some(reply.summary) && error == [] && View() == Some(DashboardOf(summary))
      ensures reply.LoadFailed? ==> summary == old(summary) && error == LoadError(reply.message) && View() == None
    {
      loading := true;
      error := [];
      match reply {
        case Loaded(data) => summary := Some(data);
        case LoadFailed(message) => error := LoadError(message);
      }
      loading := false;
    }

    /** Today's stored factors, when the reply has an entry for today, replace the selection. */
    method LoadTodayFactors(today: string, reply: FactorsReply)
      modifies this
      ensures StoredFactors(reply, today).Some? ==> selectedFactors == StoredFactors(reply, today).value
      ensures StoredFactors(reply, today).None? ==> selectedFactors == old(selectedFactors)
      ensures loading == old(loading) && error == old(error) && summary == old(summary) && currentDate == old(currentDate)
    {
      var stored := StoredFactors(reply, today);
      if stored.Some? {
        selectedFactors := stored.value;
      }
    }

    /**
     * A chip click: the toggled selection is shown at once and sent for
     * today; the summary is replaced only if saving and refreshing succeed.
     */
    method ToggleFactor(f: string, today: string, reply: SaveReply) returns (request: FactorsRequest)
      modifies this
      ensures selectedFactors == Toggle(old(selectedFactors), f)
      ensures request == FactorsRequest(today, selectedFactors)
      ensures reply.Saved? ==> summary == Some(reply.refreshed)
      ensures reply.SaveFailed? ==> summary == old(summary)
      ensures loading == old(loading) && error == old(error) && currentDate == old(currentDate)
    {
      var next := Toggle(selectedFactors, f);
      selectedFactors := next;
      request := FactorsRequest(today, next);
      if reply.Saved? {
        summary := Some(reply.refreshed);
      }
    }

    /**
     * On a new calendar date the selection is cleared and then replaced by
     * that date's stored factors, if any; on the same date nothing changes.
     */
    method CheckDateChange(today: string, reload: FactorsReply)
      modifies this
      ensures today == old(currentDate) ==> selectedFactors == old(selectedFactors) && currentDate == old(currentDate)
      ensures today != old(currentDate) ==> currentDate == today
      ensures today != old(currentDate) && StoredFactors(reload, today).None? ==> selectedFactors == []
      ensures today != old(currentDate) && StoredFactors(reload, today).Some? ==>
                selectedFactors == StoredFactors(reload, today).value
      ensures loading == old(loading) && error == old(error) && summary == old(summary)
    {
      if today != currentDate {
        currentDate := today;
        selectedFactors := [];
        var stored := StoredFactors(reload, today);
        if stored.Some? {
          selectedFactors := stored.value;
        }
      }
    }
  }
}
