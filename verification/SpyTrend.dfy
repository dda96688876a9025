/** The SPY 200-day moving-average scanners and the short-side entry filter they feed. */
module SpyTrend {
  import opened Options
  import Sums

  const MA_PERIOD := 200
  const NO_BREAK_LOOKBACK := 20
  const BELOW_DAYS_REQUIRED := 5
  const NO_BREAK_STREAK_MAX := 3

  datatype SpyState = SpyState(close: real, ma: real, aboveMa: bool, daysBelow: nat, maxAboveRecent: nat)

  function MovingAverage(closes: seq<real>, i: nat): real
    requires MA_PERIOD - 1 <= i < |closes|
  {
    Sums.Mean(closes[i - MA_PERIOD + 1..i + 1])
  }

  predicate Below(closes: seq<real>, i: nat)
    requires MA_PERIOD - 1 <= i < |closes|
  {
    closes[i] < MovingAverage(closes, i)
  }

  predicate Above(closes: seq<real>, i: nat)
    requires MA_PERIOD - 1 <= i < |closes|
  {
    closes[i] > MovingAverage(closes, i)
  }

  ghost predicate AllBelow(closes: seq<real>, lo: nat, hi: nat) {
    MA_PERIOD - 1 <= lo && hi <= |closes| && forall i :: lo <= i < hi ==> Below(closes, i)
  }

  /** The k closes from index s on are all above. */
  ghost predicate AboveRun(closes: seq<real>, s: nat, k: nat) {
    MA_PERIOD - 1 <= s && s + k <= |closes| && forall i :: s <= i < s + k ==> Above(closes, i)
  }

  /** The last k closes, none earlier than index `first`, are all below, and k cannot be larger. */
  ghost predicate LongestBelowSuffix(closes: seq<real>, first: nat, k: nat) {
    MA_PERIOD - 1 <= first <= |closes| - k
    && AllBelow(closes, |closes| - k, |closes|)
    && (first < |closes| - k ==> !Below(closes, |closes| - k - 1))
  }

  /** m is the length of the longest stretch of closes above their average within [lo, hi). */
  ghost predicate LongestAboveRun(closes: seq<real>, lo: nat, hi: nat, m: nat) {
    (exists s :: lo <= s <= hi - m && AboveRun(closes, s, m))
    && forall s: nat, k: nat :: lo <= s <= hi - k && AboveRun(closes, s, k) ==> k <= m
  }

  function RecentStart(n: nat): nat
    requires n > MA_PERIOD
  {
    if n - NO_BREAK_LOOKBACK > MA_PERIOD then n - NO_BREAK_LOOKBACK else MA_PERIOD
  }

  /** What the scan reports, in terms of the series alone. */
  ghost predicate Describes(closes: seq<real>, st: SpyState) {
    var n := |closes|;
    n > MA_PERIOD
    && st.close == closes[n - 1] && st.ma == MovingAverage(closes, n - 1)
    && st.aboveMa == Above(closes, n - 1)
    && LongestBelowSuffix(closes, MA_PERIOD, st.daysBelow)
    && LongestAboveRun(closes, RecentStart(n), n, st.maxAboveRecent)
  }

  /** The first loop of `spy_200ma_state`: walk back from the last close while it is below its average. */
  method DaysBelow(closes: seq<real>) returns (below: nat)
    requires |closes| > MA_PERIOD
    ensures LongestBelowSuffix(closes, MA_PERIOD, below)
  {
    var n := |closes|;
    below := 0;
    var i := n - 1;
    while i > MA_PERIOD - 1
      invariant MA_PERIOD - 1 <= i <= n - 1 && below == n - 1 - i
      invariant AllBelow(closes, i + 1, n)
    {
      if Below(closes, i) {
        below := below + 1;
      } else {
        break;
      }
      i := i - 1;
    }
  }

  /** The second loop: walk forward over the recent window, keeping the current and the best run. */
  method MaxAboveRecent(closes: seq<real>) returns (best: nat)
    requires |closes| > MA_PERIOD
    ensures LongestAboveRun(closes, RecentStart(|closes|), |closes|, best)
  {
    var n := |closes|;
    var current := 0;
    best := 0;
    var lo := RecentStart(n);
    assert AboveRun(closes, lo, 0);
    for j := lo to n
      invariant current <= j - lo && AboveRun(closes, j - current, current)
      invariant lo < j - current ==> !Above(closes, j - current - 1)
      invariant current <= best
      invariant LongestAboveRun(closes, lo, j, best)
    {
      ghost var before := best;
      if Above(closes, j) {
        current := current + 1;
        if current > best {
          best := current;
        }
      } else {
        current := 0;
      }
      RunExtended(closes, lo, j, before, current, best);
    }
  }

  method Spy200MaState(closes: seq<real>) returns (r: Option<SpyState>)
    ensures r.None? <==> |closes| < MA_PERIOD + 1
    ensures r.Some? ==> Describes(closes, r.value)
  {
    var n := |closes|;
    if n < MA_PERIOD + 1 {
      return None;
    }
    var ma := MovingAverage(closes, n - 1);
    var below := DaysBelow(closes);
    var above := MaxAboveRecent(closes);
    r := Some(SpyState(closes[n - 1], ma, closes[n - 1] > ma, below, above));
  }

  /** One step of the run scan: every run ending at j is the current one, every other was counted before. */
  lemma RunExtended(closes: seq<real>, lo: nat, j: nat, before: nat, current: nat, best: nat)
    requires MA_PERIOD - 1 <= lo <= j < |closes| && LongestAboveRun(closes, lo, j, before)
    requires current <= j + 1 - lo && AboveRun(closes, j + 1 - current, current)
    requires lo < j + 1 - current ==> !Above(closes, j - current)
    requires best == if current > before then current else before
    ensures LongestAboveRun(closes, lo, j + 1, best)
  {
    forall s: nat, k: nat | lo <= s <= j + 1 - k && AboveRun(closes, s, k)
      ensures k <= best
    {
      if s + k == j + 1 {
        assert k <= current;
      } else {
        assert s <= j - k;
      }
    }
    if best == before {
      var s :| lo <= s <= j - before && AboveRun(closes, s, before);
    }
  }

  /** A streak of at least one day rules out "above", and the streak leaves the recent window
      only 20 - streak days in which to have been above. */
  lemma StreakLimitsAboveRuns(closes: seq<real>, st: SpyState)
    requires Describes(closes, st)
    ensures st.daysBelow >= 1 ==> !st.aboveMa
    ensures st.daysBelow <= NO_BREAK_LOOKBACK ==> st.maxAboveRecent + st.daysBelow <= NO_BREAK_LOOKBACK
    ensures st.daysBelow > NO_BREAK_LOOKBACK ==> st.maxAboveRecent == 0
    ensures st.daysBelow >= 18 ==> st.maxAboveRecent < NO_BREAK_STREAK_MAX
  {
    var n := |closes|;
    var lo := RecentStart(n);
    var s :| lo <= s <= n - st.maxAboveRecent && AboveRun(closes, s, st.maxAboveRecent);
    if st.maxAboveRecent > 0 {
      var last := s + st.maxAboveRecent - 1;
      assert Above(closes, last) && !Below(closes, last);
    }
    if st.daysBelow >= 1 {
      assert Below(closes, n - 1);
    }
  }

  /** The average at index i is that of the 200 closes up to it, "below" and "above" are strict, and the recent window is the
      last 20 closes, from index 200 on at the earliest. */
  lemma TrendTerms(closes: seq<real>, i: nat)
    requires 199 <= i < |closes|
    ensures var ma := MovingAverage(closes, i);
            Sums.Times(200.0, ma) == Sums.Sum(closes[i - 199..i + 1])
            && (Below(closes, i) <==> closes[i] < ma) && (Above(closes, i) <==> closes[i] > ma)
    ensures |closes| > 220 ==> RecentStart(|closes|) == |closes| - 20
    ensures 200 < |closes| <= 220 ==> RecentStart(|closes|) == 200
  {
    var w := closes[i - 199..i + 1];
    assert |w| == 200;
    Sums.DivideBack(Sums.Sum(w), 200.0);
  }

  datatype Signal = Signal(fires: bool, direction: string, target: Option<string>)

  /** `evaluate_short_signal`: `leader` is the top-ranked ticker, None when there is no regression data. */
  function EvaluateShortSignal(leader: Option<string>, spy: Option<SpyState>): Signal {
    if leader.None? || spy.None? then Signal(false, "none", None)
    else
      var st := spy.value;
      var noRecentBreak := st.maxAboveRecent < NO_BREAK_STREAK_MAX;
      var fires := (leader.value == "PSQ" || leader.value == "QID")
                   && !st.aboveMa && st.daysBelow >= BELOW_DAYS_REQUIRED && noRecentBreak;
      Signal(fires, if fires then "short" else "none", if fires then leader else None)
  }

  /** The signal's target is the leader when it fires and nothing otherwise; it fires for PSQ and QID only, not above the
      average, after at least five days below it and fewer than three in a row above; and never without its two inputs. */
  lemma ShortSignalExactly(leader: Option<string>, spy: Option<SpyState>)
    ensures var sig := EvaluateShortSignal(leader, spy);
            (sig.fires <==> leader.Some? && spy.Some? && leader.value in {"PSQ", "QID"} && !spy.value.aboveMa
                            && spy.value.daysBelow >= 5 && spy.value.maxAboveRecent < 3)
            && sig.direction == (if sig.fires then "short" else "none") && sig.target == if sig.fires then leader else None
  {
  }

  /** For a scanned series the short side fires exactly when a bear fund leads, the last five closes are below
      their averages, and no three consecutive closes of the recent window were above theirs. The separate
      "not above" test adds nothing. */
  lemma ShortFiresExactlyWhen(closes: seq<real>, st: SpyState, leader: string)
    requires Describes(closes, st)
    ensures var n := |closes|;
            EvaluateShortSignal(Some(leader), Some(st)).fires <==>
              leader in {"PSQ", "QID"}
              && n - BELOW_DAYS_REQUIRED >= MA_PERIOD && AllBelow(closes, n - BELOW_DAYS_REQUIRED, n)
              && forall s :: RecentStart(n) <= s <= n - NO_BREAK_STREAK_MAX ==> !AboveRun(closes, s, NO_BREAK_STREAK_MAX)
  {
    hide MovingAverage;
    var n := |closes|;
    StreakLimitsAboveRuns(closes, st);
    if st.daysBelow < BELOW_DAYS_REQUIRED <= n - MA_PERIOD {
      assert !Below(closes, n - st.daysBelow - 1);
    }
    if st.maxAboveRecent >= NO_BREAK_STREAK_MAX {
      var s :| RecentStart(n) <= s <= n - st.maxAboveRecent && AboveRun(closes, s, st.maxAboveRecent);
      assert AboveRun(closes, s, NO_BREAK_STREAK_MAX);
    }
  }

  /** The average already exists at index 199, which the scan never visits: the reported streak is the true one
      exactly when the series is not below its average at every index that has one. */
  lemma StreakMissesFirstAverage(closes: seq<real>, st: SpyState, full: nat)
    requires Describes(closes, st) && LongestBelowSuffix(closes, MA_PERIOD - 1, full)
    ensures st.daysBelow == full <==> !AllBelow(closes, MA_PERIOD - 1, |closes|)
    ensures AllBelow(closes, MA_PERIOD - 1, |closes|) ==> full == st.daysBelow + 1
  {
    var n := |closes|;
    if full < n - (MA_PERIOD - 1) {
      assert !Below(closes, n - full - 1);
    }
  }
}
