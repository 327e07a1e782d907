/**
 * The figures the capacity simulator reports: percentiles and maxima of what one run
 * recorded.  Rounding to three decimals is not part of this model.
 */
module CapacityReport {
  import opened Outcomes

  const LONG_GAP: real := 60.0

  // ------------------------------------------------------------------ order statistics

  function Insert(x: real, s: seq<real>): seq<real> {
    if s == [] || x <= s[0] then [x] + s else [s[0]] + Insert(x, s[1..])
  }

  function Ascending(s: seq<real>): (r: seq<real>) {
    if s == [] then [] else Insert(s[0], Ascending(s[1..]))
  }

  ghost predicate IsAscending(s: seq<real>) {
    forall i, j :: 0 <= i < j < |s| ==> s[i] <= s[j]
  }

  /** How many values do not exceed `v`. */
  ghost function AtMost(s: seq<real>, v: real): nat {
    if s == [] then 0 else (if s[0] <= v then 1 else 0) + AtMost(s[1..], v)
  }

  lemma {:induction false} InsertCounts(x: real, s: seq<real>, v: real)
    ensures AtMost(Insert(x, s), v) == (if x <= v then 1 else 0) + AtMost(s, v)
  {
    if s == [] || x <= s[0] {
      assert ([x] + s)[1..] == s;
    } else {
      InsertCounts(x, s[1..], v);
      assert Insert(x, s)[1..] == Insert(x, s[1..]);
    }
  }

  lemma {:induction false} InsertHolds(x: real, s: seq<real>)
    ensures |Insert(x, s)| == |s| + 1
    ensures multiset(Insert(x, s)) == multiset(s) + multiset{x}
  {
    if s != [] && s[0] < x {
      InsertHolds(x, s[1..]);
      assert s == [s[0]] + s[1..];
    }
  }

  lemma {:induction false} InsertSorts(x: real, s: seq<real>)
    requires IsAscending(s)
    ensures IsAscending(Insert(x, s))
  {
    if s != [] && s[0] < x {
      InsertSorts(x, s[1..]);
      forall y | y in Insert(x, s[1..]) ensures s[0] <= y {
        InsertHolds(x, s[1..]);
        assert y in multiset(Insert(x, s[1..]));
        assert y == x || y in s[1..];
      }
      PrependSorts(s[0], Insert(x, s[1..]));
    } else {
      PrependSorts(x, s);
    }
  }

  lemma PrependSorts(x: real, s: seq<real>)
    requires IsAscending(s) && forall y :: y in s ==> x <= y
    ensures IsAscending([x] + s)
  {
    var r := [x] + s;
    forall i, j | 0 <= i < j < |r| ensures r[i] <= r[j] {
      assert s[j - 1] in s && r[j] == s[j - 1] && (i > 0 ==> r[i] == s[i - 1]);
    }
  }

  lemma {:induction false} AscendingSorts(s: seq<real>)
    ensures |Ascending(s)| == |s|
    ensures multiset(Ascending(s)) == multiset(s)
    ensures IsAscending(Ascending(s))
  {
    if s != [] {
      AscendingSorts(s[1..]);
      InsertHolds(s[0], Ascending(s[1..]));
      InsertSorts(s[0], Ascending(s[1..]));
      assert s == [s[0]] + s[1..];
    }
  }

  lemma {:induction false} AscendingCounts(s: seq<real>, v: real)
    ensures AtMost(Ascending(s), v) == AtMost(s, v)
  {
    if s != [] {
      AscendingCounts(s[1..], v);
      InsertCounts(s[0], Ascending(s[1..]), v);
    }
  }

  /** The k-th of ascending values, counted from zero, splits the counts at `k`. */
  lemma {:induction false} KthCounts(s: seq<real>, k: nat, v: real)
    requires IsAscending(s) && k < |s|
    ensures s[k] <= v <==> k < AtMost(s, v)
  {
    if k > 0 {
      KthCounts(s[1..], k - 1, v);
    }
    if v < s[0] {
      NoneAtMost(s, v);
    }
  }

  lemma {:induction false} NoneAtMost(s: seq<real>, v: real)
    requires forall x :: x in s ==> v < x
    ensures AtMost(s, v) == 0
  {
    if s != [] {
      assert s[0] in s && forall x :: x in s[1..] ==> x in s;
      NoneAtMost(s[1..], v);
    }
  }

  lemma {:induction false} AtMostOfSmaller(s: seq<real>, t: seq<real>, v: real)
    requires |s| == |t| && forall i :: 0 <= i < |s| ==> s[i] <= t[i]
    ensures AtMost(t, v) <= AtMost(s, v)
  {
    if s != [] {
      AtMostOfSmaller(s[1..], t[1..], v);
    }
  }

  // ------------------------------------------------------------------ percentiles

  /** Where a fraction of the way from the first to the last index lies. */
  function Part(last: real, fraction: real): (x: real)
    requires 0.0 <= last && 0.0 <= fraction <= 1.0
    ensures 0.0 <= x <= last
  {
    last * fraction
  }

  lemma PartGrows(last: real, f: real, g: real)
    requires 0.0 <= last && 0.0 <= f <= g <= 1.0
    ensures Part(last, f) <= Part(last, g)
  {
  }

  function Rank(n: nat, fraction: real): (r: nat)
    requires n > 0 && 0.0 <= fraction <= 1.0
    ensures r < n
    ensures r as real <= Part((n - 1) as real, fraction) < r as real + 1.0
  {
    var x := Part((n - 1) as real, fraction);
    assert x.Floor as real <= x;
    x.Floor
  }

  function Percentile(values: seq<real>, fraction: real): Option<real>
    requires 0.0 <= fraction <= 1.0
  {
    AscendingSorts(values);
    if values == [] then None else Some(Ascending(values)[Rank(|values|, fraction)])
  }

  lemma PercentileCounts(values: seq<real>, fraction: real, y: real)
    requires values != [] && 0.0 <= fraction <= 1.0
    ensures Percentile(values, fraction).value <= y <==> Rank(|values|, fraction) < AtMost(values, y)
  {
    AscendingSorts(values);
    AscendingCounts(values, y);
    KthCounts(Ascending(values), Rank(|values|, fraction), y);
  }

  lemma PercentileWithin(values: seq<real>, fraction: real)
    requires values != [] && 0.0 <= fraction <= 1.0
    ensures Percentile(values, fraction).Some? && Percentile(values, fraction).value in values
  {
    AscendingSorts(values);
    assert Percentile(values, fraction).value in multiset(Ascending(values));
  }

  /** The percentile is the least recorded value that more than `Rank` values do not exceed. */
  lemma PercentileIsLeast(values: seq<real>, fraction: real, x: real)
    requires values != [] && 0.0 <= fraction <= 1.0
    ensures Percentile(values, fraction) == Some(x) <==>
              && x in values && Rank(|values|, fraction) < AtMost(values, x)
              && forall y :: y in values && y < x ==> AtMost(values, y) <= Rank(|values|, fraction)
  {
    var least := Percentile(values, fraction).value;
    PercentileWithin(values, fraction);
    PercentileCounts(values, fraction, least);
    PercentileCounts(values, fraction, x);
    if x == least {
      forall y | y in values && y < x ensures AtMost(values, y) <= Rank(|values|, fraction) {
        PercentileCounts(values, fraction, y);
      }
    }
  }

  lemma RankGrows(n: nat, f: real, g: real)
    requires n > 0 && 0.0 <= f <= g <= 1.0
    ensures Rank(n, f) <= Rank(n, g)
  {
    PartGrows((n - 1) as real, f, g);
  }

  lemma PercentileGrows(values: seq<real>, f: real, g: real)
    requires values != [] && 0.0 <= f <= g <= 1.0
    ensures Percentile(values, f).value <= Percentile(values, g).value
  {
    AscendingSorts(values);
    RankGrows(|values|, f, g);
  }

  /** Values that are larger one by one have larger percentiles, whatever their order. */
  lemma PercentileDominates(s: seq<real>, t: seq<real>, fraction: real)
    requires s != [] && |s| == |t| && forall i :: 0 <= i < |s| ==> s[i] <= t[i]
    requires 0.0 <= fraction <= 1.0
    ensures Percentile(s, fraction).value <= Percentile(t, fraction).value
  {
    var y := Percentile(t, fraction).value;
    PercentileCounts(t, fraction, y);
    AtMostOfSmaller(s, t, y);
    PercentileCounts(s, fraction, y);
  }

  // ------------------------------------------------------------------ the report

  function Maximum(s: seq<real>): (r: real)
    requires s != []
    ensures r in s && forall x :: x in s ==> x <= r
  {
    assert s == [s[0]] + s[1..];
    if |s| == 1 then s[0]
    else
      var rest := Maximum(s[1..]);
      if s[0] <= rest then rest else s[0]
  }

  function CountLong(gaps: seq<real>): (n: nat)
    ensures n <= |gaps|
  {
    if gaps == [] then 0 else (if gaps[0] > LONG_GAP then 1 else 0) + CountLong(gaps[1..])
  }

  lemma {:induction false} CountLongExactly(gaps: seq<real>)
    ensures CountLong(gaps) == |gaps| <==> forall i :: 0 <= i < |gaps| ==> gaps[i] > LONG_GAP
    ensures CountLong(gaps) == 0 <==> forall i :: 0 <= i < |gaps| ==> gaps[i] <= LONG_GAP
  {
    if gaps != [] {
      var rest := gaps[1..];
      CountLongExactly(rest);
      assert forall i :: 0 <= i < |rest| ==> rest[i] == gaps[i + 1];
      assert forall i :: 0 < i < |gaps| ==> gaps[i] == rest[i - 1];
    }
  }

  function PercentOf(n: nat, all: nat): (r: real)
    requires n <= all && all > 0
    ensures 0.0 <= r <= 100.0
    ensures r == 0.0 <==> n == 0
    ensures n == all ==> r == 100.0
  {
    100.0 * (n as real / all as real)
  }

  datatype Report = Report(
    completed: nat,
    waitP95: Option<real>,
    gapP95: Option<real>, gapP99: Option<real>, gapMax: real,
    visibilityP95: Option<real>, visibilityMax: real,
    longGapsPercent: real)

  function ReportOf(completed: nat, waits: seq<real>, gaps: seq<real>, bounds: seq<real>): Report
    requires gaps != [] && bounds != []
  {
    Report(completed, Percentile(waits, 0.95),
           Percentile(gaps, 0.95), Percentile(gaps, 0.99), Maximum(gaps),
           Percentile(bounds, 0.95), Maximum(bounds),
           PercentOf(CountLong(gaps), |gaps|))
  }

  /** The least value that more than `Rank` values do not exceed; nothing if there is none. */
  ghost predicate IsPercentile(values: seq<real>, fraction: real, o: Option<real>)
    requires 0.0 <= fraction <= 1.0
  {
    if values == [] then o.None?
    else
      && o.Some? && o.value in values && Rank(|values|, fraction) < AtMost(values, o.value)
      && forall y :: y in values && y < o.value ==> AtMost(values, y) <= Rank(|values|, fraction)
  }

  predicate IsGreatest(values: seq<real>, x: real) {
    x in values && forall y | y in values :: y <= x
  }

  /** The gaps over a minute. */
  ghost function LongOnes(gaps: seq<real>): set<int> {
    set i | 0 <= i < |gaps| && gaps[i] > 60.0
  }

  predicate IsShare(percent: real, n: nat, all: nat) {
    percent * all as real == 100.0 * n as real
  }

  /** Every figure is the one its name says, of its own list. */
  ghost predicate Reports(r: Report, completed: nat, waits: seq<real>, gaps: seq<real>, bounds: seq<real>) {
    && r.completed == completed
    && IsPercentile(waits, 0.95, r.waitP95)
    && IsPercentile(gaps, 0.95, r.gapP95) && IsPercentile(gaps, 0.99, r.gapP99) && IsGreatest(gaps, r.gapMax)
    && IsPercentile(bounds, 0.95, r.visibilityP95) && IsGreatest(bounds, r.visibilityMax)
    && IsShare(r.longGapsPercent, |LongOnes(gaps)|, |gaps|)
  }

  lemma {:induction false} CountLongIsSize(gaps: seq<real>)
    ensures CountLong(gaps) == |LongOnes(gaps)|
  {
    if gaps != [] {
      var rest := gaps[..|gaps| - 1];
      CountLongIsSize(rest);
      CountLongPush(rest, gaps[|gaps| - 1]);
      assert gaps == rest + [gaps[|gaps| - 1]];
      var last := |gaps| - 1;
      assert LongOnes(gaps) == LongOnes(rest) + if gaps[last] > 60.0 then {last} else {};
    }
  }

  lemma {:induction false} CountLongPush(gaps: seq<real>, g: real)
    ensures CountLong(gaps + [g]) == CountLong(gaps) + if g > LONG_GAP then 1 else 0
  {
    if gaps == [] {
      assert gaps + [g] == [g];
    } else {
      CountLongPush(gaps[1..], g);
      assert (gaps + [g])[1..] == gaps[1..] + [g];
    }
  }

  lemma PercentileIs(values: seq<real>, fraction: real)
    requires 0.0 <= fraction <= 1.0
    ensures IsPercentile(values, fraction, Percentile(values, fraction))
  {
    if values != [] {
      PercentileIsLeast(values, fraction, Percentile(values, fraction).value);
    }
  }

  lemma ReportIsExact(completed: nat, waits: seq<real>, gaps: seq<real>, bounds: seq<real>)
    requires gaps != [] && bounds != []
    ensures Reports(ReportOf(completed, waits, gaps, bounds), completed, waits, gaps, bounds)
  {
    PercentilesAre(waits, gaps, bounds);
    ShareIs(gaps);
  }

  lemma PercentilesAre(waits: seq<real>, gaps: seq<real>, bounds: seq<real>)
    ensures IsPercentile(waits, 0.95, Percentile(waits, 0.95))
    ensures IsPercentile(gaps, 0.95, Percentile(gaps, 0.95)) && IsPercentile(gaps, 0.99, Percentile(gaps, 0.99))
    ensures IsPercentile(bounds, 0.95, Percentile(bounds, 0.95))
  {
    PercentileIs(waits, 0.95);
    PercentileIs(gaps, 0.95);
    PercentileIs(gaps, 0.99);
    PercentileIs(bounds, 0.95);
  }

  lemma ShareIs(gaps: seq<real>)
    requires gaps != []
    ensures IsShare(PercentOf(CountLong(gaps), |gaps|), |LongOnes(gaps)|, |gaps|)
  {
    CountLongIsSize(gaps);
    PercentTimes(CountLong(gaps), |gaps|);
  }

  lemma PercentTimes(n: nat, all: nat)
    requires n <= all && all > 0
    ensures IsShare(PercentOf(n, all), n, all)
  {
  }

  /** What a reader may rely on: the figures are ordered, and each visibility figure covers its gap figure. */
  predicate Consistent(r: Report, cadence: real) {
    && r.gapP95.Some? && r.gapP99.Some? && r.visibilityP95.Some?
    && cadence <= r.gapP95.value <= r.gapP99.value <= r.gapMax <= r.visibilityMax
    && r.gapP95.value <= r.visibilityP95.value <= r.visibilityMax
    && (r.waitP95.Some? ==> 0.0 <= r.waitP95.value)
    && 0.0 <= r.longGapsPercent <= 100.0
    && (r.longGapsPercent == 0.0 <==> r.gapMax <= LONG_GAP)
    && (cadence > LONG_GAP ==> r.longGapsPercent == 100.0)
  }

  lemma MaximaOrdered(gaps: seq<real>, bounds: seq<real>)
    requires gaps != [] && |gaps| == |bounds| && forall i :: 0 <= i < |gaps| ==> gaps[i] <= bounds[i]
    ensures Maximum(gaps) <= Maximum(bounds)
    ensures Percentile(gaps, 0.95).Some? && Percentile(gaps, 0.95).value in gaps
    ensures Percentile(gaps, 0.99).Some? && Percentile(gaps, 0.99).value in gaps
    ensures Percentile(bounds, 0.95).Some? && Percentile(bounds, 0.95).value in bounds
    ensures Percentile(gaps, 0.95).value <= Percentile(gaps, 0.99).value
    ensures Percentile(gaps, 0.95).value <= Percentile(bounds, 0.95).value
  {
    PercentileWithin(gaps, 0.95);
    PercentileWithin(gaps, 0.99);
    PercentileWithin(bounds, 0.95);
    PercentileGrows(gaps, 0.95, 0.99);
    PercentileDominates(gaps, bounds, 0.95);
    var i :| 0 <= i < |gaps| && gaps[i] == Maximum(gaps);
    assert bounds[i] in bounds;
  }

  lemma LongGapsCounted(gaps: seq<real>, most: real, cadence: real)
    requires most in gaps && forall g :: g in gaps ==> g <= most
    requires forall i :: 0 <= i < |gaps| ==> cadence <= gaps[i]
    ensures CountLong(gaps) == 0 <==> most <= LONG_GAP
    ensures cadence > LONG_GAP ==> CountLong(gaps) == |gaps|
  {
    CountLongExactly(gaps);
    var i :| 0 <= i < |gaps| && gaps[i] == most;
    forall k | 0 <= k < |gaps| ensures gaps[k] <= most {
      assert gaps[k] in gaps;
    }
  }

  lemma ReportIsConsistent(completed: nat, waits: seq<real>, gaps: seq<real>, bounds: seq<real>, cadence: real)
    requires gaps != [] && |gaps| == |bounds|
    requires forall i :: 0 <= i < |gaps| ==> cadence <= gaps[i] <= bounds[i]
    requires forall i :: 0 <= i < |waits| ==> 0.0 <= waits[i]
    ensures Consistent(ReportOf(completed, waits, gaps, bounds), cadence)
  {
    MaximaOrdered(gaps, bounds);
    LongGapsCounted(gaps, Maximum(gaps), cadence);
    if waits != [] {
      PercentileWithin(waits, 0.95);
    }
  }
}
