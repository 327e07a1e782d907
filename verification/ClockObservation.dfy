/** Offsets between a broker's tick clock and UTC, from two samples about a second apart. */
module ClockObservation {
  import opened Outcomes

  const QUARTER_MS: int := 900_000
  const MINUTE_MS: int := 60_000

  datatype Sample = Sample(utcMs: int, monotonicMs: int, ticks: map<string, int>)

  datatype Verdict =
    | ClockUnstable
    | FreshQuotesRequired
    | ClockDisagreement
    | Observed(offsetMinutes: int, symbols: nat)

  function Abs(x: int): nat {
    if x < 0 then -x else x
  }

  predicate Stable(first: Sample, second: Sample) {
    var elapsed, wall := second.monotonicMs - first.monotonicMs, second.utcMs - first.utcMs;
    500 <= elapsed <= 10_000 && Abs(wall - elapsed) <= 250
  }

  predicate LagFits(utcMs: int, tickMs: int, offset: int) {
    -250 <= utcMs - (tickMs - offset * MINUTE_MS) <= 2000
  }

  /** The symbol advanced between the samples and both its lags fit the offset, a quarter of an hour up to 14 hours. */
  predicate Qualifies(first: Sample, second: Sample, symbol: string, offset: int) {
    && symbol in first.ticks && symbol in second.ticks && first.ticks[symbol] < second.ticks[symbol]
    && offset % 15 == 0 && -840 <= offset <= 840
    && -250 <= second.utcMs - (second.ticks[symbol] - offset * 60_000) <= 2000
    && -250 <= first.utcMs - (first.ticks[symbol] - offset * 60_000) <= 2000
  }

  /** Python's `round` of the exact quotient: to the nearest, ties to even. */
  function RoundHalfEven(n: int, d: int): (q: int)
    requires d > 0
    ensures 2 * Abs(n - q * d) <= d
  {
    var floor, rest := n / d, n % d;
    assert n == floor * d + rest;
    if 2 * rest < d || (2 * rest == d && floor % 2 == 0) then floor
    else
      assert n - (floor + 1) * d == rest - d;
      floor + 1
  }

  /** Two samples of one symbol admit at most one offset. */
  lemma OffsetIsUnique(first: Sample, second: Sample, symbol: string, a: int, b: int)
    requires Qualifies(first, second, symbol, a) && Qualifies(first, second, symbol, b)
    ensures a == b
  {
    var m, n := a / 15, b / 15;
    assert a == 15 * m && b == 15 * n;
    assert -2250 <= (m - n) * QUARTER_MS <= 2250;
  }

  /** Whichever way a tie is rounded, a qualifying offset is the rounded one: ties never qualify. */
  lemma RoundingFindsOffset(first: Sample, second: Sample, symbol: string, offset: int, q: int)
    requires Qualifies(first, second, symbol, offset)
    requires 2 * Abs(second.ticks[symbol] - second.utcMs - q * QUARTER_MS) <= QUARTER_MS
    ensures offset == q * 15
  {
    var m := offset / 15;
    var n := second.ticks[symbol] - second.utcMs;
    assert offset == 15 * m && offset * MINUTE_MS == m * QUARTER_MS;
    assert -2000 <= n - m * QUARTER_MS <= 250;
    assert -450_000 <= n - q * QUARTER_MS <= 450_000;
    assert -452_000 <= (q - m) * QUARTER_MS <= 452_000;
  }

  ghost function Qualifying(first: Sample, second: Sample): set<string> {
    set s | s in first.ticks && exists o :: Qualifies(first, second, s, o)
  }

  /** Every qualifying symbol fits the offset. */
  ghost predicate AllFit(first: Sample, second: Sample, offset: int) {
    forall s :: s in Qualifying(first, second) ==> Qualifies(first, second, s, offset)
  }

  ghost predicate Conflict(first: Sample, second: Sample) {
    exists s, t, a, b :: Qualifies(first, second, s, a) && Qualifies(first, second, t, b) && a != b
  }

  /** The offset the loop keeps for a symbol, if any. */
  function OffsetOf(first: Sample, second: Sample, symbol: string): Option<int> {
    if symbol !in first.ticks || symbol !in second.ticks || second.ticks[symbol] <= first.ticks[symbol] then None
    else
      var offset := RoundHalfEven(second.ticks[symbol] - second.utcMs, QUARTER_MS) * 15;
      if -840 <= offset <= 840 && LagFits(second.utcMs, second.ticks[symbol], offset) &&
         LagFits(first.utcMs, first.ticks[symbol], offset)
      then Some(offset)
      else None
  }

  lemma OffsetOfIsExact(first: Sample, second: Sample, symbol: string)
    ensures OffsetOf(first, second, symbol).Some? ==>
              Qualifies(first, second, symbol, OffsetOf(first, second, symbol).value)
    ensures forall o :: Qualifies(first, second, symbol, o) ==> OffsetOf(first, second, symbol) == Some(o)
  {
    if symbol in first.ticks && symbol in second.ticks && first.ticks[symbol] < second.ticks[symbol] {
      var q := RoundHalfEven(second.ticks[symbol] - second.utcMs, QUARTER_MS);
      assert q * 15 % 15 == 0;
      forall o | Qualifies(first, second, symbol, o) ensures o == q * 15 {
        RoundingFindsOffset(first, second, symbol, o, q);
      }
    }
  }

  function Keeper(first: Sample, second: Sample): string -> Option<int> {
    symbol => OffsetOf(first, second, symbol)
  }

  /** The loop's offsets, one for each symbol of `kept`, which are those of `all` that have one. */
  ghost predicate Kept(f: string -> Option<int>, kept: seq<string>, offsets: seq<int>, all: set<string>) {
    && |kept| == |offsets|
    && (forall i, j :: 0 <= i < j < |kept| ==> kept[i] != kept[j])
    && (forall k :: 0 <= k < |kept| ==> kept[k] in all && f(kept[k]) == Some(offsets[k]))
    && (forall s :: s in all && f(s).Some? ==> s in kept)
  }

  lemma KeepOne(f: string -> Option<int>, kept: seq<string>, offsets: seq<int>, all: set<string>, symbol: string)
    requires Kept(f, kept, offsets, all) && symbol !in all
    ensures f(symbol).None? ==> Kept(f, kept, offsets, all + {symbol})
    ensures f(symbol).Some? ==> Kept(f, kept + [symbol], offsets + [f(symbol).value], all + {symbol})
  {
  }

  method Offsets(symbols: set<string>, f: string -> Option<int>) returns (offsets: seq<int>, ghost kept: seq<string>)
    ensures Kept(f, kept, offsets, symbols)
  {
    offsets, kept := [], [];
    var rest := symbols;
    ghost var seen: set<string> := {};
    while rest != {}
      invariant seen + rest == symbols && seen !! rest
      invariant Kept(f, kept, offsets, seen)
      decreases rest
    {
      var symbol :| symbol in rest;
      KeepOne(f, kept, offsets, seen, symbol);
      var offset := f(symbol);
      if offset.Some? {
        offsets, kept := offsets + [offset.value], kept + [symbol];
      }
      seen, rest := seen + {symbol}, rest - {symbol};
    }
    assert seen == symbols;
  }

  /**
   * Offset recovery is exact: an offset is reported if and only if the clocks are stable,
   * at least two symbols qualify, and every qualifying symbol fits that offset.
   */
  method Compare(first: Sample, second: Sample) returns (v: Verdict)
    ensures v == ClockUnstable <==>
              !(500 <= second.monotonicMs - first.monotonicMs <= 10_000) ||
              (second.utcMs - first.utcMs) - (second.monotonicMs - first.monotonicMs) > 250 ||
              (second.monotonicMs - first.monotonicMs) - (second.utcMs - first.utcMs) > 250
    ensures v == FreshQuotesRequired <==> Stable(first, second) && |Qualifying(first, second)| < 2
    ensures forall o :: AllFit(first, second, o) && Stable(first, second) && |Qualifying(first, second)| >= 2 ==>
              v == Observed(o, |Qualifying(first, second)|)
    ensures v.Observed? ==>
              && Stable(first, second) && v.symbols == |Qualifying(first, second)| >= 2
              && AllFit(first, second, v.offsetMinutes)
    ensures v == ClockDisagreement <==>
              Stable(first, second) && |Qualifying(first, second)| >= 2 && Conflict(first, second)
  {
    if !Stable(first, second) {
      return ClockUnstable;
    }
    var offsets, kept := Offsets(first.ticks.Keys, Keeper(first, second));
    KeptAreQualifying(first, second, kept, offsets);
    if |offsets| < 2 {
      return FreshQuotesRequired;
    }
    v := Agree(first, second, kept, offsets);
  }

  lemma KeptAreQualifying(first: Sample, second: Sample, kept: seq<string>, offsets: seq<int>)
    requires Kept(Keeper(first, second), kept, offsets, first.ticks.Keys)
    ensures |offsets| == |Qualifying(first, second)|
    ensures forall s :: s in kept <==> s in Qualifying(first, second)
    ensures forall k :: 0 <= k < |kept| ==> Qualifies(first, second, kept[k], offsets[k])
  {
    forall s: string
      ensures s in first.ticks && Keeper(first, second)(s).Some? <==> s in Qualifying(first, second)
      ensures Keeper(first, second)(s).Some? ==> Qualifies(first, second, s, Keeper(first, second)(s).value)
    {
      OffsetOfIsExact(first, second, s);
    }
    DistinctSize(kept);
    assert Qualifying(first, second) == set s | s in kept;
  }

  lemma {:induction false} DistinctSize(s: seq<string>)
    requires forall i, j :: 0 <= i < j < |s| ==> s[i] != s[j]
    ensures |set x | x in s| == |s|
  {
    if s != [] {
      DistinctSize(s[1..]);
      assert (set x | x in s) == {s[0]} + set x | x in s[1..];
    }
  }

  method Agree(first: Sample, second: Sample, ghost kept: seq<string>, offsets: seq<int>) returns (v: Verdict)
    requires |offsets| >= 2 && |kept| == |offsets|
    requires forall s :: s in kept <==> s in Qualifying(first, second)
    requires forall k :: 0 <= k < |kept| ==> Qualifies(first, second, kept[k], offsets[k])
    ensures v == (if Conflict(first, second) then ClockDisagreement else Observed(offsets[0], |offsets|))
    ensures forall o :: AllFit(first, second, o) <==> !Conflict(first, second) && o == offsets[0]
  {
    for k := 1 to |offsets|
      invariant forall m :: 0 <= m < k ==> offsets[m] == offsets[0]
    {
      if offsets[k] != offsets[0] {
        assert kept[0] in kept && kept[k] in kept;
        assert Conflict(first, second);
        forall o | AllFit(first, second, o) ensures false {
          OffsetIsUnique(first, second, kept[0], offsets[0], o);
          OffsetIsUnique(first, second, kept[k], offsets[k], o);
        }
        return ClockDisagreement;
      }
    }
    forall s, a | Qualifies(first, second, s, a) ensures a == offsets[0] {
      assert s in Qualifying(first, second);
      var k :| 0 <= k < |kept| && kept[k] == s;
      OffsetIsUnique(first, second, s, a, offsets[k]);
    }
    assert kept[0] in kept;
    assert AllFit(first, second, offsets[0]);
    v := Observed(offsets[0], |offsets|);
  }
}
