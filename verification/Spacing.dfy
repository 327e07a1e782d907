/** Events kept apart by a minimum gap, and how many of them fit into a span. */
module Spacing {

  ghost predicate Spaced(times: seq<real>, gap: real) {
    forall i, j :: 0 <= i < j < |times| ==> times[i] + gap <= times[j]
  }

  /** Between two events of the sequence lies one gap for each step. */
  lemma {:induction false} GapsAddUp(times: seq<real>, gap: real, i: nat, j: nat)
    requires Spaced(times, gap) && i <= j < |times|
    ensures times[i] + (j - i) as real * gap <= times[j]
  {
    if i < j {
      GapsAddUp(times, gap, i, j - 1);
      assert (j - i) as real * gap == (j - 1 - i) as real * gap + gap;
      assert times[j - 1] + gap <= times[j];
    }
  }

  /** A span of length `span` that holds the events `i` to `j` holds at most span/gap + 1 of them. */
  lemma AtMostInSpan(times: seq<real>, gap: real, i: nat, j: nat, start: real, span: real)
    requires 0.0 < gap && Spaced(times, gap) && i <= j < |times|
    requires start <= times[i] && times[j] <= start + span
    ensures (j - i + 1) as real <= span / gap + 1.0
  {
    GapsAddUp(times, gap, i, j);
    QuotientBound((j - i) as real, gap, span);
  }

  lemma QuotientBound(x: real, d: real, y: real)
    requires 0.0 < d && x * d <= y
    ensures x <= y / d
  {
    var q := y / d;
    assert q * d == y;
    if q < x {
      ProductGrows(q, x, d);
    }
  }

  lemma ProductGrows(a: real, b: real, d: real)
    requires 0.0 < d && a < b
    ensures a * d < b * d
  {
  }

  /** An event one gap after the latest keeps the sequence spaced. */
  lemma SpacedPush(times: seq<real>, gap: real, t: real)
    requires 0.0 <= gap && Spaced(times, gap) && (times != [] ==> times[|times| - 1] + gap <= t)
    ensures Spaced(times + [t], gap)
  {
    forall i | 0 <= i < |times| ensures times[i] + gap <= t {
      if i < |times| - 1 {
        assert times[i] + gap <= times[|times| - 1];
      }
    }
  }
}
