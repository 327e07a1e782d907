/**
 * Runs of repeated evidence.  Four stored numbers (what, first, last, how many) describe
 * the current run of an unbounded trace: the longest stretch at its end with one
 * signature and no pause between neighbours longer than allowed.
 */
module EvidenceRuns {
  import opened Outcomes

  /** One observation: unfit as evidence, or a sample with its signature and time. */
  datatype Sample<S> = Unfit | Fit(signature: S, at: real)

  /** From `k` to its end the trace is one run: fit, one signature, no longer pause. */
  ghost predicate IsRun<S>(trace: seq<Sample<S>>, pause: real, k: nat) {
    && k < |trace| && trace[k].Fit?
    && (forall m :: k <= m < |trace| ==> trace[m].Fit? && trace[m].signature == trace[k].signature)
    && (forall m :: k < m < |trace| ==> trace[m].at - trace[m - 1].at <= pause)
  }

  ghost predicate IsCurrentRun<S>(trace: seq<Sample<S>>, pause: real, k: nat) {
    IsRun(trace, pause, k) && (k > 0 ==> !IsRun(trace, pause, k - 1))
  }

  /** What is kept of a run: signature, first and last time, length. */
  datatype Evidence<S> = Evidence(signature: S, first: real, last: real, count: nat)

  ghost predicate Keeps<S>(e: Option<Evidence<S>>, trace: seq<Sample<S>>, pause: real) {
    match e
    case None => trace == [] || trace[|trace| - 1].Unfit?
    case Some(v) =>
      && 0 < v.count <= |trace|
      && var k := |trace| - v.count;
         IsCurrentRun(trace, pause, k) &&
         v == Evidence(trace[k].signature, trace[k].at, trace[|trace| - 1].at, |trace| - k)
  }

  /** The evidence after one more sample. */
  function Extend<S(==)>(e: Option<Evidence<S>>, sample: Sample<S>, pause: real): Option<Evidence<S>> {
    match sample
    case Unfit => None
    case Fit(signature, at) =>
      if e.None? || e.value.signature != signature || at - e.value.last > pause
      then Some(Evidence(signature, at, at, 1))
      else Some(Evidence(signature, e.value.first, at, e.value.count + 1))
  }

  lemma RunOfExtension<S>(trace: seq<Sample<S>>, sample: Sample<S>, pause: real, k: nat)
    requires k < |trace|
    ensures IsRun(trace + [sample], pause, k) <==>
            IsRun(trace, pause, k) && sample.Fit? && sample.signature == trace[k].signature &&
            sample.at - trace[|trace| - 1].at <= pause
  {
    var more := trace + [sample];
    assert more[|trace|] == sample;
    if IsRun(more, pause, k) {
      assert forall m :: k <= m < |trace| ==> trace[m] == more[m];
      assert more[|trace|].at - more[|trace| - 1].at <= pause;
    }
  }

  /** Extending the evidence follows the run: the four numbers lose nothing of the trace. */
  lemma ExtendKeeps<S>(e: Option<Evidence<S>>, trace: seq<Sample<S>>, sample: Sample<S>, pause: real)
    requires Keeps(e, trace, pause)
    ensures Keeps(Extend(e, sample, pause), trace + [sample], pause)
  {
    var more := trace + [sample];
    if sample.Fit? {
      var last := |trace|;
      assert IsRun(more, pause, last);
      if last > 0 {
        RunOfExtension(trace, sample, pause, last - 1);
      }
      if Extend(e, sample, pause).value.count > 1 {
        var k := |trace| - e.value.count;
        RunOfExtension(trace, sample, pause, k);
        if k > 0 {
          RunOfExtension(trace, sample, pause, k - 1);
        }
      }
    }
  }

  /** The current run has at least `least` members and spans at least `span`. */
  ghost predicate Persists<S>(trace: seq<Sample<S>>, pause: real, least: nat, span: real) {
    exists k: nat :: IsCurrentRun(trace, pause, k) && |trace| - k >= least &&
                     trace[|trace| - 1].at - trace[k].at >= span
  }

  /** The stored numbers decide persistence exactly as the current run of the trace does. */
  lemma PersistenceIsExact<S>(e: Option<Evidence<S>>, trace: seq<Sample<S>>, pause: real, least: nat, span: real)
    requires Keeps(e, trace, pause)
    ensures (e.Some? && e.value.count >= least && e.value.last - e.value.first >= span) <==>
            Persists(trace, pause, least, span)
  {
    CurrentRunIsUnique(trace, pause);
  }

  lemma CurrentRunIsUnique<S>(trace: seq<Sample<S>>, pause: real)
    ensures forall j: nat, k: nat :: IsCurrentRun(trace, pause, j) && IsCurrentRun(trace, pause, k) ==> j == k
  {
    forall j: nat, k: nat | IsCurrentRun(trace, pause, j) && IsCurrentRun(trace, pause, k) ensures j == k {
      if j < k {
        assert IsRun(trace, pause, k - 1);
      } else if k < j {
        assert IsRun(trace, pause, j - 1);
      }
    }
  }
}
