/**
 * Spreading verified server catalogues between slots: which pair is chosen, and why
 * repeated installs converge.
 *
 * Slot ids and process identities are numbered; hashes and names are opaque.
 */
module CatalogueSync {
  import opened Outcomes
  import opened Sequences
  import opened Ordering

  type Name = string

  const FRESH_SECONDS: real := 90.0

  /** The last inventory of a slot: `dialog` when the names were read from the login dialog. */
  datatype Snapshot = Snapshot(
    names: seq<Name>, starting: bool, dialog: bool, identity: Option<nat>, hash: Option<nat>)

  /** What `verified_snapshot` reads of a worker; `inspectedAt` is zero when an inspection is due. */
  datatype Worker = Worker(
    id: nat, inspectedAt: real, snapshot: Option<Snapshot>, sessionIdentity: Option<nat>, catalogHash: Option<nat>)

  /** Only a fresh, positive dialog reading of the current process and catalogue is evidence. */
  predicate Verified(w: Worker, now: real) {
    && w.inspectedAt != 0.0 && now - w.inspectedAt < FRESH_SECONDS
    && w.snapshot.Some?
    && var s := w.snapshot.value;
       s.dialog && s.starting && s.names != [] && s.identity == w.sessionIdentity &&
       s.hash.Some? && s.hash == w.catalogHash
  }

  /** In numbers: inspected, less than 90 s ago, positively, in the login dialog, of this process and this file. */
  lemma EvidenceIs(w: Worker, now: real)
    ensures Verified(w, now) <==>
            exists names: seq<Name>, hash: nat ::
              && w.snapshot == Some(Snapshot(names, true, true, w.sessionIdentity, Some(hash)))
              && w.catalogHash == Some(hash) && names != [] && w.inspectedAt != 0.0 && now < w.inspectedAt + 90.0
  {
    if Verified(w, now) {
      var s := w.snapshot.value;
      assert w.snapshot == Some(Snapshot(s.names, true, true, w.sessionIdentity, Some(s.hash.value)));
    }
  }

  function Names(w: Worker): seq<Name> {
    if w.snapshot.Some? then w.snapshot.value.names else []
  }

  function NameSet(w: Worker): set<Name> {
    set n | n in Names(w)
  }

  /** Largest catalogue first, then by slot id. */
  function LargestFirst(w: Worker): Key {
    (-|Names(w)|, w.id)
  }

  ghost predicate DistinctIds(workers: seq<Worker>) {
    forall v, w :: v in workers && w in workers && v.id == w.id ==> v == w
  }

  /** Names are listed once: `visible_servers` returns a sorted set. */
  predicate NamesListedOnce(workers: seq<Worker>) {
    forall w | w in workers :: Distinct(Names(w))
  }

  ghost function Candidates(workers: seq<Worker>, now: real): set<Worker> {
    set w | w in workers && Verified(w, now)
  }

  lemma {:induction false} DistinctCount(s: seq<Name>)
    requires Distinct(s)
    ensures |set n | n in s| == |s|
  {
    if s != [] {
      DistinctCount(s[1..]);
      assert (set n | n in s) == {s[0]} + set n | n in s[1..];
    }
  }

  /** A strictly larger set of names stands earlier in the order. */
  lemma LargerIsEarlier(small: Worker, large: Worker)
    requires Distinct(Names(small)) && Distinct(Names(large))
    requires NameSet(small) < NameSet(large)
    ensures Below(LargestFirst(large), LargestFirst(small))
  {
    DistinctCount(Names(small));
    DistinctCount(Names(large));
    assert |NameSet(small)| < |NameSet(large)| by { SubsetSize(NameSet(small), NameSet(large)); }
  }

  lemma {:induction false} SubsetSize(a: set<Name>, b: set<Name>)
    requires a < b
    ensures |a| < |b|
  {
    var x :| x in b && x !in a;
    if a == {} {
      assert b != {};
    } else {
      var y :| y in a;
      SubsetSize(a - {y}, b - {y});
    }
  }

  datatype Pair = Pair(source: Worker, target: Worker)

  /** The target would gain names and lose none. */
  predicate Gains(target: Worker, source: Worker) {
    NameSet(target) < NameSet(source)
  }

  /** No verified set strictly contains the source's; of those ready to give, it is first in the order. */
  ghost predicate BestSource(verified: set<Worker>, s: Worker) {
    && s in verified
    && (forall w :: w in verified ==> !Gains(s, w))
    && (forall v, w :: v in verified && w in verified && Gains(v, w) ==>
          w == s || Below(LargestFirst(s), LargestFirst(w)))
  }

  /** Of the sets strictly inside the source's, none is inside the target's, and it is last in the order. */
  ghost predicate BestTarget(verified: set<Worker>, s: Worker, t: Worker) {
    && t in verified && Gains(t, s)
    && (forall w :: w in verified ==> !Gains(w, t))
    && (forall w :: w in verified && Gains(w, s) ==> w == t || Below(LargestFirst(w), LargestFirst(t)))
  }

  /** The inner scan: the last candidate that the source strictly contains. */
  method LastTarget(candidates: seq<Worker>, source: Worker) returns (j: Option<nat>)
    ensures match j
            case None => forall k :: 0 <= k < |candidates| ==> !Gains(candidates[k], source)
            case Some(t) => t < |candidates| && Gains(candidates[t], source) &&
                            forall k :: t < k < |candidates| ==> !Gains(candidates[k], source)
  {
    var k := |candidates|;
    while k > 0
      invariant 0 <= k <= |candidates|
      invariant forall m :: k <= m < |candidates| ==> !Gains(candidates[m], source)
    {
      k := k - 1;
      if Gains(candidates[k], source) {
        return Some(k);
      }
    }
    return None;
  }

  ghost predicate Comparable(verified: set<Worker>) {
    exists v, w :: v in verified && w in verified && Gains(v, w)
  }

  ghost predicate AllListedOnce(verified: set<Worker>) {
    forall w :: w in verified ==> Distinct(Names(w))
  }

  /** The verified workers, largest catalogue first. */
  method SortedCandidates(workers: seq<Worker>, now: real) returns (candidates: seq<Worker>)
    requires DistinctIds(workers) && NamesListedOnce(workers)
    ensures Ordered(candidates, LargestFirst) && Elements(candidates) == Candidates(workers, now)
    ensures AllListedOnce(Candidates(workers, now))
  {
    var verified := set w | w in workers && Verified(w, now);
    candidates := Sort(verified, LargestFirst);
  }

  /** The outer scan: the first candidate that has somebody to give to, and its last receiver. */
  method FirstPair(candidates: seq<Worker>, ghost verified: set<Worker>) returns (r: Option<Pair>)
    requires Ordered(candidates, LargestFirst) && Elements(candidates) == verified && AllListedOnce(verified)
    ensures r.Some? <==> Comparable(verified)
    ensures r.Some? ==> BestSource(verified, r.value.source) && BestTarget(verified, r.value.source, r.value.target)
  {
    for i := 0 to |candidates|
      invariant forall k :: 0 <= k < i ==> GivesNothing(verified, candidates[k])
    {
      var j := LastTarget(candidates, candidates[i]);
      if j.Some? {
        SourceIsBest(candidates, verified, i, j.value);
        TargetIsBest(candidates, verified, i, j.value);
        return Some(Pair(candidates[i], candidates[j.value]));
      }
      ScannedGivesNothing(candidates, verified, candidates[i]);
    }
    NothingToGive(candidates, verified);
    return None;
  }

  /** The pair a cycle copies between: none exactly when no verified set strictly contains another. */
  method ChoosePair(workers: seq<Worker>, now: real) returns (r: Option<Pair>)
    requires DistinctIds(workers) && NamesListedOnce(workers)
    ensures r.Some? <==> Comparable(Candidates(workers, now))
    ensures r.Some? ==>
              && BestSource(Candidates(workers, now), r.value.source)
              && BestTarget(Candidates(workers, now), r.value.source, r.value.target)
  {
    var candidates := SortedCandidates(workers, now);
    r := FirstPair(candidates, Candidates(workers, now));
  }

  lemma ScannedGivesNothing(candidates: seq<Worker>, verified: set<Worker>, w: Worker)
    requires Elements(candidates) == verified
    requires forall k :: 0 <= k < |candidates| ==> !Gains(candidates[k], w)
    ensures GivesNothing(verified, w)
  {
    forall v | v in verified ensures !Gains(v, w) {
      var k := IndexOf(candidates, v);
    }
  }

  lemma NothingToGive(candidates: seq<Worker>, verified: set<Worker>)
    requires Elements(candidates) == verified
    requires forall k :: 0 <= k < |candidates| ==> GivesNothing(verified, candidates[k])
    ensures !Comparable(verified)
  {
    forall v, w | v in verified && w in verified ensures !Gains(v, w) {
      var k := IndexOf(candidates, w);
    }
  }

  ghost predicate GivesNothing(verified: set<Worker>, w: Worker) {
    forall v :: v in verified ==> !Gains(v, w)
  }

  lemma IndexOf(candidates: seq<Worker>, w: Worker) returns (k: nat)
    requires w in Elements(candidates)
    ensures k < |candidates| && candidates[k] == w
  {
    k :| 0 <= k < |candidates| && candidates[k] == w;
  }

  lemma SourceIsBest(candidates: seq<Worker>, verified: set<Worker>, i: nat, j: nat)
    requires Ordered(candidates, LargestFirst) && Elements(candidates) == verified
    requires i < |candidates| && j < |candidates| && Gains(candidates[j], candidates[i])
    requires forall w :: w in verified ==> Distinct(Names(w))
    requires forall k :: 0 <= k < i ==> GivesNothing(verified, candidates[k])
    ensures BestSource(verified, candidates[i])
  {
    assert candidates[i] in verified && candidates[j] in verified;
    forall w | w in verified ensures !Gains(candidates[i], w) {
      var k := IndexOf(candidates, w);
      if Gains(candidates[i], w) {
        LargerIsEarlier(candidates[i], w);
        assert false;
      }
    }
    forall v, w | v in verified && w in verified && Gains(v, w)
      ensures w == candidates[i] || Below(LargestFirst(candidates[i]), LargestFirst(w))
    {
      var k := IndexOf(candidates, w);
      assert i <= k;
    }
  }

  lemma TargetIsBest(candidates: seq<Worker>, verified: set<Worker>, i: nat, j: nat)
    requires Ordered(candidates, LargestFirst) && Elements(candidates) == verified
    requires i < |candidates| && j < |candidates| && Gains(candidates[j], candidates[i])
    requires forall w :: w in verified ==> Distinct(Names(w))
    requires forall k :: j < k < |candidates| ==> !Gains(candidates[k], candidates[i])
    ensures BestTarget(verified, candidates[i], candidates[j])
  {
    assert candidates[i] in verified && candidates[j] in verified;
    forall w | w in verified ensures !Gains(w, candidates[j]) {
      var k := IndexOf(candidates, w);
      if Gains(w, candidates[j]) {
        LargerIsEarlier(w, candidates[j]);
        assert false;
      }
    }
    forall w | w in verified && Gains(w, candidates[i])
      ensures w == candidates[j] || Below(LargestFirst(w), LargestFirst(candidates[j]))
    {
      var k := IndexOf(candidates, w);
      assert k <= j;
    }
  }

  // ------------------------------------------------------------------ convergence

  /** The verified name set of every slot, all on one build. */
  type Pool = seq<set<Name>>

  ghost predicate Maximal(p: Pool, i: int) {
    0 <= i < |p| && forall k :: 0 <= k < |p| ==> !(p[i] < p[k])
  }

  ghost function NonMaximal(p: Pool): set<int> {
    set i | 0 <= i < |p| && !Maximal(p, i)
  }

  /** One cycle: the chosen target is reinstalled and reports exactly the source's names. */
  ghost predicate Installs(p: Pool, q: Pool, target: int) {
    && 0 <= target < |p|
    && exists source :: Maximal(p, source) && p[target] < p[source] && q == p[target := p[source]]
  }

  ghost function NamesOf(workers: seq<Worker>): Pool {
    seq(|workers|, i requires 0 <= i < |workers| => NameSet(workers[i]))
  }

  /** What `ChoosePair` chooses, every slot being verified, is such an install. */
  lemma ChosenPairInstalls(workers: seq<Worker>, now: real, s: int, t: int)
    requires 0 <= s < |workers| && 0 <= t < |workers|
    requires forall w :: w in workers ==> Verified(w, now)
    requires BestSource(Candidates(workers, now), workers[s])
    requires BestTarget(Candidates(workers, now), workers[s], workers[t])
    ensures Installs(NamesOf(workers), NamesOf(workers)[t := NameSet(workers[s])], t)
  {
    var p := NamesOf(workers);
    forall k | 0 <= k < |p| ensures !(p[s] < p[k]) {
      assert workers[k] in Candidates(workers, now);
    }
    assert Maximal(p, s);
  }

  /** An install makes exactly its target maximal and leaves every other slot as it was. */
  lemma InstallSettlesTarget(p: Pool, q: Pool, target: int)
    requires Installs(p, q, target)
    ensures target in NonMaximal(p)
    ensures NonMaximal(q) == NonMaximal(p) - {target}
    ensures |q| == |p| && forall i :: 0 <= i < |p| ==> p[i] <= q[i] && (i != target ==> q[i] == p[i])
    ensures q[target] in p && p[target] < q[target]
  {
    var source :| Maximal(p, source) && p[target] < p[source] && q == p[target := p[source]];
    assert !Maximal(p, target);
    forall i | 0 <= i < |p| ensures i in NonMaximal(q) <==> i in NonMaximal(p) - {target} {
      if i != target && !Maximal(p, i) {
        var k :| 0 <= k < |p| && p[i] < p[k];
        assert q[i] < q[k];
      }
      if i in NonMaximal(q) {
        var k :| 0 <= k < |q| && q[i] < q[k];
        assert p[i] < p[if k == target then source else k];
      }
    }
  }

  ghost predicate Cycles(pools: seq<Pool>, targets: seq<int>) {
    && |pools| == |targets| + 1
    && forall k :: 0 <= k < |targets| ==> Installs(pools[k], pools[k + 1], targets[k])
  }

  ghost predicate Settled(p: Pool) {
    forall i, k :: 0 <= i < |p| && 0 <= k < |p| ==> !(p[i] < p[k])
  }

  lemma {:induction false} CyclesCount(pools: seq<Pool>, targets: seq<int>, n: nat)
    requires Cycles(pools, targets) && n <= |targets|
    ensures |NonMaximal(pools[n])| + n == |NonMaximal(pools[0])|
    ensures NonMaximal(pools[n]) <= NonMaximal(pools[0])
    ensures forall k :: 0 <= k < n ==> targets[k] !in NonMaximal(pools[n])
  {
    if n > 0 {
      CyclesCount(pools, targets, n - 1);
      InstallSettlesTarget(pools[n - 1], pools[n], targets[n - 1]);
    }
  }

  /**
   * Catalogue spreading converges.  Every slot is a target at most once; the cycles end
   * exactly when no set strictly contains another, after as many installs as there were
   * non-maximal slots at the start.
   */
  lemma SpreadingConverges(pools: seq<Pool>, targets: seq<int>)
    requires Cycles(pools, targets)
    ensures Distinct(targets)
    ensures |targets| <= |NonMaximal(pools[0])|
    ensures Settled(pools[|targets|]) <==> |targets| == |NonMaximal(pools[0])|
    ensures Settled(pools[|targets|]) <==> forall q, t :: !Installs(pools[|targets|], q, t)
  {
    var last := pools[|targets|];
    CyclesCount(pools, targets, |targets|);
    forall i, j | 0 <= i < j < |targets| ensures targets[i] != targets[j] {
      CyclesCount(pools, targets, j);
      InstallSettlesTarget(pools[j], pools[j + 1], targets[j]);
    }
    if NonMaximal(last) == {} {
      forall i, k | 0 <= i < |last| && 0 <= k < |last| ensures !(last[i] < last[k]) {
        assert i !in NonMaximal(last);
      }
    } else {
      var i :| i in NonMaximal(last);
      var above := MaximalAbove(last, i);
      assert Installs(last, last[i := last[above]], i);
    }
  }

  lemma {:induction false} MaximalAbove(p: Pool, i: int) returns (m: int)
    requires 0 <= i < |p| && !Maximal(p, i)
    ensures Maximal(p, m) && p[i] < p[m]
    decreases |set k | 0 <= k < |p| && p[i] < p[k]|
  {
    m :| 0 <= m < |p| && p[i] < p[m];
    if !Maximal(p, m) {
      var higher, high := set k | 0 <= k < |p| && p[m] < p[k], set k | 0 <= k < |p| && p[i] < p[k];
      assert higher <= high && m in high && m !in higher;
      ProperSubsetSize(higher, high);
      m := MaximalAbove(p, m);
    }
  }

  lemma ProperSubsetSize(a: set<int>, b: set<int>)
    requires a < b
    ensures |a| < |b|
  {
    assert |b - a| == |b| - |a|;
  }

  /** No slot ever loses a name, and every set a slot ends with was some slot's set at the start. */
  lemma {:induction false} NamesOnlyGrow(pools: seq<Pool>, targets: seq<int>, n: nat)
    requires Cycles(pools, targets) && n <= |targets|
    ensures |pools[n]| == |pools[0]|
    ensures forall i :: 0 <= i < |pools[0]| ==> pools[0][i] <= pools[n][i] && pools[n][i] in pools[0]
  {
    if n > 0 {
      NamesOnlyGrow(pools, targets, n - 1);
      InstallSettlesTarget(pools[n - 1], pools[n], targets[n - 1]);
    }
  }

  /** The target's next report, after its restart: exactly the installed names. */
  function Reinspected(target: Worker, source: Worker): Worker {
    if target.snapshot.None? || source.snapshot.None? then target
    else
      var report := target.snapshot.value.(names := source.snapshot.value.names, hash := source.snapshot.value.hash);
      target.(snapshot := Some(report), catalogHash := source.catalogHash)
  }

  /** Every slot has fresh evidence of its own. */
  ghost predicate AllVerified(workers: seq<Worker>, now: real) {
    && (forall i, k :: 0 <= i < k < |workers| ==> workers[i].id != workers[k].id)
    && forall i :: 0 <= i < |workers| ==> Verified(workers[i], now) && Distinct(Names(workers[i]))
  }

  lemma VerifiedFit(workers: seq<Worker>, now: real)
    requires AllVerified(workers, now)
    ensures DistinctIds(workers) && NamesListedOnce(workers) && forall w :: w in workers ==> Verified(w, now)
  {
    forall v, w | v in workers && w in workers && v.id == w.id ensures v == w {
      var i :| 0 <= i < |workers| && workers[i] == v;
      var k :| 0 <= k < |workers| && workers[k] == w;
    }
  }

  /** One cycle with every slot verified: nothing to copy, or an install of the whole pool. */
  method Cycle(workers: seq<Worker>, now: real) returns (next: seq<Worker>, target: Option<nat>)
    requires AllVerified(workers, now)
    ensures |next| == |workers| && AllVerified(next, now)
    ensures target.None? ==> next == workers && Settled(NamesOf(workers))
    ensures target.Some? ==> Installs(NamesOf(workers), NamesOf(next), target.value)
  {
    VerifiedFit(workers, now);
    var pair := ChoosePair(workers, now);
    if pair.None? {
      NothingComparable(workers, now);
      return workers, None;
    }
    var s := PositionOf(workers, pair.value.source);
    var t := PositionOf(workers, pair.value.target);
    ChosenPairInstalls(workers, now, s, t);
    next := workers[t := Reinspected(workers[t], workers[s])];
    assert NamesOf(next) == NamesOf(workers)[t := NameSet(workers[s])];
    target := Some(t);
  }

  method PositionOf(workers: seq<Worker>, w: Worker) returns (k: nat)
    requires w in workers
    ensures k < |workers| && workers[k] == w
  {
    k := 0;
    while workers[k] != w
      invariant k < |workers| && w in workers[k..]
      decreases |workers| - k
    {
      k := k + 1;
    }
  }

  lemma NothingComparable(workers: seq<Worker>, now: real)
    requires !Comparable(Candidates(workers, now)) && forall w :: w in workers ==> Verified(w, now)
    ensures Settled(NamesOf(workers))
  {
    forall i, k | 0 <= i < |workers| && 0 <= k < |workers| ensures !(NamesOf(workers)[i] < NamesOf(workers)[k]) {
      assert workers[i] in Candidates(workers, now) && workers[k] in Candidates(workers, now);
      assert !Gains(workers[i], workers[k]);
    }
  }

  ghost predicate NoneLost(before: Pool, after: Pool) {
    |before| == |after| && forall i :: 0 <= i < |before| ==> before[i] <= after[i]
  }

  /** One install more: one slot fewer that is not maximal, and no name lost. */
  lemma InstallCounts(first: Pool, before: Pool, after: Pool, target: nat)
    requires NoneLost(first, before) && Installs(before, after, target)
    ensures NoneLost(first, after) && |NonMaximal(after)| + 1 == |NonMaximal(before)|
  {
    InstallSettlesTarget(before, after, target);
  }

  /**
   * Cycle after cycle, every slot being verified again in between, the choices of
   * `ChoosePair` spread the catalogues to the end: no set lies strictly inside another,
   * after exactly as many installs as there were non-maximal slots, and no name is lost.
   */
  method Spread(workers: seq<Worker>, now: real) returns (final: seq<Worker>, installs: nat)
    requires AllVerified(workers, now)
    ensures |final| == |workers| && Settled(NamesOf(final)) && NoneLost(NamesOf(workers), NamesOf(final))
    ensures installs == |NonMaximal(NamesOf(workers))|
  {
    final, installs := workers, 0;
    ghost var first := NamesOf(workers);
    var settled := false;
    while !settled
      invariant |final| == |workers| && AllVerified(final, now) && NoneLost(first, NamesOf(final))
      invariant installs + |NonMaximal(NamesOf(final))| == |NonMaximal(first)|
      invariant settled ==> Settled(NamesOf(final))
      decreases |NonMaximal(NamesOf(final))|, if settled then 0 else 1
    {
      ghost var before := NamesOf(final);
      var target;
      final, target := Cycle(final, now);
      if target.Some? {
        InstallCounts(first, before, NamesOf(final), target.value);
        installs := installs + 1;
      } else {
        settled := true;
      }
    }
    SettledHasNoNonMaximal(NamesOf(final));
  }

  lemma SettledHasNoNonMaximal(p: Pool)
    requires Settled(p)
    ensures NonMaximal(p) == {}
  {
  }

  // ------------------------------------------------------------------ cycles with only some slots verified

  /** Any install between verified slots, whatever the other slots would have offered. */
  ghost predicate PartialInstall(p: Pool, q: Pool, source: int, target: int) {
    && 0 <= source < |p| && 0 <= target < |p|
    && p[target] < p[source] && q == p[target := p[source]]
  }

  /** How many of the original sets lie strictly above a set. */
  ghost function Height(family: Pool, s: set<Name>): nat {
    |set k | 0 <= k < |family| && s < family[k]|
  }

  ghost function Heights(family: Pool, p: Pool): nat {
    if p == [] then 0 else Height(family, p[0]) + Heights(family, p[1..])
  }

  lemma {:induction false} HeightsOfUpdate(family: Pool, p: Pool, t: nat, s: set<Name>)
    requires t < |p|
    ensures Heights(family, p[t := s]) + Height(family, p[t]) == Heights(family, p) + Height(family, s)
  {
    if t == 0 {
      assert p[t := s][1..] == p[1..];
    } else {
      HeightsOfUpdate(family, p[1..], t - 1, s);
      assert p[t := s][1..] == p[1..][t - 1 := s];
    }
  }

  /** Installs between whichever slots are verified still end: each one uses up some height. */
  lemma PartialInstallDescends(family: Pool, p: Pool, q: Pool, source: int, target: int)
    requires PartialInstall(p, q, source, target)
    requires forall i :: 0 <= i < |p| ==> p[i] in family
    ensures Heights(family, q) < Heights(family, p)
    ensures forall i :: 0 <= i < |q| ==> q[i] in family
    ensures |q| == |p| && forall i :: 0 <= i < |p| ==> p[i] <= q[i]
  {
    HeightsOfUpdate(family, p, target, p[source]);
    var m :| 0 <= m < |family| && family[m] == p[source];
    var lower := set k | 0 <= k < |family| && p[target] < family[k];
    var upper := set k | 0 <= k < |family| && p[source] < family[k];
    assert upper <= lower && m in lower && m !in upper;
    ProperSubsetSize(upper, lower);
  }

  ghost predicate PartialCycles(pools: seq<Pool>, sources: seq<int>, targets: seq<int>) {
    && |pools| == |targets| + 1 && |sources| == |targets|
    && forall k :: 0 <= k < |targets| ==> PartialInstall(pools[k], pools[k + 1], sources[k], targets[k])
  }

  ghost predicate Within(p: Pool, family: Pool) {
    |p| == |family| && forall i :: 0 <= i < |p| ==> p[i] in family && family[i] <= p[i]
  }

  /** However few slots are verified: names only grow, from the starting sets, and the installs are bounded. */
  lemma {:induction false} PartialCyclesEnd(pools: seq<Pool>, sources: seq<int>, targets: seq<int>, n: nat)
    requires PartialCycles(pools, sources, targets) && n <= |targets|
    ensures n + Heights(pools[0], pools[n]) <= Heights(pools[0], pools[0])
    ensures Within(pools[n], pools[0])
  {
    if n > 0 {
      PartialCyclesEnd(pools, sources, targets, n - 1);
      PartialInstallDescends(pools[0], pools[n - 1], pools[n], sources[n - 1], targets[n - 1]);
    }
  }
}
