/**
 * Telemetry of errors: transient errors are held back until they persist, and every code
 * has a quota of one event in six hours.
 *
 * The quota lives in a durable table with a bounded in-process copy to fall back on.
 * The trace records every question and whatever made the copy forget; the laws say how
 * far the quota holds although store and copy may fail at any point.
 */
module Telemetry {
  import opened Outcomes
  import opened Sequences
  import opened EvidenceRuns

  const REMINDER: real := 21_600.0
  const KEPT: real := 604_800.0
  const SKEW: real := 60.0
  const PAUSE: real := 300.0
  const SPAN: real := 180.0
  const LEAST: nat := 3
  const CAPACITY: nat := 256

  type Code = string
  type SlotId = string

  // ------------------------------------------------------------------ dictionaries in insertion order

  datatype Dict<K(==), V> = Dict(order: seq<K>, values: map<K, V>) {
    ghost predicate Valid() {
      && Distinct(order)
      && (forall i :: 0 <= i < |order| ==> order[i] in values)
      && (forall k :: k in values ==> k in order)
    }
  }

  /** A known key keeps its place, a new one comes last. */
  function Put<K(==), V>(d: Dict<K, V>, k: K, v: V): (r: Dict<K, V>)
    requires d.Valid()
    ensures r.Valid() && r.values == d.values[k := v]
    ensures r.order == if k in d.values then d.order else d.order + [k]
  {
    Dict(if k in d.values then d.order else d.order + [k], d.values[k := v])
  }

  function Removed<K(==), V>(d: Dict<K, V>, n: nat): (r: Dict<K, V>)
    requires d.Valid() && n < |d.order|
    ensures r.Valid() && r.values == d.values - {d.order[n]}
    ensures |r.order| == |d.order| - 1
    ensures forall m :: n <= m < |r.order| ==> r.order[m] == d.order[m + 1]
  {
    DropOne(d.order, n);
    Dict(Without(d.order, n), d.values - {d.order[n]})
  }

  // ------------------------------------------------------------------ the durable table

  /** How far one use of the store got: a failed commit rolls the table back after the row was read. */
  datatype StoreUse = Committed | Unreachable | CommitFailed

  predicate Admits(sent: map<Code, real>, code: Code, now: real) {
    code !in sent || sent[code] <= now - REMINDER || sent[code] > now + SKEW
  }

  /** The row of the code after the upsert. */
  function Row(sent: map<Code, real>, code: Code, now: real): real {
    if Admits(sent, code, now) then now else sent[code]
  }

  /** The committed table; rows a week old are dropped. */
  function Updated(sent: map<Code, real>, code: Code, now: real): map<Code, real> {
    var all := sent[code := Row(sent, code, now)];
    map c | c in all && all[c] >= now - KEPT :: all[c]
  }

  /** The row just asked for is never among the dropped ones, so reading it back succeeds. */
  lemma RowSurvives(sent: map<Code, real>, code: Code, now: real)
    ensures code in Updated(sent, code, now) && Updated(sent, code, now)[code] == Row(sent, code, now)
  {
  }

  // ------------------------------------------------------------------ the trace of the quota

  datatype Event =
    | Asked(code: Code, at: real, use: StoreUse, admitted: bool)
    | Evicted(code: Code)
    | Restarted

  predicate Admitted(e: Event, code: Code) {
    e.Asked? && e.code == code && e.admitted
  }

  predicate Durable(e: Event, code: Code) {
    Admitted(e, code) && e.use.Committed?
  }

  /** No question came later than `t`. */
  ghost predicate Until(trace: seq<Event>, t: real) {
    forall i :: 0 <= i < |trace| && trace[i].Asked? ==> trace[i].at <= t
  }

  /** The clock never ran back. */
  ghost predicate Steady(trace: seq<Event>) {
    forall i, j :: 0 <= i < j < |trace| && trace[i].Asked? && trace[j].Asked? ==> trace[i].at <= trace[j].at
  }

  /** The code's last admission through the table. */
  ghost function LastDurable(trace: seq<Event>, c: Code): Option<real> {
    if trace == [] then None
    else
      var last := trace[|trace| - 1];
      if Durable(last, c) then Some(last.at) else LastDurable(trace[..|trace| - 1], c)
  }

  /** The last committed question, of whatever code. */
  ghost function LastCommit(trace: seq<Event>): Option<real> {
    if trace == [] then None
    else
      var last := trace[|trace| - 1];
      if last.Asked? && last.use.Committed? then Some(last.at) else LastCommit(trace[..|trace| - 1])
  }

  /** The row of a code: its last durable admission, unless that was a week old at the last commit. */
  ghost function Retained(trace: seq<Event>, c: Code): Option<real> {
    var last, commit := LastDurable(trace, c), LastCommit(trace);
    if last.Some? && commit.Some? && last.value >= commit.value - KEPT then last else None
  }

  predicate Recent(o: Option<real>, now: real) {
    o.Some? && o.value > now - REMINDER
  }

  /** An entry of the copy; one that is not founded was left by a failed commit and admitted nothing. */
  datatype Memory = Memory(at: real, founded: bool)

  /** What the copy knows of a code after one more event, given what it knew and the code's last durable admission. */
  function KnownAfter(before: Option<Memory>, durable: Option<real>, e: Event, c: Code): Option<Memory> {
    match e
    case Restarted => None
    case Evicted(code) => if code == c then None else before
    case Asked(code, at, use, admitted) =>
      if code != c then before
      else if admitted then Some(Memory(at, true))
      else if use.Unreachable? then before
      else if Recent(durable, at) then Some(Memory(durable.value, true))
      else if use.CommitFailed? then Some(Memory(at, false))
      else None
  }

  ghost function Known(trace: seq<Event>, c: Code): Option<Memory> {
    if trace == [] then None
    else
      var before := trace[..|trace| - 1];
      KnownAfter(Known(before, c), LastDurable(before, c), trace[|trace| - 1], c)
  }

  function Time(m: Option<Memory>): Option<real> {
    if m.Some? then Some(m.value.at) else None
  }

  function Lookup(m: map<Code, real>, c: Code): Option<real> {
    if c in m then Some(m[c]) else None
  }

  /** What a steady clock lets a question find: no recent entry in the store it consults. */
  ghost predicate Passes(trace: seq<Event>, c: Code, now: real, use: StoreUse) {
    match use
    case Committed => !Recent(LastDurable(trace, c), now)
    case Unreachable => !Recent(Time(Known(trace, c)), now)
    case CommitFailed => false
  }

  /** Every question was decided that way by the events before it. */
  ghost predicate Law(trace: seq<Event>) {
    forall j :: 0 <= j < |trace| && trace[j].Asked? ==>
      trace[j].admitted == Passes(trace[..j], trace[j].code, trace[j].at, trace[j].use)
  }

  ghost predicate TableIs(sent: map<Code, real>, trace: seq<Event>) {
    forall c :: Lookup(sent, c) == Retained(trace, c)
  }

  ghost predicate CopyIs(seen: map<Code, real>, trace: seq<Event>) {
    forall c :: Lookup(seen, c) == Time(Known(trace, c))
  }

  /** The stores hold exactly what the trace says, and every question obeyed the law. */
  ghost predicate Mirrors(sent: map<Code, real>, seen: map<Code, real>, trace: seq<Event>) {
    TableIs(sent, trace) && CopyIs(seen, trace) && Law(trace)
  }

  // ------------------------------------------------------------------ every event keeps the mirror

  lemma Extended(trace: seq<Event>, e: Event)
    ensures (trace + [e])[..|trace|] == trace
    ensures forall c :: LastDurable(trace + [e], c) == if Durable(e, c) then Some(e.at) else LastDurable(trace, c)
    ensures LastCommit(trace + [e]) == if e.Asked? && e.use.Committed? then Some(e.at) else LastCommit(trace)
    ensures forall c :: Known(trace + [e], c) == KnownAfter(Known(trace, c), LastDurable(trace, c), e, c)
  {
    assert (trace + [e])[..|trace|] == trace;
  }

  lemma SteadyExtends(trace: seq<Event>, e: Event)
    ensures Steady(trace + [e]) <==> Steady(trace) && (e.Asked? ==> Until(trace, e.at))
  {
    var more := trace + [e];
    if Steady(more) {
      forall i, j | 0 <= i < j < |trace| && trace[i].Asked? && trace[j].Asked? ensures trace[i].at <= trace[j].at {
        assert more[i].at <= more[j].at;
      }
      if e.Asked? {
        forall i | 0 <= i < |trace| && trace[i].Asked? ensures trace[i].at <= e.at {
          assert more[i].at <= more[|trace|].at;
        }
      }
    }
  }

  lemma LawExtends(trace: seq<Event>, e: Event)
    requires Law(trace) && (e.Asked? ==> e.admitted == Passes(trace, e.code, e.at, e.use))
    ensures Law(trace + [e])
  {
    var more := trace + [e];
    forall j | 0 <= j < |more| && more[j].Asked?
      ensures more[j].admitted == Passes(more[..j], more[j].code, more[j].at, more[j].use)
    {
      assert more[..j] == trace[..j];
      if j == |trace| {
        assert trace[..j] == trace;
      }
    }
  }

  /** Nothing that is stored lies ahead of the clock. */
  lemma {:induction false} NothingAhead(trace: seq<Event>, c: Code, t: real)
    requires Until(trace, t)
    ensures LastDurable(trace, c).Some? ==> LastDurable(trace, c).value <= t && LastCommit(trace).Some?
    ensures LastCommit(trace).Some? ==> LastCommit(trace).value <= t
    ensures Known(trace, c).Some? ==> Known(trace, c).value.at <= t
  {
    if trace != [] {
      var before, e := trace[..|trace| - 1], trace[|trace| - 1];
      assert trace == before + [e];
      NothingAhead(before, c, t);
      Extended(before, e);
    }
  }

  /** Pruning never hides a recent admission from the table. */
  lemma RowIsRecentAdmission(sent: map<Code, real>, trace: seq<Event>, c: Code, now: real)
    requires TableIs(sent, trace) && Until(trace, now)
    ensures Recent(Lookup(sent, c), now) <==> Recent(LastDurable(trace, c), now)
    ensures Recent(Lookup(sent, c), now) ==> Lookup(sent, c) == LastDurable(trace, c)
    ensures Admits(sent, c, now) <==> !Recent(Lookup(sent, c), now)
  {
    assert Lookup(sent, c) == Retained(trace, c);
    NothingAhead(trace, c, now);
  }

  lemma TableAfterCommit(sent: map<Code, real>, trace: seq<Event>, code: Code, now: real)
    requires TableIs(sent, trace) && Until(trace, now)
    ensures TableIs(Updated(sent, code, now), trace + [Asked(code, now, Committed, Admits(sent, code, now))])
  {
    var e := Asked(code, now, Committed, Admits(sent, code, now));
    var after, more := Updated(sent, code, now), trace + [e];
    Extended(trace, e);
    forall c ensures Lookup(after, c) == Retained(more, c) {
      RowIsRecentAdmission(sent, trace, c, now);
      NothingAhead(trace, c, now);
      assert Lookup(sent, c) == Retained(trace, c);
      assert LastCommit(more) == Some(now);
    }
  }

  lemma CommitKeeps(sent: map<Code, real>, seen: map<Code, real>, trace: seq<Event>, code: Code, now: real)
    requires Mirrors(sent, seen, trace) && Until(trace, now)
    ensures Mirrors(Updated(sent, code, now), seen[code := Row(sent, code, now)],
                    trace + [Asked(code, now, Committed, Admits(sent, code, now))])
  {
    var e := Asked(code, now, Committed, Admits(sent, code, now));
    TableAfterCommit(sent, trace, code, now);
    RowIsRecentAdmission(sent, trace, code, now);
    Extended(trace, e);
    LawExtends(trace, e);
    var after, more := seen[code := Row(sent, code, now)], trace + [e];
    forall c ensures Lookup(after, c) == Time(Known(more, c)) {
      assert Lookup(seen, c) == Time(Known(trace, c));
    }
  }

  lemma TableUnchanged(sent: map<Code, real>, trace: seq<Event>, e: Event)
    requires TableIs(sent, trace) && !(e.Asked? && e.use.Committed?)
    ensures TableIs(sent, trace + [e])
  {
    Extended(trace, e);
    forall c ensures Lookup(sent, c) == Retained(trace + [e], c) {
      assert Lookup(sent, c) == Retained(trace, c);
    }
  }

  /** Forgetting an entry, or all of them, is an event of its own. */
  lemma ForgettingKeeps(
      sent: map<Code, real>, seen: map<Code, real>, after: map<Code, real>, trace: seq<Event>, e: Event)
    requires Mirrors(sent, seen, trace)
    requires match e
             case Evicted(code) => after == seen - {code}
             case Restarted => after == map[]
             case Asked(_, _, _, _) => false
    ensures Mirrors(sent, after, trace + [e])
  {
    TableUnchanged(sent, trace, e);
    Extended(trace, e);
    LawExtends(trace, e);
    forall c ensures Lookup(after, c) == Time(Known(trace + [e], c)) {
      assert Lookup(seen, c) == Time(Known(trace, c));
    }
  }

  /** The copy's entry for a question that did not get through to the table. */
  ghost function Noted(sent: map<Code, real>, seen: map<Code, real>, e: Event): map<Code, real>
    requires e.Asked?
  {
    if e.admitted then seen[e.code := e.at]
    else if e.use.CommitFailed? then seen[e.code := Row(sent, e.code, e.at)]
    else seen
  }

  lemma BypassKeeps(sent: map<Code, real>, seen: map<Code, real>, trace: seq<Event>, e: Event)
    requires Mirrors(sent, seen, trace) && e.Asked? && !e.use.Committed? && Until(trace, e.at)
    requires e.admitted <==> e.use.Unreachable? && !Recent(Lookup(seen, e.code), e.at)
    ensures Mirrors(sent, Noted(sent, seen, e), trace + [e])
  {
    TableUnchanged(sent, trace, e);
    RowIsRecentAdmission(sent, trace, e.code, e.at);
    Extended(trace, e);
    assert Lookup(seen, e.code) == Time(Known(trace, e.code));
    LawExtends(trace, e);
    forall c ensures Lookup(Noted(sent, seen, e), c) == Time(Known(trace + [e], c)) {
      assert Lookup(seen, c) == Time(Known(trace, c));
    }
  }

  /** A full copy loses its oldest entry before it notes the admission. */
  lemma EvictionKeeps(sent: map<Code, real>, seen: map<Code, real>, trace: seq<Event>, oldest: Code, e: Event)
    requires Mirrors(sent, seen, trace) && e.Asked? && e.use.Unreachable? && e.admitted && Until(trace, e.at)
    requires !Recent(Lookup(seen, e.code), e.at)
    ensures Mirrors(sent, (seen - {oldest})[e.code := e.at], trace + [Evicted(oldest), e])
  {
    ForgettingKeeps(sent, seen, seen - {oldest}, trace, Evicted(oldest));
    BypassKeeps(sent, seen - {oldest}, trace + [Evicted(oldest)], e);
    assert trace + [Evicted(oldest)] + [e] == trace + [Evicted(oldest), e];
  }

  // ------------------------------------------------------------------ when the quota holds

  ghost predicate AdmittedIn(trace: seq<Event>, c: Code, t: real) {
    exists i :: 0 <= i < |trace| && Admitted(trace[i], c) && trace[i].at == t
  }

  lemma {:induction false} LastDurableIsLatest(trace: seq<Event>, c: Code)
    requires Steady(trace)
    ensures LastDurable(trace, c).Some? ==>
              exists i :: 0 <= i < |trace| && Durable(trace[i], c) && trace[i].at == LastDurable(trace, c).value
    ensures forall i :: 0 <= i < |trace| && Durable(trace[i], c) ==>
              LastDurable(trace, c).Some? && trace[i].at <= LastDurable(trace, c).value
  {
    if trace != [] {
      var before, e := trace[..|trace| - 1], trace[|trace| - 1];
      assert trace == before + [e];
      SteadyExtends(before, e);
      LastDurableIsLatest(before, c);
      if !Durable(e, c) && LastDurable(trace, c).Some? {
        var i :| 0 <= i < |before| && Durable(before[i], c) && before[i].at == LastDurable(before, c).value;
        assert trace[i] == before[i];
      }
    }
  }

  lemma {:induction false} FoundedIsAdmitted(trace: seq<Event>, c: Code)
    requires Steady(trace) && Known(trace, c).Some? && Known(trace, c).value.founded
    ensures AdmittedIn(trace, c, Known(trace, c).value.at)
  {
    var before, e, m := trace[..|trace| - 1], trace[|trace| - 1], Known(trace, c).value;
    assert trace == before + [e];
    Extended(before, e);
    SteadyExtends(before, e);
    if e.Asked? && e.code == c && e.admitted {
      assert Admitted(trace[|trace| - 1], c);
    } else if e.Asked? && e.code == c && !e.use.Unreachable? {
      LastDurableIsLatest(before, c);
      var i :| 0 <= i < |before| && Durable(before[i], c) && before[i].at == m.at;
      assert Admitted(trace[i], c);
    } else {
      FoundedIsAdmitted(before, c);
      var i :| 0 <= i < |before| && Admitted(before[i], c) && before[i].at == m.at;
      assert Admitted(trace[i], c);
    }
  }

  /** The code was admitted, one way or the other, less than six hours before `now`. */
  ghost predicate AdmittedLately(trace: seq<Event>, c: Code, now: real) {
    exists i :: 0 <= i < |trace| && Admitted(trace[i], c) && now < trace[i].at + REMINDER
  }

  ghost predicate AdmittedDurablyLately(trace: seq<Event>, c: Code, now: real) {
    exists i :: 0 <= i < |trace| && Durable(trace[i], c) && now < trace[i].at + REMINDER
  }

  lemma PrefixIsSteady(trace: seq<Event>, j: nat)
    requires Steady(trace) && j < |trace| && trace[j].Asked?
    ensures Steady(trace[..j]) && Until(trace[..j], trace[j].at)
  {
  }

  lemma DurablyLately(trace: seq<Event>, c: Code, now: real)
    requires Steady(trace)
    ensures Recent(LastDurable(trace, c), now) <==> AdmittedDurablyLately(trace, c, now)
  {
    LastDurableIsLatest(trace, c);
  }

  /**
   * When the quota fails.  Under a steady clock a code admitted less than six hours ago is
   * admitted again if and only if the store that is consulted shows no such entry: the
   * table, because every recent admission bypassed it; the copy, because it holds none.
   * A failed commit repeats nothing.
   */
  lemma RepeatedExactly(trace: seq<Event>, j: nat)
    requires Steady(trace) && Law(trace) && j < |trace| && trace[j].Asked?
    requires AdmittedLately(trace[..j], trace[j].code, trace[j].at)
    ensures trace[j].admitted <==>
            match trace[j].use
            case Committed => !AdmittedDurablyLately(trace[..j], trace[j].code, trace[j].at)
            case Unreachable => !Recent(Time(Known(trace[..j], trace[j].code)), trace[j].at)
            case CommitFailed => false
  {
    PrefixIsSteady(trace, j);
    DurablyLately(trace[..j], trace[j].code, trace[j].at);
  }

  /**
   * When an event is lost.  Under a steady clock a code not admitted for six hours is
   * refused if and only if the commit fails now, or the table is out of reach and the copy
   * still holds the mark of a commit that failed less than six hours ago.
   */
  lemma SwallowedExactly(trace: seq<Event>, j: nat)
    requires Steady(trace) && Law(trace) && j < |trace| && trace[j].Asked?
    requires !AdmittedLately(trace[..j], trace[j].code, trace[j].at)
    ensures var known := Known(trace[..j], trace[j].code);
            !trace[j].admitted <==>
              || trace[j].use.CommitFailed?
              || (trace[j].use.Unreachable? && Recent(Time(known), trace[j].at) && !known.value.founded)
  {
    var before, c, now := trace[..j], trace[j].code, trace[j].at;
    PrefixIsSteady(trace, j);
    DurablyLately(before, c, now);
    if Known(before, c).Some? && Known(before, c).value.founded {
      FoundedIsAdmitted(before, c);
    }
  }

  /** Through the table alone the quota never fails. */
  lemma DurableSpaced(trace: seq<Event>, i: nat, j: nat, c: Code)
    requires Steady(trace) && Law(trace) && i < j < |trace|
    requires Durable(trace[i], c) && Durable(trace[j], c)
    ensures trace[i].at + REMINDER <= trace[j].at
  {
    PrefixIsSteady(trace, j);
    LastDurableIsLatest(trace[..j], c);
    assert trace[..j][i] == trace[i];
  }

  /** One question was recorded, perhaps after one eviction. */
  ghost predicate Records(before: seq<Event>, after: seq<Event>, e: Event) {
    || after == before + [e]
    || (|after| == |before| + 2 && after[|before|].Evicted? && after == before + [after[|before|], e])
  }

  lemma RecordsSteady(before: seq<Event>, after: seq<Event>, e: Event)
    requires Records(before, after, e) && e.Asked? && Steady(after)
    ensures Steady(before) && Until(before, e.at)
  {
    if after == before + [e] {
      SteadyExtends(before, e);
    } else {
      SteadyPair(before, after[|before|].code, e);
    }
  }

  /** The store that is consulted holds no entry of the last six hours; a failed commit shows its own row. */
  predicate ShowsNothing(sent: map<Code, real>, seen: map<Code, real>, code: Code, now: real, use: StoreUse) {
    match use
    case Committed => !Recent(Lookup(sent, code), now)
    case Unreachable => !Recent(Lookup(seen, code), now)
    case CommitFailed => false
  }

  class Quota {
    var sent: map<Code, real>
    var seen: Dict<Code, real>
    ghost var trace: seq<Event>

    constructor ()
      ensures Valid() && sent == map[] && seen == Dict([], map[]) && trace == []
    {
      sent, seen := map[], Dict([], map[]);
      trace := [];
    }

    ghost predicate Valid()
      reads this
    {
      seen.Valid() && (Steady(trace) ==> Mirrors(sent, seen.values, trace))
    }

    /** A new process finds the table, and an empty copy. */
    method Restart()
      requires Valid()
      modifies this`seen, this`trace
      ensures Valid() && seen.values == map[] && trace == old(trace) + [Restarted]
    {
      SteadyExtends(trace, Restarted);
      if Steady(trace) {
        ForgettingKeeps(sent, seen.values, map[], trace, Restarted);
      }
      seen := Dict([], map[]);
      trace := trace + [Restarted];
    }

    /**
     * `reserve_event`.  Through the table a code is admitted exactly when it has no row,
     * or one six hours old, or one from more than a minute ahead; past it, exactly when
     * the copy has no entry of the last six hours.  Under a steady clock a failed commit
     * admits nothing.
     */
    method Reserve(code: Code, now: real, use: StoreUse) returns (admitted: bool)
      requires Valid()
      modifies this
      ensures Valid()
      ensures use.Committed? ==>
                && admitted == Admits(old(sent), code, now)
                && (admitted <==>
                      code !in old(sent) || old(sent)[code] <= now - 21600.0 || old(sent)[code] > now + 60.0)
                && sent == Updated(old(sent), code, now)
                && seen.values == old(seen).values[code := Row(old(sent), code, now)]
                && trace == old(trace) + [Asked(code, now, use, admitted)]
      ensures !use.Committed? ==> sent == old(sent)
      ensures use.Unreachable? ==>
                (admitted <==> !(code in old(seen).values && 0.0 <= now - old(seen).values[code] < REMINDER))
      ensures use.CommitFailed? ==>
                (admitted <==> !(0.0 <= now - Row(old(sent), code, now) < REMINDER))
      ensures use.Unreachable? && admitted ==>
                seen.values == (if |old(seen).order| < 256 then old(seen).values
                                else old(seen).values - {old(seen).order[0]})[code := now]
      ensures Records(old(trace), trace, Asked(code, now, use, admitted))
      ensures !use.Committed? && admitted ==> code in seen.values && seen.values[code] == now
      ensures !admitted ==> trace == old(trace) + [Asked(code, now, use, admitted)]
      ensures !use.Committed? && !admitted ==>
                seen.values == Noted(old(sent), old(seen).values, Asked(code, now, use, admitted))
      ensures |old(seen).order| + 1 < CAPACITY ==> trace == old(trace) + [Asked(code, now, use, admitted)]
      ensures Steady(trace) ==> admitted == ShowsNothing(old(sent), old(seen).values, code, now, use)
    {
      if Steady(trace) && Until(trace, now) {
        RowIsRecentAdmission(sent, trace, code, now);
        SteadyBypass(sent, seen.values, trace, code, now);
      }
      ghost var before := trace;
      if use.Committed? {
        ghost var e := Asked(code, now, use, Admits(sent, code, now));
        RowSurvives(sent, code, now);
        SteadyExtends(trace, e);
        if Steady(trace + [e]) {
          CommitKeeps(sent, seen.values, trace, code, now);
        }
        admitted := Admits(sent, code, now);
        seen := Put(seen, code, Row(sent, code, now));
        sent := Updated(sent, code, now);
        trace := trace + [e];
        return;
      }
      admitted := Bypass(code, now, use);
      if Steady(trace) {
        RecordsSteady(before, trace, Asked(code, now, use, admitted));
      }
    }

    /** What is left when the table cannot be used: the copy, after a failed commit with the row that was read. */
    method Bypass(code: Code, now: real, use: StoreUse) returns (admitted: bool)
      requires Valid() && !use.Committed?
      modifies this`seen, this`trace
      ensures Valid()
      ensures admitted <==>
                if use.CommitFailed? then !(0.0 <= now - Row(sent, code, now) < REMINDER)
                else !(code in old(seen).values && 0.0 <= now - old(seen).values[code] < REMINDER)
      ensures Records(old(trace), trace, Asked(code, now, use, admitted))
      ensures use.Unreachable? && admitted ==>
                seen.values == (if |old(seen).order| < 256 then old(seen).values
                                else old(seen).values - {old(seen).order[0]})[code := now]
      ensures admitted ==> code in seen.values && seen.values[code] == now
      ensures !admitted ==> trace == old(trace) + [Asked(code, now, use, admitted)]
      ensures !admitted ==>
                seen.values == Noted(sent, old(seen).values, Asked(code, now, use, admitted))
      ensures |old(seen).order| + 1 < CAPACITY ==> trace == old(trace) + [Asked(code, now, use, admitted)]
    {
      ghost var before := seen.values;
      if Steady(trace) && Until(trace, now) {
        SteadyBypass(sent, before, trace, code, now);
      }
      if use.CommitFailed? {
        seen := Put(seen, code, Row(sent, code, now));
      }
      admitted := !(code in seen.values && 0.0 <= now - seen.values[code] < REMINDER);
      if admitted {
        Remember(code, now, use, before);
      } else {
        ghost var e := Asked(code, now, use, false);
        SteadyExtends(trace, e);
        if Steady(trace + [e]) {
          BypassKeeps(sent, before, trace, e);
        }
        trace := trace + [e];
      }
    }

    /** Enters the admission; a full copy first loses its oldest entry. */
    method Remember(code: Code, now: real, use: StoreUse, ghost before: map<Code, real>)
      requires seen.Valid() && !use.Committed?
      requires Steady(trace) && Until(trace, now) ==>
                 use.Unreachable? && seen.values == before && !Recent(Lookup(before, code), now) &&
                 Mirrors(sent, before, trace)
      modifies this`seen, this`trace
      ensures Valid()
      ensures Records(old(trace), trace, Asked(code, now, use, true))
      ensures code in seen.values && seen.values[code] == now
      ensures trace == old(trace) + if |old(seen).order| < 256 then [Asked(code, now, use, true)]
                                    else [Evicted(old(seen).order[0]), Asked(code, now, use, true)]
      ensures seen.values ==
              (if |old(seen).order| < 256 then old(seen).values
               else old(seen).values - {old(seen).order[0]})[code := now]
    {
      ghost var e := Asked(code, now, use, true);
      if |seen.order| >= CAPACITY {
        var oldest := seen.order[0];
        SteadyPair(trace, oldest, e);
        if Steady(trace) && Until(trace, now) {
          EvictionKeeps(sent, before, trace, oldest, e);
        }
        trace := trace + [Evicted(oldest), e];
        seen := Removed(seen, 0);
      } else {
        SteadyExtends(trace, e);
        if Steady(trace) && Until(trace, now) {
          BypassKeeps(sent, before, trace, e);
        }
        trace := trace + [e];
      }
      seen := Put(seen, code, now);
    }
  }

  lemma SteadyPair(trace: seq<Event>, oldest: Code, e: Event)
    requires e.Asked?
    ensures Steady(trace + [Evicted(oldest), e]) ==> Steady(trace) && Until(trace, e.at)
  {
    SteadyExtends(trace, Evicted(oldest));
    SteadyExtends(trace + [Evicted(oldest)], e);
    assert trace + [Evicted(oldest)] + [e] == trace + [Evicted(oldest), e];
    if Until(trace + [Evicted(oldest)], e.at) {
      forall i | 0 <= i < |trace| && trace[i].Asked? ensures trace[i].at <= e.at {
        assert (trace + [Evicted(oldest)])[i] == trace[i];
      }
    }
  }

  /** Under a steady clock the row that a failed commit leaves is recent, and the copy has nothing ahead. */
  lemma SteadyBypass(sent: map<Code, real>, seen: map<Code, real>, trace: seq<Event>, code: Code, now: real)
    requires Mirrors(sent, seen, trace) && Until(trace, now)
    ensures 0.0 <= now - Row(sent, code, now) < REMINDER
    ensures code in seen ==> (0.0 <= now - seen[code] < REMINDER <==> Recent(Lookup(seen, code), now))
  {
    RowIsRecentAdmission(sent, trace, code, now);
    NothingAhead(trace, code, now);
    assert Lookup(seen, code) == Time(Known(trace, code));
  }

  /** It happens: an event that bypassed an unreachable table is repeated once the table is back. */
  method TwiceInASecond() returns (q: Quota)
    ensures q.Valid() && Steady(q.trace)
    ensures q.trace == [Asked("X", 100.0, Unreachable, true), Asked("X", 101.0, Committed, true)]
  {
    q := new Quota();
    var first := q.Reserve("X", 100.0, Unreachable);
    var second := q.Reserve("X", 101.0, Committed);
  }

  /** A failed commit refuses a code that was never sent, and leaves its mark. */
  method MarkedUnsent() returns (q: Quota)
    ensures q.Valid() && fresh(q) && q.sent == map[] && q.trace == [Asked("X", 100.0, CommitFailed, false)]
    ensures q.seen.values == map["X" := 100.0]
  {
    q := new Quota();
    var first := q.Reserve("X", 100.0, CommitFailed);
  }

  /** It happens: a code that was never sent is refused, by a failed commit and for its mark afterwards. */
  method NeverSent() returns (q: Quota)
    ensures q.Valid() && Steady(q.trace)
    ensures q.trace == [Asked("X", 100.0, CommitFailed, false), Asked("X", 101.0, Unreachable, false)]
  {
    q := MarkedUnsent();
    var second := q.Reserve("X", 101.0, Unreachable);
  }

  // ------------------------------------------------------------------ transient errors

  datatype Key = Key(code: Code, slot: SlotId)

  type Signs = Evidence<()>

  lemma FollowsEvidence(e: Option<Signs>, now: real, first: real, count: nat)
    requires if e.Some? && now - e.value.last <= PAUSE
             then first == e.value.first && count == e.value.count
             else first == now && count == 0
    ensures Extend(e, Fit((), now), PAUSE) == Some(Evidence((), first, now, count + 1))
  {
    assert e.Some? ==> e.value.signature == ();
  }

  /** A new key displaces the oldest one when there is no room. */
  ghost predicate Displaced(pending: Dict<Key, Signs>, key: Key, other: Key) {
    key !in pending.values && |pending.order| == CAPACITY && other == pending.order[0]
  }

  /** The errors of a code and slot that have not yet persisted, forgotten by a recovery or for want of room. */
  class Transients {
    var pending: Dict<Key, Signs>
    ghost var samples: map<Key, seq<Sample<()>>>

    constructor ()
      ensures Valid() && pending == Dict([], map[]) && samples == map[]
    {
      pending, samples := Dict([], map[]), map[];
    }

    function Kept(key: Key): Option<Signs>
      reads this`pending
    {
      if key in pending.values then Some(pending.values[key]) else None
    }

    ghost function Samples(key: Key): seq<Sample<()>>
      reads this`samples
    {
      if key in samples then samples[key] else []
    }

    ghost predicate Valid()
      reads this
    {
      && pending.Valid() && |pending.order| <= CAPACITY
      && forall key :: Keeps(Kept(key), Samples(key), PAUSE)
    }

    /** A full store forgets the entry that is there longest. */
    method MakeRoom()
      requires Valid()
      modifies this
      ensures Valid() && |pending.order| < CAPACITY
      ensures forall key :: Samples(key) ==
                if |old(pending).order| == CAPACITY && key == old(pending).order[0]
                then old(Samples(key)) + [Unfit] else old(Samples(key))
      ensures forall key :: old(Kept(key)).None? ==> Kept(key).None?
    {
      if |pending.order| >= CAPACITY {
        Forget(0);
      }
    }

    method Forget(n: nat)
      requires Valid() && n < |pending.order|
      modifies this
      ensures Valid()
      ensures |pending.order| == |old(pending).order| - 1
      ensures forall m :: n <= m < |pending.order| ==> pending.order[m] == old(pending).order[m + 1]
      ensures old(Kept(pending.order[n])).Some?
      ensures forall key :: Kept(key) == if key == old(pending).order[n] then None else old(Kept(key))
      ensures forall key :: Samples(key) ==
                if key == old(pending).order[n] then old(Samples(key)) + [Unfit] else old(Samples(key))
    {
      var key := pending.order[n];
      ExtendKeeps(Kept(key), Samples(key), Unfit, PAUSE);
      samples := samples[key := Samples(key) + [Unfit]];
      pending := Removed(pending, n);
      assert Kept(key) == None;
      assert forall other :: other != key ==> Kept(other) == old(Kept(other)) && Samples(other) == old(Samples(other));
    }

    /**
     * One more transient error.  It passes exactly when the errors of this code and slot
     * since the last recovery, eviction or pause over 300 s are at least three and span
     * at least 180 s.
     */
    method Accumulate(key: Key, now: real) returns (passes: bool)
      requires Valid()
      modifies this
      ensures Valid()
      ensures Samples(key) == old(Samples(key)) + [Fit((), now)]
      ensures passes <==> Persists(Samples(key), PAUSE, LEAST, SPAN)
      ensures forall other :: other != key ==>
                Samples(other) == old(Samples(other)) + if Displaced(old(pending), key, other) then [Unfit] else []
    {
      if key !in pending.values {
        MakeRoom();
      }
      passes := Enter(key, now);
    }

    method Enter(key: Key, now: real) returns (passes: bool)
      requires Valid() && (key !in pending.values ==> |pending.order| < CAPACITY)
      modifies this
      ensures Valid()
      ensures Samples(key) == old(Samples(key)) + [Fit((), now)]
      ensures passes <==> Persists(Samples(key), PAUSE, LEAST, SPAN)
      ensures forall other :: other != key ==> Samples(other) == old(Samples(other))
    {
      ghost var before, evidence := Samples(key), Kept(key);
      ghost var sample: Sample<()> := Fit((), now);
      ExtendKeeps(evidence, before, sample, PAUSE);
      PersistenceIsExact(Extend(evidence, sample, PAUSE), before + [sample], PAUSE, LEAST, SPAN);
      var first, count := now, 0;
      if key in pending.values && now - pending.values[key].last <= PAUSE {
        first, count := pending.values[key].first, pending.values[key].count;
      }
      FollowsEvidence(evidence, now, first, count);
      pending := Put(pending, key, Evidence((), first, now, count + 1));
      samples := samples[key := before + [sample]];
      assert forall other :: other != key ==> Kept(other) == old(Kept(other)) && Samples(other) == old(Samples(other));
      return count + 1 >= LEAST && now - first >= SPAN;
    }

    /** A recovered slot starts afresh; other slots keep what they have. */
    method Recover(slot: SlotId)
      requires Valid()
      modifies this
      ensures Valid()
      ensures forall key: Key :: Kept(key) == if key.slot == slot then None else old(Kept(key))
      ensures forall key: Key :: Samples(key) ==
                if key.slot == slot && old(Kept(key)).Some? then old(Samples(key)) + [Unfit] else old(Samples(key))
    {
      var n: nat := |pending.order|;
      while n > 0
        invariant Valid() && n <= |pending.order|
        invariant forall m :: n <= m < |pending.order| ==> pending.order[m].slot != slot
        invariant forall key: Key :: Kept(key) == old(Kept(key)) || (key.slot == slot && Kept(key).None?)
        invariant forall key: Key :: Samples(key) ==
                    if old(Kept(key)).Some? && Kept(key).None? then old(Samples(key)) + [Unfit] else old(Samples(key))
      {
        n := n - 1;
        Visit(slot, n);
      }
    }

    /** Drops the entry at `n` if it is the slot's; nothing of the slot comes after it. */
    method Visit(slot: SlotId, n: nat)
      requires Valid() && n < |pending.order|
      requires forall m :: n < m < |pending.order| ==> pending.order[m].slot != slot
      modifies this
      ensures Valid() && n <= |pending.order|
      ensures forall m :: n <= m < |pending.order| ==> pending.order[m].slot != slot
      ensures forall key: Key :: Kept(key) == old(Kept(key)) || (key.slot == slot && Kept(key).None?)
      ensures forall key: Key :: Samples(key) ==
                if old(Kept(key)).Some? && Kept(key).None? then old(Samples(key)) + [Unfit] else old(Samples(key))
    {
      if pending.order[n].slot == slot {
        Forget(n);
      }
    }
  }

  // ------------------------------------------------------------------ one report

  /** What a worker or the watchdog hands over; `reason` is set when the API's reason is critical. */
  datatype Outcome =
    | Quiet
    | Recovered(slot: SlotId)
    | Failed(code: Code, slot: SlotId, localOnly: bool, transient: bool, reason: Option<string>)

  /** Only transient errors wait; a critical reason never does. */
  predicate Waits(o: Outcome) {
    o.Failed? && o.transient && o.reason.None?
  }

  function QuotaCode(o: Outcome): Code
    requires o.Failed?
  {
    if o.reason.Some? then o.code + ":" + o.reason.value else o.code
  }

  /** Every code, and every critical reason of a code, has a quota of its own. */
  lemma QuotasDiffer(a: Outcome, b: Outcome)
    requires a.Failed? && b.Failed? && ':' !in a.code && ':' !in b.code
    ensures QuotaCode(a) == QuotaCode(b) <==> a.code == b.code && a.reason == b.reason
  {
    if QuotaCode(a) == QuotaCode(b) {
      var x, y := QuotaCode(a), QuotaCode(b);
      if a.reason.Some? {
        assert x[|a.code|] == ':' && x[..|a.code|] == a.code && x[|a.code| + 1..] == a.reason.value;
      }
      if b.reason.Some? {
        assert y[|b.code|] == ':' && y[..|b.code|] == b.code && y[|b.code| + 1..] == b.reason.value;
      }
    }
  }

  /** The error gets as far as the quota. */
  ghost predicate Surfaces(o: Outcome, enabled: bool, t: Transients)
    reads t
  {
    && o.Failed? && enabled && !o.localOnly
    && (Waits(o) ==> Persists(t.Samples(Key(o.code, o.slot)), PAUSE, LEAST, SPAN))
  }

  /**
   * `report`: an event leaves exactly when the error persists, or need not, and its quota
   * admits it.  Whatever does not get that far leaves the quota alone.
   */
  method Report(
      q: Quota, t: Transients, o: Outcome, enabled: bool, monotonic: real, wall: real, use: StoreUse)
    returns (sent: bool)
    requires q.Valid() && t.Valid()
    modifies q, t
    ensures q.Valid() && t.Valid()
    ensures Surfaces(o, enabled, t) ==> Records(old(q.trace), q.trace, Asked(QuotaCode(o), wall, use, sent))
    ensures !Surfaces(o, enabled, t) ==>
              !sent && q.trace == old(q.trace) && q.sent == old(q.sent) && q.seen == old(q.seen)
    ensures sent ==> o.Failed? && enabled && !o.localOnly
    ensures sent && o.transient && o.reason == None ==>
              Persists(t.Samples(Key(o.code, o.slot)), PAUSE, LEAST, SPAN)
    ensures o.Failed? && enabled && !o.localOnly && (!o.transient || o.reason != None) ==>
              Records(old(q.trace), q.trace, Asked(QuotaCode(o), wall, use, sent))
    ensures Waits(o) && enabled && !o.localOnly ==>
              t.Samples(Key(o.code, o.slot)) == old(t.Samples(Key(o.code, o.slot))) + [Fit((), monotonic)]
    ensures o.Recovered? ==> forall key: Key :: t.Kept(key) == if key.slot == o.slot then None else old(t.Kept(key))
  {
    match o {
      case Quiet =>
        return false;
      case Recovered(slot) =>
        t.Recover(slot);
        return false;
      case Failed(code, slot, localOnly, _, _) =>
        if !enabled || localOnly {
          return false;
        }
        if Waits(o) {
          var passes := t.Accumulate(Key(code, slot), monotonic);
          if !passes {
            return false;
          }
        }
        sent := q.Reserve(QuotaCode(o), wall, use);
    }
  }
}
