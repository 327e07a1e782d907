/**
 * Sessions and report sequences of the inventory agent, over any run of reports whose
 * API calls may fail at any point.
 */
module Sessions {
  import opened Outcomes

  type SlotId = string
  type Generation = nat

  /** What the agent sent, and whether the call returned; or that it started anew, with no session in memory. */
  datatype Call =
    | Open(slot: SlotId, issued: Generation, expected: Option<Generation>, identity: Option<nat>, ok: bool)
    | Report(slot: SlotId, generation: Generation, sequence: nat, ok: bool)
    | Restarted
    // the agent read /config, with these generations
    | Configured(generations: map<SlotId, Option<Generation>>)

  datatype Session = Session(generation: Generation, sequence: nat, identity: Option<nat>)

  datatype Adoption = Adoption(issued: Generation, identity: Option<nat>)

  // ------------------------------------------------------------------ the trace

  ghost function Issued(trace: seq<Call>): set<Generation> {
    set c | c in trace && c.Open? :: c.issued
  }

  /** The slot's last session that the API acknowledged since the agent started, with no report counted. */
  ghost function Adopted(trace: seq<Call>, slot: SlotId): Option<Adoption> {
    if trace == [] then None
    else
      var last := trace[|trace| - 1];
      if last.Restarted? then None
      else if last.Open? && last.slot == slot && last.ok then Some(Adoption(last.issued, last.identity))
      else Adopted(trace[..|trace| - 1], slot)
  }

  /** The generations of the last /config since the agent started. */
  ghost function LastConfig(trace: seq<Call>): map<SlotId, Option<Generation>> {
    if trace == [] then map[]
    else
      var last := trace[|trace| - 1];
      if last.Restarted? then map[]
      else if last.Configured? then last.generations
      else LastConfig(trace[..|trace| - 1])
  }

  /** Reports sent under a generation, answered or not. */
  ghost function Reports(trace: seq<Call>, g: Generation): nat {
    if trace == [] then 0
    else
      var last := trace[|trace| - 1];
      Reports(trace[..|trace| - 1], g) + if last.Report? && last.generation == g then 1 else 0
  }

  /** A session is opened only for another process, and names its predecessor; reports count up. */
  ghost predicate Follows(before: seq<Call>, c: Call) {
    match c
    case Open(slot, issued, expected, identity, _) =>
      && issued !in Issued(before)
      && (Adopted(before, slot).Some? ==>
            Adopted(before, slot).value.identity != identity &&
            expected == Some(Adopted(before, slot).value.issued))
      && (Adopted(before, slot).None? ==>
            slot in LastConfig(before) && expected == LastConfig(before)[slot])
    case Report(slot, g, sequence, _) =>
      && Adopted(before, slot).Some? && Adopted(before, slot).value.issued == g
      && sequence == Reports(before, g) + 1
    case Restarted => true
    case Configured(_) => true
  }

  ghost predicate WellFormed(trace: seq<Call>) {
    forall k :: 0 <= k < |trace| ==> Follows(trace[..k], trace[k])
  }

  lemma Extended(trace: seq<Call>, c: Call)
    requires WellFormed(trace) && Follows(trace, c)
    ensures WellFormed(trace + [c])
    ensures Issued(trace + [c]) == Issued(trace) + if c.Open? then {c.issued} else {}
    ensures forall slot :: Adopted(trace + [c], slot) ==
              if c.Restarted? then None
              else if c.Open? && c.slot == slot && c.ok then Some(Adoption(c.issued, c.identity))
              else Adopted(trace, slot)
    ensures LastConfig(trace + [c]) ==
              if c.Restarted? then map[] else if c.Configured? then c.generations else LastConfig(trace)
    ensures forall g :: Reports(trace + [c], g) ==
              Reports(trace, g) + if c.Report? && c.generation == g then 1 else 0
  {
    var more := trace + [c];
    assert more[..|trace|] == trace && more[|more| - 1] == c;
    forall k | 0 <= k < |more| ensures Follows(more[..k], more[k]) {
      assert more[..k] == trace[..k];
    }
  }

  lemma {:induction false} ReportsGrow(trace: seq<Call>, g: Generation, j: nat, k: nat)
    requires j <= k <= |trace|
    ensures Reports(trace[..j], g) <= Reports(trace[..k], g)
    ensures j < k && trace[j].Report? && trace[j].generation == g ==> Reports(trace[..j], g) < Reports(trace[..k], g)
  {
    if j < k {
      ReportsGrow(trace, g, j, k - 1);
      assert trace[..k][..k - 1] == trace[..k - 1];
    }
  }

  /**
   * No (generation, sequence) pair is ever used for two calls, across restarts of the agent
   * too: within a generation sequences only rise, from one.  One call may put the same
   * payload on the wire up to three times; the transport repeats it, so a repeated pair
   * always means a repeated report.
   */
  lemma NoPairTwice(trace: seq<Call>, j: nat, k: nat)
    requires WellFormed(trace) && j < k < |trace|
    requires trace[j].Report? && trace[k].Report? && trace[j].generation == trace[k].generation
    ensures 1 <= trace[j].sequence < trace[k].sequence
  {
    ReportsGrow(trace, trace[j].generation, j, k);
  }

  /** The opening call of an adopted session. */
  lemma {:induction false} AdoptedWasSent(trace: seq<Call>, slot: SlotId) returns (k: nat)
    requires Adopted(trace, slot).Some?
    ensures k < |trace| && trace[k].Open? && trace[k].slot == slot && trace[k].ok
    ensures trace[k].issued == Adopted(trace, slot).value.issued && trace[k].issued in Issued(trace)
  {
    var last := trace[|trace| - 1];
    if last.Open? && last.slot == slot && last.ok {
      k := |trace| - 1;
    } else {
      k := AdoptedWasSent(trace[..|trace| - 1], slot);
    }
    assert trace[k] in trace;
  }

  /** No two opening calls carry the same generation. */
  lemma IssuedOnce(trace: seq<Call>, m: nat, n: nat)
    requires WellFormed(trace) && m < n < |trace| && trace[m].Open? && trace[n].Open?
    ensures trace[m].issued != trace[n].issued
  {
    assert Follows(trace[..n], trace[n]);
    assert trace[..n][m] == trace[m] && trace[m] in trace[..n];
    assert trace[m].issued in Issued(trace[..n]);
  }

  /** A generation is opened once, so its reports all belong to one slot. */
  lemma GenerationHasOneOwner(trace: seq<Call>, j: nat, k: nat)
    requires WellFormed(trace) && j < |trace| && k < |trace|
    requires trace[j].Report? && trace[k].Report? && trace[j].generation == trace[k].generation
    ensures trace[j].slot == trace[k].slot
  {
    var m := AdoptedWasSent(trace[..j], trace[j].slot);
    var n := AdoptedWasSent(trace[..k], trace[k].slot);
    if m < n {
      IssuedOnce(trace, m, n);
    } else if n < m {
      IssuedOnce(trace, n, m);
    }
  }

  /** The first session since the agent started names the generation that the API gave in the last /config. */
  lemma FirstNamesTheApis(trace: seq<Call>, k: nat)
    requires WellFormed(trace) && k < |trace| && trace[k].Open? && Adopted(trace[..k], trace[k].slot).None?
    ensures exists j :: 0 <= j < k && trace[j].Configured? && trace[k].slot in trace[j].generations &&
              trace[k].expected == trace[j].generations[trace[k].slot] &&
              forall m :: j < m < k ==> !trace[m].Configured? && !trace[m].Restarted?
  {
    assert Follows(trace[..k], trace[k]);
    var j := ConfigWasRead(trace[..k]);
    assert trace[j] == trace[..k][j];
    forall m | j < m < k ensures !trace[m].Configured? && !trace[m].Restarted? {
      assert trace[m] == trace[..k][m];
    }
  }

  lemma {:induction false} ConfigWasRead(trace: seq<Call>) returns (j: nat)
    requires LastConfig(trace) != map[]
    ensures j < |trace| && trace[j].Configured? && trace[j].generations == LastConfig(trace)
    ensures forall m :: j < m < |trace| ==> !trace[m].Configured? && !trace[m].Restarted?
  {
    var last := |trace| - 1;
    if trace[last].Configured? {
      j := last;
    } else {
      j := ConfigWasRead(trace[..last]);
    }
  }

  /** Between two adopted sessions of a slot, the later one names the earlier as its predecessor. */
  lemma SuccessorNamesPredecessor(trace: seq<Call>, k: nat)
    requires WellFormed(trace) && k < |trace| && trace[k].Open?
    requires Adopted(trace[..k], trace[k].slot).Some?
    ensures trace[k].expected == Some(Adopted(trace[..k], trace[k].slot).value.issued)
    ensures trace[k].identity != Adopted(trace[..k], trace[k].slot).value.identity
    ensures forall j :: 0 <= j < k && trace[j].Open? ==> trace[j].issued != trace[k].issued
  {
    forall j | 0 <= j < k && trace[j].Open? ensures trace[j].issued != trace[k].issued {
      assert trace[j] in trace[..k];
    }
  }

  // ------------------------------------------------------------------ the agent

  /** Every session in memory is the slot's adopted one, with every report of it counted. */
  ghost predicate Remembers(sessions: map<SlotId, Session>, trace: seq<Call>) {
    && (forall slot :: slot in sessions <==> Adopted(trace, slot).Some?)
    && (forall slot :: slot in sessions ==>
          sessions[slot] == var a := Adopted(trace, slot).value;
                            Session(a.issued, Reports(trace, a.issued), a.identity))
  }

  lemma {:induction false} FreshHasNoReports(trace: seq<Call>, g: Generation)
    requires WellFormed(trace) && g !in Issued(trace)
    ensures Reports(trace, g) == 0
  {
    if trace != [] {
      var before, last := trace[..|trace| - 1], trace[|trace| - 1];
      assert Follows(before, last);
      forall k | 0 <= k < |before| ensures Follows(before[..k], before[k]) {
        assert before[..k] == trace[..k] && before[k] == trace[k];
      }
      assert Issued(before) <= Issued(trace);
      FreshHasNoReports(before, g);
      if last.Report? {
        var k := AdoptedWasSent(before, last.slot);
      }
    }
  }

  /** Sessions of different slots have different generations. */
  lemma DistinctGenerations(trace: seq<Call>, a: SlotId, b: SlotId)
    requires WellFormed(trace) && a != b && Adopted(trace, a).Some? && Adopted(trace, b).Some?
    ensures Adopted(trace, a).value.issued != Adopted(trace, b).value.issued
  {
    var m := AdoptedWasSent(trace, a);
    var n := AdoptedWasSent(trace, b);
    IssuedOnce(trace, if m < n then m else n, if m < n then n else m);
  }

  lemma OpenKept(sessions: map<SlotId, Session>, trace: seq<Call>, c: Call)
    requires WellFormed(trace) && Remembers(sessions, trace) && c.Open? && Follows(trace, c)
    ensures Remembers(if c.ok then sessions[c.slot := Session(c.issued, 0, c.identity)] else sessions, trace + [c])
  {
    Extended(trace, c);
    FreshHasNoReports(trace, c.issued);
  }

  lemma ReportKept(sessions: map<SlotId, Session>, trace: seq<Call>, c: Call)
    requires WellFormed(trace) && Remembers(sessions, trace) && c.Report? && Follows(trace, c) && c.slot in sessions
    ensures Remembers(sessions[c.slot := sessions[c.slot].(sequence := c.sequence)], trace + [c])
  {
    Extended(trace, c);
    forall other | other in sessions && other != c.slot
      ensures sessions[other].generation != c.generation
    {
      DistinctGenerations(trace, other, c.slot);
    }
  }

  class InventoryAgent {
    var sessions: map<SlotId, Session>
    var remote: map<SlotId, Option<Generation>>
    ghost var trace: seq<Call>

    constructor ()
      ensures Valid() && trace == [] && remote == map[]
    {
      sessions, remote := map[], map[];
      trace := [];
    }

    ghost predicate Valid()
      reads this
    {
      WellFormed(trace) && Remembers(sessions, trace) && remote == LastConfig(trace)
    }

    /** A new agent knows no session; generations stay fresh across restarts. */
    method Restart()
      requires Valid()
      modifies this
      ensures Valid() && sessions == map[] && remote == map[] && trace == old(trace) + [Restarted]
    {
      Extended(trace, Restarted);
      trace := trace + [Restarted];
      sessions, remote := map[], map[];
    }

    /** /config: the generations the API knows. */
    method Connect(generations: map<SlotId, Option<Generation>>)
      requires Valid()
      modifies this`remote, this`trace
      ensures Valid() && remote == generations && trace == old(trace) + [Configured(generations)]
    {
      Extended(trace, Configured(generations));
      trace := trace + [Configured(generations)];
      remote := generations;
    }

    /** A new session is due when the slot has none or its process differs. */
    predicate SessionDue(slot: SlotId, identity: Option<nat>)
      reads this`sessions
    {
      slot !in sessions || sessions[slot].identity != identity
    }

    /** POST /session.  `uuid` is fresh; without an answer nothing is adopted. */
    method OpenSession(slot: SlotId, identity: Option<nat>, uuid: Generation, answered: bool) returns (ok: bool)
      requires Valid() && SessionDue(slot, identity) && uuid !in Issued(trace)
      requires slot in sessions || slot in remote
      modifies this`sessions, this`trace
      ensures Valid() && ok == answered
      ensures trace == old(trace) + [Open(slot, uuid, old(ExpectedOf(slot)), identity, ok)]
      ensures sessions == if ok then old(sessions)[slot := Session(uuid, 0, identity)] else old(sessions)
    {
      var call := Open(slot, uuid, ExpectedOf(slot), identity, answered);
      OpenKept(sessions, trace, call);
      Extended(trace, call);
      trace := trace + [call];
      if answered {
        sessions := sessions[slot := Session(uuid, 0, identity)];
      }
      ok := answered;
    }

    function ExpectedOf(slot: SlotId): Option<Generation>
      requires slot in sessions || slot in remote
      reads this`sessions, this`remote
    {
      if slot in sessions then Some(sessions[slot].generation) else remote[slot]
    }

    /** POST /report.  The sequence is used up whether or not the call is answered. */
    method SendReport(slot: SlotId, answered: bool) returns (ok: bool)
      requires Valid() && slot in sessions
      modifies this`sessions, this`trace
      ensures Valid() && ok == answered
      ensures var s := old(sessions[slot]);
              && sessions == old(sessions)[slot := s.(sequence := s.sequence + 1)]
              && trace == old(trace) + [Report(slot, s.generation, s.sequence + 1, ok)]
    {
      var session := sessions[slot];
      var call := Report(slot, session.generation, session.sequence + 1, answered);
      ReportKept(sessions, trace, call);
      Extended(trace, call);
      trace := trace + [call];
      sessions := sessions[slot := session.(sequence := session.sequence + 1)];
      ok := answered;
    }

    /** The opening call that is due, if any. */
    function Opening(slot: SlotId, identity: Option<nat>, uuid: Generation, answered: bool): seq<Call>
      requires slot in sessions || slot in remote
      reads this`sessions, this`remote
    {
      if SessionDue(slot, identity) then [Open(slot, uuid, ExpectedOf(slot), identity, answered)] else []
    }

    method OpenIfDue(slot: SlotId, identity: Option<nat>, uuid: Generation, answered: bool) returns (ok: bool)
      requires Valid() && uuid !in Issued(trace)
      requires slot in sessions || slot in remote
      modifies this`sessions, this`trace
      ensures Valid() && sessions - {slot} == old(sessions) - {slot}
      ensures trace == old(trace) + old(Opening(slot, identity, uuid, answered))
      ensures ok <==> !old(SessionDue(slot, identity)) || answered
      ensures if ok then slot in sessions && sessions[slot].identity == identity else sessions == old(sessions)
    {
      ok := true;
      if SessionDue(slot, identity) {
        ok := OpenSession(slot, identity, uuid, answered);
      }
    }

    /**
     * `report_slot`: a session is opened exactly when the process differs from the current
     * session's, and a report follows only under an adopted session of that process.
     */
    method ReportSlot(slot: SlotId, identity: Option<nat>, uuid: Generation, openAnswered: bool, reportAnswered: bool)
      returns (ok: bool)
      requires Valid() && uuid !in Issued(trace)
      modifies this`sessions, this`trace
      ensures Valid() && sessions - {slot} == old(sessions) - {slot}
      ensures slot !in old(sessions) && slot !in remote ==> !ok && trace == old(trace)
      ensures slot in old(sessions) || slot in remote ==>
                var opening := old(Opening(slot, identity, uuid, openAnswered));
                if old(SessionDue(slot, identity)) && !openAnswered
                then !ok && trace == old(trace) + opening && sessions == old(sessions)
                else && ok == reportAnswered && slot in sessions && sessions[slot].identity == identity
                     && trace == old(trace) + opening +
                          [Report(slot, sessions[slot].generation, sessions[slot].sequence, ok)]
    {
      if slot !in sessions && slot !in remote {
        return false;
      }
      ok := OpenIfDue(slot, identity, uuid, openAnswered);
      if ok {
        ok := SendReport(slot, reportAnswered);
      }
    }
  }
}
