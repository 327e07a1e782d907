/**
 * The history part of `collect`: which window is read, how a dense window shrinks
 * towards its fixed upper cursor, and which counts must agree before a page counts.
 */
module Collection {
  import opened Outcomes
  import opened Contracts
  import opened History
  import opened Normalization
  import opened IdentityGuard

  const PAGE_LIMIT: nat := 5000
  const DENSE: nat := 4000
  const ROUNDS: nat := 32

  // ------------------------------------------------------------------ the native side

  /** A deal as the terminal files it: under the whole second of its time. */
  datatype NativeDeal = NativeDeal(second: int, record: Record)

  type NativeHistory = seq<NativeDeal>

  /**
   * What the terminal holds at each of its queries; `None` when that query fails.  The
   * script covers any first stretch of queries, `later` every one after it.
   */
  datatype Answers = Answers(script: seq<Option<NativeHistory>>, later: Option<NativeHistory>) {
    function At(n: nat): Option<NativeHistory> {
      if n < |script| then script[n] else later
    }
  }

  function Select(h: NativeHistory, b: Bounds): seq<NativeDeal> {
    if h == [] then []
    else (if b.Covers(h[0].second) then [h[0]] else []) + Select(h[1..], b)
  }

  function Records(h: NativeHistory): (r: seq<Record>)
    ensures |r| == |h|
  {
    if h == [] then [] else [h[0].record] + Records(h[1..])
  }

  function Counted(answer: Option<NativeHistory>, b: Bounds): Result<nat, Code> {
    if answer.None? then Err(HISTORY_UNAVAILABLE) else Ok(|Select(answer.value, b)|)
  }

  function Fetched(answer: Option<NativeHistory>, b: Bounds): Batch {
    if answer.None? then Unavailable else Rows(Records(Select(answer.value, b)))
  }

  /** The terminal connection: each query uses up one answer. */
  class Native {
    const answers: Answers
    var calls: nat

    constructor (answers: Answers)
      ensures this.answers == answers && calls == 0
    {
      this.answers := answers;
      calls := 0;
    }

    method Count(b: Bounds) returns (r: Result<nat, Code>)
      modifies this
      ensures calls == old(calls) + 1
      ensures r == Counted(answers.At(old(calls)), b)
    {
      r := Counted(answers.At(calls), b);
      calls := calls + 1;
    }

    method Get(b: Bounds) returns (r: Batch)
      modifies this
      ensures calls == old(calls) + 1
      ensures r == Fetched(answers.At(old(calls)), b)
    {
      r := Fetched(answers.At(calls), b);
      calls := calls + 1;
    }
  }

  // ------------------------------------------------------------------ window choice

  /** The cursors that travel with the credentials. */
  datatype Request = Request(
    historyBeforeMs: Option<int>, adaptiveRecent: bool, recentBeforeMs: Option<int>, recentFloorMs: Option<int>)

  /** Only three data codes leave the boundary by name. */
  function Surface(e: DataError): (code: Code)
    ensures code == HISTORY_UNAVAILABLE <==> e.code == HISTORY_UNAVAILABLE
    ensures code == POSITIONS_UNAVAILABLE <==> e.code == POSITIONS_UNAVAILABLE
    ensures code == BATCH_TOO_LARGE <==> e.code == BATCH_TOO_LARGE
    ensures code in {HISTORY_UNAVAILABLE, POSITIONS_UNAVAILABLE, BATCH_TOO_LARGE, INVALID_NATIVE_DATA}
  {
    if e.code == HISTORY_UNAVAILABLE || e.code == POSITIONS_UNAVAILABLE || e.code == BATCH_TOO_LARGE then e.code
    else INVALID_NATIVE_DATA
  }

  function Surfaced<T>(r: Result<T, DataError>): Result<T, Code> {
    match r
    case Ok(v) => Ok(v)
    case Err(e) => Err(Surface(e))
  }

  predicate Adaptive(req: Request, counted: bool) {
    req.adaptiveRecent && counted && req.historyBeforeMs.None?
  }

  /**
   * A cursor as an instant, in microseconds.  Between the epoch and the end of the calendar
   * it always converts; before the epoch the platform may raise, outside the calendar it
   * does.  What it raises is no data error and leaves by its own code.
   */
  function Converted(ms: int, outside: Option<Code>): (r: Result<int, Code>)
    ensures r.Ok? ==> r.value == ms * 1000
    ensures 0 <= ms * 1000 <= LAST_US ==> r.Ok?
    ensures !(FIRST_US <= ms * 1000 <= LAST_US) ==> r.Err?
  {
    if 0 <= ms * 1000 <= LAST_US then Ok(ms * 1000)
    else if outside.Some? then Err(outside.value)
    else if FIRST_US <= ms * 1000 < 0 then Ok(ms * 1000)
    else Err(CHILD_FAILED)
  }

  /** Where the window of a request ends: at its cursor, or a day after the second of the clock. */
  function PlannedEnd(req: Request, nowUs: int): int {
    if req.recentBeforeMs.Some? then req.recentBeforeMs.value
    else if req.historyBeforeMs.Some? then req.historyBeforeMs.value
    else (nowUs / 1_000_000 + DAY_S) * 1000
  }

  /** Where it starts before it is shrunk: at the kept floor, 31 days earlier, or thirty days before that second. */
  function PlannedStart(req: Request, nowUs: int): int
    requires req.recentBeforeMs.Some? ==> req.recentFloorMs.Some?
  {
    if req.recentBeforeMs.Some? then req.recentFloorMs.value
    else if req.historyBeforeMs.Some? then
      if req.historyBeforeMs.value > MAX_WINDOW_MS then req.historyBeforeMs.value - MAX_WINDOW_MS else 0
    else (nowUs / 1_000_000 - 30 * DAY_S) * 1000
  }

  /** The requests that have a window. */
  predicate Plannable(req: Request, nowUs: int, counted: bool) {
    && 30 * DAY_US <= nowUs <= LAST_US - DAY_US
    && (req.historyBeforeMs.Some? ==> 0 < req.historyBeforeMs.value < CURSOR_LIMIT_MS)
    && (req.recentBeforeMs.Some? ==>
          && req.adaptiveRecent && counted && req.historyBeforeMs.None? && req.recentFloorMs.Some?
          && 0 <= req.recentFloorMs.value < req.recentBeforeMs.value <= req.recentFloorMs.value + MAX_WINDOW_MS
          && req.recentBeforeMs.value * 1000 <= LAST_US)
  }

  function ChosenWindow(req: Request, nowUs: int, counted: bool, outside: Option<Code>)
    : (r: Result<HistoryWindow, Code>)
    ensures r.Ok? <==> Plannable(req, nowUs, counted)
    ensures r.Ok? ==>
              && r.value.Valid()
              && r.value.endMs == PlannedEnd(req, nowUs) && r.value.startMs == PlannedStart(req, nowUs)
  {
    var plan :- Surfaced(PlanRecentHistory(nowUs));
    var window :-
      if req.historyBeforeMs.Some? then Surfaced(PlanHistoryBefore(req.historyBeforeMs.value)) else Ok(plan);
    if req.recentBeforeMs.None? then Ok(window)
    else if !Adaptive(req, counted) || req.recentFloorMs.None? then Err(INVALID_NATIVE_DATA)
    else
      var floor :- Converted(req.recentFloorMs.value, outside);
      var before :- Converted(req.recentBeforeMs.value, outside);
      Surfaced(MakeWindow(floor, before))
  }

  // ------------------------------------------------------------------ bisection

  /** The newer half of a window, cut at a whole second. */
  function Halved(w: HistoryWindow): (r: HistoryWindow)
    requires w.Valid() && w.Width() > 1000
    ensures r.Valid() && r.endMs == w.endMs && r.startMs % 1000 == 0
    ensures 2 * (r.Width() - 1999) <= w.Width() - 1999
    ensures 2 * r.startMs <= w.startMs + w.endMs < 2 * r.startMs + 2000
  {
    HistoryWindow((w.startMs + w.endMs) / 2000 * 1000, w.endMs)
  }

  /** The shrink loop from its `n`-th native query on, with `rounds` rounds left. */
  function Narrowed(answers: Answers, n: nat, w: HistoryWindow, rounds: nat): (r: Result<HistoryWindow, Code>)
    requires w.Valid()
    ensures r.Ok? ==> r.value.Valid() && r.value.endMs == w.endMs
    decreases rounds, n
  {
    if rounds == 0 then Err(BATCH_TOO_LARGE)
    else
      var bounds :- Surfaced(Mt5Bounds(w));
      var total :- Counted(answers.At(n), bounds);
      if total <= DENSE then Ok(w)
      else if w.Width() <= 1000 then Err(BATCH_TOO_LARGE)
      else Narrowed(answers, n + 1, Halved(w), rounds - 1)
  }

  /** How many queries that takes. */
  function Queries(answers: Answers, n: nat, w: HistoryWindow, rounds: nat): nat
    requires w.Valid()
    decreases rounds, n
  {
    if rounds == 0 || Mt5Bounds(w).Err? then 0
    else
      var total := Counted(answers.At(n), Mt5Bounds(w).value);
      if total.Err? || total.value <= DENSE || w.Width() <= 1000 then 1
      else 1 + Queries(answers, n + 1, Halved(w), rounds - 1)
  }

  /** One round: an outcome, or the same question about the newer half. */
  method Round(native: Native, window: HistoryWindow, rounds: nat)
    returns (outcome: Option<Result<HistoryWindow, Code>>)
    requires window.Valid() && rounds > 0
    modifies native
    ensures outcome.Some? ==>
              && outcome.value == Narrowed(native.answers, old(native.calls), window, rounds)
              && native.calls == old(native.calls) + Queries(native.answers, old(native.calls), window, rounds)
    ensures outcome.None? ==>
              && window.Width() > 1000
              && Narrowed(native.answers, old(native.calls), window, rounds)
                 == Narrowed(native.answers, native.calls, Halved(window), rounds - 1)
              && old(native.calls) + Queries(native.answers, old(native.calls), window, rounds)
                 == native.calls + Queries(native.answers, native.calls, Halved(window), rounds - 1)
  {
    var bounds := Mt5Bounds(window);
    if bounds.Err? {
      return Some(Err(Surface(bounds.error)));
    }
    var total := native.Count(bounds.value);
    if total.Err? {
      return Some(Err(total.error));
    }
    if total.value <= DENSE {
      return Some(Ok(window));
    }
    if window.Width() <= 1000 {
      return Some(Err(BATCH_TOO_LARGE));
    }
    return None;
  }

  method Narrow(native: Native, planned: HistoryWindow) returns (r: Result<HistoryWindow, Code>)
    requires planned.Valid()
    modifies native
    ensures r == Narrowed(native.answers, old(native.calls), planned, ROUNDS)
    ensures native.calls == old(native.calls) + Queries(native.answers, old(native.calls), planned, ROUNDS)
    ensures r == Err(BATCH_TOO_LARGE) ==>
              exists q: nat, v :: q >= old(native.calls) && DenseAtCursor(native.answers, q, v, planned)
  {
    r := NarrowLoop(native, planned);
    if r == Err(BATCH_TOO_LARGE) {
      var q, v := TooLargeMeansDense(native.answers, old(native.calls), planned);
    }
  }

  method NarrowLoop(native: Native, planned: HistoryWindow) returns (r: Result<HistoryWindow, Code>)
    requires planned.Valid()
    modifies native
    ensures r == Narrowed(native.answers, old(native.calls), planned, ROUNDS)
    ensures native.calls == old(native.calls) + Queries(native.answers, old(native.calls), planned, ROUNDS)
  {
    var window := planned;
    for round := 0 to ROUNDS
      invariant window.Valid()
      invariant Narrowed(native.answers, native.calls, window, ROUNDS - round)
             == Narrowed(native.answers, old(native.calls), planned, ROUNDS)
      invariant native.calls + Queries(native.answers, native.calls, window, ROUNDS - round)
             == old(native.calls) + Queries(native.answers, old(native.calls), planned, ROUNDS)
    {
      var outcome := Round(native, window, ROUNDS - round);
      if outcome.Some? {
        return outcome.value;
      }
      window := Halved(window);
    }
    return Err(BATCH_TOO_LARGE);
  }

  /** The window that survives keeps the upper bound and was counted as small enough. */
  lemma {:induction false} NarrowedFits(answers: Answers, n: nat, w: HistoryWindow, rounds: nat)
    requires w.Valid() && Narrowed(answers, n, w, rounds).Ok?
    ensures var v, q := Narrowed(answers, n, w, rounds).value, Queries(answers, n, w, rounds);
            && v.Valid() && v.endMs == w.endMs && Mt5Bounds(v).Ok? && q > 0
            && answers.At(n + q - 1).Some?
            && |Select(answers.At(n + q - 1).value, Mt5Bounds(v).value)| <= DENSE
    decreases rounds
  {
    if Counted(answers.At(n), Mt5Bounds(w).value).value > DENSE {
      NarrowedFits(answers, n + 1, Halved(w), rounds - 1);
    }
  }

  /**
   * BATCH_TOO_LARGE means density: starting with room for `rounds` halvings, some query
   * found over 4000 deals in a window of at most 2000 ms that ends at the fixed cursor.
   */
  lemma {:induction false} TooLargeIsDense(answers: Answers, n: nat, w: HistoryWindow, rounds: nat)
    returns (q: nat, v: HistoryWindow)
    requires w.Valid() && 0 < rounds && (w.Width() - 1999) < Pow2(rounds)
    requires Narrowed(answers, n, w, rounds) == Err(BATCH_TOO_LARGE)
    ensures n <= q < n + rounds && DenseAtCursor(answers, q, v, w)
    decreases rounds
  {
    if w.Width() <= 1000 || rounds == 1 {
      q, v := n, w;
    } else {
      q, v := TooLargeIsDense(answers, n + 1, Halved(w), rounds - 1);
    }
  }

  /** The loop's 32 rounds leave room for every window: 31 days are fewer than 2^32 ms. */
  lemma TooLargeMeansDense(answers: Answers, n: nat, w: HistoryWindow) returns (q: nat, v: HistoryWindow)
    requires w.Valid() && Narrowed(answers, n, w, ROUNDS) == Err(BATCH_TOO_LARGE)
    ensures n <= q < n + ROUNDS && DenseAtCursor(answers, q, v, w)
  {
    Pow2Of22();
    Pow2Grows(22, 32);
    assert Pow2(32) == 1024 * Pow2(22);
    q, v := TooLargeIsDense(answers, n, w, ROUNDS);
  }

  /** Query `q` found over 4000 deals in a window of at most 2000 ms that ends at the cursor of `w`. */
  ghost predicate DenseAtCursor(answers: Answers, q: nat, v: HistoryWindow, w: HistoryWindow) {
    && v.Valid() && v.endMs == w.endMs && v.Width() <= 2000 && Mt5Bounds(v).Ok?
    && answers.At(q).Some? && |Select(answers.At(q).value, Mt5Bounds(v).value)| > DENSE
  }

  function Pow2(n: nat): nat {
    if n == 0 then 1 else 2 * Pow2(n - 1)
  }

  // ------------------------------------------------------------------ bisection of a stable history

  /** A terminal whose history does not change while it is read. */
  function Steady(h: NativeHistory): Answers {
    Answers([], Some(h))
  }

  /** The seconds no halving can leave behind: the last one or two below the cursor, and its own. */
  function LastSeconds(endMs: nat): Bounds {
    var second := endMs / 1000;
    Bounds(if second == 0 then 0 else second - 1, if endMs % 1000 == 0 then second else second + 1)
  }

  lemma {:induction false} SelectIsMonotone(h: NativeHistory, inner: Bounds, outer: Bounds)
    requires outer.first <= inner.first && inner.last <= outer.last
    ensures |Select(h, inner)| <= |Select(h, outer)|
  {
    if h != [] {
      SelectIsMonotone(h[1..], inner, outer);
    }
  }

  /** At the last seconds the window stands still, and only density can fail it. */
  lemma {:induction false} StandsStill(h: NativeHistory, n: nat, w: HistoryWindow, rounds: nat)
    requires w.Valid() && Mt5Bounds(w).Ok? && w.startMs == LastSeconds(w.endMs).first * 1000
    requires 0 < rounds
    ensures Mt5Bounds(w).value == LastSeconds(w.endMs)
    ensures Narrowed(Steady(h), n, w, rounds) ==
            if |Select(h, LastSeconds(w.endMs))| <= DENSE then Ok(w) else Err(BATCH_TOO_LARGE)
    decreases rounds
  {
    if w.Width() > 1000 && |Select(h, LastSeconds(w.endMs))| > DENSE && rounds > 1 {
      assert Halved(w) == w;
      StandsStill(h, n + 1, w, rounds - 1);
    }
  }

  /** Halving a window that starts within `1000 * k` ms of the last seconds halves `k`. */
  lemma HalvingApproaches(w: HistoryWindow, k: nat)
    requires w.Valid() && w.Width() > 1000
    requires var floor := LastSeconds(w.endMs).first * 1000; w.startMs <= floor <= w.startMs + 1000 * k
    ensures var floor := LastSeconds(w.endMs).first * 1000;
            Halved(w).startMs <= floor <= Halved(w).startMs + 1000 * (k / 2)
  {
    var second, rest := w.endMs / 1000, w.endMs % 1000;
    assert w.endMs == 1000 * second + rest;
    assert second > 0;
    var cut := (w.startMs + w.endMs) / 2000;
    assert Halved(w).startMs == cut * 1000;
    assert w.startMs + w.endMs <= 1000 * (second - 1) + 1000 * second + rest < 2000 * second;
    assert cut <= second - 1;
    assert w.startMs + w.endMs >= 1000 * (2 * second - 1 - k) + rest;
    assert cut >= second - 1 - k / 2;
  }

  lemma {:induction false} NarrowsToDensity(h: NativeHistory, n: nat, w: HistoryWindow, rounds: nat, k: nat)
    requires w.Valid() && Mt5Bounds(w).Ok?
    requires var floor := LastSeconds(w.endMs).first * 1000; w.startMs <= floor <= w.startMs + 1000 * k
    requires 0 < rounds && k < Pow2(rounds - 1)
    ensures Narrowed(Steady(h), n, w, rounds).Ok? <==> |Select(h, LastSeconds(w.endMs))| <= DENSE
    ensures Narrowed(Steady(h), n, w, rounds).Err? ==> Narrowed(Steady(h), n, w, rounds).error == BATCH_TOO_LARGE
    decreases rounds
  {
    var last := LastSeconds(w.endMs);
    if w.startMs == last.first * 1000 {
      StandsStill(h, n, w, rounds);
    } else {
      SelectIsMonotone(h, last, Mt5Bounds(w).value);
      if |Select(h, Mt5Bounds(w).value)| > DENSE {
        assert w.Width() > 1000;
        HalvingApproaches(w, k);
        NarrowsToDensity(h, n + 1, Halved(w), rounds - 1, k / 2);
      }
    }
  }

  /**
   * 32 rounds are enough.  On a stable history a window that reaches back past the last
   * seconds below its cursor is too large if and only if those seconds alone are dense.
   */
  lemma TooLargeExactly(h: NativeHistory, n: nat, w: HistoryWindow)
    requires w.Valid() && Mt5Bounds(w).Ok? && w.startMs <= LastSeconds(w.endMs).first * 1000
    ensures Narrowed(Steady(h), n, w, ROUNDS).Ok? <==> |Select(h, LastSeconds(w.endMs))| <= DENSE
    ensures Narrowed(Steady(h), n, w, ROUNDS).Err? ==>
              Narrowed(Steady(h), n, w, ROUNDS).error == BATCH_TOO_LARGE
  {
    var k := LastSeconds(w.endMs).first - w.startMs / 1000;
    assert k <= 31 * 86_400;
    assert Pow2(22) == 4_194_304 by { Pow2Of22(); }
    Pow2Grows(22, 31);
    NarrowsToDensity(h, n, w, ROUNDS, k);
  }

  lemma Pow2Of22()
    ensures Pow2(22) == 4_194_304
  {
    assert Pow2(11) == 2048;
    assert Pow2(22) == 2048 * Pow2(11);
  }

  lemma {:induction false} Pow2Grows(a: nat, b: nat)
    requires a <= b
    ensures Pow2(a) <= Pow2(b)
  {
    if a < b {
      Pow2Grows(a, b - 1);
    }
  }

  /** A cut falls below the floor exactly when the floor's own second is not over by half the window. */
  lemma FloorKeptExactly(w: HistoryWindow)
    requires w.Valid() && w.Width() > 1000
    ensures w.startMs <= Halved(w).startMs <==>
            w.startMs % 1000 == 0 || 2 * (1000 - w.startMs % 1000) <= w.Width()
    ensures w.startMs % 1000 == 0 && w.Width() >= 2000 ==> w.startMs < Halved(w).startMs
  {
    var second, rest := w.startMs / 1000, w.startMs % 1000;
    assert w.startMs == 1000 * second + rest;
    assert w.startMs + w.endMs == 2000 * second + 2 * rest + w.Width();
    assert (w.startMs + w.endMs) / 2000 == second + (2 * rest + w.Width()) / 2000;
  }

  /** It happens: a one-second window just off the second is cut below its floor. */
  lemma FloorWitness()
    ensures HistoryWindow(1, 1002).Valid() && Halved(HistoryWindow(1, 1002)).startMs == 0
  {
  }

  // ------------------------------------------------------------------ one page

  datatype Page = Page(
    window: HistoryWindow, deals: seq<Deal>, positions: seq<Position>, counted: bool, olderEmpty: bool)

  predicate Shrinks(req: Request, counted: bool) {
    counted && (req.historyBeforeMs.Some? || Adaptive(req, counted))
  }

  /** Everything up to and including the second in which the window starts. */
  function OlderBounds(w: HistoryWindow): Bounds {
    Bounds(0, w.startMs / 1000)
  }

  /** The final read at query `q`, with the counts before and after it when the terminal can count. */
  ghost function FinalRead(answers: Answers, q: nat, w: HistoryWindow, bounds: Bounds, counted: bool)
    : Result<seq<Deal>, Code>
  {
    if !counted then Surfaced(NormalizedDeals(Fetched(answers.At(q), bounds), w, PAGE_LIMIT))
    else
      var expected :- Counted(answers.At(q), bounds);
      var deals :- Surfaced(NormalizedDeals(Fetched(answers.At(q + 1), bounds), w, PAGE_LIMIT));
      if |Fetched(answers.At(q + 1), bounds).rows| != expected then Err(HISTORY_UNAVAILABLE)
      else
        var again :- Counted(answers.At(q + 2), bounds);
        if again != expected then Err(HISTORY_UNAVAILABLE) else Ok(deals)
  }

  /** Two zero counts of everything older; the second is asked for only after a zero. */
  function OlderIsEmpty(answers: Answers, q: nat, w: HistoryWindow): Result<bool, Code> {
    var once :- Counted(answers.At(q), OlderBounds(w));
    if once != 0 then Ok(false)
    else var twice :- Counted(answers.At(q + 1), OlderBounds(w)); Ok(twice == 0)
  }

  /** The reads of one chosen window, from query `q` on: warm-up, counted final read, older deals. */
  ghost function ReadAt(answers: Answers, q: nat, window: HistoryWindow, counted: bool, side: Side)
    : Result<Page, Code>
    requires window.Valid()
  {
    var bounds :- Surfaced(Mt5Bounds(window));
    var warmUp :- Surfaced(NormalizedDeals(Fetched(answers.At(q), bounds), window, PAGE_LIMIT));
    var paused :- Watched(side, 2);
    var deals :- FinalRead(answers, q + 1, window, bounds, counted);
    var olderEmpty :- if counted then OlderIsEmpty(answers, q + 4, window) else Ok(false);
    Assembled(window, deals, counted, olderEmpty, side)
  }

  ghost function Assembled(
      window: HistoryWindow, deals: seq<Deal>, counted: bool, olderEmpty: bool, side: Side): Result<Page, Code>
  {
    var before :- Watched(side, 3);
    var held :- Surfaced(NormalizedPositions(side.positions, PAGE_LIMIT));
    var after :- Watched(side, 4);
    if !side.accountReadable then Err(INVALID_NATIVE_DATA)
    else if |deals| + |held| > PAGE_LIMIT then Err(BATCH_TOO_LARGE)
    else Ok(Page(window, deals, held, counted, olderEmpty))
  }

  /** The window that is read from the `n`-th query on: the planned one, shrunk where that is asked for. */
  function ReadWindow(answers: Answers, n: nat, planned: HistoryWindow, shrinks: bool): (r: Result<HistoryWindow, Code>)
    requires planned.Valid()
    ensures r.Ok? ==> r.value.Valid() && r.value.endMs == planned.endMs
  {
    if shrinks then Narrowed(answers, n, planned, ROUNDS) else Ok(planned)
  }

  /** The query after those that shrink the window. */
  function AfterShrinking(answers: Answers, n: nat, planned: HistoryWindow, shrinks: bool): nat
    requires planned.Valid()
  {
    n + if shrinks then Queries(answers, n, planned, ROUNDS) else 0
  }

  /** The page of a window, unless shrinking it failed. */
  ghost function PageOf(
      answers: Answers, q: nat, window: Result<HistoryWindow, Code>, counted: bool, side: Side)
    : Result<Page, Code>
    requires window.Ok? ==> window.value.Valid()
  {
    var w :- window;
    ReadAt(answers, q, w, counted, side)
  }

  /** What `collect` returns for the history part, from the `n`-th native query on. */
  ghost function Collected(answers: Answers, n: nat, req: Request, nowUs: int, counted: bool, side: Side)
    : Result<Page, Code>
  {
    var settled :- Watched(side, 0);
    var planned :- ChosenWindow(req, nowUs, counted, side.outside);
    PlannedPage(answers, n, planned, Shrinks(req, counted), counted, side)
  }

  ghost function PlannedPage(
      answers: Answers, n: nat, planned: HistoryWindow, shrinks: bool, counted: bool, side: Side)
    : Result<Page, Code>
    requires planned.Valid()
  {
    PageOf(answers, AfterShrinking(answers, n, planned, shrinks), ReadWindow(answers, n, planned, shrinks),
           counted, side)
  }

  method SurfaceDeals(records: Batch, w: HistoryWindow) returns (r: Result<seq<Deal>, Code>)
    ensures r == Surfaced(NormalizedDeals(records, w, PAGE_LIMIT))
  {
    var deals := NormalizeDeals(records, w, PAGE_LIMIT);
    r := Surfaced(deals);
  }

  method SurfacePositions(records: Batch) returns (r: Result<seq<Position>, Code>)
    ensures r == Surfaced(NormalizedPositions(records, PAGE_LIMIT))
  {
    var positions := NormalizePositions(records, PAGE_LIMIT);
    r := Surfaced(positions);
  }

  method ReadFinal(native: Native, w: HistoryWindow, bounds: Bounds, counted: bool)
    returns (r: Result<seq<Deal>, Code>)
    modifies native
    ensures r == FinalRead(native.answers, old(native.calls), w, bounds, counted)
    ensures r.Ok? ==> native.calls == old(native.calls) + if counted then 3 else 1
  {
    var expected := 0;
    if counted {
      var before := native.Count(bounds);
      if before.Err? {
        return Err(before.error);
      }
      expected := before.value;
    }
    var final := native.Get(bounds);
    var deals := SurfaceDeals(final, w);
    if deals.Err? {
      return Err(deals.error);
    }
    if counted {
      if |final.rows| != expected {
        return Err(HISTORY_UNAVAILABLE);
      }
      var after := native.Count(bounds);
      if after.Err? || after.value != expected {
        return Err(HISTORY_UNAVAILABLE);
      }
    }
    return Ok(deals.value);
  }

  method CheckOlder(native: Native, w: HistoryWindow) returns (r: Result<bool, Code>)
    modifies native
    ensures r == OlderIsEmpty(native.answers, old(native.calls), w)
  {
    var once := native.Count(OlderBounds(w));
    if once.Err? {
      return Err(once.error);
    }
    if once.value != 0 {
      return Ok(false);
    }
    var twice := native.Count(OlderBounds(w));
    return if twice.Err? then Err(twice.error) else Ok(twice.value == 0);
  }

  method Pause(guard: Guard) returns (r: Result<(), Code>)
    requires guard.Valid() && guard.taken == 0
    modifies guard
    ensures r.Ok? ==> guard.Valid() && guard.taken == 2
    ensures r.Err? ==> Watched(guard.side, 2) == Err(r.error)
  {
    r := guard.Watch(0);
    if r.Ok? {
      r := guard.Watch(1);
    }
  }

  method Read(native: Native, guard: Guard, window: HistoryWindow, counted: bool) returns (r: Result<Page, Code>)
    requires window.Valid() && guard.Valid() && guard.taken == 0
    modifies native, guard
    ensures r == ReadAt(native.answers, old(native.calls), window, counted, guard.side)
  {
    var bounds := Mt5Bounds(window);
    if bounds.Err? {
      return Err(Surface(bounds.error));
    }
    var first := native.Get(bounds.value);
    var warmUp := SurfaceDeals(first, window);
    if warmUp.Err? {
      return Err(warmUp.error);
    }
    var paused := Pause(guard);
    if paused.Err? {
      return Err(paused.error);
    }
    var deals := ReadFinal(native, window, bounds.value, counted);
    if deals.Err? {
      return Err(deals.error);
    }
    var olderEmpty := Ok(false);
    if counted {
      olderEmpty := CheckOlder(native, window);
      if olderEmpty.Err? {
        return Err(olderEmpty.error);
      }
    }
    r := Assemble(guard, window, deals.value, counted, olderEmpty.value);
  }

  method Assemble(guard: Guard, window: HistoryWindow, deals: seq<Deal>, counted: bool, olderEmpty: bool)
    returns (r: Result<Page, Code>)
    requires guard.Valid() && guard.taken == 2
    modifies guard
    ensures r == Assembled(window, deals, counted, olderEmpty, guard.side)
  {
    var before := guard.Watch(2);
    if before.Err? {
      return Err(before.error);
    }
    var held := SurfacePositions(guard.side.positions);
    if held.Err? {
      return Err(held.error);
    }
    var after := guard.Watch(3);
    if after.Err? {
      return Err(after.error);
    }
    if !guard.side.accountReadable {
      return Err(INVALID_NATIVE_DATA);
    }
    if |deals| + |held.value| > PAGE_LIMIT {
      return Err(BATCH_TOO_LARGE);
    }
    return Ok(Page(window, deals, held.value, counted, olderEmpty));
  }

  method ShrinkWindow(native: Native, planned: HistoryWindow, shrinks: bool) returns (r: Result<HistoryWindow, Code>)
    requires planned.Valid()
    modifies native
    ensures r == ReadWindow(native.answers, old(native.calls), planned, shrinks)
    ensures native.calls == AfterShrinking(native.answers, old(native.calls), planned, shrinks)
  {
    r := Ok(planned);
    if shrinks {
      r := Narrow(native, planned);
    }
  }

  method ReadShrunk(native: Native, guard: Guard, window: Result<HistoryWindow, Code>, counted: bool)
    returns (r: Result<Page, Code>)
    requires window.Ok? ==> window.value.Valid()
    requires guard.Valid() && guard.taken == 0
    modifies native, guard
    ensures r == PageOf(native.answers, old(native.calls), window, counted, guard.side)
  {
    if window.Err? {
      return Err(window.error);
    }
    r := Read(native, guard, window.value, counted);
  }

  method CollectPlanned(native: Native, guard: Guard, planned: HistoryWindow, shrinks: bool, counted: bool)
    returns (r: Result<Page, Code>)
    requires planned.Valid() && guard.Valid() && guard.taken == 0
    modifies native, guard
    ensures r == PlannedPage(native.answers, old(native.calls), planned, shrinks, counted, guard.side)
  {
    var window := ShrinkWindow(native, planned, shrinks);
    r := ReadShrunk(native, guard, window, counted);
  }

  /**
   * `collect` from the settling caption on.  Whatever the terminal answers, a page ends at
   * the requested cursor, stays within one identity, and, when the terminal can count, is
   * what one answer held between two counts that agree with it.
   */
  method Collect(native: Native, req: Request, nowUs: int, counted: bool, side: Side) returns (r: Result<Page, Code>)
    modifies native
    ensures r == Collected(native.answers, old(native.calls), req, nowUs, counted, side)
    ensures r.Ok? ==>
              && Plannable(req, nowUs, counted)
              && WindowFits(native.answers, old(native.calls), r.value.window, req, nowUs, counted)
              && Stands(native.answers, old(native.calls), r.value, counted, side)
  {
    var guard := new Guard(side);
    var settled := guard.Settle();
    if settled.Err? {
      return Err(settled.error);
    }
    var planned := ChosenWindow(req, nowUs, counted, side.outside);
    if planned.Err? {
      return Err(planned.error);
    }
    r := CollectPlanned(native, guard, planned.value, Shrinks(req, counted), counted);
    if r.Ok? {
      CollectedPage(native.answers, old(native.calls), req, nowUs, counted, side);
    }
  }

  /** The query found few enough deals in the window. */
  ghost predicate ThinAt(answers: Answers, q: nat, w: HistoryWindow) {
    && w.Valid() && Mt5Bounds(w).Ok? && answers.At(q).Some?
    && |Select(answers.At(q).value, Mt5Bounds(w).value)| <= DENSE
  }

  /**
   * The window of a page ends where the request says.  Without adaptive reading it starts
   * where it was planned; else it was found thin by a query from the `n`-th on, and if it
   * was planned from a second on, it starts no earlier, and on a second.
   */
  ghost predicate WindowFits(answers: Answers, n: nat, w: HistoryWindow, req: Request, nowUs: int, counted: bool)
    requires Plannable(req, nowUs, counted)
  {
    && w.endMs == PlannedEnd(req, nowUs)
    && if counted && (req.historyBeforeMs.Some? || req.adaptiveRecent)
       then && (exists q: nat :: q >= n && ThinAt(answers, q, w))
            && (PlannedStart(req, nowUs) % 1000 == 0 ==> w.startMs >= PlannedStart(req, nowUs) && w.startMs % 1000 == 0)
       else w.startMs == PlannedStart(req, nowUs)
  }

  /** No look failed, the positions are those normalized, and the deals were read from the `n`-th query on. */
  ghost predicate Stands(answers: Answers, n: nat, page: Page, counted: bool, side: Side) {
    && Watched(side, 4).Ok? && page.counted == counted
    && Ok(page.positions) == NormalizedPositions(side.positions, PAGE_LIMIT)
    && (counted ==> exists q: nat :: q >= n && CountedAt(answers, q, page))
    && (!counted ==> !page.olderEmpty && exists q: nat :: q >= n && ReadOnce(answers, q, page))
  }

  /** The page of a terminal that cannot count holds what one query found. */
  ghost predicate ReadOnce(answers: Answers, q: nat, page: Page) {
    && page.window.Valid() && Mt5Bounds(page.window).Ok? && answers.At(q).Some?
    && var rows := Records(Select(answers.At(q).value, Mt5Bounds(page.window).value));
       Ok(page.deals) == NormalizedDeals(Rows(rows), page.window, PAGE_LIMIT)
  }

  /** Three answers in a row agree on the count, and the middle one holds the page; two more decide what is older. */
  ghost predicate CountedAt(answers: Answers, q: nat, page: Page) {
    && page.window.Valid() && Mt5Bounds(page.window).Ok?
    && answers.At(q).Some? && answers.At(q + 1).Some? && answers.At(q + 2).Some?
    && var b := Mt5Bounds(page.window).value;
       && Ok(page.deals) == NormalizedDeals(Rows(Records(Select(answers.At(q + 1).value, b))), page.window, PAGE_LIMIT)
       && |Select(answers.At(q).value, b)| == |Select(answers.At(q + 1).value, b)|
       && |Select(answers.At(q + 1).value, b)| == |Select(answers.At(q + 2).value, b)|
       && |page.deals| + |page.positions| <= PAGE_LIMIT
       && (page.olderEmpty <==>
             && answers.At(q + 3).Some? && Select(answers.At(q + 3).value, OlderBounds(page.window)) == []
             && answers.At(q + 4).Some? && Select(answers.At(q + 4).value, OlderBounds(page.window)) == [])
  }

  /**
   * A counted page of any terminal, changing or not: one answer holds exactly its deals,
   * the counts right before and right after that answer agree with it, and the older
   * history is called empty only after two queries that found nothing.
   */
  lemma PageIsCounted(answers: Answers, q: nat, window: HistoryWindow, side: Side)
    requires window.Valid() && ReadAt(answers, q, window, true, side).Ok?
    ensures var page := ReadAt(answers, q, window, true, side).value;
            page.window == window && CountedAt(answers, q + 1, page)
  {
    var b := Mt5Bounds(window).value;
    FinalIsCounted(answers, q + 1, window, b);
    OlderIsExact(answers, q + 4, window);
    AssembledPage(window, FinalRead(answers, q + 1, window, b, true).value, true,
                  OlderIsEmpty(answers, q + 4, window).value, side);
  }

  lemma FinalIsCounted(answers: Answers, q: nat, w: HistoryWindow, b: Bounds)
    requires FinalRead(answers, q, w, b, true).Ok?
    ensures answers.At(q).Some? && answers.At(q + 1).Some? && answers.At(q + 2).Some?
    ensures FinalRead(answers, q, w, b, true).value ==
              NormalizedDeals(Rows(Records(Select(answers.At(q + 1).value, b))), w, PAGE_LIMIT).value
    ensures NormalizedDeals(Rows(Records(Select(answers.At(q + 1).value, b))), w, PAGE_LIMIT).Ok?
    ensures |Select(answers.At(q).value, b)| == |Select(answers.At(q + 1).value, b)|
    ensures |Select(answers.At(q + 1).value, b)| == |Select(answers.At(q + 2).value, b)|
  {
  }

  lemma OlderIsExact(answers: Answers, q: nat, w: HistoryWindow)
    requires OlderIsEmpty(answers, q, w).Ok?
    ensures OlderIsEmpty(answers, q, w).value <==>
              && answers.At(q).Some? && Select(answers.At(q).value, OlderBounds(w)) == []
              && answers.At(q + 1).Some? && Select(answers.At(q + 1).value, OlderBounds(w)) == []
  {
  }

  lemma AssembledPage(w: HistoryWindow, deals: seq<Deal>, counted: bool, olderEmpty: bool, side: Side)
    requires Assembled(w, deals, counted, olderEmpty, side).Ok?
    ensures var page := Assembled(w, deals, counted, olderEmpty, side).value;
            && page.window == w && page.deals == deals && page.olderEmpty == olderEmpty && page.counted == counted
            && |page.deals| + |page.positions| <= PAGE_LIMIT
            && Ok(page.positions) == NormalizedPositions(side.positions, PAGE_LIMIT)
    ensures Watched(side, 4).Ok?
  {
  }

  lemma CollectedPage(answers: Answers, n: nat, req: Request, nowUs: int, counted: bool, side: Side)
    requires Collected(answers, n, req, nowUs, counted, side).Ok?
    ensures var page := Collected(answers, n, req, nowUs, counted, side).value;
            && Plannable(req, nowUs, counted)
            && WindowFits(answers, n, page.window, req, nowUs, counted)
            && Stands(answers, n, page, counted, side)
  {
    var planned := ChosenWindow(req, nowUs, counted, side.outside).value;
    var shrinks := Shrinks(req, counted);
    WindowIsFit(answers, n, req, nowUs, counted, side.outside);
    ReadStands(answers, AfterShrinking(answers, n, planned, shrinks), n,
               ReadWindow(answers, n, planned, shrinks).value, counted, side);
  }

  lemma WindowIsFit(answers: Answers, n: nat, req: Request, nowUs: int, counted: bool, outside: Option<Code>)
    requires ChosenWindow(req, nowUs, counted, outside).Ok?
    requires ReadWindow(answers, n, ChosenWindow(req, nowUs, counted, outside).value, Shrinks(req, counted)).Ok?
    ensures WindowFits(
              answers, n,
              ReadWindow(answers, n, ChosenWindow(req, nowUs, counted, outside).value, Shrinks(req, counted)).value,
              req, nowUs, counted)
  {
    var planned := ChosenWindow(req, nowUs, counted, outside).value;
    if Shrinks(req, counted) {
      ShrunkIsThin(answers, n, planned);
    }
  }

  /** A shrunk window was found thin, and kept a start that was on a second. */
  lemma ShrunkIsThin(answers: Answers, n: nat, planned: HistoryWindow)
    requires planned.Valid() && Narrowed(answers, n, planned, ROUNDS).Ok?
    ensures var w := Narrowed(answers, n, planned, ROUNDS).value;
            && (exists q: nat :: q >= n && ThinAt(answers, q, w))
            && (planned.startMs % 1000 == 0 ==> w.startMs >= planned.startMs && w.startMs % 1000 == 0)
  {
    NarrowedFits(answers, n, planned, ROUNDS);
    var q := n + Queries(answers, n, planned, ROUNDS) - 1;
    assert q >= n && ThinAt(answers, q, Narrowed(answers, n, planned, ROUNDS).value);
    if planned.startMs % 1000 == 0 {
      AlignedKeepsFloor(answers, n, planned, ROUNDS);
    }
  }

  lemma ReadStands(answers: Answers, q: nat, n: nat, w: HistoryWindow, counted: bool, side: Side)
    requires n <= q && w.Valid() && ReadAt(answers, q, w, counted, side).Ok?
    ensures ReadAt(answers, q, w, counted, side).value.window == w
    ensures Stands(answers, n, ReadAt(answers, q, w, counted, side).value, counted, side)
  {
    var page := ReadAt(answers, q, w, counted, side).value;
    PageWindow(answers, q, w, counted, side);
    if counted {
      PageIsCounted(answers, q, w, side);
      assert q + 1 >= n && CountedAt(answers, q + 1, page);
    } else {
      PageIsRead(answers, q, w, side);
      assert q + 1 >= n && ReadOnce(answers, q + 1, page);
    }
  }

  lemma PageWindow(answers: Answers, q: nat, w: HistoryWindow, counted: bool, side: Side)
    requires w.Valid() && ReadAt(answers, q, w, counted, side).Ok?
    ensures var page := ReadAt(answers, q, w, counted, side).value;
            && page.window == w && page.counted == counted
            && Ok(page.positions) == NormalizedPositions(side.positions, PAGE_LIMIT)
    ensures Watched(side, 4).Ok?
  {
    var b := Mt5Bounds(w).value;
    var olderEmpty := if counted then OlderIsEmpty(answers, q + 4, w) else Ok(false);
    AssembledPage(w, FinalRead(answers, q + 1, w, b, counted).value, counted, olderEmpty.value, side);
  }

  lemma PageIsRead(answers: Answers, q: nat, w: HistoryWindow, side: Side)
    requires w.Valid() && ReadAt(answers, q, w, false, side).Ok?
    ensures var page := ReadAt(answers, q, w, false, side).value; !page.olderEmpty && ReadOnce(answers, q + 1, page)
  {
    var deals := FinalRead(answers, q + 1, w, Mt5Bounds(w).value, false).value;
    AssembledPage(w, deals, false, false, side);
  }

  /** Between whole seconds a shrinking window never passes its floor, whatever the terminal answers. */
  lemma {:induction false} AlignedKeepsFloor(answers: Answers, n: nat, w: HistoryWindow, rounds: nat)
    requires w.Valid() && w.startMs % 1000 == 0
    requires Narrowed(answers, n, w, rounds).Ok?
    ensures w.startMs <= Narrowed(answers, n, w, rounds).value.startMs
    ensures Narrowed(answers, n, w, rounds).value.startMs % 1000 == 0
    decreases rounds
  {
    if Counted(answers.At(n), Mt5Bounds(w).value).value > DENSE {
      FloorKeptExactly(w);
      AlignedKeepsFloor(answers, n + 1, Halved(w), rounds - 1);
    }
  }
}
