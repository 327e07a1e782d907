/** Wire records and the half-open history window with its second-aligned native bounds. */
module Contracts {
  import opened Outcomes

  const DAY_MS: nat := 86_400_000
  const MAX_WINDOW_MS: nat := 31 * DAY_MS
  const MAX_RECORDS: nat := 50_000

  /** The last representable instant, 9999-12-31T23:59:59.999999, in microseconds and its second. */
  const LAST_SECOND: nat := 253_402_300_799
  const LAST_US: nat := LAST_SECOND * 1_000_000 + 999_999

  /** The first one, 0001-01-01T00:00:00. */
  const FIRST_US: int := -62_135_596_800 * 1_000_000

  /** Codes that leave the native boundary; never native text. */
  datatype Code =
    | INVALID_WINDOW | INVALID_OBSERVATION_TIME
    | INVALID_LIMIT | INVALID_BATCH | INVALID_RECORD
    | HISTORY_UNAVAILABLE | POSITIONS_UNAVAILABLE | BATCH_TOO_LARGE
    | CONFLICTING_DEAL | CONFLICTING_POSITION | INVALID_NATIVE_DATA
    | TERMINAL_CHANGED | IDENTITY_DRIFT | NETWORK_UNAVAILABLE
    | TRADING_ENABLED | PYTHON_TRADING_ENABLED | INVESTOR_UNVERIFIED
    | JOURNAL_UNAVAILABLE | CHILD_FAILED

  datatype DataError = DataError(code: Code, field: string)

  /** Endpoints in milliseconds since the epoch; `start` belongs to the window, `end` does not. */
  datatype HistoryWindow = HistoryWindow(startMs: nat, endMs: nat) {
    predicate Valid() {
      startMs < endMs <= startMs + MAX_WINDOW_MS && endMs * 1000 <= LAST_US
    }

    function Width(): int {
      endMs - startMs
    }

    predicate Contains(timeMs: int) {
      startMs <= timeMs < endMs
    }
  }

  predicate ValidInstant(us: int) {
    0 <= us <= LAST_US && us % 1000 == 0
  }

  /** The constructor: aware instants, given in microseconds since the epoch, are checked in turn. */
  function MakeWindow(startUs: int, endUs: int): (r: Result<HistoryWindow, DataError>)
    ensures r.Ok? <==> ValidInstant(startUs) && ValidInstant(endUs) && 0 < endUs - startUs <= MAX_WINDOW_MS * 1000
    ensures r.Ok? ==> r.value.Valid() && r.value.startMs * 1000 == startUs && r.value.endMs * 1000 == endUs
  {
    if !ValidInstant(startUs) then Err(DataError(INVALID_WINDOW, "start"))
    else if !ValidInstant(endUs) then Err(DataError(INVALID_WINDOW, "end"))
    else if !(0 < endUs - startUs <= MAX_WINDOW_MS * 1000) then Err(DataError(INVALID_WINDOW, "duration"))
    else Ok(HistoryWindow(startUs / 1000, endUs / 1000))
  }

  /** Whole seconds of an inclusive native query. */
  datatype Bounds = Bounds(first: nat, last: nat) {
    predicate Covers(second: int) {
      first <= second <= last
    }
  }

  /** Expands a window to whole seconds; rounding up may leave the calendar. */
  function Mt5Bounds(w: HistoryWindow): (r: Result<Bounds, DataError>)
    requires w.Valid()
    ensures r.Ok? <==> (w.endMs % 1000 == 0 || w.endMs / 1000 < LAST_SECOND)
    ensures r.Ok? ==> r.value.first * 1000 <= w.startMs < r.value.first * 1000 + 1000
    ensures r.Ok? ==> r.value.last * 1000 - 1000 < w.endMs <= r.value.last * 1000
  {
    if w.endMs % 1000 == 0 then Ok(Bounds(w.startMs / 1000, w.endMs / 1000))
    else if w.endMs / 1000 < LAST_SECOND then Ok(Bounds(w.startMs / 1000, w.endMs / 1000 + 1))
    else Err(DataError(INVALID_WINDOW, "end"))
  }

  /** The bounds cover the second of every instant of the window. */
  lemma BoundsCover(w: HistoryWindow, timeMs: nat)
    requires w.Valid() && Mt5Bounds(w).Ok? && w.Contains(timeMs)
    ensures Mt5Bounds(w).value.Covers(timeMs / 1000)
  {
  }
}

/** Bounded planning of the window that one native read may cover. */
module History {
  import opened Outcomes
  import opened Contracts

  const DAY_S: nat := 86_400
  const DAY_US: nat := DAY_S * 1_000_000

  /** Exclusive upper limit of a backfill cursor. */
  const CURSOR_LIMIT_MS: nat := 4_102_444_800_000

  lemma WholeSecond(second: int)
    ensures second * 1_000_000 % 1000 == 0
  {
    assert second * 1_000_000 == 1000 * (second * 1000);
  }

  /** 31 days around the observation, rounded down to its second: thirty before, one after. */
  function PlanRecentHistory(observedUs: int): (r: Result<HistoryWindow, DataError>)
    ensures r.Ok? <==> 30 * DAY_US <= observedUs <= LAST_US - DAY_US
    ensures r.Err? ==> r.error.code == INVALID_OBSERVATION_TIME
    ensures r.Ok? ==> r.value.Valid() && r.value.Width() == MAX_WINDOW_MS
    ensures r.Ok? ==> r.value.startMs == (observedUs / 1_000_000 - 30 * DAY_S) * 1000
    ensures r.Ok? ==> r.value.endMs == (observedUs / 1_000_000 + DAY_S) * 1000
  {
    var second, rest := observedUs / 1_000_000, observedUs % 1_000_000;
    assert observedUs == second * 1_000_000 + rest;
    WholeSecond(second - 30 * DAY_S);
    WholeSecond(second + DAY_S);
    var window := MakeWindow((second - 30 * DAY_S) * 1_000_000, (second + DAY_S) * 1_000_000);
    if window.Ok? then window else Err(DataError(INVALID_OBSERVATION_TIME, ""))
  }

  /** The window of at most 31 days that ends at the cursor and starts no earlier than the epoch. */
  function PlanHistoryBefore(beforeMs: int): (r: Result<HistoryWindow, DataError>)
    ensures r.Ok? <==> 0 < beforeMs < CURSOR_LIMIT_MS
    ensures r.Ok? ==> r.value.Valid() && r.value.endMs == beforeMs
    ensures r.Ok? ==> r.value.startMs == if beforeMs > MAX_WINDOW_MS then beforeMs - MAX_WINDOW_MS else 0
  {
    if !(0 < beforeMs < CURSOR_LIMIT_MS) then Err(DataError(INVALID_WINDOW, ""))
    else
      var start := if beforeMs > MAX_WINDOW_MS then beforeMs - MAX_WINDOW_MS else 0;
      MakeWindow(start * 1000, beforeMs * 1000)
  }
}
