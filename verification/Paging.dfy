/**
 * Paged collection of a stable history equals one full read.
 *
 * Each page ends where the previous one started.  The pages tile the range, their
 * deals joined oldest first are the normalized whole, and stopping on an empty older
 * history misses no earlier deal.
 */
module Paging {
  import opened Outcomes
  import opened Contracts
  import opened History
  import opened Ordering
  import opened Normalization
  import opened IdentityGuard
  import opened Collection

  /** The terminal files every readable record under the whole second of its time. */
  ghost predicate Honest(h: NativeHistory) {
    forall d :: d in h && d.record.Fields? && Small(d.record.row, "time_msc").Ok? ==>
      d.second == Small(d.record.row, "time_msc").value / 1000
  }

  lemma {:induction false} Selected(h: NativeHistory, b: Bounds, d: NativeDeal)
    ensures d in Select(h, b) <==> d in h && b.Covers(d.second)
  {
    if h != [] {
      Selected(h[1..], b, d);
    }
  }

  lemma {:induction false} RecordsHold(h: NativeHistory, r: Record)
    ensures r in Records(h) <==> exists d :: d in h && d.record == r
  {
    if h != [] {
      RecordsHold(h[1..], r);
      assert forall d :: d in h <==> d == h[0] || d in h[1..];
    }
  }

  /** The native selection holds everything its window needs. */
  lemma SelectionSuffices(h: NativeHistory, w: HistoryWindow, wide: HistoryWindow)
    requires Honest(h) && w.Valid() && Mt5Bounds(w).Ok?
    requires wide.startMs <= w.startMs && w.endMs <= wide.endMs && Acceptable(Records(h), wide)
    ensures var rows := Records(Select(h, Mt5Bounds(w).value));
            Acceptable(rows, w) && DealsOf(rows, w) == DealsOf(Records(h), w)
    ensures Acceptable(Records(h), w)
  {
    var b := Mt5Bounds(w).value;
    var rows := Records(Select(h, b));
    NarrowerDeals(Records(h), wide, w);
    forall r | r in rows ensures r in Records(h) {
      RecordsHold(Select(h, b), r);
      var d :| d in Select(h, b) && d.record == r;
      Selected(h, b, d);
      RecordsHold(h, r);
    }
    forall r | r in Records(h) && DealIn(r, w).value.Some? ensures r in rows {
      RecordsHold(h, r);
      var d :| d in h && d.record == r;
      BoundsCover(w, DealIn(r, w).value.value.timeMs);
      Selected(h, b, d);
      RecordsHold(Select(h, b), r);
    }
    assert DealsOf(rows, w) == DealsOf(Records(h), w);
  }

  /** All deals of the history inside a range, in order: the one full read. */
  ghost function Whole(h: NativeHistory, startMs: nat, endMs: nat): seq<Deal>
    requires DistinctTickets(DealsOf(Records(h), HistoryWindow(startMs, endMs)))
  {
    InOrder(DealsOf(Records(h), HistoryWindow(startMs, endMs)), ByTimeThenTicket)
  }

  /** A counted page of a stable history is the full read of its window, and knows what lies before it. */
  lemma StablePage(h: NativeHistory, q: nat, w: HistoryWindow, wide: HistoryWindow, side: Side)
    requires Honest(h) && w.Valid()
    requires wide.startMs <= w.startMs && w.endMs <= wide.endMs && Acceptable(Records(h), wide)
    requires ReadAt(Steady(h), q, w, true, side).Ok?
    ensures Acceptable(Records(h), w)
    ensures var page := ReadAt(Steady(h), q, w, true, side).value;
            && page.window == w
            && page.deals == Whole(h, w.startMs, w.endMs)
            && (page.olderEmpty <==> Select(h, OlderBounds(w)) == [])
  {
    PageIsCounted(Steady(h), q, w, side);
    SelectionSuffices(h, w, wide);
    var page := ReadAt(Steady(h), q, w, true, side).value;
    NormalizedIsExact(Rows(Records(Select(h, Mt5Bounds(w).value))), w, PAGE_LIMIT);
    OrderedIsUnique(page.deals, Whole(h, w.startMs, w.endMs), ByTimeThenTicket);
  }

  // ------------------------------------------------------------------ chains of pages

  ghost function OldestFirst(pages: seq<Page>): seq<Deal> {
    if pages == [] then [] else OldestFirst(pages[1..]) + pages[0].deals
  }

  /** Pages, newest first, that tile `[startMs, endMs)` and each read their own window whole. */
  ghost predicate Tiles(h: NativeHistory, pages: seq<Page>, startMs: nat, endMs: nat) {
    && pages != []
    && pages[0].window.endMs == endMs && pages[|pages| - 1].window.startMs == startMs
    && (forall i :: 0 <= i < |pages| ==>
          && pages[i].window.startMs < pages[i].window.endMs
          && DistinctTickets(DealsOf(Records(h), pages[i].window))
          && pages[i].deals == Whole(h, pages[i].window.startMs, pages[i].window.endMs))
    && (forall i :: 0 < i < |pages| ==> pages[i].window.endMs == pages[i - 1].window.startMs)
  }

  lemma {:induction false} TilesDescend(h: NativeHistory, pages: seq<Page>, startMs: nat, endMs: nat)
    requires Tiles(h, pages, startMs, endMs)
    ensures startMs < endMs
    ensures |pages| > 1 ==> Tiles(h, pages[1..], startMs, pages[0].window.startMs)
  {
    if |pages| > 1 {
      TilesDescend(h, pages[1..], startMs, pages[0].window.startMs);
    }
  }

  /** Reads of two adjoining ranges join to the read of both. */
  lemma ReadsJoin(h: NativeHistory, startMs: nat, cut: nat, endMs: nat)
    requires startMs <= cut <= endMs && Acceptable(Records(h), HistoryWindow(startMs, endMs))
    ensures DistinctTickets(DealsOf(Records(h), HistoryWindow(startMs, cut)))
    ensures DistinctTickets(DealsOf(Records(h), HistoryWindow(cut, endMs)))
    ensures Acceptable(Records(h), HistoryWindow(startMs, cut))
    ensures Whole(h, startMs, cut) + Whole(h, cut, endMs) == Whole(h, startMs, endMs)
  {
    var wide := HistoryWindow(startMs, endMs);
    NarrowerDeals(Records(h), wide, HistoryWindow(startMs, cut));
    NarrowerDeals(Records(h), wide, HistoryWindow(cut, endMs));
    InWindow(h, wide);
    JoinOrdered(Whole(h, startMs, cut), Whole(h, cut, endMs), Whole(h, startMs, endMs), cut);
  }

  /** Tiles joined oldest first are one read of the whole range. */
  lemma {:induction false} TilesAreOneRead(h: NativeHistory, pages: seq<Page>, startMs: nat, endMs: nat)
    requires Tiles(h, pages, startMs, endMs)
    requires Acceptable(Records(h), HistoryWindow(startMs, endMs))
    ensures OldestFirst(pages) == Whole(h, startMs, endMs)
  {
    if |pages| == 1 {
      assert OldestFirst(pages[1..]) == [];
    } else {
      TilesDescend(h, pages, startMs, endMs);
      var cut := pages[0].window.startMs;
      TilesDescend(h, pages[1..], startMs, cut);
      ReadsJoin(h, startMs, cut, endMs);
      TilesAreOneRead(h, pages[1..], startMs, cut);
    }
  }

  lemma InWindow(h: NativeHistory, w: HistoryWindow)
    ensures forall d :: d in DealsOf(Records(h), w) ==> w.Contains(d.timeMs)
  {
  }

  // ------------------------------------------------------------------ following the cursor

  /** The page a cursor asks for; each page ends at its cursor. */
  type Pager = int -> Result<Page, Code>

  ghost predicate Descends(next: Pager) {
    forall b :: next(b).Ok? ==> 0 < b && next(b).value.window.endMs == b && next(b).value.window.Valid()
  }

  /** Page after page, each from the start of the previous one, until `stop`. */
  ghost function Chained(next: Pager, stop: Page -> bool, beforeMs: int): Result<seq<Page>, Code>
    requires Descends(next)
    decreases if beforeMs < 0 then 0 else beforeMs
  {
    var page :- next(beforeMs);
    if stop(page) then Ok([page])
    else
      var older :- Chained(next, stop, page.window.startMs);
      Ok([page] + older)
  }

  ghost predicate ReadsWhole(h: NativeHistory, page: Page) {
    && DistinctTickets(DealsOf(Records(h), page.window))
    && page.deals == Whole(h, page.window.startMs, page.window.endMs)
  }

  lemma TilesOne(h: NativeHistory, page: Page)
    requires ReadsWhole(h, page) && page.window.startMs < page.window.endMs
    ensures Tiles(h, [page], page.window.startMs, page.window.endMs)
  {
  }

  /** A page in front of tiles that reach up to its start. */
  lemma TilesPrepend(h: NativeHistory, page: Page, older: seq<Page>, startMs: nat)
    requires Tiles(h, older, startMs, page.window.startMs)
    requires ReadsWhole(h, page) && page.window.startMs < page.window.endMs
    ensures Tiles(h, [page] + older, startMs, page.window.endMs)
  {
    var pages := [page] + older;
    assert forall i :: 0 < i < |pages| ==> pages[i] == older[i - 1];
  }

  /** A finished chain tiles the range from its last page's start to the first cursor. */
  lemma {:induction false} ChainTiles(h: NativeHistory, next: Pager, stop: Page -> bool, beforeMs: int, topMs: nat)
    requires Descends(next) && beforeMs <= topMs
    requires forall b :: b <= topMs && next(b).Ok? ==> ReadsWhole(h, next(b).value)
    requires Chained(next, stop, beforeMs).Ok?
    ensures var pages := Chained(next, stop, beforeMs).value;
            && pages != []
            && Tiles(h, pages, pages[|pages| - 1].window.startMs, beforeMs)
            && stop(pages[|pages| - 1])
            && next(pages[|pages| - 1].window.endMs) == Ok(pages[|pages| - 1])
    decreases if beforeMs < 0 then 0 else beforeMs
  {
    var page := next(beforeMs).value;
    assert ReadsWhole(h, page);
    if stop(page) {
      TilesOne(h, page);
    } else {
      ChainTiles(h, next, stop, page.window.startMs, topMs);
      var older := Chained(next, stop, page.window.startMs).value;
      TilesPrepend(h, page, older, older[|older| - 1].window.startMs);
    }
  }

  /**
   * When every page can be read, a chain finishes exactly if the page that reaches the
   * epoch would stop it; a cursor of zero is refused.
   */
  lemma {:induction false} ChainFinishes(next: Pager, stop: Page -> bool, beforeMs: nat, topMs: nat, stops: bool)
    requires Descends(next) && beforeMs <= topMs
    requires forall b :: 0 < b <= topMs ==> next(b).Ok?
    requires stops ==> forall b :: 0 < b <= topMs && next(b).value.window.startMs == 0 ==> stop(next(b).value)
    requires !stops ==> forall b :: 0 < b <= topMs ==> !stop(next(b).value)
    ensures 0 < beforeMs ==> (Chained(next, stop, beforeMs).Ok? <==> stops)
    ensures beforeMs == 0 ==> Chained(next, stop, beforeMs).Err?
    decreases beforeMs
  {
    if 0 < beforeMs {
      var page := next(beforeMs).value;
      assert page.window.Valid() && page.window.endMs == beforeMs;
      if !stop(page) {
        ChainFinishes(next, stop, page.window.startMs, topMs, stops);
      }
    }
  }

  // ------------------------------------------------------------------ backfill

  /** The request of one backfill page. */
  function Before(beforeMs: int): Request {
    Request(Some(beforeMs), false, None, None)
  }

  /** The clock, the positions and the looks of one collection. */
  datatype Moment = Moment(nowUs: int, side: Side)

  /** What surrounds the page that a cursor asks for; every page has a moment of its own. */
  type Surroundings = int -> Moment

  ghost function BackfillPages(h: NativeHistory, around: Surroundings): Pager {
    b => Collected(Steady(h), 0, Before(b), around(b).nowUs, true, around(b).side)
  }

  ghost function Backfill(h: NativeHistory, beforeMs: int, around: Surroundings): Result<seq<Page>, Code> {
    BackfillDescends(h, around);
    Chained(BackfillPages(h, around), (p: Page) => p.olderEmpty, beforeMs)
  }

  lemma BackfillDescends(h: NativeHistory, around: Surroundings)
    ensures Descends(BackfillPages(h, around))
  {
    forall b | BackfillPages(h, around)(b).Ok?
      ensures var w := BackfillPages(h, around)(b).value.window; 0 < b && w.endMs == b && w.Valid()
    {
      var planned := ChosenWindow(Before(b), around(b).nowUs, true, around(b).side.outside).value;
      var w := Narrowed(Steady(h), 0, planned, ROUNDS).value;
      PageIsCounted(Steady(h), Queries(Steady(h), 0, planned, ROUNDS), w, around(b).side);
    }
  }

  lemma BackfillPageIsWhole(h: NativeHistory, beforeMs: int, around: Surroundings, topMs: nat)
    requires Honest(h) && beforeMs <= topMs && Acceptable(Records(h), HistoryWindow(0, topMs))
    requires BackfillPages(h, around)(beforeMs).Ok?
    ensures var page := BackfillPages(h, around)(beforeMs).value;
            && ReadsWhole(h, page)
            && (page.olderEmpty <==> Select(h, OlderBounds(page.window)) == [])
  {
    var planned := ChosenWindow(Before(beforeMs), around(beforeMs).nowUs, true, around(beforeMs).side.outside).value;
    var w := Narrowed(Steady(h), 0, planned, ROUNDS).value;
    StablePage(h, Queries(Steady(h), 0, planned, ROUNDS), w, HistoryWindow(0, topMs), around(beforeMs).side);
  }

  /** Nothing selected up to a second means no readable deal before it. */
  lemma NothingOlder(h: NativeHistory, w: HistoryWindow)
    requires Honest(h) && Select(h, OlderBounds(w)) == []
    ensures DealsOf(Records(h), HistoryWindow(0, w.startMs)) == {}
  {
    var older := HistoryWindow(0, w.startMs);
    forall r | r in Records(h) && DealIn(r, older).Ok? ensures DealIn(r, older).value.None? {
      RecordsHold(h, r);
      var d :| d in h && d.record == r;
      Selected(h, OlderBounds(w), d);
    }
  }

  /** With nothing older than its start, a window holds all the deals back to the epoch. */
  lemma NothingMissed(h: NativeHistory, last: HistoryWindow, beforeMs: nat)
    requires Honest(h) && Acceptable(Records(h), HistoryWindow(0, beforeMs))
    requires last.startMs <= beforeMs && Select(h, OlderBounds(last)) == []
    ensures DealsOf(Records(h), HistoryWindow(last.startMs, beforeMs))
         == DealsOf(Records(h), HistoryWindow(0, beforeMs))
  {
    var all, older := HistoryWindow(0, beforeMs), HistoryWindow(0, last.startMs);
    NothingOlder(h, last);
    NarrowerDeals(Records(h), all, older);
    NarrowerDeals(Records(h), all, HistoryWindow(last.startMs, beforeMs));
    InWindow(h, all);
    assert forall d :: d in DealsOf(Records(h), all) && older.Contains(d.timeMs) ==> d in DealsOf(Records(h), older);
  }

  lemma BackfillTiles(h: NativeHistory, beforeMs: nat, around: Surroundings)
    requires Honest(h) && Acceptable(Records(h), HistoryWindow(0, beforeMs))
    requires Backfill(h, beforeMs, around).Ok?
    ensures var pages := Backfill(h, beforeMs, around).value;
            && pages != []
            && Tiles(h, pages, pages[|pages| - 1].window.startMs, beforeMs)
            && Select(h, OlderBounds(pages[|pages| - 1].window)) == []
  {
    BackfillDescends(h, around);
    var next := BackfillPages(h, around);
    forall b | b <= beforeMs && next(b).Ok?
      ensures ReadsWhole(h, next(b).value)
      ensures next(b).value.olderEmpty <==> Select(h, OlderBounds(next(b).value.window)) == []
    {
      BackfillPageIsWhole(h, b, around, beforeMs);
    }
    ChainTiles(h, next, (p: Page) => p.olderEmpty, beforeMs, beforeMs);
    var pages := Backfill(h, beforeMs, around).value;
    TilesStayBelow(h, pages, pages[|pages| - 1].window.startMs, beforeMs);
  }

  lemma {:induction false} TilesStayBelow(h: NativeHistory, pages: seq<Page>, startMs: nat, endMs: nat)
    requires Tiles(h, pages, startMs, endMs)
    ensures pages[|pages| - 1].window.endMs <= endMs
  {
    if |pages| > 1 {
      TilesDescend(h, pages, startMs, endMs);
      TilesStayBelow(h, pages[1..], startMs, pages[0].window.startMs);
    }
  }

  /**
   * Paged collection equals one full read.  For a stable history that normalizes as a
   * whole, a finished backfill has tiled the range without gap or overlap, and its pages
   * joined oldest first are exactly the deals before the first cursor, back to the epoch.
   */
  lemma BackfillIsOneRead(h: NativeHistory, beforeMs: nat, around: Surroundings)
    requires Honest(h) && Acceptable(Records(h), HistoryWindow(0, beforeMs))
    requires Backfill(h, beforeMs, around).Ok?
    ensures var pages := Backfill(h, beforeMs, around).value;
            && pages != []
            && Tiles(h, pages, pages[|pages| - 1].window.startMs, beforeMs)
            && OldestFirst(pages) == Whole(h, 0, beforeMs)
  {
    BackfillTiles(h, beforeMs, around);
    FinishedIsOneRead(h, Backfill(h, beforeMs, around).value, beforeMs);
  }

  lemma FinishedIsOneRead(h: NativeHistory, pages: seq<Page>, beforeMs: nat)
    requires Honest(h) && Acceptable(Records(h), HistoryWindow(0, beforeMs))
    requires pages != [] && Tiles(h, pages, pages[|pages| - 1].window.startMs, beforeMs)
    requires Select(h, OlderBounds(pages[|pages| - 1].window)) == []
    ensures OldestFirst(pages) == Whole(h, 0, beforeMs)
  {
    var last := pages[|pages| - 1].window;
    TilesDescend(h, pages, last.startMs, beforeMs);
    NarrowerDeals(Records(h), HistoryWindow(0, beforeMs), HistoryWindow(last.startMs, beforeMs));
    TilesAreOneRead(h, pages, last.startMs, beforeMs);
    NothingMissed(h, last, beforeMs);
  }

  // ------------------------------------------------------------------ when backfill finishes

  /** No run of at most three consecutive seconds holds over 4000 deals. */
  ghost predicate Sparse(h: NativeHistory) {
    forall endMs: nat :: |Select(h, LastSeconds(endMs))| <= DENSE
  }

  /** Everything around the history lets a page through: no look fails, and the positions leave it room. */
  ghost predicate Undisturbed(side: Side) {
    && Watched(side, 4).Ok? && side.accountReadable
    && NormalizedPositions(side.positions, PAGE_LIMIT).Ok?
    && |NormalizedPositions(side.positions, PAGE_LIMIT).value| <= PAGE_LIMIT - DENSE
  }

  ghost predicate Calm(m: Moment) {
    Undisturbed(m.side) && PlanRecentHistory(m.nowUs).Ok?
  }

  lemma UndisturbedSoFar(side: Side)
    requires Undisturbed(side)
    ensures Watched(side, 0).Ok? && Watched(side, 2).Ok? && Watched(side, 3).Ok?
  {
    assert Watched(side, 3).Ok?;
    assert Watched(side, 2).Ok?;
    assert Watched(side, 1).Ok?;
  }

  lemma {:induction false} CountBoundsDeals(rows: seq<Record>, w: HistoryWindow, deals: seq<Deal>)
    requires Ordered(deals, ByTimeThenTicket) && Elements(deals) == DealsOf(rows, w)
    ensures |deals| <= |rows|
  {
    var records := Elements(rows);
    SizeOfElements(rows);
    assert |Elements(deals)| == |deals| by { DistinctSize(deals); }
    ImageSize(records, w);
    assert DealsOf(rows, w) == DealImage(records, w);
  }

  ghost function DealImage(records: set<Record>, w: HistoryWindow): set<Deal> {
    set r | r in records && DealIn(r, w).Ok? && DealIn(r, w).value.Some? :: DealIn(r, w).value.value
  }

  lemma {:induction false} ImageSize(records: set<Record>, w: HistoryWindow)
    ensures |DealImage(records, w)| <= |records|
  {
    if records != {} {
      var r :| r in records;
      ImageSize(records - {r}, w);
      if DealIn(r, w).Ok? && DealIn(r, w).value.Some? {
        assert DealImage(records, w) == DealImage(records - {r}, w) + {DealIn(r, w).value.value};
      } else {
        assert DealImage(records, w) == DealImage(records - {r}, w);
      }
    }
  }

  lemma {:induction false} SizeOfElements<T>(s: seq<T>)
    ensures |Elements(s)| <= |s|
  {
    if s != [] {
      SizeOfElements(s[1..]);
      assert Elements(s) == {s[0]} + Elements(s[1..]);
    }
  }

  lemma {:induction false} DistinctSize(s: seq<Deal>)
    requires Ordered(s, ByTimeThenTicket)
    ensures |Elements(s)| == |s|
  {
    if s != [] {
      DistinctSize(s[1..]);
      assert Elements(s) == {s[0]} + Elements(s[1..]);
      assert s[0] !in s[1..];
    }
  }

  lemma SmallWindowNormalizes(h: NativeHistory, w: HistoryWindow, wide: HistoryWindow)
    requires Honest(h) && w.Valid() && Mt5Bounds(w).Ok?
    requires wide.startMs <= w.startMs && w.endMs <= wide.endMs && Acceptable(Records(h), wide)
    requires |Select(h, Mt5Bounds(w).value)| <= DENSE
    ensures var r := NormalizedDeals(Fetched(Some(h), Mt5Bounds(w).value), w, PAGE_LIMIT);
            r.Ok? && |r.value| <= DENSE
  {
    SelectionSuffices(h, w, wide);
    var rows := Records(Select(h, Mt5Bounds(w).value));
    NormalizedIsExact(Rows(rows), w, PAGE_LIMIT);
    CountBoundsDeals(rows, w, NormalizedDeals(Rows(rows), w, PAGE_LIMIT).value);
  }

  lemma SteadyFinalRead(h: NativeHistory, q: nat, w: HistoryWindow, b: Bounds)
    requires NormalizedDeals(Fetched(Some(h), b), w, PAGE_LIMIT).Ok?
    ensures FinalRead(Steady(h), q, w, b, true) == Surfaced(NormalizedDeals(Fetched(Some(h), b), w, PAGE_LIMIT))
  {
    assert Steady(h).At(q) == Steady(h).At(q + 1) == Steady(h).At(q + 2) == Some(h);
  }

  /** A window that was counted as small enough, of a history that normalizes, is read without error. */
  lemma SmallWindowReads(h: NativeHistory, q: nat, w: HistoryWindow, wide: HistoryWindow, side: Side)
    requires Honest(h) && w.Valid() && Mt5Bounds(w).Ok? && Undisturbed(side)
    requires wide.startMs <= w.startMs && w.endMs <= wide.endMs && Acceptable(Records(h), wide)
    requires |Select(h, Mt5Bounds(w).value)| <= DENSE
    ensures ReadAt(Steady(h), q, w, true, side).Ok?
  {
    var b := Mt5Bounds(w).value;
    UndisturbedSoFar(side);
    SmallWindowNormalizes(h, w, wide);
    SteadyFinalRead(h, q + 1, w, b);
    SteadyOlder(h, q + 4, w);
    UndisturbedPage(w, FinalRead(Steady(h), q + 1, w, b, true).value, OlderIsEmpty(Steady(h), q + 4, w).value, side);
  }

  lemma SteadyOlder(h: NativeHistory, q: nat, w: HistoryWindow)
    ensures OlderIsEmpty(Steady(h), q, w).Ok?
  {
  }

  lemma UndisturbedPage(w: HistoryWindow, deals: seq<Deal>, olderEmpty: bool, side: Side)
    requires Undisturbed(side) && |deals| <= DENSE
    ensures Assembled(w, deals, true, olderEmpty, side).Ok?
  {
    UndisturbedSoFar(side);
  }

  lemma BackfillPlan(beforeMs: nat, m: Moment)
    requires 0 < beforeMs < CURSOR_LIMIT_MS && PlanRecentHistory(m.nowUs).Ok?
    ensures ChosenWindow(Before(beforeMs), m.nowUs, true, m.side.outside).Ok?
    ensures var w := ChosenWindow(Before(beforeMs), m.nowUs, true, m.side.outside).value;
            && w.Valid() && w.endMs == beforeMs && Mt5Bounds(w).Ok?
            && w.startMs <= LastSeconds(w.endMs).first * 1000
  {
  }

  lemma BackfillPageSucceeds(h: NativeHistory, beforeMs: nat, around: Surroundings, topMs: nat)
    requires Honest(h) && 0 < beforeMs <= topMs < CURSOR_LIMIT_MS && Acceptable(Records(h), HistoryWindow(0, topMs))
    requires Sparse(h) && Calm(around(beforeMs))
    ensures BackfillPages(h, around)(beforeMs).Ok?
  {
    UndisturbedSoFar(around(beforeMs).side);
    BackfillPlan(beforeMs, around(beforeMs));
    var planned := ChosenWindow(Before(beforeMs), around(beforeMs).nowUs, true, around(beforeMs).side.outside).value;
    TooLargeExactly(h, 0, planned);
    NarrowedFits(Steady(h), 0, planned, ROUNDS);
    SmallWindowReads(h, Queries(Steady(h), 0, planned, ROUNDS), Narrowed(Steady(h), 0, planned, ROUNDS).value,
                     HistoryWindow(0, topMs), around(beforeMs).side);
  }

  /**
   * On a stable, sparse history that normalizes as a whole the backfill finishes exactly
   * when no deal is filed under the first second of the epoch: the inclusive native
   * endpoint keeps such a deal "older" than every page, down to a cursor of zero.
   */
  lemma BackfillFinishesExactly(h: NativeHistory, beforeMs: nat, around: Surroundings)
    requires Honest(h) && 0 < beforeMs < CURSOR_LIMIT_MS && Acceptable(Records(h), HistoryWindow(0, beforeMs))
    requires Sparse(h) && forall b :: 0 < b <= beforeMs ==> Calm(around(b))
    ensures Backfill(h, beforeMs, around).Ok? <==> Select(h, Bounds(0, 0)) == []
  {
    BackfillDescends(h, around);
    var next := BackfillPages(h, around);
    forall b: int | 0 < b <= beforeMs
      ensures next(b).Ok?
      ensures next(b).value.olderEmpty <==> Select(h, OlderBounds(next(b).value.window)) == []
    {
      BackfillPageSucceeds(h, b, around, beforeMs);
      BackfillPageIsWhole(h, b, around, beforeMs);
    }
    forall b: int | 0 < b <= beforeMs && Select(h, Bounds(0, 0)) != [] ensures !next(b).value.olderEmpty {
      SelectIsMonotone(h, Bounds(0, 0), OlderBounds(next(b).value.window));
    }
    ChainFinishes(next, (p: Page) => p.olderEmpty, beforeMs, beforeMs, Select(h, Bounds(0, 0)) == []);
  }

  const DEAL_FIELDS := {
    "ticket", "order", "position_id", "time_msc", "type", "entry", "magic", "reason", "symbol", "volume",
    "price", "profit", "commission", "swap", "fee"}

  /** A deal of the first second of the epoch. */
  const EPOCH_DEAL := Fields(map field | field in DEAL_FIELDS ::
    field := if field == "ticket" then Int(1) else if field == "symbol" then Text("") else Int(0))

  const EPOCH_HISTORY: NativeHistory := [NativeDeal(0, EPOCH_DEAL)]

  /** A row of zeros parses. */
  lemma ZerosParse(row: map<string, Value>)
    requires Get(row, "ticket") == Int(1) && Get(row, "symbol") == Text("")
    requires forall field :: field in DEAL_FIELDS - {"ticket", "symbol"} ==> Get(row, field) == Int(0)
    ensures ParseDeal(row, 0).Ok? && Small(row, "time_msc") == Ok(0)
  {
    assert Id(row, "ticket", true).Ok? && Id(row, "order", false).Ok? && Id(row, "position_id", false).Ok?;
    assert Small(row, "type").Ok? && Small(row, "entry").Ok? && Id(row, "magic", false).Ok? && Small(row, "reason").Ok?;
    assert Symbol(row).Ok? && Number(row, "volume", true).Ok? && Number(row, "price", false).Ok?;
    assert Number(row, "profit", false).Ok? && Number(row, "commission", false).Ok?;
    assert Number(row, "swap", false).Ok? && Number(row, "fee", false).Ok?;
  }

  lemma EpochDealReads(w: HistoryWindow)
    ensures DealIn(EPOCH_DEAL, w).Ok?
    ensures Small(EPOCH_DEAL.row, "time_msc") == Ok(0)
  {
    ZerosParse(EPOCH_DEAL.row);
  }

  /** It happens: one readable deal at the epoch keeps a backfill from ever finishing. */
  lemma BackfillWitness(around: Surroundings)
    requires forall b :: 0 < b <= 5_000_000 ==> Calm(around(b))
    ensures Honest(EPOCH_HISTORY) && Sparse(EPOCH_HISTORY)
    ensures Acceptable(Records(EPOCH_HISTORY), HistoryWindow(0, 5_000_000))
    ensures Backfill(EPOCH_HISTORY, 5_000_000, around).Err?
  {
    var w := HistoryWindow(0, 5_000_000);
    EpochDealReads(w);
    assert EPOCH_HISTORY[1..] == [];
    assert Records(EPOCH_HISTORY) == [EPOCH_DEAL];
    forall b: Bounds ensures |Select(EPOCH_HISTORY, b)| <= 1 {
      assert Select(EPOCH_HISTORY[1..], b) == [];
    }
    Selected(EPOCH_HISTORY, Bounds(0, 0), EPOCH_HISTORY[0]);
    BackfillFinishesExactly(EPOCH_HISTORY, 5_000_000, around);
  }

  // ------------------------------------------------------------------ recent history

  /** The request that resumes a recent window at an upper cursor, above a kept floor. */
  function Resume(floorMs: nat, beforeMs: int): Request {
    Request(None, true, Some(beforeMs), Some(floorMs))
  }

  ghost function RecentPages(h: NativeHistory, floorMs: nat, around: Surroundings): Pager {
    b => Collected(Steady(h), 0, Resume(floorMs, b), around(b).nowUs, true, around(b).side)
  }

  lemma RecentDescends(h: NativeHistory, floorMs: nat, around: Surroundings)
    ensures Descends(RecentPages(h, floorMs, around))
  {
    forall b | RecentPages(h, floorMs, around)(b).Ok?
      ensures var w := RecentPages(h, floorMs, around)(b).value.window; 0 < b && w.endMs == b && w.Valid()
    {
      var planned := ChosenWindow(Resume(floorMs, b), around(b).nowUs, true, around(b).side.outside).value;
      var w := Narrowed(Steady(h), 0, planned, ROUNDS).value;
      PageIsCounted(Steady(h), Queries(Steady(h), 0, planned, ROUNDS), w, around(b).side);
    }
  }

  lemma StaysOnSecond(w: HistoryWindow)
    requires w.Valid() && w.startMs % 1000 == 0 && 1000 < w.Width() < 2000
    ensures Halved(w) == w
  {
    var second := w.startMs / 1000;
    assert w.startMs == 1000 * second && w.startMs + w.endMs == 2000 * second + w.Width();
    assert (w.startMs + w.endMs) / 2000 == second;
  }

  /** A dense window of less than two seconds that starts on a second cannot shrink: it fails. */
  lemma {:induction false} StuckWhenDense(h: NativeHistory, n: nat, w: HistoryWindow, rounds: nat)
    requires w.Valid() && w.startMs % 1000 == 0 && w.Width() < 2000
    requires Mt5Bounds(w).Ok? && |Select(h, Mt5Bounds(w).value)| > DENSE
    ensures Narrowed(Steady(h), n, w, rounds).Err?
    decreases rounds
  {
    if rounds > 0 && w.Width() > 1000 {
      StaysOnSecond(w);
      StuckWhenDense(h, n + 1, w, rounds - 1);
    }
  }

  /**
   * A window of a stable history that was cut below its floor selects the same seconds as
   * before, and so stays too dense: what survives never starts below the floor.
   */
  lemma {:induction false} SteadyKeepsFloor(h: NativeHistory, n: nat, w: HistoryWindow, rounds: nat)
    requires w.Valid() && Narrowed(Steady(h), n, w, rounds).Ok?
    ensures w.startMs <= Narrowed(Steady(h), n, w, rounds).value.startMs
    decreases rounds
  {
    if |Select(h, Mt5Bounds(w).value)| > DENSE {
      FloorKeptExactly(w);
      if Halved(w).startMs < w.startMs {
        CutBelowFloor(w);
        StuckWhenDense(h, n + 1, Halved(w), rounds - 1);
        assert false;
      } else {
        SteadyKeepsFloor(h, n + 1, Halved(w), rounds - 1);
      }
    }
  }

  lemma CutBelowFloor(w: HistoryWindow)
    requires w.Valid() && w.Width() > 1000 && Halved(w).startMs < w.startMs && Mt5Bounds(w).Ok?
    ensures Halved(w).Width() < 2000 && Mt5Bounds(Halved(w)) == Mt5Bounds(w)
  {
    var second, rest := w.startMs / 1000, w.startMs % 1000;
    FloorKeptExactly(w);
    assert w.startMs == 1000 * second + rest && 0 < rest;
    assert w.Width() < 2 * (1000 - rest);
    assert w.startMs + w.endMs == 2000 * second + 2 * rest + w.Width();
    assert (w.startMs + w.endMs) / 2000 == second;
    assert Halved(w).startMs == 1000 * second;
  }

  /** The window is not cut, or its first cut keeps the floor. */
  predicate FloorSafe(w: HistoryWindow) {
    w.Width() <= 1000 || w.startMs % 1000 == 0 || 2 * (1000 - w.startMs % 1000) <= w.Width()
  }

  /** A first cut that keeps the floor is the only one that matters: it lands on a second. */
  lemma FirstCutKeepsFloor(answers: Answers, n: nat, w: HistoryWindow, rounds: nat)
    requires w.Valid() && FloorSafe(w) && Narrowed(answers, n, w, rounds).Ok?
    ensures w.startMs <= Narrowed(answers, n, w, rounds).value.startMs
  {
    if Counted(answers.At(n), Mt5Bounds(w).value).value > DENSE {
      FloorKeptExactly(w);
      AlignedKeepsFloor(answers, n + 1, Halved(w), rounds - 1);
    }
  }

  /** Deals that all lie in one second. */
  function Crowd(count: nat, second: int): NativeHistory
    decreases count, second
  {
    if count == 0 then [] else [NativeDeal(second, EPOCH_DEAL)] + Crowd(count - 1, second)
  }

  lemma {:induction false} CrowdSelected(count: nat, second: int, b: Bounds)
    requires b.Covers(second)
    ensures |Select(Crowd(count, second), b)| == count
    decreases count, second
  {
    if count > 0 {
      CrowdSelected(count - 1, second, b);
      assert Crowd(count, second)[1..] == Crowd(count - 1, second);
    }
  }

  /** A terminal whose deals disappear after the first query. */
  function Vanishing(count: nat, second: int): Answers {
    Answers([Some(Crowd(count, second))], Some([]))
  }

  /** A window whose first cut passes its floor is left there by a terminal that changes. */
  lemma FloorPassed(w: HistoryWindow, count: nat, rounds: nat)
    requires w.Valid() && Mt5Bounds(w).Ok? && !FloorSafe(w) && rounds >= 2 && count > DENSE
    ensures Narrowed(Vanishing(count, w.startMs / 1000), 0, w, rounds) == Ok(Halved(w))
    ensures Halved(w).startMs < w.startMs
  {
    FloorKeptExactly(w);
    CutBelowFloor(w);
    CrowdSelected(count, w.startMs / 1000, Mt5Bounds(w).value);
    assert Narrowed(Vanishing(count, w.startMs / 1000), 1, Halved(w), rounds - 1) == Ok(Halved(w));
  }

  /**
   * What survives never starts below the floor, whatever the terminal answers from query to
   * query, if and only if the window is not cut or its first cut keeps the floor.
   */
  lemma FloorHeldExactly(w: HistoryWindow, rounds: nat)
    requires w.Valid() && Mt5Bounds(w).Ok? && rounds >= 2
    ensures FloorSafe(w) <==>
            forall answers, n: nat :: Narrowed(answers, n, w, rounds).Ok? ==>
              w.startMs <= Narrowed(answers, n, w, rounds).value.startMs
  {
    if FloorSafe(w) {
      forall answers, n: nat | Narrowed(answers, n, w, rounds).Ok?
        ensures w.startMs <= Narrowed(answers, n, w, rounds).value.startMs
      {
        FirstCutKeepsFloor(answers, n, w, rounds);
      }
    } else {
      var count := DENSE + 1;
      FloorPassed(w, count, rounds);
    }
  }

  /** It happens: 4001 deals of the first second, gone at the second query, and the window from 1 ms to 1002 ms. */
  lemma FloorPassedWitness(count: nat)
    requires count == DENSE + 1
    ensures HistoryWindow(1, 1002).Valid()
    ensures Narrowed(Vanishing(count, 0), 0, HistoryWindow(1, 1002), ROUNDS) == Ok(HistoryWindow(0, 1002))
  {
    FloorPassed(HistoryWindow(1, 1002), count, ROUNDS);
  }

  ghost function Recent(h: NativeHistory, floorMs: nat, beforeMs: int, around: Surroundings): Result<seq<Page>, Code> {
    RecentDescends(h, floorMs, around);
    Chained(RecentPages(h, floorMs, around), (p: Page) => p.window.startMs <= floorMs, beforeMs)
  }

  lemma RecentPageIsWhole(h: NativeHistory, floorMs: nat, beforeMs: int, around: Surroundings, topMs: nat)
    requires Honest(h) && beforeMs <= topMs && Acceptable(Records(h), HistoryWindow(0, topMs))
    requires RecentPages(h, floorMs, around)(beforeMs).Ok?
    ensures ReadsWhole(h, RecentPages(h, floorMs, around)(beforeMs).value)
  {
    var m := around(beforeMs);
    var planned := ChosenWindow(Resume(floorMs, beforeMs), m.nowUs, true, m.side.outside).value;
    var w := Narrowed(Steady(h), 0, planned, ROUNDS).value;
    StablePage(h, Queries(Steady(h), 0, planned, ROUNDS), w, HistoryWindow(0, topMs), around(beforeMs).side);
  }

  lemma {:induction false} ChainKeepsFloor(next: Pager, stop: Page -> bool, beforeMs: int, floorMs: nat)
    requires Descends(next)
    requires forall b :: next(b).Ok? ==> floorMs <= next(b).value.window.startMs
    requires Chained(next, stop, beforeMs).Ok?
    ensures var pages := Chained(next, stop, beforeMs).value;
            pages != [] && floorMs <= pages[|pages| - 1].window.startMs
    decreases if beforeMs < 0 then 0 else beforeMs
  {
    var page := next(beforeMs).value;
    if !stop(page) {
      ChainKeepsFloor(next, stop, page.window.startMs, floorMs);
    }
  }

  lemma RecentPageKeepsFloor(h: NativeHistory, floorMs: nat, beforeMs: int, around: Surroundings)
    requires RecentPages(h, floorMs, around)(beforeMs).Ok?
    ensures floorMs <= RecentPages(h, floorMs, around)(beforeMs).value.window.startMs
  {
    var m := around(beforeMs);
    var planned := ChosenWindow(Resume(floorMs, beforeMs), m.nowUs, true, m.side.outside).value;
    SteadyKeepsFloor(h, 0, planned, ROUNDS);
    PageIsCounted(Steady(h), Queries(Steady(h), 0, planned, ROUNDS),
                  Narrowed(Steady(h), 0, planned, ROUNDS).value, around(beforeMs).side);
  }

  lemma RecentTiles(h: NativeHistory, floorMs: nat, beforeMs: nat, around: Surroundings)
    requires Honest(h) && Acceptable(Records(h), HistoryWindow(0, beforeMs))
    requires Recent(h, floorMs, beforeMs, around).Ok?
    ensures Tiles(h, Recent(h, floorMs, beforeMs, around).value, floorMs, beforeMs)
  {
    RecentDescends(h, floorMs, around);
    var next, stop := RecentPages(h, floorMs, around), (p: Page) => p.window.startMs <= floorMs;
    forall b | b <= beforeMs && next(b).Ok? ensures ReadsWhole(h, next(b).value) {
      RecentPageIsWhole(h, floorMs, b, around, beforeMs);
    }
    ChainTiles(h, next, stop, beforeMs, beforeMs);
    forall b | next(b).Ok? ensures floorMs <= next(b).value.window.startMs {
      RecentPageKeepsFloor(h, floorMs, b, around);
    }
    ChainKeepsFloor(next, stop, beforeMs, floorMs);
  }

  /** Resumed recent pages are exactly one read of the recent window, down to its kept floor. */
  lemma RecentIsOneRead(h: NativeHistory, floorMs: nat, beforeMs: nat, around: Surroundings)
    requires Honest(h) && Acceptable(Records(h), HistoryWindow(0, beforeMs))
    requires Recent(h, floorMs, beforeMs, around).Ok?
    ensures Acceptable(Records(h), HistoryWindow(floorMs, beforeMs))
    ensures var pages := Recent(h, floorMs, beforeMs, around).value;
            Tiles(h, pages, floorMs, beforeMs) && OldestFirst(pages) == Whole(h, floorMs, beforeMs)
  {
    RecentTiles(h, floorMs, beforeMs, around);
    NarrowerDeals(Records(h), HistoryWindow(0, beforeMs), HistoryWindow(floorMs, beforeMs));
    TilesAreOneRead(h, Recent(h, floorMs, beforeMs, around).value, floorMs, beforeMs);
  }

  /** The first request for recent history: no cursor yet. */
  const NEWEST := Request(None, true, None, None)

  /** The recent pages from the newest one on, resumed at the start of the page before down to the planned start. */
  ghost function RecentFromNow(h: NativeHistory, first: Moment, around: Surroundings): Result<seq<Page>, Code> {
    var page :- Collected(Steady(h), 0, NEWEST, first.nowUs, true, first.side);
    var floorMs := PlannedStart(NEWEST, first.nowUs);
    if page.window.startMs <= floorMs then Ok([page])
    else
      var older :- Recent(h, if floorMs < 0 then 0 else floorMs, page.window.startMs, around);
      Ok([page] + older)
  }

  lemma NewestWindow(h: NativeHistory, m: Moment)
    requires Collected(Steady(h), 0, NEWEST, m.nowUs, true, m.side).Ok?
    ensures var w := Collected(Steady(h), 0, NEWEST, m.nowUs, true, m.side).value.window;
            && w.Valid() && w.endMs == (m.nowUs / 1_000_000 + DAY_S) * 1000
            && 0 <= (m.nowUs / 1_000_000 - 30 * DAY_S) * 1000 <= w.startMs
  {
    CollectedPage(Steady(h), 0, NEWEST, m.nowUs, true, m.side);
    assert PlannedStart(NEWEST, m.nowUs) == 1000 * (m.nowUs / 1_000_000 - 30 * DAY_S);
  }

  lemma NewestPage(h: NativeHistory, m: Moment)
    requires Collected(Steady(h), 0, NEWEST, m.nowUs, true, m.side).Ok?
    requires Honest(h) && Acceptable(Records(h), HistoryWindow(0, (m.nowUs / 1_000_000 + DAY_S) * 1000))
    ensures ReadsWhole(h, Collected(Steady(h), 0, NEWEST, m.nowUs, true, m.side).value)
  {
    var planned := ChosenWindow(NEWEST, m.nowUs, true, m.side.outside).value;
    var w := Narrowed(Steady(h), 0, planned, ROUNDS).value;
    StablePage(h, Queries(Steady(h), 0, planned, ROUNDS), w, HistoryWindow(0, planned.endMs), m.side);
  }

  /**
   * Recent history read from now: the newest page ends a day after the second of the
   * clock, and together with the pages resumed below it tiles exactly the 31 days back to
   * thirty days before that second, as one read of them would.
   */
  lemma RecentFromNowIsOneRead(h: NativeHistory, first: Moment, around: Surroundings)
    requires RecentFromNow(h, first, around).Ok?
    requires Honest(h) && Acceptable(Records(h), HistoryWindow(0, (first.nowUs / 1_000_000 + DAY_S) * 1000))
    ensures var floor, end := (first.nowUs / 1_000_000 - 30 * DAY_S) * 1000, (first.nowUs / 1_000_000 + DAY_S) * 1000;
            && 0 <= floor && Acceptable(Records(h), HistoryWindow(floor, end))
            && Tiles(h, RecentFromNow(h, first, around).value, floor, end)
            && OldestFirst(RecentFromNow(h, first, around).value) == Whole(h, floor, end)
  {
    NewestWindow(h, first);
    NewestPage(h, first);
    var floor: nat := (first.nowUs / 1_000_000 - 30 * DAY_S) * 1000;
    var end: nat := (first.nowUs / 1_000_000 + DAY_S) * 1000;
    var page := Collected(Steady(h), 0, NEWEST, first.nowUs, true, first.side).value;
    NarrowerDeals(Records(h), HistoryWindow(0, end), HistoryWindow(floor, end));
    if page.window.startMs <= floor {
      TilesOne(h, page);
    } else {
      NarrowerDeals(Records(h), HistoryWindow(0, end), HistoryWindow(0, page.window.startMs));
      RecentTiles(h, floor, page.window.startMs, around);
      TilesPrepend(h, page, Recent(h, floor, page.window.startMs, around).value, floor);
    }
    TilesAreOneRead(h, RecentFromNow(h, first, around).value, floor, end);
  }
}
