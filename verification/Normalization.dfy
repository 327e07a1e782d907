/**
 * Validation of native deals and positions.
 *
 * A native record is a mapping from field names to values; anything unexpected fails
 * the whole batch.  Identifiers keep their number (their wire form is its decimal
 * rendering), money keeps its text.
 */
module Normalization {
  import opened Outcomes
  import opened Contracts
  import opened Ordering

  const UINT64_MAX: nat := 0xFFFF_FFFF_FFFF_FFFF
  const INT64_MAX: nat := 0x7FFF_FFFF_FFFF_FFFF

  /** A field value: an exact `int`, a float or Decimal with its canonical text, a string, or anything else. */
  datatype Value =
    | Int(n: int)
    | Decimal(text: string, finite: bool, negative: bool)
    | Text(s: string)
    | Other

  datatype Record = Fields(row: map<string, Value>) | NotARecord

  /** A native response: `None`, something that is not a tuple or list, or the records. */
  datatype Batch = Unavailable | NotABatch | Rows(rows: seq<Record>)

  datatype Deal = Deal(
    ticket: nat, order: nat, positionId: nat, timeMs: nat, kind: nat, entry: nat, magic: nat, reason: nat,
    symbol: string, volume: string, price: string, profit: string, commission: string, swap: string, fee: string)

  datatype Position = Position(
    ticket: nat, identifier: nat, timeMs: nat, updateMs: nat, kind: nat, magic: nat, reason: nat, symbol: string,
    volume: string, priceOpen: string, priceCurrent: string, sl: string, tp: string, profit: string, swap: string)

  // ------------------------------------------------------------------ single fields

  function Get(row: map<string, Value>, field: string): Value {
    if field in row then row[field] else Other
  }

  function Invalid(field: string): DataError {
    DataError(INVALID_RECORD, field)
  }

  function Whole(row: map<string, Value>, field: string, maximum: nat): Result<nat, DataError> {
    var v := Get(row, field);
    if v.Int? && 0 <= v.n <= maximum then Ok(v.n) else Err(Invalid(field))
  }

  function Small(row: map<string, Value>, field: string): Result<nat, DataError> {
    Whole(row, field, INT64_MAX)
  }

  function Id(row: map<string, Value>, field: string, nonzero: bool): Result<nat, DataError> {
    var n :- Whole(row, field, UINT64_MAX);
    if nonzero && n == 0 then Err(Invalid(field)) else Ok(n)
  }

  function Digits(n: nat): string {
    (if n < 10 then "" else Digits(n / 10)) + [('0' as int + n % 10) as char]
  }

  function Number(row: map<string, Value>, field: string, nonnegative: bool): Result<string, DataError> {
    match Get(row, field)
    case Int(n) =>
      if nonnegative && n < 0 then Err(Invalid(field))
      else Ok(if n < 0 then "-" + Digits(-n) else Digits(n))
    case Decimal(text, finite, negative) =>
      if !finite || (nonnegative && negative) then Err(Invalid(field)) else Ok(text)
    case _ => Err(Invalid(field))
  }

  function Symbol(row: map<string, Value>): Result<string, DataError> {
    var v := Get(row, "symbol");
    if v.Text? && |v.s| <= 256 && forall c | c in v.s :: c as int >= 32
    then Ok(v.s) else Err(Invalid("symbol"))
  }

  function Checked(records: Batch, unavailable: Code, maxRecords: int): (r: Result<seq<Record>, DataError>)
    ensures r.Ok? <==> 1 <= maxRecords <= 50_000 && records.Rows? && |records.rows| <= maxRecords
    ensures r.Ok? ==> r.value == records.rows
  {
    if !(1 <= maxRecords <= MAX_RECORDS) then Err(DataError(INVALID_LIMIT, ""))
    else if records.Unavailable? then Err(DataError(unavailable, ""))
    else if records.NotABatch? then Err(DataError(INVALID_BATCH, ""))
    else if |records.rows| > maxRecords then Err(DataError(BATCH_TOO_LARGE, ""))
    else Ok(records.rows)
  }

  // ------------------------------------------------------------------ deals

  function ParseDeal(row: map<string, Value>, timeMs: nat): (r: Result<Deal, DataError>)
    ensures r.Ok? ==> r.value.timeMs == timeMs && 0 < r.value.ticket <= UINT64_MAX
    ensures r.Err? ==> r.error.code == INVALID_RECORD
  {
    var ticket :- Id(row, "ticket", true);
    var order :- Id(row, "order", false);
    var positionId :- Id(row, "position_id", false);
    var kind :- Small(row, "type");
    var entry :- Small(row, "entry");
    var magic :- Id(row, "magic", false);
    var reason :- Small(row, "reason");
    var symbol :- Symbol(row);
    var volume :- Number(row, "volume", true);
    var price :- Number(row, "price", false);
    var profit :- Number(row, "profit", false);
    var commission :- Number(row, "commission", false);
    var swap :- Number(row, "swap", false);
    var fee :- Number(row, "fee", false);
    Ok(Deal(ticket, order, positionId, timeMs, kind, entry, magic, reason, symbol,
            volume, price, profit, commission, swap, fee))
  }

  /** One record's deal: `None` outside the window, where only the time is checked. */
  function DealIn(record: Record, w: HistoryWindow): (r: Result<Option<Deal>, DataError>)
    ensures r.Ok? && r.value.Some? ==> w.Contains(r.value.value.timeMs)
    ensures r.Err? ==> r.error.code == INVALID_RECORD
  {
    if record.NotARecord? then Err(Invalid(""))
    else
      var time :- Small(record.row, "time_msc");
      if !w.Contains(time) then Ok(None)
      else var deal :- ParseDeal(record.row, time); Ok(Some(deal))
  }

  /** Deals are reported by time, then ticket. */
  function ByTimeThenTicket(d: Deal): Key {
    (d.timeMs, d.ticket)
  }

  ghost predicate DistinctTickets(deals: set<Deal>) {
    forall a, b :: a in deals && b in deals && a.ticket == b.ticket ==> a == b
  }

  /** The dictionary the loop builds from the remaining rows, or the first failure it meets. */
  function Gather(rows: seq<Record>, w: HistoryWindow, seen: map<nat, Deal>): Result<map<nat, Deal>, DataError> {
    if rows == [] then Ok(seen)
    else
      var found :- DealIn(rows[0], w);
      match found
      case None => Gather(rows[1..], w, seen)
      case Some(deal) =>
        if deal.ticket in seen && seen[deal.ticket] != deal then Err(DataError(CONFLICTING_DEAL, ""))
        else Gather(rows[1..], w, seen[deal.ticket := deal])
  }

  ghost predicate Keyed(seen: map<nat, Deal>) {
    forall t :: t in seen ==> seen[t].ticket == t
  }

  /** The deals the rows hold inside the window. */
  ghost function DealsOf(rows: seq<Record>, w: HistoryWindow): set<Deal> {
    set r | r in rows && DealIn(r, w).Ok? && DealIn(r, w).value.Some? :: DealIn(r, w).value.value
  }

  ghost predicate AllReadable(rows: seq<Record>, w: HistoryWindow) {
    forall r :: r in rows ==> DealIn(r, w).Ok?
  }

  /** Every record is readable and no two deals of the window share a ticket. */
  ghost predicate Acceptable(rows: seq<Record>, w: HistoryWindow) {
    AllReadable(rows, w) && DistinctTickets(DealsOf(rows, w))
  }

  lemma DealsOfCons(rows: seq<Record>, w: HistoryWindow)
    requires rows != [] && DealIn(rows[0], w).Ok?
    ensures AllReadable(rows, w) <==> AllReadable(rows[1..], w)
    ensures DealsOf(rows, w) ==
            DealsOf(rows[1..], w) + (match DealIn(rows[0], w).value case None => {} case Some(d) => {d})
  {
    assert rows == [rows[0]] + rows[1..];
  }

  lemma {:induction false} GatherIsExact(rows: seq<Record>, w: HistoryWindow, seen: map<nat, Deal>)
    requires Keyed(seen)
    ensures Gather(rows, w, seen).Ok? <==>
            AllReadable(rows, w) && DistinctTickets(DealsOf(rows, w) + seen.Values)
    ensures Gather(rows, w, seen).Ok? ==>
            Keyed(Gather(rows, w, seen).value) &&
            Gather(rows, w, seen).value.Values == DealsOf(rows, w) + seen.Values
  {
    if rows == [] {
      assert DealsOf(rows, w) + seen.Values == seen.Values;
    } else if DealIn(rows[0], w).Err? {
      assert rows[0] in rows;
    } else {
      DealsOfCons(rows, w);
      match DealIn(rows[0], w).value {
        case None =>
          GatherIsExact(rows[1..], w, seen);
        case Some(deal) =>
          assert deal in DealsOf(rows, w);
          if deal.ticket in seen && seen[deal.ticket] != deal {
            assert seen[deal.ticket] in seen.Values;
          } else {
            var more := seen[deal.ticket := deal];
            assert more.Values == seen.Values + {deal} by { ValuesOfUpdate(seen, deal); }
            GatherIsExact(rows[1..], w, more);
            assert DealsOf(rows[1..], w) + more.Values == DealsOf(rows, w) + seen.Values;
          }
      }
    }
  }

  lemma ValuesOfUpdate(seen: map<nat, Deal>, deal: Deal)
    requires deal.ticket in seen ==> seen[deal.ticket] == deal
    ensures seen[deal.ticket := deal].Values == seen.Values + {deal}
  {
    var more := seen[deal.ticket := deal];
    assert more[deal.ticket] == deal;
    forall d | d in seen.Values ensures d in more.Values {
      var t :| t in seen && seen[t] == d;
      assert more[t] == d;
    }
  }

  lemma KeyedIsDistinct(seen: map<nat, Deal>)
    requires Keyed(seen)
    ensures DistinctTickets(seen.Values)
  {
  }

  /** What `normalize_deals` returns. */
  ghost function NormalizedDeals(records: Batch, w: HistoryWindow, maxRecords: int): Result<seq<Deal>, DataError> {
    var rows :- Checked(records, HISTORY_UNAVAILABLE, maxRecords);
    GatherIsExact(rows, w, map[]);
    var seen :- Gather(rows, w, map[]);
    KeyedIsDistinct(seen);
    Ok(InOrder(seen.Values, ByTimeThenTicket))
  }

  /** A failure names its kind: a conflict only among records that are read, anything else is a record that is not. */
  lemma {:induction false} GatherFails(rows: seq<Record>, w: HistoryWindow, seen: map<nat, Deal>)
    requires Gather(rows, w, seen).Err?
    ensures Gather(rows, w, seen).error.code == CONFLICTING_DEAL || Gather(rows, w, seen).error.code == INVALID_RECORD
    ensures Gather(rows, w, seen).error.code == INVALID_RECORD ==> !AllReadable(rows, w)
  {
    assert rows == [rows[0]] + rows[1..];
    if DealIn(rows[0], w).Ok? {
      match DealIn(rows[0], w).value {
        case None => GatherFails(rows[1..], w, seen);
        case Some(deal) =>
          if !(deal.ticket in seen && seen[deal.ticket] != deal) {
            GatherFails(rows[1..], w, seen[deal.ticket := deal]);
          }
      }
    }
  }

  method NormalizeDeals(records: Batch, w: HistoryWindow, maxRecords: int)
    returns (r: Result<seq<Deal>, DataError>)
    ensures r == NormalizedDeals(records, w, maxRecords)
    ensures r.Ok? <==> Checked(records, HISTORY_UNAVAILABLE, maxRecords).Ok? && Acceptable(records.rows, w)
    ensures r.Ok? ==> Ordered(r.value, ByTimeThenTicket) && Elements(r.value) == DealsOf(records.rows, w)
    ensures Checked(records, HISTORY_UNAVAILABLE, maxRecords).Ok? && AllReadable(records.rows, w) && r.Err? ==>
              r.error.code == CONFLICTING_DEAL
  {
    var batch := Checked(records, HISTORY_UNAVAILABLE, maxRecords);
    if batch.Err? {
      return Err(batch.error);
    }
    var rows := batch.value;
    GatherIsExact(rows, w, map[]);
    if Gather(rows, w, map[]).Err? {
      GatherFails(rows, w, map[]);
    }
    var result: map<nat, Deal> := map[];
    assert DealsOf(rows, w) + result.Values == DealsOf(rows, w);
    for i := 0 to |rows|
      invariant Keyed(result)
      invariant Gather(rows, w, map[]) == Gather(rows[i..], w, result)
    {
      assert rows[i..][0] == rows[i] && rows[i..][1..] == rows[i + 1..];
      var found := DealIn(rows[i], w);
      if found.Err? {
        return Err(found.error);
      }
      if found.value.Some? {
        var deal := found.value.value;
        if deal.ticket in result && result[deal.ticket] != deal {
          return Err(DataError(CONFLICTING_DEAL, ""));
        }
        result := result[deal.ticket := deal];
      }
    }
    assert rows[|rows|..] == [];
    KeyedIsDistinct(result);
    var sorted := Sort(result.Values, ByTimeThenTicket);
    r := Ok(sorted);
  }

  /** Success and its output in terms of the rows alone. */
  lemma NormalizedIsExact(records: Batch, w: HistoryWindow, maxRecords: int)
    ensures var r := NormalizedDeals(records, w, maxRecords);
            && (r.Ok? <==>
                  Checked(records, HISTORY_UNAVAILABLE, maxRecords).Ok? && Acceptable(records.rows, w))
            && (r.Ok? ==> Ordered(r.value, ByTimeThenTicket) && Elements(r.value) == DealsOf(records.rows, w))
  {
    if records.Rows? {
      GatherIsExact(records.rows, w, map[]);
      var none: map<nat, Deal> := map[];
      assert DealsOf(records.rows, w) + none.Values == DealsOf(records.rows, w);
    }
  }

  /** Permuting or duplicating records changes nothing: the output is a function of their set. */
  lemma DependsOnRecordSet(a: seq<Record>, b: seq<Record>, w: HistoryWindow, maxRecords: int)
    requires Elements(a) == Elements(b)
    requires |a| <= maxRecords && |b| <= maxRecords
    ensures var x, y := NormalizedDeals(Rows(a), w, maxRecords), NormalizedDeals(Rows(b), w, maxRecords);
            (x.Ok? <==> y.Ok?) && (x.Ok? ==> x == y)
  {
    NormalizedIsExact(Rows(a), w, maxRecords);
    NormalizedIsExact(Rows(b), w, maxRecords);
    assert forall r :: r in a <==> r in Elements(a);
    assert forall r :: r in b <==> r in Elements(b);
    assert DealsOf(a, w) == DealsOf(b, w);
    var x, y := NormalizedDeals(Rows(a), w, maxRecords), NormalizedDeals(Rows(b), w, maxRecords);
    if x.Ok? && y.Ok? {
      OrderedIsUnique(x.value, y.value, ByTimeThenTicket);
    }
  }

  // ------------------------------------------------------------------ splitting a window

  /** A smaller window reads the same deal from a record, or none. */
  lemma NarrowerRead(r: Record, wide: HistoryWindow, narrow: HistoryWindow)
    requires wide.startMs <= narrow.startMs && narrow.endMs <= wide.endMs
    requires DealIn(r, wide).Ok?
    ensures DealIn(r, narrow).Ok?
    ensures var d := DealIn(r, wide).value;
            DealIn(r, narrow).value == if d.Some? && narrow.Contains(d.value.timeMs) then d else None
  {
  }

  lemma NarrowerDeals(rows: seq<Record>, wide: HistoryWindow, narrow: HistoryWindow)
    requires wide.startMs <= narrow.startMs && narrow.endMs <= wide.endMs
    requires AllReadable(rows, wide)
    ensures AllReadable(rows, narrow)
    ensures DealsOf(rows, narrow) == set d | d in DealsOf(rows, wide) && narrow.Contains(d.timeMs)
  {
    forall r | r in rows
      ensures DealIn(r, narrow).Ok?
      ensures var d := DealIn(r, wide).value;
              DealIn(r, narrow).value == if d.Some? && narrow.Contains(d.value.timeMs) then d else None
    {
      NarrowerRead(r, wide, narrow);
    }
    var kept := set d | d in DealsOf(rows, wide) && narrow.Contains(d.timeMs);
    forall d ensures d in DealsOf(rows, narrow) <==> d in kept {
      if d in DealsOf(rows, narrow) {
        var r :| r in rows && DealIn(r, narrow).Ok? && DealIn(r, narrow).value == Some(d);
        assert DealIn(r, wide).value == Some(d);
      }
      if d in kept {
        var r :| r in rows && DealIn(r, wide).Ok? && DealIn(r, wide).value == Some(d);
        assert DealIn(r, narrow).value == Some(d);
      }
    }
  }

  /** At any inner boundary the output is the concatenation of the two halves' outputs. */
  lemma SplitsAtBoundary(rows: seq<Record>, w: HistoryWindow, middleMs: nat, maxRecords: int)
    requires w.startMs < middleMs < w.endMs
    requires NormalizedDeals(Rows(rows), w, maxRecords).Ok?
    ensures var older := NormalizedDeals(Rows(rows), HistoryWindow(w.startMs, middleMs), maxRecords);
            var newer := NormalizedDeals(Rows(rows), HistoryWindow(middleMs, w.endMs), maxRecords);
            older.Ok? && newer.Ok? &&
            NormalizedDeals(Rows(rows), w, maxRecords).value == older.value + newer.value
  {
    var a, b := HistoryWindow(w.startMs, middleMs), HistoryWindow(middleMs, w.endMs);
    NormalizedIsExact(Rows(rows), w, maxRecords);
    NarrowerDeals(rows, w, a);
    NarrowerDeals(rows, w, b);
    NormalizedIsExact(Rows(rows), a, maxRecords);
    NormalizedIsExact(Rows(rows), b, maxRecords);
    JoinOrdered(NormalizedDeals(Rows(rows), a, maxRecords).value, NormalizedDeals(Rows(rows), b, maxRecords).value,
                NormalizedDeals(Rows(rows), w, maxRecords).value, middleMs);
  }

  /** Ordered parts below and from a boundary, with the elements of an ordered whole, make the whole. */
  lemma JoinOrdered(older: seq<Deal>, newer: seq<Deal>, whole: seq<Deal>, boundaryMs: nat)
    requires Ordered(older, ByTimeThenTicket) && Ordered(newer, ByTimeThenTicket) && Ordered(whole, ByTimeThenTicket)
    requires Elements(older) == set d | d in Elements(whole) && d.timeMs < boundaryMs
    requires Elements(newer) == set d | d in Elements(whole) && boundaryMs <= d.timeMs
    ensures whole == older + newer
  {
    forall i | 0 <= i < |older| ensures older[i].timeMs < boundaryMs { assert older[i] in Elements(older); }
    forall i | 0 <= i < |newer| ensures boundaryMs <= newer[i].timeMs { assert newer[i] in Elements(newer); }
    forall d ensures d in Elements(older + newer) <==> d in Elements(whole) {
      assert d in older + newer <==> d in Elements(older) || d in Elements(newer);
    }
    OrderedIsUnique(whole, older + newer, ByTimeThenTicket);
  }

  // ------------------------------------------------------------------ positions

  function PositionOf(record: Record): (r: Result<Position, DataError>)
    ensures r.Ok? ==> 0 < r.value.ticket <= UINT64_MAX && 0 < r.value.identifier <= UINT64_MAX
    ensures r.Err? ==> r.error.code == INVALID_RECORD
  {
    if record.NotARecord? then Err(Invalid(""))
    else
      var row := record.row;
      var ticket :- Id(row, "ticket", true);
      var identifier :- Id(row, "identifier", true);
      var timeMs :- Small(row, "time_msc");
      var updateMs :- Small(row, "time_update_msc");
      var kind :- Small(row, "type");
      var magic :- Id(row, "magic", false);
      var reason :- Small(row, "reason");
      var symbol :- Symbol(row);
      var volume :- Number(row, "volume", true);
      var priceOpen :- Number(row, "price_open", false);
      var priceCurrent :- Number(row, "price_current", false);
      var sl :- Number(row, "sl", false);
      var tp :- Number(row, "tp", false);
      var profit :- Number(row, "profit", false);
      var swap :- Number(row, "swap", false);
      Ok(Position(ticket, identifier, timeMs, updateMs, kind, magic, reason, symbol,
                  volume, priceOpen, priceCurrent, sl, tp, profit, swap))
  }

  function ByIdentifier(p: Position): Key {
    (p.identifier, 0)
  }

  ghost function PositionsOf(rows: seq<Record>): set<Position> {
    set r | r in rows && PositionOf(r).Ok? :: PositionOf(r).value
  }

  ghost predicate PositionsReadable(rows: seq<Record>) {
    forall r :: r in rows ==> PositionOf(r).Ok?
  }

  /** Distinct positions differ in identifier and in ticket. */
  ghost predicate InjectiveBoth(ps: set<Position>) {
    forall a, b :: a in ps && b in ps && (a.identifier == b.identifier || a.ticket == b.ticket) ==> a == b
  }

  /** The dictionary and tickets the loop builds from the remaining rows, or the first failure. */
  function GatherPositions(rows: seq<Record>, result: map<nat, Position>, tickets: set<nat>)
    : Result<map<nat, Position>, DataError>
  {
    if rows == [] then Ok(result)
    else
      var p :- PositionOf(rows[0]);
      if p.identifier in result then
        if result[p.identifier] != p then Err(DataError(CONFLICTING_POSITION, ""))
        else GatherPositions(rows[1..], result, tickets)
      else if p.ticket in tickets then Err(DataError(CONFLICTING_POSITION, ""))
      else GatherPositions(rows[1..], result[p.identifier := p], tickets + {p.ticket})
  }

  /** The dictionary so far, keyed by identifier, with the set of its tickets. */
  ghost predicate Filed(result: map<nat, Position>, tickets: set<nat>) {
    && (forall i :: i in result ==> result[i].identifier == i)
    && tickets == (set p | p in result.Values :: p.ticket)
    && InjectiveBoth(result.Values)
  }

  lemma FileOne(result: map<nat, Position>, tickets: set<nat>, p: Position)
    requires Filed(result, tickets) && p.identifier !in result && p.ticket !in tickets
    ensures Filed(result[p.identifier := p], tickets + {p.ticket})
    ensures result[p.identifier := p].Values == result.Values + {p}
  {
    var more := result[p.identifier := p];
    assert more[p.identifier] == p;
    forall q | q in result.Values ensures q in more.Values {
      var i :| i in result && result[i] == q;
      assert more[i] == q;
    }
    assert more.Values == result.Values + {p};
    assert forall q :: q in result.Values ==> q.ticket in tickets;
  }

  lemma {:induction false} GatherPositionsIsExact(rows: seq<Record>, result: map<nat, Position>, tickets: set<nat>)
    requires Filed(result, tickets)
    ensures var r := GatherPositions(rows, result, tickets);
            && (r.Ok? <==> PositionsReadable(rows) && InjectiveBoth(PositionsOf(rows) + result.Values))
            && (r.Ok? ==> r.value.Values == PositionsOf(rows) + result.Values &&
                          forall i :: i in r.value ==> r.value[i].identifier == i)
  {
    if rows == [] {
      assert PositionsOf(rows) + result.Values == result.Values;
    } else {
      assert rows == [rows[0]] + rows[1..];
      if PositionOf(rows[0]).Ok? {
        var p := PositionOf(rows[0]).value;
        assert PositionsOf(rows) == PositionsOf(rows[1..]) + {p};
        if p.identifier in result {
          assert result[p.identifier] in result.Values;
          if result[p.identifier] == p {
            GatherPositionsIsExact(rows[1..], result, tickets);
            assert PositionsOf(rows) + result.Values == PositionsOf(rows[1..]) + result.Values;
          }
        } else if p.ticket in tickets {
          var q :| q in result.Values && q.ticket == p.ticket;
          assert q != p;
        } else {
          FileOne(result, tickets, p);
          GatherPositionsIsExact(rows[1..], result[p.identifier := p], tickets + {p.ticket});
          assert PositionsOf(rows) + result.Values ==
                 PositionsOf(rows[1..]) + result[p.identifier := p].Values;
        }
      }
    }
  }

  /** What `normalize_positions` returns. */
  ghost function NormalizedPositions(records: Batch, maxRecords: int): Result<seq<Position>, DataError> {
    var rows :- Checked(records, POSITIONS_UNAVAILABLE, maxRecords);
    GatherPositionsIsExact(rows, map[], {});
    var result :- GatherPositions(rows, map[], {});
    Ok(InOrder(result.Values, ByIdentifier))
  }

  lemma PositionsAreExact(records: Batch, maxRecords: int)
    ensures var r := NormalizedPositions(records, maxRecords);
            && (r.Ok? <==> Checked(records, POSITIONS_UNAVAILABLE, maxRecords).Ok? &&
                           PositionsReadable(records.rows) && InjectiveBoth(PositionsOf(records.rows)))
            && (r.Ok? ==> Ordered(r.value, ByIdentifier) && Elements(r.value) == PositionsOf(records.rows))
  {
    if records.Rows? {
      GatherPositionsIsExact(records.rows, map[], {});
      var none: map<nat, Position> := map[];
      assert PositionsOf(records.rows) + none.Values == PositionsOf(records.rows);
    }
  }

  /**
   * Normalizes one response.  It succeeds exactly when every record is readable and
   * distinct positions are injective in both identifier and ticket.
   */
  method NormalizePositions(records: Batch, maxRecords: int) returns (r: Result<seq<Position>, DataError>)
    ensures r == NormalizedPositions(records, maxRecords)
    ensures r.Ok? <==>
            && Checked(records, POSITIONS_UNAVAILABLE, maxRecords).Ok?
            && PositionsReadable(records.rows) && InjectiveBoth(PositionsOf(records.rows))
    ensures r.Ok? ==> Ordered(r.value, ByIdentifier) && Elements(r.value) == PositionsOf(records.rows)
  {
    var batch := Checked(records, POSITIONS_UNAVAILABLE, maxRecords);
    if batch.Err? {
      return Err(batch.error);
    }
    var rows := batch.value;
    var result: map<nat, Position> := map[];
    var tickets: set<nat> := {};
    GatherPositionsIsExact(rows, result, tickets);
    assert PositionsOf(rows) + result.Values == PositionsOf(rows);
    for i := 0 to |rows|
      invariant GatherPositions(rows, map[], {}) == GatherPositions(rows[i..], result, tickets)
    {
      assert rows[i..][0] == rows[i] && rows[i..][1..] == rows[i + 1..];
      var parsed := PositionOf(rows[i]);
      if parsed.Err? {
        return Err(parsed.error);
      }
      var position := parsed.value;
      if position.identifier in result {
        if result[position.identifier] != position {
          return Err(DataError(CONFLICTING_POSITION, ""));
        }
      } else if position.ticket in tickets {
        return Err(DataError(CONFLICTING_POSITION, ""));
      } else {
        result := result[position.identifier := position];
        tickets := tickets + {position.ticket};
      }
    }
    assert rows[|rows|..] == [];
    var sorted := Sort(result.Values, ByIdentifier);
    r := Ok(sorted);
  }
}
