/**
 * Which field of a native record is reported where: stated on the records themselves,
 * field by field.
 */
module FieldLaws {
  import opened Outcomes
  import opened Contracts
  import opened Normalization

  // ------------------------------------------------------------------ what a text denotes

  predicate AreDigits(text: string) {
    text != "" && forall c | c in text :: '0' <= c <= '9'
  }

  /** The number a row of digits denotes. */
  function Numeral(text: string): int {
    if text == "" then 0
    else 10 * Numeral(text[..|text| - 1]) + (text[|text| - 1] as int - '0' as int)
  }

  /** The text is the number in decimal digits, with a sign exactly if it is negative. */
  predicate Denotes(text: string, n: int) {
    if n < 0 then |text| > 1 && text[0] == '-' && AreDigits(text[1..]) && Numeral(text[1..]) == -n
    else AreDigits(text) && Numeral(text) == n
  }

  lemma {:induction false} DigitsDenote(n: nat)
    ensures AreDigits(Digits(n)) && Numeral(Digits(n)) == n
  {
    var rest, last := if n < 10 then "" else Digits(n / 10), ('0' as int + n % 10) as char;
    if n >= 10 {
      DigitsDenote(n / 10);
    }
    assert Digits(n) == rest + [last];
    assert Digits(n)[..|rest|] == rest && Digits(n)[|rest|] == last;
    assert Numeral(rest) == n / 10;
  }

  // ------------------------------------------------------------------ single fields

  predicate HoldsInt(row: map<string, Value>, field: string, n: int) {
    field in row && row[field] == Int(n)
  }

  predicate HoldsText(row: map<string, Value>, field: string, s: string) {
    field in row && row[field] == Text(s)
  }

  /** The text denotes the field's number: an integer exactly, any other number in its own canonical form. */
  predicate HoldsMoney(row: map<string, Value>, field: string, text: string) {
    && field in row
    && match row[field]
       case Int(n) => Denotes(text, n)
       case Decimal(own, finite, _) => finite && text == own
       case _ => false
  }

  predicate IntWithin(row: map<string, Value>, field: string, least: int, most: int) {
    field in row && row[field].Int? && least <= row[field].n <= most
  }

  predicate MoneyGiven(row: map<string, Value>, field: string) {
    field in row && (row[field].Int? || (row[field].Decimal? && row[field].finite))
  }

  predicate NotNegative(row: map<string, Value>, field: string) {
    field in row && (row[field].Int? ==> row[field].n >= 0) && (row[field].Decimal? ==> !row[field].negative)
  }

  predicate SymbolGiven(row: map<string, Value>) {
    && "symbol" in row && row["symbol"].Text? && |row["symbol"].s| <= 256
    && forall c | c in row["symbol"].s :: c as int >= 32
  }

  lemma IdField(row: map<string, Value>, field: string, nonzero: bool)
    ensures Id(row, field, nonzero).Ok? <==> IntWithin(row, field, if nonzero then 1 else 0, 0xFFFF_FFFF_FFFF_FFFF)
    ensures Id(row, field, nonzero).Ok? ==> HoldsInt(row, field, Id(row, field, nonzero).value)
  {
  }

  lemma SmallField(row: map<string, Value>, field: string)
    ensures Small(row, field).Ok? <==> IntWithin(row, field, 0, 0x7FFF_FFFF_FFFF_FFFF)
    ensures Small(row, field).Ok? ==> HoldsInt(row, field, Small(row, field).value)
  {
  }

  lemma MoneyField(row: map<string, Value>, field: string, nonnegative: bool)
    ensures Number(row, field, nonnegative).Ok? <==>
            MoneyGiven(row, field) && (nonnegative ==> NotNegative(row, field))
    ensures Number(row, field, nonnegative).Ok? ==> HoldsMoney(row, field, Number(row, field, nonnegative).value)
  {
    if field in row && row[field].Int? {
      var n := row[field].n;
      DigitsDenote(if n < 0 then -n else n);
      if n < 0 {
        assert ("-" + Digits(-n))[1..] == Digits(-n);
      }
    }
  }

  lemma SymbolField(row: map<string, Value>)
    ensures Symbol(row).Ok? <==> SymbolGiven(row)
    ensures Symbol(row).Ok? ==> HoldsText(row, "symbol", Symbol(row).value)
  {
  }

  // ------------------------------------------------------------------ deals

  predicate DealNumbers(row: map<string, Value>, d: Deal) {
    && HoldsInt(row, "ticket", d.ticket) && HoldsInt(row, "order", d.order)
    && HoldsInt(row, "position_id", d.positionId) && HoldsInt(row, "time_msc", d.timeMs)
    && HoldsInt(row, "type", d.kind) && HoldsInt(row, "entry", d.entry)
    && HoldsInt(row, "magic", d.magic) && HoldsInt(row, "reason", d.reason)
  }

  predicate DealAmounts(row: map<string, Value>, d: Deal) {
    && HoldsText(row, "symbol", d.symbol)
    && HoldsMoney(row, "volume", d.volume) && HoldsMoney(row, "price", d.price)
    && HoldsMoney(row, "profit", d.profit) && HoldsMoney(row, "commission", d.commission)
    && HoldsMoney(row, "swap", d.swap) && HoldsMoney(row, "fee", d.fee)
  }

  /** The deal reports the record: every one of its fifteen values is that of the field of its name. */
  predicate ReportsDeal(record: Record, d: Deal) {
    record.Fields? && DealNumbers(record.row, d) && DealAmounts(record.row, d)
  }

  predicate DealIdsGiven(row: map<string, Value>) {
    && IntWithin(row, "ticket", 1, 0xFFFF_FFFF_FFFF_FFFF)
    && IntWithin(row, "order", 0, 0xFFFF_FFFF_FFFF_FFFF)
    && IntWithin(row, "position_id", 0, 0xFFFF_FFFF_FFFF_FFFF)
    && IntWithin(row, "magic", 0, 0xFFFF_FFFF_FFFF_FFFF)
    && IntWithin(row, "type", 0, 0x7FFF_FFFF_FFFF_FFFF)
    && IntWithin(row, "entry", 0, 0x7FFF_FFFF_FFFF_FFFF)
    && IntWithin(row, "reason", 0, 0x7FFF_FFFF_FFFF_FFFF)
  }

  predicate DealAmountsGiven(row: map<string, Value>) {
    && SymbolGiven(row)
    && MoneyGiven(row, "volume") && NotNegative(row, "volume") && MoneyGiven(row, "price")
    && MoneyGiven(row, "profit") && MoneyGiven(row, "commission") && MoneyGiven(row, "swap") && MoneyGiven(row, "fee")
  }

  lemma DealNumbersRead(row: map<string, Value>)
    ensures DealIdsGiven(row) <==>
            && Id(row, "ticket", true).Ok? && Id(row, "order", false).Ok? && Id(row, "position_id", false).Ok?
            && Id(row, "magic", false).Ok? && Small(row, "type").Ok? && Small(row, "entry").Ok?
            && Small(row, "reason").Ok?
  {
    IdField(row, "ticket", true);
    IdField(row, "order", false);
    IdField(row, "position_id", false);
    IdField(row, "magic", false);
    SmallField(row, "type");
    SmallField(row, "entry");
    SmallField(row, "reason");
  }

  lemma DealAmountsRead(row: map<string, Value>)
    ensures DealAmountsGiven(row) <==>
            && Symbol(row).Ok? && Number(row, "volume", true).Ok? && Number(row, "price", false).Ok?
            && Number(row, "profit", false).Ok? && Number(row, "commission", false).Ok?
            && Number(row, "swap", false).Ok? && Number(row, "fee", false).Ok?
  {
    SymbolField(row);
    MoneyField(row, "volume", true);
    MoneyField(row, "price", false);
    MoneyField(row, "profit", false);
    MoneyField(row, "commission", false);
    MoneyField(row, "swap", false);
    MoneyField(row, "fee", false);
  }

  /** A record of the window is read exactly if all its fields are given, and then reported as they are. */
  lemma DealReported(record: Record, w: HistoryWindow)
    ensures DealIn(record, w).Ok? <==>
            && record.Fields? && IntWithin(record.row, "time_msc", 0, 0x7FFF_FFFF_FFFF_FFFF)
            && (w.Contains(record.row["time_msc"].n) ==> DealIdsGiven(record.row) && DealAmountsGiven(record.row))
    ensures DealIn(record, w).Ok? ==>
              (DealIn(record, w).value.Some? <==> w.Contains(record.row["time_msc"].n))
    ensures DealIn(record, w).Ok? && DealIn(record, w).value.Some? ==>
              ReportsDeal(record, DealIn(record, w).value.value)
  {
    if record.Fields? {
      var row := record.row;
      SmallField(row, "time_msc");
      DealNumbersRead(row);
      DealAmountsRead(row);
      if Small(row, "time_msc").Ok? && ParseDeal(row, Small(row, "time_msc").value).Ok? {
        NumbersReported(row, Small(row, "time_msc").value);
        AmountsReported(row, Small(row, "time_msc").value);
      }
    }
  }

  lemma NumbersReported(row: map<string, Value>, timeMs: nat)
    requires ParseDeal(row, timeMs).Ok? && HoldsInt(row, "time_msc", timeMs)
    ensures DealNumbers(row, ParseDeal(row, timeMs).value)
  {
    IdField(row, "ticket", true);
    IdField(row, "order", false);
    IdField(row, "position_id", false);
    IdField(row, "magic", false);
    SmallField(row, "type");
    SmallField(row, "entry");
    SmallField(row, "reason");
  }

  lemma AmountsReported(row: map<string, Value>, timeMs: nat)
    requires ParseDeal(row, timeMs).Ok?
    ensures DealAmounts(row, ParseDeal(row, timeMs).value)
  {
    SymbolField(row);
    MoneyField(row, "volume", true);
    MoneyField(row, "price", false);
    MoneyField(row, "profit", false);
    MoneyField(row, "commission", false);
    MoneyField(row, "swap", false);
    MoneyField(row, "fee", false);
  }

  /** The record lies in the window. */
  predicate Within(record: Record, w: HistoryWindow) {
    record.Fields? && exists n | n in TimeOf(record) :: w.Contains(n)
  }

  function TimeOf(record: Record): set<int> {
    if record.Fields? && "time_msc" in record.row && record.row["time_msc"].Int? then {record.row["time_msc"].n} else {}
  }

  predicate DealGiven(record: Record, w: HistoryWindow) {
    && record.Fields? && IntWithin(record.row, "time_msc", 0, 0x7FFF_FFFF_FFFF_FFFF)
    && (Within(record, w) ==> DealIdsGiven(record.row) && DealAmountsGiven(record.row))
  }

  /**
   * Whatever deals a response gives, each is some record of the window, field by field,
   * and each record of the window is one of them.
   */
  lemma DealsAreRecords(records: Batch, w: HistoryWindow, maxRecords: int)
    requires NormalizedDeals(records, w, maxRecords).Ok?
    ensures records.Rows?
    ensures forall d :: d in NormalizedDeals(records, w, maxRecords).value ==>
              exists r :: r in records.rows && Within(r, w) && ReportsDeal(r, d)
    ensures forall r :: r in records.rows ==> DealGiven(r, w)
    ensures forall r :: r in records.rows && Within(r, w) ==>
              exists d :: d in NormalizedDeals(records, w, maxRecords).value && ReportsDeal(r, d)
  {
    NormalizedIsExact(records, w, maxRecords);
    var rows, deals := records.rows, NormalizedDeals(records, w, maxRecords).value;
    forall r | r in rows
      ensures DealGiven(r, w)
      ensures Within(r, w) ==> exists d :: d in deals && ReportsDeal(r, d)
    {
      DealReported(r, w);
      if Within(r, w) {
        var d := DealIn(r, w).value.value;
        assert d in DealsOf(rows, w);
        assert d in deals && ReportsDeal(r, d);
      }
    }
    forall d | d in deals ensures exists r :: r in rows && Within(r, w) && ReportsDeal(r, d) {
      assert d in DealsOf(rows, w);
      var r :| r in rows && DealIn(r, w).Ok? && DealIn(r, w).value == Some(d);
      DealReported(r, w);
      assert Within(r, w);
    }
  }

  // ------------------------------------------------------------------ positions

  predicate PositionNumbers(row: map<string, Value>, p: Position) {
    && HoldsInt(row, "ticket", p.ticket) && HoldsInt(row, "identifier", p.identifier)
    && HoldsInt(row, "time_msc", p.timeMs) && HoldsInt(row, "time_update_msc", p.updateMs)
    && HoldsInt(row, "type", p.kind) && HoldsInt(row, "magic", p.magic) && HoldsInt(row, "reason", p.reason)
  }

  predicate PositionAmounts(row: map<string, Value>, p: Position) {
    && HoldsText(row, "symbol", p.symbol)
    && HoldsMoney(row, "volume", p.volume) && HoldsMoney(row, "price_open", p.priceOpen)
    && HoldsMoney(row, "price_current", p.priceCurrent) && HoldsMoney(row, "sl", p.sl) && HoldsMoney(row, "tp", p.tp)
    && HoldsMoney(row, "profit", p.profit) && HoldsMoney(row, "swap", p.swap)
  }

  /** The position reports the record, value by value. */
  predicate ReportsPosition(record: Record, p: Position) {
    record.Fields? && PositionNumbers(record.row, p) && PositionAmounts(record.row, p)
  }

  predicate PositionIdsGiven(row: map<string, Value>) {
    && IntWithin(row, "ticket", 1, 0xFFFF_FFFF_FFFF_FFFF)
    && IntWithin(row, "identifier", 1, 0xFFFF_FFFF_FFFF_FFFF)
    && IntWithin(row, "magic", 0, 0xFFFF_FFFF_FFFF_FFFF)
    && IntWithin(row, "time_msc", 0, 0x7FFF_FFFF_FFFF_FFFF)
    && IntWithin(row, "time_update_msc", 0, 0x7FFF_FFFF_FFFF_FFFF)
    && IntWithin(row, "type", 0, 0x7FFF_FFFF_FFFF_FFFF)
    && IntWithin(row, "reason", 0, 0x7FFF_FFFF_FFFF_FFFF)
  }

  predicate PositionAmountsGiven(row: map<string, Value>) {
    && SymbolGiven(row)
    && MoneyGiven(row, "volume") && NotNegative(row, "volume")
    && MoneyGiven(row, "price_open") && MoneyGiven(row, "price_current") && MoneyGiven(row, "sl")
    && MoneyGiven(row, "tp") && MoneyGiven(row, "profit") && MoneyGiven(row, "swap")
  }

  predicate PositionGiven(record: Record) {
    record.Fields? && PositionIdsGiven(record.row) && PositionAmountsGiven(record.row)
  }

  lemma PositionNumbersRead(row: map<string, Value>)
    ensures PositionIdsGiven(row) <==>
            && Id(row, "ticket", true).Ok? && Id(row, "identifier", true).Ok? && Small(row, "time_msc").Ok?
            && Small(row, "time_update_msc").Ok? && Small(row, "type").Ok? && Id(row, "magic", false).Ok?
            && Small(row, "reason").Ok?
    ensures PositionOf(Fields(row)).Ok? ==> PositionNumbers(row, PositionOf(Fields(row)).value)
  {
    IdField(row, "ticket", true);
    IdField(row, "identifier", true);
    IdField(row, "magic", false);
    SmallField(row, "time_msc");
    SmallField(row, "time_update_msc");
    SmallField(row, "type");
    SmallField(row, "reason");
  }

  lemma PositionAmountsRead(row: map<string, Value>)
    ensures PositionAmountsGiven(row) <==>
            && Symbol(row).Ok? && Number(row, "volume", true).Ok? && Number(row, "price_open", false).Ok?
            && Number(row, "price_current", false).Ok? && Number(row, "sl", false).Ok?
            && Number(row, "tp", false).Ok? && Number(row, "profit", false).Ok? && Number(row, "swap", false).Ok?
    ensures PositionOf(Fields(row)).Ok? ==> PositionAmounts(row, PositionOf(Fields(row)).value)
  {
    SymbolField(row);
    MoneyField(row, "volume", true);
    MoneyField(row, "price_open", false);
    MoneyField(row, "price_current", false);
    MoneyField(row, "sl", false);
    MoneyField(row, "tp", false);
    MoneyField(row, "profit", false);
    MoneyField(row, "swap", false);
  }

  /** A record is read exactly if all its fields are given, and then reported as they are. */
  lemma PositionReported(record: Record)
    ensures PositionOf(record).Ok? <==> PositionGiven(record)
    ensures PositionOf(record).Ok? ==> ReportsPosition(record, PositionOf(record).value)
  {
    if record.Fields? {
      PositionNumbersRead(record.row);
      PositionAmountsRead(record.row);
      assert record == Fields(record.row);
    }
  }

  /** Whatever positions a response gives are its records, field by field, and every record is one of them. */
  lemma PositionsAreRecords(records: Batch, maxRecords: int)
    requires NormalizedPositions(records, maxRecords).Ok?
    ensures records.Rows?
    ensures forall p :: p in NormalizedPositions(records, maxRecords).value ==>
              exists r :: r in records.rows && ReportsPosition(r, p)
    ensures forall r :: r in records.rows ==>
              && PositionGiven(r)
              && exists p :: p in NormalizedPositions(records, maxRecords).value && ReportsPosition(r, p)
  {
    PositionsAreExact(records, maxRecords);
    var rows, held := records.rows, NormalizedPositions(records, maxRecords).value;
    forall r | r in rows ensures PositionGiven(r) && exists p :: p in held && ReportsPosition(r, p) {
      PositionReported(r);
      assert PositionOf(r).value in PositionsOf(rows);
      assert PositionOf(r).value in held;
    }
    forall p | p in held ensures exists r :: r in rows && ReportsPosition(r, p) {
      assert p in PositionsOf(rows);
      var r :| r in rows && PositionOf(r) == Ok(p);
      PositionReported(r);
    }
  }
}
