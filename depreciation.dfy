/** The fixed-asset record and its depreciation engine (backend/models/asetModel.js).

    `calculateDepreciation` gives the as-of-now snapshot (accumulated depreciation,
    book value, annual depreciation); `getDepreciationSchedule` gives the
    year-by-year amortisation table. Both support the straight-line and the
    double-declining-balance methods of PSAK 16 (IAS 16, paragraph 62); the
    depreciable amount is cost minus residual value (IAS 16, paragraph 53).
    Each operation is a method that runs the source's loop, proved equal to a
    specification function; DepreciationFacts proves what those functions promise. */
module Depreciation {
  import opened Money
  import opened Text

  /** `1000 * 60 * 60 * 24 * 30.44`: the average month, in milliseconds. */
  const MS_PER_MONTH: int := 2630016000

  const STRAIGHT_LINE: string := "straight-line"
  const DECLINING_BALANCE: string := "declining-balance"

  const CATEGORIES: seq<string> :=
    ["Tanah", "Bangunan", "Mesin", "Kendaraan", "Peralatan", "Furniture", "Komputer", "Lainnya"]
  const METHODS: seq<string> := [STRAIGHT_LINE, DECLINING_BALANCE]

  /** The `depreciation_method` column. The schema admits only the two named methods;
      the engine still has a branch for any other value, kept here as `Unrecognised`. */
  datatype Method = StraightLine | DecliningBalance | Unrecognised(name: string)

  /** The method a `depreciation_method` string names. */
  function MethodNamed(name: string): (m: Method)
    ensures m == StraightLine <==> name == STRAIGHT_LINE
    ensures m == DecliningBalance <==> name == DECLINING_BALANCE
    ensures m.Unrecognised? <==> name !in METHODS
  {
    if name == STRAIGHT_LINE then StraightLine
    else if name == DECLINING_BALANCE then DecliningBalance
    else Unrecognised(name)
  }
  const STATUSES: seq<string> := ["active", "disposed", "sold"]

  /** A stored row of the `assets` table. `acquiredMs` is the acquisition date as
      the instant (milliseconds since the epoch) at which that day begins. */
  datatype AssetRow = AssetRow(
    id: nat,
    assetName: string,
    category: string,
    acquiredMs: int,
    cost: real,          // acquisition_cost
    usefulLife: int,     // years
    depreciationMethod: Method,
    residual: real,      // residual_value
    bookValue: real,     // stored book_value (set at creation, reset when the cost changes)
    accumulated: real,   // stored accumulated_depreciation
    status: string)

  /** The per-column validations of the `Asset` schema, which every stored row passes. */
  predicate SchemaValid(a: AssetRow)
  {
    && !Blank(a.assetName)
    && a.category in CATEGORIES
    && a.cost >= 0.0
    && a.usefulLife >= 1
    && !a.depreciationMethod.Unrecognised?
    && a.residual >= 0.0
    && a.status in STATUSES
  }

  // ---------------------------------------------------------------- elapsed time

  /** `Math.floor((now - acquired) / MS_PER_MONTH)`: whole average months elapsed,
      negative when `now` precedes the acquisition. */
  function MonthsElapsed(acquiredMs: int, nowMs: int): (m: int)
    ensures m * MS_PER_MONTH <= nowMs - acquiredMs < (m + 1) * MS_PER_MONTH
  {
    (nowMs - acquiredMs) / MS_PER_MONTH
  }

  /** `monthsElapsed / 12`, a fractional number of years. */
  function YearsElapsed(acquiredMs: int, nowMs: int): real
  {
    MonthsElapsed(acquiredMs, nowMs) as real / 12.0
  }

  /** `Math.floor(yearsElapsed)`: whole years elapsed. */
  function WholeYears(acquiredMs: int, nowMs: int): (n: int)
    ensures n == YearsElapsed(acquiredMs, nowMs).Floor
  {
    var m := MonthsElapsed(acquiredMs, nowMs);
    assert m == 12 * (m / 12) + m % 12;
    assert (m / 12) as real <= m as real / 12.0 < (m / 12) as real + 1.0;
    m / 12
  }

  // ---------------------------------------------------------------- snapshot

  datatype Snapshot = Snapshot(accumulated: real, bookValue: real, annual: real)

  /** Running book value and accumulated depreciation of the declining-balance loop. */
  datatype Balance = Balance(bookValue: real, accumulated: real)

  /** The depreciation of one declining-balance year: the rate applied to the
      book value, but never more than what is left above the residual value. */
  function DecliningCharge(bookValue: real, residual: real, rate: real): real
  {
    Min(bookValue * rate, bookValue - residual)
  }

  /** Applies `years` whole declining-balance years to `b`, stopping right after
      the year that brings the book value down to the residual value. */
  function DecliningYears(b: Balance, residual: real, rate: real, years: int): Balance
    decreases years
  {
    if years <= 0 then b
    else
      var d := DecliningCharge(b.bookValue, residual, rate);
      var next := Balance(b.bookValue - d, b.accumulated + d);
      if next.bookValue <= residual then next
      else DecliningYears(next, residual, rate, years - 1)
  }

  /** `2 / useful_life` */
  function DecliningRate(a: AssetRow): real
    requires a.usefulLife >= 1
  {
    2.0 / a.usefulLife as real
  }

  /** `(cost - residual) / useful_life` */
  function StraightLineAnnual(a: AssetRow): real
    requires a.usefulLife >= 1
  {
    (a.cost - a.residual) / a.usefulLife as real
  }

  /** The snapshot before cent rounding. */
  function RawSnapshot(a: AssetRow, nowMs: int): Snapshot
    requires a.usefulLife >= 1
  {
    if a.depreciationMethod == StraightLine then
      var annual := StraightLineAnnual(a);
      var accumulated := Min(annual * YearsElapsed(a.acquiredMs, nowMs), a.cost - a.residual);
      Snapshot(accumulated, a.cost - accumulated, annual)
    else if a.depreciationMethod == DecliningBalance then
      var b := DecliningYears(Balance(a.cost, 0.0), a.residual, DecliningRate(a), WholeYears(a.acquiredMs, nowMs));
      Snapshot(b.accumulated, b.bookValue, b.bookValue * DecliningRate(a))
    else
      Snapshot(0.0, a.cost, 0.0)
  }

  function RoundSnapshot(s: Snapshot): Snapshot
  {
    Snapshot(Round2(s.accumulated), Round2(s.bookValue), Round2(s.annual))
  }

  /** The snapshot `calculateDepreciation` returns at instant `nowMs`. */
  function CurrentSnapshot(a: AssetRow, nowMs: int): Snapshot
    requires a.usefulLife >= 1
  {
    RoundSnapshot(RawSnapshot(a, nowMs))
  }

  /** The `for` loop of the declining-balance branch of `calculateDepreciation`:
      `years` whole years from book value `cost`, leaving the loop once the book
      value is down to the residual value. */
  method ApplyDecliningYears(cost: real, residual: real, rate: real, years: int) returns (b: Balance)
    ensures b == DecliningYears(Balance(cost, 0.0), residual, rate, years)
  {
    var currentBookValue := cost;
    var accumulatedDepreciation := 0.0;
    ghost var target := DecliningYears(Balance(cost, 0.0), residual, rate, years);
    var year := 0;
    while year < years
      invariant years <= 0 ==> year == 0
      invariant years > 0 ==> 0 <= year <= years
      invariant target == DecliningYears(Balance(currentBookValue, accumulatedDepreciation), residual, rate, years - year)
    {
      var yearDepreciation := currentBookValue * rate;
      var maxDepreciation := currentBookValue - residual;
      var actualDepreciation := Min(yearDepreciation, maxDepreciation);
      accumulatedDepreciation := accumulatedDepreciation + actualDepreciation;
      currentBookValue := currentBookValue - actualDepreciation;
      if currentBookValue <= residual {
        break;
      }
      year := year + 1;
    }
    b := Balance(currentBookValue, accumulatedDepreciation);
  }

  /** `Asset.prototype.calculateDepreciation(currentDate)` */
  method CalculateDepreciation(a: AssetRow, nowMs: int) returns (s: Snapshot)
    requires a.usefulLife >= 1
    ensures s == CurrentSnapshot(a, nowMs)
  {
    var monthsElapsed := (nowMs - a.acquiredMs) / MS_PER_MONTH;
    var yearsElapsed := monthsElapsed as real / 12.0;
    assert yearsElapsed == YearsElapsed(a.acquiredMs, nowMs);
    var depreciationExpense := 0.0;
    var accumulatedDepreciation := 0.0;
    var bookValue := a.cost;
    var depreciableAmount := a.cost - a.residual;
    if a.depreciationMethod == StraightLine {
      var annualDepreciation := depreciableAmount / a.usefulLife as real;
      assert annualDepreciation == StraightLineAnnual(a);
      accumulatedDepreciation := Min(annualDepreciation * yearsElapsed, depreciableAmount);
      bookValue := a.cost - accumulatedDepreciation;
      depreciationExpense := annualDepreciation;
      assert Snapshot(accumulatedDepreciation, bookValue, depreciationExpense) == RawSnapshot(a, nowMs);
    } else if a.depreciationMethod == DecliningBalance {
      var rate := 2.0 / a.usefulLife as real;
      assert rate == DecliningRate(a);
      assert monthsElapsed / 12 == WholeYears(a.acquiredMs, nowMs);
      var b := ApplyDecliningYears(a.cost, a.residual, rate, monthsElapsed / 12);
      accumulatedDepreciation := b.accumulated;
      bookValue := b.bookValue;
      depreciationExpense := bookValue * rate;
      assert Snapshot(accumulatedDepreciation, bookValue, depreciationExpense) == RawSnapshot(a, nowMs);
    }
    s := Snapshot(Round2(accumulatedDepreciation), Round2(bookValue), Round2(depreciationExpense));
  }

  // ---------------------------------------------------------------- schedule

  /** One row of the amortisation table. */
  datatype ScheduleEntry = ScheduleEntry(
    year: int,
    beginning: real,     // beginning_book_value
    expense: real,       // depreciation_expense
    accumulated: real,   // accumulated_depreciation
    ending: real)        // ending_book_value

  /** Straight-line rows from `year` to `life`, starting from book value `bookValue`
      and accumulated depreciation `accumulated`. */
  function StraightLineEntries(year: int, life: int, bookValue: real, accumulated: real,
                               residual: real, annual: real): seq<ScheduleEntry>
    decreases life - year
  {
    if year > life then []
    else
      var d := Min(annual, bookValue - residual);
      [ScheduleEntry(year, bookValue, d, accumulated + d, bookValue - d)]
        + StraightLineEntries(year + 1, life, bookValue - d, accumulated + d, residual, annual)
  }

  /** Declining-balance rows from `year` to at most `life`: nothing once the charge is
      not positive, and nothing after the row whose ending book value reaches the
      residual value. */
  function DecliningEntries(year: int, life: int, bookValue: real, accumulated: real,
                            residual: real, rate: real): seq<ScheduleEntry>
    decreases life - year
  {
    if year > life then []
    else
      var d := DecliningCharge(bookValue, residual, rate);
      if d <= 0.0 then []
      else
        var entry := ScheduleEntry(year, bookValue, d, accumulated + d, bookValue - d);
        if bookValue - d <= residual then [entry]
        else [entry] + DecliningEntries(year + 1, life, bookValue - d, accumulated + d, residual, rate)
  }

  /** The table before cent rounding; empty for an unrecognised method. */
  function RawSchedule(a: AssetRow): seq<ScheduleEntry>
    requires a.usefulLife >= 1
  {
    if a.depreciationMethod == StraightLine then
      StraightLineEntries(1, a.usefulLife, a.cost, 0.0, a.residual, StraightLineAnnual(a))
    else if a.depreciationMethod == DecliningBalance then
      DecliningEntries(1, a.usefulLife, a.cost, 0.0, a.residual, DecliningRate(a))
    else []
  }

  /** Each emitted field is rounded to cents on its own. */
  function RoundEntry(e: ScheduleEntry): ScheduleEntry
  {
    ScheduleEntry(e.year, Round2(e.beginning), Round2(e.expense), Round2(e.accumulated), Round2(e.ending))
  }

  /** The straight-line loop of `getDepreciationSchedule`: `life` rows of
      `min(annual, bookValue - residual)` each, every field rounded as it is emitted. */
  method StraightLineRows(life: int, cost: real, residual: real, annual: real)
    returns (schedule: seq<ScheduleEntry>)
    ensures |schedule| == |StraightLineEntries(1, life, cost, 0.0, residual, annual)|
    ensures forall i :: 0 <= i < |schedule| ==>
              schedule[i] == RoundEntry(StraightLineEntries(1, life, cost, 0.0, residual, annual)[i])
  {
    schedule := [];
    var bookValue := cost;
    var accumulatedDepreciation := 0.0;
    ghost var raw: seq<ScheduleEntry> := [];
    ghost var target := StraightLineEntries(1, life, cost, 0.0, residual, annual);
    var year := 1;
    while year <= life
      invariant year >= 1 && (life >= 1 ==> year <= life + 1)
      invariant target == raw + StraightLineEntries(year, life, bookValue, accumulatedDepreciation, residual, annual)
      invariant |schedule| == |raw|
      invariant forall i :: 0 <= i < |raw| ==> schedule[i] == RoundEntry(raw[i])
    {
      var depreciation := Min(annual, bookValue - residual);
      ghost var rest := StraightLineEntries(year, life, bookValue, accumulatedDepreciation, residual, annual);
      accumulatedDepreciation := accumulatedDepreciation + depreciation;
      bookValue := bookValue - depreciation;
      var entry := ScheduleEntry(year, bookValue + depreciation, depreciation, accumulatedDepreciation, bookValue);
      schedule := schedule + [RoundEntry(entry)];
      raw := raw + [entry];
      assert rest == [entry] + StraightLineEntries(year + 1, life, bookValue, accumulatedDepreciation, residual, annual);
      year := year + 1;
    }
    assert target == raw + [];
  }

  /** The declining-balance loop of `getDepreciationSchedule`: at most `life` rows,
      leaving the loop when the charge is not positive or right after the row
      that brings the book value down to the residual value. */
  method DecliningBalanceRows(life: int, cost: real, residual: real, rate: real)
    returns (schedule: seq<ScheduleEntry>)
    ensures |schedule| == |DecliningEntries(1, life, cost, 0.0, residual, rate)|
    ensures forall i :: 0 <= i < |schedule| ==>
              schedule[i] == RoundEntry(DecliningEntries(1, life, cost, 0.0, residual, rate)[i])
  {
    schedule := [];
    var bookValue := cost;
    var accumulatedDepreciation := 0.0;
    ghost var raw: seq<ScheduleEntry> := [];
    ghost var target := DecliningEntries(1, life, cost, 0.0, residual, rate);
    var year := 1;
    while year <= life
      invariant year >= 1 && (life >= 1 ==> year <= life + 1)
      invariant target == raw + DecliningEntries(year, life, bookValue, accumulatedDepreciation, residual, rate)
      invariant |schedule| == |raw|
      invariant forall i :: 0 <= i < |raw| ==> schedule[i] == RoundEntry(raw[i])
    {
      var beginningBookValue := bookValue;
      var depreciation := Min(bookValue * rate, bookValue - residual);
      ghost var rest := DecliningEntries(year, life, bookValue, accumulatedDepreciation, residual, rate);
      if depreciation <= 0.0 {
        assert rest == [];
        break;
      }
      accumulatedDepreciation := accumulatedDepreciation + depreciation;
      bookValue := bookValue - depreciation;
      var entry := ScheduleEntry(year, beginningBookValue, depreciation, accumulatedDepreciation, bookValue);
      schedule := schedule + [RoundEntry(entry)];
      raw := raw + [entry];
      if bookValue <= residual {
        assert rest == [entry];
        break;
      }
      assert rest == [entry] + DecliningEntries(year + 1, life, bookValue, accumulatedDepreciation, residual, rate);
      year := year + 1;
    }
    assert target == raw + [];
  }

  /** `Asset.prototype.getDepreciationSchedule()`; empty for an unrecognised method. */
  method DepreciationSchedule(a: AssetRow) returns (schedule: seq<ScheduleEntry>)
    requires a.usefulLife >= 1
    ensures |schedule| == |RawSchedule(a)|
    ensures forall i :: 0 <= i < |schedule| ==> schedule[i] == RoundEntry(RawSchedule(a)[i])
  {
    schedule := [];
    var depreciableAmount := a.cost - a.residual;
    if a.depreciationMethod == StraightLine {
      var annualDepreciation := depreciableAmount / a.usefulLife as real;
      schedule := StraightLineRows(a.usefulLife, a.cost, a.residual, annualDepreciation);
    } else if a.depreciationMethod == DecliningBalance {
      var rate := 2.0 / a.usefulLife as real;
      schedule := DecliningBalanceRows(a.usefulLife, a.cost, a.residual, rate);
    }
  }
}
