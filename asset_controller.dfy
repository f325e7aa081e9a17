/** The asset request handlers around the depreciation engine: creation with its
    required fields and defaults, the partial-update rule, the enriched listing, the
    summary report and the dashboard statistics. Stored rows are values; the table
    the handlers change is a map from id to row. */
module AssetController {
  import opened Wrappers
  import opened Money
  import opened Text
  import opened Depreciation
  import opened Grouping

  // ---------------------------------------------------------------- requests

  /** The fields of a create or update request body, numbers already parsed. An empty
      string or `None` stands for a field that was not sent; `Some(x)` for a number
      that was. */
  datatype AssetInput = AssetInput(
    assetName: string,
    category: string,
    acquiredMs: Option<int>,
    cost: Option<real>,
    usefulLife: Option<int>,
    depreciationMethod: string,
    residual: Option<real>,
    status: string)

  /** JavaScript truthiness of a parsed number: sent and not zero. */
  predicate Truthy(x: Option<real>)
  {
    x.Some? && x.value != 0.0
  }

  predicate TruthyInt(x: Option<int>)
  {
    x.Some? && x.value != 0
  }

  /** A body that sends nothing. */
  const NoFields := AssetInput("", "", None, None, None, "", None, "")

  /** What the handlers answer. */
  datatype Response =
    | BadRequest(error: string)          // 400
    | NotFound                           // 404
    | ServerError                        // 500: the row failed the schema's validation
    | Saved(row: AssetRow, current: Snapshot)

  // ---------------------------------------------------------------- createAsset

  /** The five fields `createAsset` requires, each of which must be truthy. */
  predicate HasRequiredFields(input: AssetInput)
  {
    && input.assetName != ""
    && input.category != ""
    && input.acquiredMs.Some?
    && Truthy(input.cost)
    && TruthyInt(input.usefulLife)
  }

  /** The row `createAsset` hands to the store: none when a required field is missing;
      otherwise the method defaults to straight-line, the residual value to zero, the
      status to active, the stored book value is the cost and nothing is accumulated. */
  function NewAssetRow(input: AssetInput, id: nat): (r: Option<AssetRow>)
    ensures r.None? <==> !HasRequiredFields(input)
    ensures r.Some? ==>
      && r.value.id == id
      && r.value.assetName == input.assetName && r.value.category == input.category
      && r.value.acquiredMs == input.acquiredMs.value && r.value.usefulLife == input.usefulLife.value
      && r.value.bookValue == r.value.cost == input.cost.value
      && r.value.accumulated == 0.0
      && r.value.depreciationMethod == (if input.depreciationMethod == "" then StraightLine else MethodNamed(input.depreciationMethod))
      && r.value.residual == (if input.residual.Some? then input.residual.value else 0.0)
      && r.value.status == (if input.status == "" then "active" else input.status)
  {
    if !HasRequiredFields(input) then None
    else
      Some(AssetRow(
        id,
        input.assetName,
        input.category,
        input.acquiredMs.value,
        input.cost.value,
        input.usefulLife.value,
        if input.depreciationMethod != "" then MethodNamed(input.depreciationMethod) else StraightLine,
        input.residual.GetOr(0.0),
        input.cost.value,
        0.0,
        if input.status != "" then input.status else "active"))
  }

  /** A request that sends a non-blank name, a known category, a positive cost, a useful
      life of at least one year and nothing else creates a row that passes the schema:
      the defaults (straight-line, residual value zero, active) are all valid. */
  lemma DefaultsPassSchema(input: AssetInput, id: nat)
    requires !Blank(input.assetName) && input.category in CATEGORIES && input.acquiredMs.Some?
    requires input.cost.Some? && input.cost.value > 0.0
    requires input.usefulLife.Some? && input.usefulLife.value >= 1
    requires input.depreciationMethod == "" && input.residual.None? && input.status == ""
    ensures NewAssetRow(input, id).Some?
    ensures SchemaValid(NewAssetRow(input, id).value)
    ensures NewAssetRow(input, id).value.depreciationMethod == StraightLine
  {
  }

  /** A newly created asset, valued on its acquisition date, shows no depreciation yet
      and is carried at its cost, whichever method it uses. */
  lemma NewAssetUndepreciated(input: AssetInput, id: nat)
    requires NewAssetRow(input, id).Some?
    requires SchemaValid(NewAssetRow(input, id).value)
    requires input.residual.GetOr(0.0) <= input.cost.value
    ensures var a := NewAssetRow(input, id).value;
      && RawSnapshot(a, a.acquiredMs).accumulated == 0.0
      && RawSnapshot(a, a.acquiredMs).bookValue == a.cost
  {
    var a := NewAssetRow(input, id).value;
    assert MonthsElapsed(a.acquiredMs, a.acquiredMs) == 0;
    assert WholeYears(a.acquiredMs, a.acquiredMs) == 0;
  }

  // ---------------------------------------------------------------- updateAsset

  /** The row after `updateAsset`'s assignments: each field sent with a truthy value
      replaces the stored one (a new cost also becomes the stored book value), the
      residual value is replaced whenever it is sent, even as zero, and everything
      else is kept. */
  function ApplyUpdate(a: AssetRow, p: AssetInput): (r: AssetRow)
    ensures r.id == a.id && r.accumulated == a.accumulated
    ensures r.bookValue == (if Truthy(p.cost) then r.cost else a.bookValue)
  {
    a.(assetName := if p.assetName != "" then p.assetName else a.assetName,
       category := if p.category != "" then p.category else a.category,
       acquiredMs := if p.acquiredMs.Some? then p.acquiredMs.value else a.acquiredMs,
       cost := if Truthy(p.cost) then p.cost.value else a.cost,
       bookValue := if Truthy(p.cost) then p.cost.value else a.bookValue,
       usefulLife := if TruthyInt(p.usefulLife) then p.usefulLife.value else a.usefulLife,
       depreciationMethod := if p.depreciationMethod != "" then MethodNamed(p.depreciationMethod) else a.depreciationMethod,
       residual := if p.residual.Some? then p.residual.value else a.residual,
       status := if p.status != "" then p.status else a.status)
  }

  /** Field by field, what `updateAsset` does with each part of the body: a name,
      category, method or status replaces the stored one when it is a non-empty string,
      a date whenever it is sent, a cost (together with the stored book value) and a
      useful life only when non-zero, a residual value whenever it is sent, even as
      zero; every field not sent keeps its stored value. */
  lemma UpdateFieldRule(a: AssetRow, p: AssetInput, r: AssetRow)
    requires r == ApplyUpdate(a, p)
    ensures p.assetName != "" ==> r.assetName == p.assetName
    ensures p.assetName == "" ==> r.assetName == a.assetName
    ensures p.category != "" ==> r.category == p.category
    ensures p.category == "" ==> r.category == a.category
    ensures p.acquiredMs.Some? ==> r.acquiredMs == p.acquiredMs.value
    ensures p.acquiredMs.None? ==> r.acquiredMs == a.acquiredMs
    ensures Truthy(p.cost) ==> r.cost == p.cost.value && r.bookValue == p.cost.value
    ensures !Truthy(p.cost) ==> r.cost == a.cost && r.bookValue == a.bookValue
    ensures TruthyInt(p.usefulLife) ==> r.usefulLife == p.usefulLife.value
    ensures !TruthyInt(p.usefulLife) ==> r.usefulLife == a.usefulLife
    ensures p.depreciationMethod != "" ==> r.depreciationMethod == MethodNamed(p.depreciationMethod)
    ensures p.depreciationMethod == "" ==> r.depreciationMethod == a.depreciationMethod
    ensures p.residual.Some? ==> r.residual == p.residual.value
    ensures p.residual.None? ==> r.residual == a.residual
    ensures p.status != "" ==> r.status == p.status
    ensures p.status == "" ==> r.status == a.status
  {
  }

  /** A body that sends nothing leaves the row as it was. */
  lemma UpdateWithNothingKeepsRow(a: AssetRow)
    ensures ApplyUpdate(a, NoFields) == a
  {
  }

  /** Sending the same body twice has the effect of sending it once. */
  lemma UpdateIdempotent(a: AssetRow, p: AssetInput)
    ensures ApplyUpdate(ApplyUpdate(a, p), p) == ApplyUpdate(a, p)
  {
  }

  /** The two zero rules differ: a cost of zero is falsy and leaves the row's cost (and
      stored book value) alone, while a residual value of zero is sent and replaces it. */
  lemma UpdateZeroCostVersusZeroResidual(a: AssetRow, p: AssetInput)
    requires p.cost == Some(0.0) && p.residual == Some(0.0)
    ensures ApplyUpdate(a, p).cost == a.cost
    ensures ApplyUpdate(a, p).bookValue == a.bookValue
    ensures ApplyUpdate(a, p).residual == 0.0
  {
  }

  /** A later body that sends every field an earlier one sent wins over it entirely. */
  lemma LaterUpdateOverrides(a: AssetRow, p: AssetInput, q: AssetInput)
    requires p.assetName != "" ==> q.assetName != ""
    requires p.category != "" ==> q.category != ""
    requires p.acquiredMs.Some? ==> q.acquiredMs.Some?
    requires Truthy(p.cost) ==> Truthy(q.cost)
    requires TruthyInt(p.usefulLife) ==> TruthyInt(q.usefulLife)
    requires p.depreciationMethod != "" ==> q.depreciationMethod != ""
    requires p.residual.Some? ==> q.residual.Some?
    requires p.status != "" ==> q.status != ""
    ensures ApplyUpdate(ApplyUpdate(a, p), q) == ApplyUpdate(a, q)
  {
  }

  // ---------------------------------------------------------------- the table

  /** The `assets` table, keyed by id. */
  class AssetTable {
    var rows: map<nat, AssetRow>
    var nextId: nat

    /** Every stored row sits under its own id, below the next id to hand out, and
        passed the schema's validation when it was saved. */
    ghost predicate Valid()
      reads this
    {
      forall id :: id in rows ==> rows[id].id == id && id < nextId && SchemaValid(rows[id])
    }

    constructor ()
      ensures Valid() && rows == map[] && nextId == 1
    {
      rows := map[];
      nextId := 1;
    }

    /** `createAsset`: 400 and nothing stored when a required field is missing; 500
        and nothing stored when the defaulted row fails the schema; otherwise the row
        is stored under a new id and returned with its current depreciation. */
    method CreateAsset(input: AssetInput, nowMs: int) returns (response: Response)
      requires Valid()
      modifies this
      ensures Valid()
      ensures !HasRequiredFields(input) ==>
        response == BadRequest("Missing required fields") && rows == old(rows) && nextId == old(nextId)
      ensures HasRequiredFields(input) ==>
        var row := NewAssetRow(input, old(nextId)).value;
        if SchemaValid(row) then
          && response == Saved(row, CurrentSnapshot(row, nowMs))
          && rows == old(rows)[old(nextId) := row] && nextId == old(nextId) + 1
        else
          response == ServerError && rows == old(rows) && nextId == old(nextId)
    {
      if input.assetName == "" || input.category == "" || input.acquiredMs.None?
         || !Truthy(input.cost) || !TruthyInt(input.usefulLife) {
        return BadRequest("Missing required fields");
      }
      var row := AssetRow(
        nextId,
        input.assetName,
        input.category,
        input.acquiredMs.value,
        input.cost.value,
        input.usefulLife.value,
        if input.depreciationMethod != "" then MethodNamed(input.depreciationMethod) else StraightLine,
        input.residual.GetOr(0.0),
        input.cost.value,
        0.0,
        if input.status != "" then input.status else "active");
      if !SchemaValid(row) {
        return ServerError;
      }
      rows := rows[nextId := row];
      nextId := nextId + 1;
      var current := CalculateDepreciation(row, nowMs);
      response := Saved(row, current);
    }

    /** `updateAsset`: 404 for an unknown id; the sent fields assigned one by one;
        500 and nothing stored when the result fails the schema; otherwise the row is
        stored and returned with its current depreciation. */
    method UpdateAsset(id: nat, patch: AssetInput, nowMs: int) returns (response: Response)
      requires Valid()
      modifies this
      ensures Valid() && nextId == old(nextId)
      ensures id !in old(rows) ==> response == NotFound && rows == old(rows)
      ensures id in old(rows) ==>
        var row := ApplyUpdate(old(rows)[id], patch);
        if SchemaValid(row) then
          response == Saved(row, CurrentSnapshot(row, nowMs)) && rows == old(rows)[id := row]
        else
          response == ServerError && rows == old(rows)
    {
      if id !in rows {
        return NotFound;
      }
      var asset := rows[id];
      if patch.assetName != "" { asset := asset.(assetName := patch.assetName); }
      if patch.category != "" { asset := asset.(category := patch.category); }
      if patch.acquiredMs.Some? { asset := asset.(acquiredMs := patch.acquiredMs.value); }
      if Truthy(patch.cost) {
        asset := asset.(cost := patch.cost.value);
        asset := asset.(bookValue := patch.cost.value);
      }
      if TruthyInt(patch.usefulLife) { asset := asset.(usefulLife := patch.usefulLife.value); }
      if patch.depreciationMethod != "" { asset := asset.(depreciationMethod := MethodNamed(patch.depreciationMethod)); }
      if patch.residual.Some? { asset := asset.(residual := patch.residual.value); }
      if patch.status != "" { asset := asset.(status := patch.status); }
      assert asset == ApplyUpdate(old(rows)[id], patch);
      if !SchemaValid(asset) {
        return ServerError;
      }
      rows := rows[id := asset];
      var current := CalculateDepreciation(asset, nowMs);
      response := Saved(asset, current);
    }
  }

  // ---------------------------------------------------------------- getAllAssets

  /** Rows read back from the table, each with a useful life of at least one year. */
  predicate Stored(rows: seq<AssetRow>)
  {
    forall i :: 0 <= i < |rows| ==> rows[i].usefulLife >= 1
  }

  lemma StoredSubset(rows: seq<AssetRow>, sub: seq<AssetRow>)
    requires Stored(rows)
    requires forall a :: a in sub ==> a in rows
    ensures Stored(sub)
  {
    forall i | 0 <= i < |sub|
      ensures sub[i].usefulLife >= 1
    {
      assert sub[i] in rows;
    }
  }

  /** A row with its `current_*` fields. */
  datatype ReportedAsset = ReportedAsset(row: AssetRow, current: Snapshot)

  /** Each row, in order, with its current depreciation. */
  function Enriched(rows: seq<AssetRow>, nowMs: int): (r: seq<ReportedAsset>)
    requires Stored(rows)
  {
    seq(|rows|, i requires 0 <= i < |rows| => ReportedAsset(rows[i], CurrentSnapshot(rows[i], nowMs)))
  }

  /** `getAllAssets`: one record per fetched row, in the order fetched, each carrying
      that row's current depreciation. */
  method EnrichAssets(rows: seq<AssetRow>, nowMs: int) returns (out: seq<ReportedAsset>)
    requires Stored(rows)
    ensures |out| == |rows|
    ensures forall i :: 0 <= i < |rows| ==>
              out[i].row == rows[i] && out[i].current == CurrentSnapshot(rows[i], nowMs)
  {
    out := [];
    for i := 0 to |rows|
      invariant |out| == i
      invariant forall k :: 0 <= k < i ==> out[k].row == rows[k] && out[k].current == CurrentSnapshot(rows[k], nowMs)
    {
      var depreciation := CalculateDepreciation(rows[i], nowMs);
      out := out + [ReportedAsset(rows[i], depreciation)];
    }
  }

  lemma EnrichedSnoc(rows: seq<AssetRow>, nowMs: int, i: nat)
    requires Stored(rows) && i < |rows|
    ensures Stored(rows[..i]) && Stored(rows[..i + 1])
    ensures Enriched(rows[..i + 1], nowMs)
         == Enriched(rows[..i], nowMs) + [ReportedAsset(rows[i], CurrentSnapshot(rows[i], nowMs))]
  {
  }

  // ---------------------------------------------------------------- folds over listed rows

  /** What a listed asset contributes to the totals and the category dictionaries:
      its category and cost, and its current accumulated depreciation and book value. */
  function LineOf(d: ReportedAsset): Line
  {
    Line(d.row.category, d.row.cost, d.current.accumulated, d.current.bookValue)
  }

  function LinesOf(ds: seq<ReportedAsset>): (ls: seq<Line>)
  {
    seq(|ds|, i requires 0 <= i < |ds| => LineOf(ds[i]))
  }

  /** The lines of the listed rows. */
  function Lines(rows: seq<AssetRow>, nowMs: int): seq<Line>
    requires Stored(rows)
  {
    LinesOf(Enriched(rows, nowMs))
  }

  lemma LinesOfSnoc(ds: seq<ReportedAsset>, d: ReportedAsset)
    ensures LinesOf(ds + [d]) == LinesOf(ds) + [LineOf(d)]
  {
  }

  // ---------------------------------------------------------------- generateReport

  /** The report's query parameters; an empty category means "all categories". */
  datatype ReportFilter = ReportFilter(startMs: Option<int>, endMs: Option<int>, category: string)

  /** The report's `where` clause: active rows only, of the requested category if one
      is given, acquired within the date range only when both ends are given. */
  predicate InReport(a: AssetRow, f: ReportFilter)
  {
    && a.status == "active"
    && (f.category != "" ==> a.category == f.category)
    && (f.startMs.Some? && f.endMs.Some? ==> f.startMs.value <= a.acquiredMs <= f.endMs.value)
  }

  /** The rows the report's query returns, in table order. */
  function Selected(rows: seq<AssetRow>, f: ReportFilter): (r: seq<AssetRow>)
    ensures forall a :: a in r <==> a in rows && InReport(a, f)
  {
    if |rows| == 0 then []
    else if InReport(rows[0], f) then [rows[0]] + Selected(rows[1..], f)
    else Selected(rows[1..], f)
  }

  /** The report never lists a disposed or sold asset, and a date range with one end
      missing is ignored altogether. */
  lemma ReportFilterRules(a: AssetRow, f: ReportFilter)
    ensures InReport(a, f) ==> a.status == "active"
    ensures f.startMs.None? || f.endMs.None? ==>
              (InReport(a, f) <==> InReport(a, ReportFilter(None, None, f.category)))
  {
  }

  /** The report's `summary`. */
  datatype Summary = Summary(totalAssets: nat, totalCost: real, totalDepreciation: real, totalBookValue: real)

  datatype ReportData = ReportData(summary: Summary, byCategory: map<string, CategoryTotals>,
                                   assets: seq<ReportedAsset>)

  /** The report over the listed rows: the totals rounded to cents once, at the end;
      the category dictionary unrounded. */
  function Report(listed: seq<AssetRow>, nowMs: int): ReportData
    requires Stored(listed)
  {
    var t := Totals(Lines(listed, nowMs));
    ReportData(
      Summary(|listed|, Round2(t.totalCost), Round2(t.totalDepreciation), Round2(t.totalBookValue)),
      Grouped(Lines(listed, nowMs)),
      Enriched(listed, nowMs))
  }

  /** The report's summary agrees with its category dictionary: the counts add up to
      the number of listed assets, and each rounded total is the rounded sum of the
      category totals. Each category entry holds the totals over that category's
      listed assets. */
  lemma ReportConsistent(listed: seq<AssetRow>, nowMs: int)
    requires Stored(listed)
    ensures var r := Report(listed, nowMs);
      var sum := SumTotals(r.byCategory);
      && sum.count == r.summary.totalAssets
      && r.summary.totalCost == Round2(sum.totalCost)
      && r.summary.totalDepreciation == Round2(sum.totalDepreciation)
      && r.summary.totalBookValue == Round2(sum.totalBookValue)
      && (forall c :: c in r.byCategory ==> r.byCategory[c] == Totals(OfCategory(Lines(listed, nowMs), c)))
  {
    var ls := Lines(listed, nowMs);
    GroupedSumsToTotals(ls);
    GroupedEntries(ls);
  }

  /** The `assets.map` pass of `generateReport`: each listed row with its current
      depreciation, and the three running totals. */
  method DetailAssets(assets: seq<AssetRow>, nowMs: int)
    returns (detailedAssets: seq<ReportedAsset>, totalAcquisitionCost: real,
             totalAccumulatedDepreciation: real, totalBookValue: real)
    requires Stored(assets)
    ensures detailedAssets == Enriched(assets, nowMs)
    ensures Totals(LinesOf(detailedAssets))
         == CategoryTotals(|assets|, totalAcquisitionCost, totalAccumulatedDepreciation, totalBookValue)
  {
    totalAcquisitionCost, totalAccumulatedDepreciation, totalBookValue := 0.0, 0.0, 0.0;
    detailedAssets := [];
    for i := 0 to |assets|
      invariant |detailedAssets| == i
      invariant forall k :: 0 <= k < i ==> detailedAssets[k] == Enriched(assets, nowMs)[k]
      invariant Totals(LinesOf(detailedAssets))
             == CategoryTotals(i, totalAcquisitionCost, totalAccumulatedDepreciation, totalBookValue)
    {
      var asset := assets[i];
      var depreciation := CalculateDepreciation(asset, nowMs);
      ghost var before := detailedAssets;
      totalAcquisitionCost := totalAcquisitionCost + asset.cost;
      totalAccumulatedDepreciation := totalAccumulatedDepreciation + depreciation.accumulated;
      totalBookValue := totalBookValue + depreciation.bookValue;
      detailedAssets := detailedAssets + [ReportedAsset(asset, depreciation)];
      LinesOfSnoc(before, ReportedAsset(asset, depreciation));
      FoldSnoc(LinesOf(before), LineOf(ReportedAsset(asset, depreciation)));
    }
    assert detailedAssets == Enriched(assets, nowMs);
  }

  /** The `detailedAssets.forEach` pass of `generateReport`: an entry per category,
      started at zero the first time the category is met, each asset added to its entry. */
  method GroupByCategory(detailedAssets: seq<ReportedAsset>) returns (byCategory: map<string, CategoryTotals>)
    ensures byCategory == Grouped(LinesOf(detailedAssets))
  {
    ghost var ls := LinesOf(detailedAssets);
    byCategory := map[];
    for i := 0 to |detailedAssets|
      invariant byCategory == Grouped(ls[..i])
    {
      var asset := detailedAssets[i];
      var entry := if asset.row.category in byCategory then byCategory[asset.row.category] else Zero;
      ghost var before := byCategory;
      byCategory := byCategory[asset.row.category := CategoryTotals(
        entry.count + 1,
        entry.totalCost + asset.row.cost,
        entry.totalDepreciation + asset.current.accumulated,
        entry.totalBookValue + asset.current.bookValue)];
      assert ls[i] == LineOf(asset);
      GroupedPrefixStep(ls, i, before, entry, byCategory);
    }
    assert ls[..|detailedAssets|] == ls;
  }

  /** `generateReport`: the query, the pass computing each asset's depreciation and
      the running totals, the grouping pass, and the totals rounded to cents. */
  method GenerateReport(rows: seq<AssetRow>, f: ReportFilter, nowMs: int) returns (report: ReportData)
    requires Stored(rows)
    ensures Stored(Selected(rows, f))
    ensures report == Report(Selected(rows, f), nowMs)
  {
    var assets := Selected(rows, f);
    StoredSubset(rows, assets);
    var detailedAssets, totalAcquisitionCost, totalAccumulatedDepreciation, totalBookValue :=
      DetailAssets(assets, nowMs);
    var byCategory := GroupByCategory(detailedAssets);
    report := ReportData(
      Summary(|assets|, Round2(totalAcquisitionCost), Round2(totalAccumulatedDepreciation), Round2(totalBookValue)),
      byCategory,
      detailedAssets);
  }

  // ---------------------------------------------------------------- getDashboardStats

  /** One `category_stats` entry. */
  datatype CategoryStat = CategoryStat(count: nat, value: real)

  datatype Dashboard = Dashboard(
    totalAssets: nat,
    totalCost: real,
    totalDepreciation: real,
    totalBookValue: real,
    categoryStats: map<string, CategoryStat>)

  /** The active rows, in table order. */
  function ActiveRows(rows: seq<AssetRow>): (r: seq<AssetRow>)
    ensures forall a :: a in r <==> a in rows && a.status == "active"
  {
    if |rows| == 0 then []
    else if rows[0].status == "active" then [rows[0]] + ActiveRows(rows[1..])
    else ActiveRows(rows[1..])
  }

  /** The dashboard's `category_stats` over some lines, built as `getDashboardStats`
      builds it: an entry started at zero the first time its category is met, then
      counted and added to. */
  function StatsOf(ls: seq<Line>): map<string, CategoryStat>
  {
    if |ls| == 0 then map[]
    else
      var m := StatsOf(ls[..|ls| - 1]);
      var l := ls[|ls| - 1];
      var entry := if l.category in m then m[l.category] else CategoryStat(0, 0.0);
      m[l.category := CategoryStat(entry.count + 1, entry.value + l.bookValue)]
  }

  /** `category_stats` after one more line: the line's entry, or a zero one, counted
      once more and its book value added. */
  lemma StatsSnoc(ls: seq<Line>, l: Line, before: map<string, CategoryStat>, entry: CategoryStat,
                  after: map<string, CategoryStat>)
    requires before == StatsOf(ls)
    requires entry == if l.category in before then before[l.category] else CategoryStat(0, 0.0)
    requires after == before[l.category := CategoryStat(entry.count + 1, entry.value + l.bookValue)]
    ensures after == StatsOf(ls + [l])
  {
    assert (ls + [l])[..|ls|] == ls;
  }

  /** The same step over the listed rows: one more row's category counted once more and
      its current book value added. */
  lemma StatsStep(seen: seq<ReportedAsset>, row: AssetRow, current: Snapshot,
                  before: map<string, CategoryStat>, entry: CategoryStat)
    requires before == StatsOf(LinesOf(seen))
    requires entry == if row.category in before then before[row.category] else CategoryStat(0, 0.0)
    ensures before[row.category := CategoryStat(entry.count + 1, entry.value + current.bookValue)]
            == StatsOf(LinesOf(seen + [ReportedAsset(row, current)]))
  {
    var d := ReportedAsset(row, current);
    LinesOfSnoc(seen, d);
    StatsSnoc(LinesOf(seen), LineOf(d), before, entry,
              before[row.category := CategoryStat(entry.count + 1, entry.value + current.bookValue)]);
  }

  /** The running totals after one more listed row: one more asset, its cost, its
      accumulated depreciation and its current book value added. */
  lemma TotalsStep(seen: seq<ReportedAsset>, row: AssetRow, current: Snapshot,
                   count: nat, cost: real, depreciation: real, bookValue: real)
    requires Totals(LinesOf(seen)) == CategoryTotals(count, cost, depreciation, bookValue)
    ensures Totals(LinesOf(seen + [ReportedAsset(row, current)]))
            == CategoryTotals(count + 1, cost + row.cost, depreciation + current.accumulated,
                              bookValue + current.bookValue)
  {
    var d := ReportedAsset(row, current);
    LinesOfSnoc(seen, d);
    FoldSnoc(LinesOf(seen), LineOf(d));
  }

  /** `category_stats` is the report's category dictionary cut down to the count and
      the book value: the same categories, the same counts, the same sums. */
  lemma {:induction false} StatsOfGrouped(ls: seq<Line>)
    ensures forall c :: c in StatsOf(ls) <==> c in Grouped(ls)
    ensures forall c :: c in StatsOf(ls) ==>
              StatsOf(ls)[c] == CategoryStat(Grouped(ls)[c].count, Grouped(ls)[c].totalBookValue)
  {
    if |ls| > 0 {
      StatsOfGrouped(ls[..|ls| - 1]);
    }
  }

  /** The dashboard over the active rows: the rounded running totals and, for each
      category, the number of its assets and the sum of their current book values. */
  function DashboardOf(active: seq<AssetRow>, nowMs: int): Dashboard
    requires Stored(active)
  {
    var ls := Lines(active, nowMs);
    var t := Totals(ls);
    Dashboard(|active|, Round2(t.totalCost), Round2(t.totalDepreciation), Round2(t.totalBookValue),
              StatsOf(ls))
  }

  /** A dashboard category's `count` is the number of active assets in it and its
      `value` the sum of their current book values; a category appears exactly when
      one of the active assets belongs to it. */
  lemma DashboardCategoryStats(active: seq<AssetRow>, nowMs: int, c: string)
    requires Stored(active)
    ensures var d := DashboardOf(active, nowMs);
      var own := OfCategory(Lines(active, nowMs), c);
      && (c in d.categoryStats <==> exists i :: 0 <= i < |active| && active[i].category == c)
      && (c in d.categoryStats ==>
            d.categoryStats[c] == CategoryStat(|own|, Totals(own).totalBookValue))
  {
    var ls := Lines(active, nowMs);
    StatsOfGrouped(ls);
    GroupedEntries(ls);
    GroupedSumsToTotals(OfCategory(ls, c));
    if exists i :: 0 <= i < |active| && active[i].category == c {
      var i :| 0 <= i < |active| && active[i].category == c;
      assert ls[i].category == c;
    }
    if exists i :: 0 <= i < |ls| && ls[i].category == c {
      var i :| 0 <= i < |ls| && ls[i].category == c;
      assert active[i].category == c;
    }
  }

  /** `getDashboardStats`: one pass over the active rows accumulating the running
      totals and, per category, the count and the summed book value. */
  method DashboardStats(rows: seq<AssetRow>, nowMs: int) returns (stats: Dashboard)
    requires Stored(rows)
    ensures Stored(ActiveRows(rows))
    ensures stats == DashboardOf(ActiveRows(rows), nowMs)
  {
    var assets := ActiveRows(rows);
    StoredSubset(rows, assets);
    var totalAcquisitionCost, totalAccumulatedDepreciation, totalBookValue := 0.0, 0.0, 0.0;
    var categoryStats: map<string, CategoryStat> := map[];
    ghost var seen: seq<ReportedAsset> := [];
    for i := 0 to |assets|
      invariant seen == Enriched(assets[..i], nowMs)
      invariant Totals(LinesOf(seen)) == CategoryTotals(i, totalAcquisitionCost, totalAccumulatedDepreciation, totalBookValue)
      invariant categoryStats == StatsOf(LinesOf(seen))
    {
      var asset := assets[i];
      var depreciation := CalculateDepreciation(asset, nowMs);
      EnrichedSnoc(assets, nowMs, i);
      TotalsStep(seen, asset, depreciation, i, totalAcquisitionCost, totalAccumulatedDepreciation, totalBookValue);
      totalAcquisitionCost := totalAcquisitionCost + asset.cost;
      totalAccumulatedDepreciation := totalAccumulatedDepreciation + depreciation.accumulated;
      totalBookValue := totalBookValue + depreciation.bookValue;
      var entry := if asset.category in categoryStats then categoryStats[asset.category] else CategoryStat(0, 0.0);
      ghost var before := categoryStats;
      categoryStats := categoryStats[asset.category := CategoryStat(entry.count + 1, entry.value + depreciation.bookValue)];
      StatsStep(seen, asset, depreciation, before, entry);
      seen := seen + [ReportedAsset(asset, depreciation)];
    }
    assert assets[..|assets|] == assets;
    stats := Dashboard(|assets|, Round2(totalAcquisitionCost), Round2(totalAccumulatedDepreciation),
                       Round2(totalBookValue), categoryStats);
  }
}
