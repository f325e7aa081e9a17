/** What the depreciation engine promises, proved about the specification
    functions that CalculateDepreciation and DepreciationSchedule are shown equal to. */
module DepreciationFacts {
  import opened Money
  import opened Depreciation

  // ---------------------------------------------------------------- arithmetic helpers

  lemma MulLeftMonotone(x: real, y: real, k: real)
    requires x <= y && k >= 0.0
    ensures x * k <= y * k
  {
    assert y * k - x * k == (y - x) * k;
  }

  lemma MulRightMonotone(k: real, x: real, y: real)
    requires x <= y && k >= 0.0
    ensures k * x <= k * y
  {
    assert k * y - k * x == k * (y - x);
  }

  lemma MulNonNegative(x: real, k: real)
    requires x >= 0.0 && k >= 0.0
    ensures x * k >= 0.0
  {
  }

  /** `n` copies of `x` added up, the product without multiplication. */
  function Times(n: nat, x: real): real
  {
    if n == 0 then 0.0 else Times(n - 1, x) + x
  }

  lemma {:induction false} TimesNonNegative(n: nat, x: real)
    requires x >= 0.0
    ensures Times(n, x) >= 0.0
  {
    if n > 0 {
      TimesNonNegative(n - 1, x);
    }
  }

  lemma {:induction false} TimesIsProduct(n: nat, x: real)
    ensures Times(n, x) == n as real * x
  {
    if n > 0 {
      TimesIsProduct(n - 1, x);
      assert (n - 1) as real * x + x == n as real * x;
    }
  }

  // ---------------------------------------------------------------- elapsed time

  /** A date before the acquisition gives a negative number of months, hence of years. */
  lemma ElapsedBeforeAcquisition(acquiredMs: int, nowMs: int)
    requires nowMs < acquiredMs
    ensures MonthsElapsed(acquiredMs, nowMs) <= -1
    ensures YearsElapsed(acquiredMs, nowMs) < 0.0
    ensures WholeYears(acquiredMs, nowMs) <= -1
  {
  }

  /** Elapsed time never goes backwards as the clock advances. */
  lemma ElapsedMonotone(acquiredMs: int, t1: int, t2: int)
    requires t1 <= t2
    ensures MonthsElapsed(acquiredMs, t1) <= MonthsElapsed(acquiredMs, t2)
    ensures YearsElapsed(acquiredMs, t1) <= YearsElapsed(acquiredMs, t2)
    ensures WholeYears(acquiredMs, t1) <= WholeYears(acquiredMs, t2)
  {
    var m1, m2 := MonthsElapsed(acquiredMs, t1), MonthsElapsed(acquiredMs, t2);
    assert m1 * MS_PER_MONTH <= t2 - acquiredMs < (m2 + 1) * MS_PER_MONTH;
    assert m1 < m2 + 1;
  }

  // ---------------------------------------------------------------- straight-line snapshot

  /** Straight-line: the annual figure is the depreciable amount over the useful life
      whatever the date, the accumulated figure is capped at the depreciable amount,
      and the book value is cost minus the accumulated figure. */
  lemma StraightLineSnapshot(a: AssetRow, nowMs: int)
    requires a.usefulLife >= 1 && a.depreciationMethod == StraightLine
    ensures var s := RawSnapshot(a, nowMs);
      && s.annual * a.usefulLife as real == a.cost - a.residual
      && s.accumulated <= a.cost - a.residual
      && s.accumulated == Min(s.annual * YearsElapsed(a.acquiredMs, nowMs), a.cost - a.residual)
      && s.bookValue == a.cost - s.accumulated
  {
  }

  /** Straight-line, from the acquisition date on: the accumulated figure lies between
      zero and the depreciable amount, so the book value lies between residual and cost. */
  lemma StraightLineSnapshotBounds(a: AssetRow, nowMs: int)
    requires a.usefulLife >= 1 && a.depreciationMethod == StraightLine
    requires a.residual <= a.cost && a.acquiredMs <= nowMs
    ensures var s := RawSnapshot(a, nowMs);
      && 0.0 <= s.accumulated <= a.cost - a.residual
      && a.residual <= s.bookValue <= a.cost
  {
    MulNonNegative(StraightLineAnnual(a), YearsElapsed(a.acquiredMs, nowMs));
  }

  /** Straight-line: before the acquisition date nothing clamps the figures, so the
      accumulated depreciation is negative and the book value exceeds the cost. */
  lemma StraightLineBeforeAcquisition(a: AssetRow, nowMs: int)
    requires a.usefulLife >= 1 && a.depreciationMethod == StraightLine
    requires a.residual < a.cost && nowMs < a.acquiredMs
    ensures RawSnapshot(a, nowMs).accumulated < 0.0
    ensures RawSnapshot(a, nowMs).bookValue > a.cost
  {
    ElapsedBeforeAcquisition(a.acquiredMs, nowMs);
    var annual, years := StraightLineAnnual(a), YearsElapsed(a.acquiredMs, nowMs);
    assert annual > 0.0;
    assert annual * years < 0.0 by {
      assert annual * (0.0 - years) > 0.0;
    }
  }

  /** Straight-line: as the date advances the accumulated figure never decreases and
      the book value never increases. */
  lemma StraightLineMonotone(a: AssetRow, t1: int, t2: int)
    requires a.usefulLife >= 1 && a.depreciationMethod == StraightLine
    requires a.residual <= a.cost && t1 <= t2
    ensures RawSnapshot(a, t1).accumulated <= RawSnapshot(a, t2).accumulated
    ensures RawSnapshot(a, t1).bookValue >= RawSnapshot(a, t2).bookValue
  {
    ElapsedMonotone(a.acquiredMs, t1, t2);
    var annual, depreciable := StraightLineAnnual(a), a.cost - a.residual;
    var y1, y2 := YearsElapsed(a.acquiredMs, t1), YearsElapsed(a.acquiredMs, t2);
    assert annual >= 0.0;
    CappedChargeMonotone(annual, depreciable, y1, y2);
    assert RawSnapshot(a, t1).accumulated == Min(annual * y1, depreciable);
    assert RawSnapshot(a, t2).accumulated == Min(annual * y2, depreciable);
  }

  /** `Math.min(annual * years, depreciable)` grows with the years. */
  lemma CappedChargeMonotone(annual: real, depreciable: real, y1: real, y2: real)
    requires annual >= 0.0 && y1 <= y2
    ensures Min(annual * y1, depreciable) <= Min(annual * y2, depreciable)
  {
    MulRightMonotone(annual, y1, y2);
    MinMonotone(annual * y1, depreciable, annual * y2, depreciable);
  }

  /** Straight-line: once the useful life has elapsed the asset is written down to
      its residual value. */
  lemma StraightLineFullLife(a: AssetRow, nowMs: int)
    requires a.usefulLife >= 1 && a.depreciationMethod == StraightLine
    requires a.residual <= a.cost
    requires YearsElapsed(a.acquiredMs, nowMs) >= a.usefulLife as real
    ensures RawSnapshot(a, nowMs).accumulated == a.cost - a.residual
    ensures RawSnapshot(a, nowMs).bookValue == a.residual
  {
    var annual := StraightLineAnnual(a);
    MulLeftMonotone(a.usefulLife as real, YearsElapsed(a.acquiredMs, nowMs), annual);
    assert annual * a.usefulLife as real == a.cost - a.residual;
  }

  // ---------------------------------------------------------------- declining-balance snapshot

  /** One declining-balance charge never takes the book value below the residual value
      and, from a book value above a non-negative residual value, is positive. */
  lemma DecliningChargeBounds(bookValue: real, residual: real, rate: real)
    requires 0.0 <= residual <= bookValue && rate > 0.0
    ensures 0.0 <= DecliningCharge(bookValue, residual, rate) <= bookValue - residual
    ensures bookValue > residual ==> DecliningCharge(bookValue, residual, rate) > 0.0
  {
    MulNonNegative(bookValue, rate);
    if bookValue > residual {
      assert bookValue * rate > 0.0;
    }
  }

  /** A smaller book value never gets a larger declining-balance charge. */
  lemma DecliningChargeMonotone(x: real, y: real, residual: real, rate: real)
    requires x <= y && rate >= 0.0
    ensures DecliningCharge(x, residual, rate) <= DecliningCharge(y, residual, rate)
  {
    MulLeftMonotone(x, y, rate);
    MinMonotone(x * rate, x - residual, y * rate, y - residual);
  }

  /** The declining-balance loop keeps the book value between the residual value and
      where it started, and moves exactly what it takes off the book value onto the
      accumulated depreciation. */
  lemma {:induction false} DecliningYearsBounds(b: Balance, residual: real, rate: real, years: int)
    requires 0.0 <= residual <= b.bookValue && rate > 0.0
    ensures var r := DecliningYears(b, residual, rate, years);
      && residual <= r.bookValue <= b.bookValue
      && r.bookValue + r.accumulated == b.bookValue + b.accumulated
    decreases years
  {
    if years > 0 {
      DecliningChargeBounds(b.bookValue, residual, rate);
      var d := DecliningCharge(b.bookValue, residual, rate);
      var next := Balance(b.bookValue - d, b.accumulated + d);
      if next.bookValue > residual {
        DecliningYearsBounds(next, residual, rate, years - 1);
      }
    }
  }

  /** Declining-balance: more elapsed years never raise the book value. */
  lemma {:induction false} DecliningYearsMonotone(b: Balance, residual: real, rate: real, m: int, n: int)
    requires 0.0 <= residual <= b.bookValue && rate > 0.0 && m <= n
    ensures DecliningYears(b, residual, rate, n).bookValue <= DecliningYears(b, residual, rate, m).bookValue
    decreases n
  {
    DecliningYearsBounds(b, residual, rate, n);
    if m > 0 {
      DecliningChargeBounds(b.bookValue, residual, rate);
      var d := DecliningCharge(b.bookValue, residual, rate);
      var next := Balance(b.bookValue - d, b.accumulated + d);
      if next.bookValue > residual {
        DecliningYearsMonotone(next, residual, rate, m - 1, n - 1);
      }
    }
  }

  /** Declining-balance: once the loop has reached the residual value it has exited,
      so later dates give the same figures. */
  lemma {:induction false} DecliningYearsSettled(b: Balance, residual: real, rate: real, m: int, n: int)
    requires b.bookValue > residual && 1 <= m <= n
    requires DecliningYears(b, residual, rate, m).bookValue <= residual
    ensures DecliningYears(b, residual, rate, n) == DecliningYears(b, residual, rate, m)
    decreases m
  {
    var d := DecliningCharge(b.bookValue, residual, rate);
    var next := Balance(b.bookValue - d, b.accumulated + d);
    if next.bookValue > residual {
      DecliningYearsSettled(next, residual, rate, m - 1, n - 1);
    }
  }

  /** Declining-balance snapshot: book value between residual value and cost,
      accumulated depreciation between zero and the depreciable amount, the two adding
      up to the cost. */
  lemma DecliningSnapshotBounds(a: AssetRow, nowMs: int)
    requires a.usefulLife >= 1 && a.depreciationMethod == DecliningBalance
    requires 0.0 <= a.residual <= a.cost
    ensures var s := RawSnapshot(a, nowMs);
      && a.residual <= s.bookValue <= a.cost
      && 0.0 <= s.accumulated <= a.cost - a.residual
      && s.bookValue + s.accumulated == a.cost
  {
    DecliningYearsBounds(Balance(a.cost, 0.0), a.residual, DecliningRate(a), WholeYears(a.acquiredMs, nowMs));
  }

  /** Declining-balance: only whole years count; before the first full year (and before
      the acquisition date) nothing is depreciated, and the annual figure is the rate
      applied to the cost. */
  lemma DecliningBeforeFirstYear(a: AssetRow, nowMs: int)
    requires a.usefulLife >= 1 && a.depreciationMethod == DecliningBalance
    requires YearsElapsed(a.acquiredMs, nowMs) < 1.0
    ensures RawSnapshot(a, nowMs) == Snapshot(0.0, a.cost, a.cost * 2.0 / a.usefulLife as real)
  {
  }

  /** Declining-balance: as the date advances the book value never increases and the
      accumulated depreciation never decreases. */
  lemma DecliningMonotone(a: AssetRow, t1: int, t2: int)
    requires a.usefulLife >= 1 && a.depreciationMethod == DecliningBalance
    requires 0.0 <= a.residual <= a.cost && t1 <= t2
    ensures RawSnapshot(a, t2).bookValue <= RawSnapshot(a, t1).bookValue
    ensures RawSnapshot(a, t1).accumulated <= RawSnapshot(a, t2).accumulated
  {
    ElapsedMonotone(a.acquiredMs, t1, t2);
    var b, rate := Balance(a.cost, 0.0), DecliningRate(a);
    DecliningYearsMonotone(b, a.residual, rate, WholeYears(a.acquiredMs, t1), WholeYears(a.acquiredMs, t2));
    DecliningSnapshotBounds(a, t1);
    DecliningSnapshotBounds(a, t2);
  }

  /** Declining-balance with a useful life of one or two years: the first whole year
      writes the asset down to its residual value, and the annual figure reported
      afterwards is the rate applied to the residual value, which is not capped by
      what is left to depreciate (nothing). */
  lemma DecliningShortLifeSnapshot(a: AssetRow, nowMs: int)
    requires a.depreciationMethod == DecliningBalance && 1 <= a.usefulLife <= 2
    requires 0.0 <= a.residual <= a.cost && YearsElapsed(a.acquiredMs, nowMs) >= 1.0
    ensures RawSnapshot(a, nowMs).bookValue == a.residual
    ensures RawSnapshot(a, nowMs).accumulated == a.cost - a.residual
    ensures RawSnapshot(a, nowMs).annual == a.residual * DecliningRate(a)
    ensures a.residual > 0.0 ==> RawSnapshot(a, nowMs).annual > RawSnapshot(a, nowMs).bookValue - a.residual
  {
    var rate := DecliningRate(a);
    assert rate >= 1.0;
    MulLeftMonotone(1.0, rate, a.cost);
    assert DecliningCharge(a.cost, a.residual, rate) == a.cost - a.residual;
    var n := WholeYears(a.acquiredMs, nowMs);
    assert n >= 1;
    assert DecliningYears(Balance(a.cost, 0.0), a.residual, rate, n) == Balance(a.residual, a.cost - a.residual);
    if a.residual > 0.0 {
      assert a.residual * rate > 0.0;
    }
  }

  // ---------------------------------------------------------------- any method

  /** A method other than the two known ones depreciates nothing: accumulated zero,
      book value the (rounded) cost, annual zero, and an empty schedule. */
  lemma UnrecognisedMethod(a: AssetRow, nowMs: int)
    requires a.usefulLife >= 1
    requires a.depreciationMethod.Unrecognised?
    ensures CurrentSnapshot(a, nowMs) == Snapshot(0.0, Round2(a.cost), 0.0)
    ensures RawSchedule(a) == []
  {
    assert Round2(0.0) == 0.0 by { Round2OfCents(0.0); }
  }

  /** For a row that passes the schema, with a residual value between zero and the
      cost, from the acquisition date on: the book value lies between residual value
      and cost, the accumulated depreciation between zero and the depreciable amount. */
  lemma RawSnapshotBounds(a: AssetRow, nowMs: int)
    requires SchemaValid(a) && 0.0 <= a.residual <= a.cost && a.acquiredMs <= nowMs
    ensures var s := RawSnapshot(a, nowMs);
      && a.residual <= s.bookValue <= a.cost
      && 0.0 <= s.accumulated <= a.cost - a.residual
  {
    if a.depreciationMethod == StraightLine {
      StraightLineSnapshotBounds(a, nowMs);
    } else {
      DecliningSnapshotBounds(a, nowMs);
    }
  }

  /** The same bounds hold for the returned, rounded snapshot when cost and residual
      value are whole cents. */
  lemma CurrentSnapshotBounds(a: AssetRow, nowMs: int)
    requires SchemaValid(a) && IsCents(a.cost) && IsCents(a.residual)
    requires a.residual <= a.cost && a.acquiredMs <= nowMs
    ensures var s := CurrentSnapshot(a, nowMs);
      && a.residual <= s.bookValue <= a.cost
      && 0.0 <= s.accumulated <= a.cost - a.residual
  {
    var raw := RawSnapshot(a, nowMs);
    RawSnapshotBounds(a, nowMs);
    CentsDifference(a.cost, a.residual);
    Round2OfCents(0.0);
    Round2Between(a.residual, raw.bookValue, a.cost);
    Round2Between(0.0, raw.accumulated, a.cost - a.residual);
  }

  // ---------------------------------------------------------------- schedule

  /** Sum of the `depreciation_expense` column. */
  function SumExpenses(s: seq<ScheduleEntry>): real
  {
    if |s| == 0 then 0.0 else s[0].expense + SumExpenses(s[1..])
  }

  /** The rows form one table: numbered consecutively from `year`, the first beginning
      at `bookValue` and each later one at the previous row's ending value, each ending
      at its beginning minus its expense, each adding its expense to the accumulated
      depreciation carried from the row before (`accumulated` before the first). */
  predicate Chained(s: seq<ScheduleEntry>, year: int, bookValue: real, accumulated: real)
    decreases |s|
  {
    |s| == 0 ||
    (&& s[0].year == year
     && s[0].beginning == bookValue
     && s[0].ending == bookValue - s[0].expense
     && s[0].accumulated == accumulated + s[0].expense
     && Chained(s[1..], year + 1, s[0].ending, s[0].accumulated))
  }

  /** A chained table row by row: years numbered from `year`, accumulated depreciation
      plus ending value constant, and the last accumulated figure the running sum of the
      expense column. */
  lemma {:induction false} ChainedRows(s: seq<ScheduleEntry>, year: int, bookValue: real, accumulated: real)
    requires Chained(s, year, bookValue, accumulated)
    ensures forall i :: 0 <= i < |s| ==> s[i].year == year + i
    ensures forall i :: 0 <= i < |s| ==> s[i].ending == s[i].beginning - s[i].expense
    ensures forall i :: 0 <= i < |s| ==> s[i].accumulated + s[i].ending == accumulated + bookValue
    ensures |s| > 0 ==> s[|s| - 1].accumulated == accumulated + SumExpenses(s)
    decreases |s|
  {
    if |s| > 0 {
      var t := s[1..];
      ChainedRows(t, year + 1, s[0].ending, s[0].accumulated);
      assert forall i :: 1 <= i < |s| ==> s[i] == t[i - 1];
    }
  }

  /** Every straight-line table is chained. */
  lemma {:induction false} StraightLineEntriesChained(year: int, life: int, bookValue: real, accumulated: real,
                                                       residual: real, annual: real)
    ensures Chained(StraightLineEntries(year, life, bookValue, accumulated, residual, annual),
                    year, bookValue, accumulated)
    decreases life - year
  {
    if year <= life {
      var d := Min(annual, bookValue - residual);
      StraightLineEntriesChained(year + 1, life, bookValue - d, accumulated + d, residual, annual);
      var s := StraightLineEntries(year, life, bookValue, accumulated, residual, annual);
      assert s[1..] == StraightLineEntries(year + 1, life, bookValue - d, accumulated + d, residual, annual);
    }
  }

  /** Straight-line rows from a book value that is one annual charge above the residual
      value for each year left: one row per year left, every row charging exactly the
      annual figure, and the last row ending at the residual value. */
  lemma {:induction false} StraightLineEntriesShape(year: int, life: int, bookValue: real, accumulated: real,
                                                     residual: real, annual: real)
    requires year <= life + 1 && annual >= 0.0
    requires bookValue - residual == Times(life - year + 1, annual)
    ensures var s := StraightLineEntries(year, life, bookValue, accumulated, residual, annual);
      && |s| == life - year + 1
      && (forall i :: 0 <= i < |s| ==> s[i].expense == annual)
      && (|s| > 0 ==> s[|s| - 1].ending == residual)
    decreases life - year
  {
    if year <= life {
      TimesNonNegative(life - year, annual);
      assert Times(life - year + 1, annual) == Times(life - year, annual) + annual;
      assert Min(annual, bookValue - residual) == annual;
      var rest := StraightLineEntries(year + 1, life, bookValue - annual, accumulated + annual, residual, annual);
      StraightLineEntriesShape(year + 1, life, bookValue - annual, accumulated + annual, residual, annual);
      var s := StraightLineEntries(year, life, bookValue, accumulated, residual, annual);
      assert s == [ScheduleEntry(year, bookValue, annual, accumulated + annual, bookValue - annual)] + rest;
      forall i | 0 <= i < |s|
        ensures s[i].expense == annual
      {
        if i > 0 {
          assert s[i] == rest[i - 1];
        }
      }
      if |rest| > 0 {
        assert s[|s| - 1] == rest[|rest| - 1];
      }
    }
  }

  /** The straight-line table: exactly `useful_life` rows numbered from 1, each charging
      the annual figure (the `min` with what is left never bites in exact arithmetic),
      chained from the cost, the last ending at the residual value with the whole
      depreciable amount accumulated. */
  lemma StraightLineSchedule(a: AssetRow)
    requires a.usefulLife >= 1 && a.depreciationMethod == StraightLine && a.residual <= a.cost
    ensures var s := RawSchedule(a);
      && |s| == a.usefulLife
      && Chained(s, 1, a.cost, 0.0)
      && (forall i :: 0 <= i < |s| ==> s[i].year == i + 1 && s[i].expense == StraightLineAnnual(a))
      && s[|s| - 1].ending == a.residual
      && s[|s| - 1].accumulated == a.cost - a.residual
  {
    var annual := StraightLineAnnual(a);
    TimesIsProduct(a.usefulLife, annual);
    assert a.cost - a.residual == a.usefulLife as real * annual;
    StraightLineEntriesShape(1, a.usefulLife, a.cost, 0.0, a.residual, annual);
    StraightLineEntriesChained(1, a.usefulLife, a.cost, 0.0, a.residual, annual);
    ChainedRows(RawSchedule(a), 1, a.cost, 0.0);
  }

  /** Every declining-balance table is chained, has at most one row per year left, and
      starts with the charge on the opening book value. */
  lemma {:induction false} DecliningEntriesChained(year: int, life: int, bookValue: real, accumulated: real,
                                                    residual: real, rate: real)
    ensures var s := DecliningEntries(year, life, bookValue, accumulated, residual, rate);
      && Chained(s, year, bookValue, accumulated)
      && |s| <= (if year <= life then life - year + 1 else 0)
      && (|s| > 0 ==> s[0].expense == DecliningCharge(bookValue, residual, rate))
    decreases life - year
  {
    if year <= life {
      var d := DecliningCharge(bookValue, residual, rate);
      if d > 0.0 && bookValue - d > residual {
        DecliningEntriesChained(year + 1, life, bookValue - d, accumulated + d, residual, rate);
        var s := DecliningEntries(year, life, bookValue, accumulated, residual, rate);
        assert s[1..] == DecliningEntries(year + 1, life, bookValue - d, accumulated + d, residual, rate);
      }
    }
  }

  /** Declining-balance rows: every charge positive, every ending value at or above the
      residual value and above it on all rows but the last, nothing at all from a book
      value at or below the residual value, and fewer rows than years left only when the
      last row reached the residual value. */
  lemma {:induction false} DecliningEntriesBounds(year: int, life: int, bookValue: real, accumulated: real,
                                                   residual: real, rate: real)
    requires rate > 0.0 && residual >= 0.0
    ensures var s := DecliningEntries(year, life, bookValue, accumulated, residual, rate);
      && (forall i :: 0 <= i < |s| ==> 0.0 < s[i].expense && residual <= s[i].ending < s[i].beginning)
      && (forall i :: 0 <= i < |s| - 1 ==> s[i].ending > residual)
      && (bookValue <= residual ==> s == [])
      && (bookValue > residual && |s| < life - year + 1 ==> |s| > 0 && s[|s| - 1].ending <= residual)
    decreases life - year
  {
    if year <= life {
      var d := DecliningCharge(bookValue, residual, rate);
      if bookValue > residual {
        DecliningChargeBounds(bookValue, residual, rate);
        var s := DecliningEntries(year, life, bookValue, accumulated, residual, rate);
        var e := ScheduleEntry(year, bookValue, d, accumulated + d, bookValue - d);
        if bookValue - d > residual {
          var rest := DecliningEntries(year + 1, life, bookValue - d, accumulated + d, residual, rate);
          DecliningEntriesBounds(year + 1, life, bookValue - d, accumulated + d, residual, rate);
          assert s == [e] + rest;
          assert forall i :: 1 <= i < |s| ==> s[i] == rest[i - 1];
        } else {
          assert s == [e];
        }
      }
    }
  }

  /** Declining-balance charges never increase down the table. */
  lemma {:induction false} DecliningEntriesNonIncreasing(year: int, life: int, bookValue: real, accumulated: real,
                                                          residual: real, rate: real)
    requires rate > 0.0
    ensures var s := DecliningEntries(year, life, bookValue, accumulated, residual, rate);
      forall i, j :: 0 <= i < j < |s| ==> s[j].expense <= s[i].expense
    decreases life - year
  {
    if year <= life {
      var d := DecliningCharge(bookValue, residual, rate);
      if d > 0.0 && bookValue - d > residual {
        var rest := DecliningEntries(year + 1, life, bookValue - d, accumulated + d, residual, rate);
        var s := DecliningEntries(year, life, bookValue, accumulated, residual, rate);
        DecliningEntriesNonIncreasing(year + 1, life, bookValue - d, accumulated + d, residual, rate);
        DecliningEntriesChained(year + 1, life, bookValue - d, accumulated + d, residual, rate);
        DecliningChargeMonotone(bookValue - d, bookValue, residual, rate);
        assert s == [ScheduleEntry(year, bookValue, d, accumulated + d, bookValue - d)] + rest;
        assert forall i :: 1 <= i < |s| ==> s[i] == rest[i - 1];
      }
    }
  }

  /** The declining-balance table from the cost, for a non-negative residual value. */
  lemma DecliningSchedule(a: AssetRow)
    requires a.usefulLife >= 1 && a.depreciationMethod == DecliningBalance && a.residual >= 0.0
    ensures var s := RawSchedule(a);
      && |s| <= a.usefulLife
      && Chained(s, 1, a.cost, 0.0)
      && (forall i :: 0 <= i < |s| ==> 0.0 < s[i].expense && a.residual <= s[i].ending < s[i].beginning)
      && (forall i :: 0 <= i < |s| - 1 ==> s[i].ending > a.residual)
      && (forall i, j :: 0 <= i < j < |s| ==> s[j].expense <= s[i].expense)
      && (a.cost <= a.residual ==> s == [])
      && (a.cost > a.residual && |s| < a.usefulLife ==> |s| > 0 && s[|s| - 1].ending <= a.residual)
  {
    var rate := DecliningRate(a);
    DecliningEntriesChained(1, a.usefulLife, a.cost, 0.0, a.residual, rate);
    DecliningEntriesBounds(1, a.usefulLife, a.cost, 0.0, a.residual, rate);
    DecliningEntriesNonIncreasing(1, a.usefulLife, a.cost, 0.0, a.residual, rate);
  }

  /** Declining-balance: when the first year's rate already covers the depreciable
      amount (a useful life of one or two years, or a residual value close to the cost)
      the table has a single row expensing the whole depreciable amount. */
  lemma DecliningSingleRow(a: AssetRow)
    requires a.usefulLife >= 1 && a.depreciationMethod == DecliningBalance
    requires 0.0 <= a.residual < a.cost
    requires a.cost * DecliningRate(a) >= a.cost - a.residual
    ensures RawSchedule(a) == [ScheduleEntry(1, a.cost, a.cost - a.residual, a.cost - a.residual, a.residual)]
  {
  }

  /** A useful life of one or two years always falls under DecliningSingleRow. */
  lemma DecliningShortLifeSchedule(a: AssetRow)
    requires 1 <= a.usefulLife <= 2 && a.depreciationMethod == DecliningBalance
    requires 0.0 <= a.residual < a.cost
    ensures |RawSchedule(a)| == 1
    ensures RawSchedule(a)[0].expense == a.cost - a.residual
  {
    MulLeftMonotone(1.0, DecliningRate(a), a.cost);
    DecliningSingleRow(a);
  }

  /** Declining-balance rows with residual value zero and a rate below one never reach
      zero: one row per remaining year, every ending value positive. */
  lemma {:induction false} DecliningEntriesNoResidual(year: int, life: int, bookValue: real, accumulated: real,
                                                       rate: real)
    requires 0.0 < rate < 1.0 && bookValue > 0.0 && year <= life + 1
    ensures var s := DecliningEntries(year, life, bookValue, accumulated, 0.0, rate);
      && |s| == life - year + 1
      && (forall i :: 0 <= i < |s| ==> s[i].ending > 0.0)
    decreases life - year
  {
    if year <= life {
      assert bookValue * rate < bookValue by {
        MulNonNegative(bookValue, 1.0 - rate);
        assert bookValue - bookValue * rate == bookValue * (1.0 - rate);
        assert bookValue * (1.0 - rate) != 0.0;
      }
      assert bookValue * rate > 0.0;
      var d := DecliningCharge(bookValue, 0.0, rate);
      assert d == bookValue * rate;
      DecliningEntriesNoResidual(year + 1, life, bookValue - d, accumulated + d, rate);
      var e := ScheduleEntry(year, bookValue, d, accumulated + d, bookValue - d);
      var rest := DecliningEntries(year + 1, life, bookValue - d, accumulated + d, 0.0, rate);
      var s := DecliningEntries(year, life, bookValue, accumulated, 0.0, rate);
      assert s == [e] + rest;
      assert forall i :: 1 <= i < |s| ==> s[i] == rest[i - 1];
    }
  }

  /** Declining-balance with residual value zero and a useful life of three years or
      more: the table runs the full useful life and still ends above zero. */
  lemma DecliningNoResidualSchedule(a: AssetRow)
    requires a.usefulLife >= 3 && a.depreciationMethod == DecliningBalance
    requires a.residual == 0.0 && a.cost > 0.0
    ensures |RawSchedule(a)| == a.usefulLife
    ensures RawSchedule(a)[a.usefulLife - 1].ending > 0.0
  {
    DecliningEntriesNoResidual(1, a.usefulLife, a.cost, 0.0, DecliningRate(a));
  }

  /** Each row rounded to cents, as DepreciationSchedule emits it. */
  function RoundRows(raw: seq<ScheduleEntry>): (rounded: seq<ScheduleEntry>)
    ensures |rounded| == |raw|
    ensures forall i :: 0 <= i < |raw| ==> rounded[i] == RoundEntry(raw[i])
  {
    if |raw| == 0 then [] else [RoundEntry(raw[0])] + RoundRows(raw[1..])
  }

  /** Rounding every field on its own makes the emitted expense column drift from the
      exact one by at most half a cent per row. */
  lemma {:induction false} RoundedExpensesDrift(raw: seq<ScheduleEntry>)
    ensures -0.005 * |raw| as real <= SumExpenses(RoundRows(raw)) - SumExpenses(raw) <= 0.005 * |raw| as real
  {
    if |raw| > 0 {
      RoundedExpensesDrift(raw[1..]);
      assert RoundRows(raw)[1..] == RoundRows(raw[1..]);
    }
  }

  /** The emitted table's last accumulated figure and the sum of its expense column
      differ by at most one cent per row. */
  lemma ScheduleSumWithinRounding(a: AssetRow, schedule: seq<ScheduleEntry>)
    requires a.usefulLife >= 1 && a.residual >= 0.0
    requires a.depreciationMethod == StraightLine ==> a.residual <= a.cost
    requires |schedule| == |RawSchedule(a)| > 0
    requires forall i :: 0 <= i < |schedule| ==> schedule[i] == RoundEntry(RawSchedule(a)[i])
    ensures var n := |schedule|;
      -0.01 * n as real <= schedule[n - 1].accumulated - SumExpenses(schedule) <= 0.01 * n as real
  {
    var raw := RawSchedule(a);
    if a.depreciationMethod == StraightLine {
      StraightLineSchedule(a);
    } else {
      DecliningSchedule(a);
    }
    ChainedRows(raw, 1, a.cost, 0.0);
    RoundedExpensesDrift(raw);
    assert schedule == RoundRows(raw);
  }

  // ---------------------------------------------------------------- worked example

  /** The asset of the worked example: cost 120,000,000, no residual value, a useful
      life of five years, acquired at time zero. */
  function ExampleAsset(depreciationMethod: Method): AssetRow
  {
    AssetRow(1, "Mesin Produksi", "Mesin", 0, 120000000.0, 5, depreciationMethod, 0.0, 120000000.0, 0.0, "active")
  }

  /** Straight-line, two years (24 months) after acquisition: 24,000,000 a year,
      48,000,000 accumulated, 72,000,000 left. */
  lemma StraightLineExampleSnapshot()
    ensures CurrentSnapshot(ExampleAsset(StraightLine), 24 * MS_PER_MONTH)
         == Snapshot(48000000.0, 72000000.0, 24000000.0)
  {
    var a := ExampleAsset(StraightLine);
    assert YearsElapsed(0, 24 * MS_PER_MONTH) == 2.0 by {
      assert MonthsElapsed(0, 24 * MS_PER_MONTH) == 24;
    }
    assert RawSnapshot(a, 24 * MS_PER_MONTH) == Snapshot(48000000.0, 72000000.0, 24000000.0);
    Round2OfCents(48000000.0);
    Round2OfCents(72000000.0);
    Round2OfCents(24000000.0);
  }

  /** Straight-line table of the worked example: five rows, ending at zero. */
  lemma StraightLineExampleSchedule()
    ensures |RawSchedule(ExampleAsset(StraightLine))| == 5
    ensures RawSchedule(ExampleAsset(StraightLine))[4].ending == 0.0
  {
    StraightLineSchedule(ExampleAsset(StraightLine));
  }

  /** Declining-balance at rate 0.4: the first two rows are 120,000,000 less 48,000,000
      leaving 72,000,000, then 72,000,000 less 28,800,000 leaving 43,200,000; two years
      after acquisition the snapshot shows the second row's figures and an annual
      figure of 17,280,000. */
  lemma DecliningExample()
    ensures RawSchedule(ExampleAsset(DecliningBalance))[..2]
         == [ScheduleEntry(1, 120000000.0, 48000000.0, 48000000.0, 72000000.0),
             ScheduleEntry(2, 72000000.0, 28800000.0, 76800000.0, 43200000.0)]
    ensures CurrentSnapshot(ExampleAsset(DecliningBalance), 24 * MS_PER_MONTH)
         == Snapshot(76800000.0, 43200000.0, 17280000.0)
  {
    var a := ExampleAsset(DecliningBalance);
    assert DecliningRate(a) == 0.4;
    assert WholeYears(0, 24 * MS_PER_MONTH) == 2 by {
      assert MonthsElapsed(0, 24 * MS_PER_MONTH) == 24;
    }
    var s := DecliningEntries(1, 5, 120000000.0, 0.0, 0.0, 0.4);
    assert s == [ScheduleEntry(1, 120000000.0, 48000000.0, 48000000.0, 72000000.0)]
              + DecliningEntries(2, 5, 72000000.0, 48000000.0, 0.0, 0.4);
    assert DecliningEntries(2, 5, 72000000.0, 48000000.0, 0.0, 0.4)
        == [ScheduleEntry(2, 72000000.0, 28800000.0, 76800000.0, 43200000.0)]
           + DecliningEntries(3, 5, 43200000.0, 76800000.0, 0.0, 0.4);
    Round2OfCents(76800000.0);
    Round2OfCents(43200000.0);
    Round2OfCents(17280000.0);
  }
}
