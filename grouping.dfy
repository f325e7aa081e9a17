/** The per-category folds of the report and the dashboard: each listed asset
    contributes one line (its category, cost, current accumulated depreciation and
    current book value) to a dictionary keyed by category. */
module Grouping {

  /** What one asset contributes to the folds. */
  datatype Line = Line(category: string, cost: real, depreciation: real, bookValue: real)

  /** One `by_category` entry: `{count, total_cost, total_depreciation, total_book_value}`. */
  datatype CategoryTotals = CategoryTotals(count: nat, totalCost: real, totalDepreciation: real, totalBookValue: real)

  /** The entry a category starts with when its first asset is met. */
  const Zero := CategoryTotals(0, 0.0, 0.0, 0.0)

  function Plus(x: CategoryTotals, y: CategoryTotals): CategoryTotals
  {
    CategoryTotals(x.count + y.count, x.totalCost + y.totalCost,
                   x.totalDepreciation + y.totalDepreciation, x.totalBookValue + y.totalBookValue)
  }

  /** The entry of a category holding the one line `l`. */
  function Single(l: Line): CategoryTotals
  {
    CategoryTotals(1, l.cost, l.depreciation, l.bookValue)
  }

  /** `count++` and the three `+=` of one loop iteration. */
  function Add(t: CategoryTotals, l: Line): CategoryTotals
  {
    Plus(t, Single(l))
  }

  /** Totals over all lines, accumulated in list order. */
  function Totals(ls: seq<Line>): CategoryTotals
  {
    if |ls| == 0 then Zero else Add(Totals(ls[..|ls| - 1]), ls[|ls| - 1])
  }

  /** The lines of category `c`, in list order. */
  function OfCategory(ls: seq<Line>, c: string): (r: seq<Line>)
    ensures |r| <= |ls|
    ensures forall i :: 0 <= i < |r| ==> r[i].category == c
  {
    if |ls| == 0 then []
    else if ls[|ls| - 1].category == c then OfCategory(ls[..|ls| - 1], c) + [ls[|ls| - 1]]
    else OfCategory(ls[..|ls| - 1], c)
  }

  /** The dictionary after the `forEach` over `ls`: an entry is created for a category
      the first time one of its lines is met, then the line is added to it. */
  function Grouped(ls: seq<Line>): map<string, CategoryTotals>
  {
    if |ls| == 0 then map[]
    else
      var m := Grouped(ls[..|ls| - 1]);
      var l := ls[|ls| - 1];
      var t := if l.category in m then m[l.category] else Zero;
      m[l.category := Add(t, l)]
  }

  /** The dictionary over a list prefix one line longer: the line's entry, or a zero
      one, with the line added. */
  lemma GroupedPrefixStep(ls: seq<Line>, i: nat, before: map<string, CategoryTotals>, entry: CategoryTotals,
                          after: map<string, CategoryTotals>)
    requires i < |ls| && before == Grouped(ls[..i])
    requires entry == if ls[i].category in before then before[ls[i].category] else Zero
    requires after == before[ls[i].category := Add(entry, ls[i])]
    ensures after == Grouped(ls[..i + 1])
  {
    assert ls[..i + 1][..i] == ls[..i];
  }

  /** Both folds after one more line. */
  lemma FoldSnoc(ls: seq<Line>, l: Line)
    ensures Totals(ls + [l]) == Add(Totals(ls), l)
    ensures Grouped(ls + [l]) ==
      var m := Grouped(ls);
      m[l.category := Add(if l.category in m then m[l.category] else Zero, l)]
  {
    assert (ls + [l])[..|ls|] == ls;
  }

  /** The dictionary has an entry exactly for the categories that occur, and each
      entry holds the totals over that category's lines. */
  lemma GroupedEntries(ls: seq<Line>)
    ensures forall c :: c in Grouped(ls) <==> exists i :: 0 <= i < |ls| && ls[i].category == c
    ensures forall c :: c in Grouped(ls) ==> Grouped(ls)[c] == Totals(OfCategory(ls, c))
  {
    GroupedKeys(ls);
    GroupedValues(ls);
  }

  lemma {:induction false} GroupedKeys(ls: seq<Line>)
    ensures forall c :: c in Grouped(ls) <==> exists i :: 0 <= i < |ls| && ls[i].category == c
  {
    if |ls| > 0 {
      var init := ls[..|ls| - 1];
      GroupedKeys(init);
      forall c | c in Grouped(init)
        ensures exists i :: 0 <= i < |ls| && ls[i].category == c
      {
        var i :| 0 <= i < |init| && init[i].category == c;
        assert ls[i] == init[i];
      }
      forall c | exists i :: 0 <= i < |ls| && ls[i].category == c
        ensures c in Grouped(ls)
      {
        var i :| 0 <= i < |ls| && ls[i].category == c;
        if i < |init| {
          assert init[i] == ls[i];
        }
      }
    }
  }

  lemma {:induction false} GroupedValues(ls: seq<Line>)
    ensures forall c :: c in Grouped(ls) ==> Grouped(ls)[c] == Totals(OfCategory(ls, c))
  {
    if |ls| > 0 {
      var init, l := ls[..|ls| - 1], ls[|ls| - 1];
      GroupedValues(init);
      var c := l.category;
      var before := OfCategory(init, c);
      if before != [] {
        OfCategoryMember(init, c, 0);
        GroupedKeys(init);
      }
      assert OfCategory(ls, c)[..|before|] == before;
    }
  }

  lemma {:induction false} OfCategoryMember(ls: seq<Line>, c: string, k: nat)
    requires k < |OfCategory(ls, c)|
    ensures exists i :: 0 <= i < |ls| && ls[i] == OfCategory(ls, c)[k]
  {
    var init := ls[..|ls| - 1];
    var r := OfCategory(ls, c);
    if k < |OfCategory(init, c)| {
      OfCategoryMember(init, c, k);
      assert r[k] == OfCategory(init, c)[k];
      var i :| 0 <= i < |init| && init[i] == OfCategory(init, c)[k];
      assert ls[i] == init[i];
    } else {
      assert r[k] == ls[|ls| - 1];
    }
  }

  /** The sum of all entries of a dictionary. */
  ghost function SumTotals(m: map<string, CategoryTotals>): CategoryTotals
    decreases |m|
  {
    if |m| == 0 then Zero
    else
      var k :| k in m;
      Plus(m[k], SumTotals(m - {k}))
  }

  /** The sum does not depend on which entry is taken out first. */
  lemma {:induction false} SumTotalsRemove(m: map<string, CategoryTotals>, k: string)
    requires k in m
    ensures SumTotals(m) == Plus(m[k], SumTotals(m - {k}))
    decreases |m|
  {
    var j :| j in m && SumTotals(m) == Plus(m[j], SumTotals(m - {j}));
    if j != k {
      var rest := SumTotals(m - {j} - {k});
      assert SumTotals(m - {j}) == Plus(m[k], rest) by {
        SumTotalsRemove(m - {j}, k);
        assert (m - {j})[k] == m[k];
      }
      assert SumTotals(m - {k}) == Plus(m[j], rest) by {
        SumTotalsRemove(m - {k}, j);
        assert m - {k} - {j} == m - {j} - {k};
        assert (m - {k})[j] == m[j];
      }
      PlusSwap(m[j], m[k], rest);
    }
  }

  lemma PlusSwap(x: CategoryTotals, y: CategoryTotals, z: CategoryTotals)
    ensures Plus(x, Plus(y, z)) == Plus(y, Plus(x, z))
  {
  }

  /** Adding the line `l` to the dictionary adds it to the sum of the entries. */
  lemma AddToEntrySum(m: map<string, CategoryTotals>, l: Line)
    ensures var t := if l.category in m then m[l.category] else Zero;
      SumTotals(m[l.category := Add(t, l)]) == Add(SumTotals(m), l)
  {
    if l.category in m {
      AddToOldEntrySum(m, l);
    } else {
      AddNewEntrySum(m, l);
    }
  }

  lemma AddToOldEntrySum(m: map<string, CategoryTotals>, l: Line)
    requires l.category in m
    ensures SumTotals(m[l.category := Add(m[l.category], l)]) == Add(SumTotals(m), l)
  {
    var c := l.category;
    var m' := m[c := Add(m[c], l)];
    var rest := SumTotals(m - {c});
    SumTotalsRemove(m', c);
    assert m' - {c} == m - {c};
    assert SumTotals(m') == Plus(Add(m[c], l), rest);
    SumTotalsRemove(m, c);
    PlusAdd(m[c], rest, l);
  }

  lemma AddNewEntrySum(m: map<string, CategoryTotals>, l: Line)
    requires l.category !in m
    ensures SumTotals(m[l.category := Add(Zero, l)]) == Add(SumTotals(m), l)
  {
    var c := l.category;
    var m' := m[c := Add(Zero, l)];
    SumTotalsRemove(m', c);
    assert m' - {c} == m;
    PlusAdd(Zero, SumTotals(m), l);
  }

  lemma PlusAdd(t: CategoryTotals, r: CategoryTotals, l: Line)
    ensures Plus(Add(t, l), r) == Add(Plus(t, r), l)
  {
  }

  /** The per-category entries add up to the grand totals: their counts to the number
      of listed assets, and their cost, depreciation and book-value totals to the
      unrounded sums over all listed assets. */
  lemma {:induction false} GroupedSumsToTotals(ls: seq<Line>)
    ensures SumTotals(Grouped(ls)) == Totals(ls)
    ensures Totals(ls).count == |ls|
  {
    if |ls| > 0 {
      GroupedSumsToTotals(ls[..|ls| - 1]);
      AddToEntrySum(Grouped(ls[..|ls| - 1]), ls[|ls| - 1]);
    }
  }
}
