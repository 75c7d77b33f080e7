/** The per-category expense totals that `createExpenseBreakdown` charts. */
module Breakdown {
  import opened Transactions
  import opened Seqs
  import Statistics

  /** One entry of the `categoryTotals` object. */
  datatype CategoryTotal = CategoryTotal(category: string, total: int)

  function Names(totals: seq<CategoryTotal>): (r: seq<string>)
    ensures |r| == |totals|
    ensures forall k :: 0 <= k < |totals| ==> r[k] == totals[k].category
  {
    if |totals| == 0 then [] else [totals[0].category] + Names(totals[1..])
  }

  lemma NamesCons(x: CategoryTotal, rest: seq<CategoryTotal>)
    ensures Names([x] + rest) == [x.category] + Names(rest)
  {
  }

  /** The categories of `ts`, in list order, repeats included. */
  function CategoriesOf(ts: seq<Transaction>): (r: seq<string>)
    ensures |r| == |ts|
    ensures forall k :: 0 <= k < |ts| ==> r[k] == ts[k].category
  {
    seq(|ts|, k requires 0 <= k < |ts| => ts[k].category)
  }

  /** Each element of `xs` once, where it first occurs: the key order of an
      object whose keys are assigned in the order of `xs`. */
  function FirstSeen(xs: seq<string>): (r: seq<string>)
    ensures Distinct(r)
    ensures forall x :: x in r <==> x in xs
  {
    if |xs| == 0 then []
    else
      var init, last := xs[..|xs| - 1], xs[|xs| - 1];
      assert xs == init + [last];
      var d := FirstSeen(init);
      if last in d then d else d + [last]
  }

  /** The position where `x` first occurs in `xs`, or `|xs|` when it does not. */
  function FirstIndex(xs: seq<string>, x: string): (i: nat)
    ensures i <= |xs|
    ensures i < |xs| <==> x in xs
    ensures i < |xs| ==> xs[i] == x
    ensures forall k :: 0 <= k < i ==> xs[k] != x
  {
    if |xs| == 0 then 0
    else if xs[0] == x then 0
    else 1 + FirstIndex(xs[1..], x)
  }

  /** Appending an element moves no earlier first occurrence. */
  lemma FirstIndexSnoc(init: seq<string>, last: string, x: string)
    ensures x in init ==> FirstIndex(init + [last], x) == FirstIndex(init, x)
    ensures x !in init && x == last ==> FirstIndex(init + [last], x) == |init|
  {
    var xs := init + [last];
    var i, j := FirstIndex(init, x), FirstIndex(xs, x);
    if x in init {
      assert xs[i] == x;
    } else if x == last {
      assert xs[|init|] == x;
    }
  }

  /** The keys come in the order of their first occurrences in `xs`. */
  lemma {:induction false} FirstSeenOrder(xs: seq<string>)
    ensures forall i, j :: 0 <= i < j < |FirstSeen(xs)| ==>
      FirstIndex(xs, FirstSeen(xs)[i]) < FirstIndex(xs, FirstSeen(xs)[j])
    decreases |xs|
  {
    if |xs| > 0 {
      var init, last := xs[..|xs| - 1], xs[|xs| - 1];
      assert xs == init + [last];
      var d, r := FirstSeen(init), FirstSeen(xs);
      FirstSeenOrder(init);
      forall y | y in d
        ensures FirstIndex(xs, y) == FirstIndex(init, y) < |init|
      {
        FirstIndexSnoc(init, last, y);
      }
      if last !in d {
        FirstIndexSnoc(init, last, last);
        assert r == d + [last];
        forall i, j | 0 <= i < j < |r|
          ensures FirstIndex(xs, r[i]) < FirstIndex(xs, r[j])
        {
          assert r[i] == d[i];
          if j < |d| {
            assert r[j] == d[j];
          }
        }
      }
    }
  }

  /** `categoryTotals[category] || 0`: the total recorded for `c`, or zero. */
  function Lookup(totals: seq<CategoryTotal>, c: string): int
  {
    if |totals| == 0 then 0
    else if totals[0].category == c then totals[0].total
    else Lookup(totals[1..], c)
  }

  function SumTotals(totals: seq<CategoryTotal>): int
  {
    if |totals| == 0 then 0 else totals[0].total + SumTotals(totals[1..])
  }

  /** What the chart should show for `c`: the magnitudes of the expense
      records of category `c` in `ts`, added up. */
  function CategorySpend(ts: seq<Transaction>, c: string): int
  {
    if |ts| == 0 then 0
    else
      var t := ts[|ts| - 1];
      CategorySpend(ts[..|ts| - 1], c) + (if t.amount < 0 && t.category == c then -t.amount else 0)
  }

  /** `categoryTotals[category] = (categoryTotals[category] || 0) + amount`:
      adds to the existing entry, or appends a new one. */
  function Accumulate(totals: seq<CategoryTotal>, c: string, amount: int): (r: seq<CategoryTotal>)
    ensures Names(r) == if c in Names(totals) then Names(totals) else Names(totals) + [c]
  {
    if |totals| == 0 then [CategoryTotal(c, amount)]
    else
      var head, tail := totals[0], totals[1..];
      assert totals == [head] + tail;
      NamesCons(head, tail);
      if head.category == c then
        var r := [CategoryTotal(c, head.total + amount)] + tail;
        NamesCons(r[0], tail);
        r
      else
        var rest := Accumulate(tail, c, amount);
        NamesCons(head, rest);
        [head] + rest
  }

  /** Accumulating adds `amount` to the total of `c` and to no other. */
  lemma {:induction false} AccumulateLookup(totals: seq<CategoryTotal>, c: string, amount: int, d: string)
    requires Distinct(Names(totals))
    ensures Lookup(Accumulate(totals, c, amount), d) == Lookup(totals, d) + (if d == c then amount else 0)
    decreases |totals|
  {
    if |totals| > 0 {
      assert Names(totals) == [totals[0].category] + Names(totals[1..]);
      if totals[0].category == c {
        if d == c {
          LookupAbsent(totals[1..], c);
        }
      } else {
        AccumulateLookup(totals[1..], c, amount, d);
      }
    }
  }

  /** Accumulating adds `amount` to the sum of all totals. */
  lemma {:induction false} AccumulateSum(totals: seq<CategoryTotal>, c: string, amount: int)
    ensures SumTotals(Accumulate(totals, c, amount)) == SumTotals(totals) + amount
    decreases |totals|
  {
    if |totals| > 0 && totals[0].category != c {
      AccumulateSum(totals[1..], c, amount);
    }
  }

  /** Accumulating a positive amount keeps every total positive. */
  lemma {:induction false} AccumulatePositive(totals: seq<CategoryTotal>, c: string, amount: int)
    requires amount > 0
    requires forall k :: 0 <= k < |totals| ==> totals[k].total > 0
    ensures forall k :: 0 <= k < |Accumulate(totals, c, amount)| ==> Accumulate(totals, c, amount)[k].total > 0
    decreases |totals|
  {
    if |totals| > 0 && totals[0].category != c {
      AccumulatePositive(totals[1..], c, amount);
    }
  }

  /** With distinct categories, looking up an entry's category finds that
      entry's total. */
  lemma {:induction false} LookupEntries(totals: seq<CategoryTotal>)
    requires Distinct(Names(totals))
    ensures forall k :: 0 <= k < |totals| ==> Lookup(totals, totals[k].category) == totals[k].total
    decreases |totals|
  {
    if |totals| > 0 {
      var tail := totals[1..];
      assert Distinct(Names(tail)) by {
        assert forall k :: 0 <= k < |tail| ==> Names(tail)[k] == Names(totals)[k + 1];
      }
      LookupEntries(tail);
      forall k | 1 <= k < |totals|
        ensures Lookup(totals, totals[k].category) == totals[k].total
      {
        assert Names(totals)[0] != Names(totals)[k];
        assert totals[k] == tail[k - 1];
      }
    }
  }

  /** A category without an entry has a zero total. */
  lemma {:induction false} LookupAbsent(totals: seq<CategoryTotal>, c: string)
    requires c !in Names(totals)
    ensures Lookup(totals, c) == 0
    decreases |totals|
  {
    if |totals| > 0 {
      assert Names(totals[1..]) == Names(totals)[1..];
      LookupAbsent(totals[1..], c);
    }
  }

  /** The entries built from the first `i` expense records `xs[..i]`: one per
      category in first-seen order, each holding its category's spend, all
      positive, adding up to the magnitude of those records' total. */
  ghost predicate GroupedUpTo(xs: seq<Transaction>, i: nat, totals: seq<CategoryTotal>)
    requires i <= |xs|
  {
    && Names(totals) == FirstSeen(CategoriesOf(xs[..i]))
    && (forall c :: Lookup(totals, c) == CategorySpend(xs[..i], c))
    && (forall k :: 0 <= k < |totals| ==> totals[k].total > 0)
    && SumTotals(totals) == -Statistics.Total(xs[..i])
  }

  lemma NamesStep(xs: seq<Transaction>, i: nat, totals: seq<CategoryTotal>, amount: int)
    requires i < |xs|
    requires Names(totals) == FirstSeen(CategoriesOf(xs[..i]))
    ensures Names(Accumulate(totals, xs[i].category, amount)) == FirstSeen(CategoriesOf(xs[..i + 1]))
  {
    var cs := CategoriesOf(xs[..i + 1]);
    assert cs[..|cs| - 1] == CategoriesOf(xs[..i]);
    assert cs[|cs| - 1] == xs[i].category;
  }

  lemma SpendStep(xs: seq<Transaction>, i: nat, totals: seq<CategoryTotal>)
    requires i < |xs| && xs[i].amount < 0
    requires Distinct(Names(totals))
    requires forall c :: Lookup(totals, c) == CategorySpend(xs[..i], c)
    ensures forall c :: Lookup(Accumulate(totals, xs[i].category, Statistics.Abs(xs[i].amount)), c)
                     == CategorySpend(xs[..i + 1], c)
  {
    assert xs[..i + 1][..i] == xs[..i];
    forall c {
      AccumulateLookup(totals, xs[i].category, Statistics.Abs(xs[i].amount), c);
    }
  }

  lemma SumStep(xs: seq<Transaction>, i: nat, totals: seq<CategoryTotal>)
    requires i < |xs| && xs[i].amount < 0
    requires SumTotals(totals) == -Statistics.Total(xs[..i])
    ensures SumTotals(Accumulate(totals, xs[i].category, Statistics.Abs(xs[i].amount)))
         == -Statistics.Total(xs[..i + 1])
  {
    assert xs[..i + 1][..i] == xs[..i];
    AccumulateSum(totals, xs[i].category, Statistics.Abs(xs[i].amount));
  }

  /** One pass of the `forEach` body keeps the grouping exact. */
  lemma GroupStep(xs: seq<Transaction>, i: nat, totals: seq<CategoryTotal>)
    requires forall k :: 0 <= k < |xs| ==> xs[k].amount < 0
    requires i < |xs| && GroupedUpTo(xs, i, totals)
    ensures GroupedUpTo(xs, i + 1, Accumulate(totals, xs[i].category, Statistics.Abs(xs[i].amount)))
  {
    var amount := Statistics.Abs(xs[i].amount);
    NamesStep(xs, i, totals, amount);
    SpendStep(xs, i, totals);
    SumStep(xs, i, totals);
    AccumulatePositive(totals, xs[i].category, amount);
  }

  /** The grouping loop of `createExpenseBreakdown`: one entry per category of
      expense, in first-seen order, holding that category's spend. The
      entries add up to the expenses figure of the summary page. */
  method CategoryTotals(ts: seq<Transaction>) returns (totals: seq<CategoryTotal>)
    ensures Names(totals) == FirstSeen(CategoriesOf(Filter(ts, Statistics.IsExpense)))
    ensures forall k :: 0 <= k < |totals| ==>
      totals[k].total == CategorySpend(ts, totals[k].category) && totals[k].total > 0
    ensures SumTotals(totals) == Statistics.GetTransactionStats(ts).expenses
  {
    var expenses := Filter(ts, Statistics.IsExpense);
    assert forall k :: 0 <= k < |expenses| ==> expenses[k] in expenses;
    totals := [];
    var i := 0;
    while i < |expenses|
      invariant 0 <= i <= |expenses|
      invariant GroupedUpTo(expenses, i, totals)
    {
      GroupStep(expenses, i, totals);
      totals := Accumulate(totals, expenses[i].category, Statistics.Abs(expenses[i].amount));
      i := i + 1;
    }
    GroupedAll(ts, totals);
  }

  /** Entries grouped over all the expense records are the breakdown of the
      whole list. */
  lemma GroupedAll(ts: seq<Transaction>, totals: seq<CategoryTotal>)
    requires GroupedUpTo(Filter(ts, Statistics.IsExpense), |Filter(ts, Statistics.IsExpense)|, totals)
    ensures Names(totals) == FirstSeen(CategoriesOf(Filter(ts, Statistics.IsExpense)))
    ensures forall k :: 0 <= k < |totals| ==>
      totals[k].total == CategorySpend(ts, totals[k].category) && totals[k].total > 0
    ensures SumTotals(totals) == Statistics.GetTransactionStats(ts).expenses
  {
    var expenses := Filter(ts, Statistics.IsExpense);
    assert expenses[..|expenses|] == expenses;
    SpendOfExpenses(ts);
    LookupEntries(totals);
    Statistics.ExpenseTotalNonPositive(expenses);
  }

  /** Only expense records count towards a category's spend. */
  lemma {:induction false} SpendOfExpenses(ts: seq<Transaction>)
    ensures forall c :: CategorySpend(Filter(ts, Statistics.IsExpense), c) == CategorySpend(ts, c)
    decreases |ts|
  {
    if |ts| > 0 {
      var init := ts[..|ts| - 1];
      assert ts == init + [ts[|ts| - 1]];
      SpendOfExpenses(init);
      var f := Filter(init, Statistics.IsExpense);
      assert (f + [ts[|ts| - 1]])[..|f|] == f;
    }
  }

}
