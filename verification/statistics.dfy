/** `getTransactionStats`: income, expenses and balance over the list. */
module Statistics {
  import opened Transactions
  import opened Seqs

  datatype Stats = Stats(income: int, expenses: int, balance: int)

  predicate IsIncome(t: Transaction)
  {
    t.amount > 0
  }

  predicate IsExpense(t: Transaction)
  {
    t.amount < 0
  }

  function Abs(x: int): int
  {
    if x < 0 then -x else x
  }

  /** `reduce((sum, t) => sum + t.amount, 0)`: the amounts added left to
      right, which is what the positive amounts bring in less what the
      negative ones take out. */
  function Total(ts: seq<Transaction>): (r: int)
    ensures r == Earned(ts) - Spent(ts)
  {
    if |ts| == 0 then 0 else Total(ts[..|ts| - 1]) + ts[|ts| - 1].amount
  }

  lemma {:induction false} TotalAppend(a: seq<Transaction>, b: seq<Transaction>)
    ensures Total(a + b) == Total(a) + Total(b)
    decreases |b|
  {
    if |b| > 0 {
      assert (a + b)[..|a + b| - 1] == a + b[..|b| - 1];
      TotalAppend(a, b[..|b| - 1]);
    } else {
      assert a + b == a;
    }
  }

  /** A list of income records adds up to a non-negative amount. */
  lemma {:induction false} IncomeTotalNonNegative(ts: seq<Transaction>)
    requires forall t :: t in ts ==> IsIncome(t)
    ensures Total(ts) >= 0
    decreases |ts|
  {
    if |ts| > 0 {
      assert ts[|ts| - 1] in ts;
      IncomeTotalNonNegative(ts[..|ts| - 1]);
    }
  }

  /** A list of expense records adds up to a non-positive amount. */
  lemma {:induction false} ExpenseTotalNonPositive(ts: seq<Transaction>)
    requires forall t :: t in ts ==> IsExpense(t)
    ensures Total(ts) <= 0
    decreases |ts|
  {
    if |ts| > 0 {
      assert ts[|ts| - 1] in ts;
      ExpenseTotalNonPositive(ts[..|ts| - 1]);
    }
  }

  /** A single record is income, expense, or has amount zero. */
  lemma CoverOne(t: Transaction)
    ensures Total(Filter([t], IsIncome)) + Total(Filter([t], IsExpense)) == t.amount
  {
  }

  /** Filtering then totalling distributes over concatenation. */
  lemma FilteredTotalAppend(a: seq<Transaction>, b: seq<Transaction>, p: Transaction -> bool)
    ensures Total(Filter(a + b, p)) == Total(Filter(a, p)) + Total(Filter(b, p))
  {
    FilterAppend(a, b, p);
    TotalAppend(Filter(a, p), Filter(b, p));
  }

  /** The incomes and the expenses together account for every amount, since
      the records left out of both have amount zero. */
  lemma {:induction false} IncomeAndExpensesCoverTotal(ts: seq<Transaction>)
    ensures Total(Filter(ts, IsIncome)) + Total(Filter(ts, IsExpense)) == Total(ts)
    decreases |ts|
  {
    if |ts| > 0 {
      var init, last := ts[..|ts| - 1], ts[|ts| - 1];
      assert ts == init + [last];
      IncomeAndExpensesCoverTotal(init);
      FilteredTotalAppend(init, [last], IsIncome);
      FilteredTotalAppend(init, [last], IsExpense);
      CoverOne(last);
    }
  }

  /** The positive amounts added record by record, an independent account of
      the income figure. */
  function Earned(ts: seq<Transaction>): int
  {
    if |ts| == 0 then 0
    else Earned(ts[..|ts| - 1]) + (if ts[|ts| - 1].amount > 0 then ts[|ts| - 1].amount else 0)
  }

  /** The magnitudes of the negative amounts added record by record, an
      independent account of the expenses figure. */
  function Spent(ts: seq<Transaction>): int
  {
    if |ts| == 0 then 0
    else Spent(ts[..|ts| - 1]) + (if ts[|ts| - 1].amount < 0 then -ts[|ts| - 1].amount else 0)
  }

  /** Totalling the income records is adding up every positive amount. */
  lemma {:induction false} IncomeIsEarned(ts: seq<Transaction>)
    ensures Total(Filter(ts, IsIncome)) == Earned(ts)
    decreases |ts|
  {
    if |ts| > 0 {
      var init, last := ts[..|ts| - 1], ts[|ts| - 1];
      assert ts == init + [last];
      IncomeIsEarned(init);
      FilterSnoc(init, last, IsIncome);
      TotalAppend(Filter(init, IsIncome), if IsIncome(last) then [last] else []);
    }
  }

  /** Totalling the expense records is the negated sum of every negative
      amount's magnitude. */
  lemma {:induction false} ExpensesAreSpent(ts: seq<Transaction>)
    ensures Total(Filter(ts, IsExpense)) == -Spent(ts)
    decreases |ts|
  {
    if |ts| > 0 {
      var init, last := ts[..|ts| - 1], ts[|ts| - 1];
      assert ts == init + [last];
      ExpensesAreSpent(init);
      FilterSnoc(init, last, IsExpense);
      TotalAppend(Filter(init, IsExpense), if IsExpense(last) then [last] else []);
    }
  }

  /** The figures of the summary page. Income is the sum of the positive
      amounts, expenses the magnitude of the sum of the negative ones, and the
      balance their difference, which is the sum of every amount. */
  function GetTransactionStats(ts: seq<Transaction>): (r: Stats)
    ensures r.income == Earned(ts) && r.expenses == Spent(ts)
    ensures r.income >= 0 && r.expenses >= 0
    ensures r.balance == r.income - r.expenses
    ensures r.balance == Total(ts)
    ensures |ts| == 0 ==> r == Stats(0, 0, 0)
  {
    var incomes := Filter(ts, IsIncome);
    var expenses := Filter(ts, IsExpense);
    IncomeTotalNonNegative(incomes);
    ExpenseTotalNonPositive(expenses);
    IncomeAndExpensesCoverTotal(ts);
    IncomeIsEarned(ts);
    ExpensesAreSpent(ts);
    var income := Total(incomes);
    var spent := Abs(Total(expenses));
    Stats(income, spent, income - spent)
  }

  /** The figures of a single record: its amount is income when positive and
      expense when negative. */
  lemma StatsOfOne(t: Transaction)
    ensures t.amount > 0 ==> GetTransactionStats([t]) == Stats(t.amount, 0, t.amount)
    ensures t.amount < 0 ==> GetTransactionStats([t]) == Stats(0, -t.amount, t.amount)
  {
  }

  /** A zero-amount record counts as neither income nor expense: inserting
      one anywhere leaves every figure unchanged. */
  lemma ZeroAmountIgnored(before: seq<Transaction>, z: Transaction, after: seq<Transaction>)
    requires z.amount == 0
    ensures GetTransactionStats(before + [z] + after) == GetTransactionStats(before + after)
  {
    FilterAppend(before + [z], after, IsIncome);
    FilterAppend(before, [z], IsIncome);
    FilterAppend(before, after, IsIncome);
    FilterAppend(before + [z], after, IsExpense);
    FilterAppend(before, [z], IsExpense);
    FilterAppend(before, after, IsExpense);
    assert Filter([z], IsIncome) == [] && Filter([z], IsExpense) == [];
  }

}
