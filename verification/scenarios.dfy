/** Concrete runs of the store and the statistics: a first salary, and a
    rent payment followed by a salary. */
module Scenarios {
  import opened Optional
  import opened Seqs
  import opened Transactions
  import opened Statistics

  /** A first visit: nothing stored yet, so loading yields an empty list. */
  const FirstVisit := Load(Store([], None))

  /** Recording a salary on a fresh store gives income and balance 5000. */
  lemma SalaryOnly()
    ensures var s := Add(FirstVisit, "_salary", "Salary", 5000, "2024-01-31", "Income", "2024-01-31T09:00:00.000Z").store;
      GetTransactionStats(s.transactions) == Stats(5000, 0, 5000)
  {
    var s := Add(FirstVisit, "_salary", "Salary", 5000, "2024-01-31", "Income", "2024-01-31T09:00:00.000Z").store;
    var t := s.transactions[0];
    assert s.transactions == [t] && t.amount == 5000;
    StatsOfOne(t);
  }

  /** Rent, then salary: the salary is listed first and the balance is 3800. */
  lemma RentThenSalary()
    ensures var s1 := Add(FirstVisit, "_rent", "Rent", -1200, "2024-01-01", "Housing", "2024-01-01T09:00:00.000Z").store;
      var s2 := Add(s1, "_salary", "Salary", 5000, "2024-01-31", "Income", "2024-01-31T09:00:00.000Z").store;
      && |s2.transactions| == 2
      && s2.transactions[0].amount == 5000 && s2.transactions[1].amount == -1200
      && GetTransactionStats(s2.transactions).balance == 3800
  {
    var s1 := Add(FirstVisit, "_rent", "Rent", -1200, "2024-01-01", "Housing", "2024-01-01T09:00:00.000Z").store;
    var s2 := Add(s1, "_salary", "Salary", 5000, "2024-01-31", "Income", "2024-01-31T09:00:00.000Z").store;
    assert |s1.transactions| == 1 && s1.transactions[0].amount == -1200;
    var ts := s2.transactions;
    assert |ts| == 2 && ts[0].amount == 5000 && ts[1] == s1.transactions[0];
    assert Total(ts[..1]) == 5000 by {
      assert ts[..1][..0] == [];
    }
    assert Total(ts) == Total(ts[..1]) + ts[1].amount;
  }

}
