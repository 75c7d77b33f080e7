/** The search box and category filter of the transactions page. */
module Views {
  import opened Transactions
  import opened Seqs
  import Text

  /** A record is shown when the lower-cased search term occurs in its
      lower-cased description or category, and, if a category filter is
      chosen, its category is exactly that one. */
  predicate Matches(t: Transaction, term: string, categoryFilter: string): (b: bool)
    ensures categoryFilter != "" && t.category != categoryFilter ==> !b
    ensures term == "" ==> (b <==> categoryFilter == "" || t.category == categoryFilter)
    ensures b <==>
      && ((exists i :: 0 <= i <= |t.description| && term <= Text.ToLower(t.description)[i..])
          || (exists i :: 0 <= i <= |t.category| && term <= Text.ToLower(t.category)[i..]))
      && (categoryFilter == "" || t.category == categoryFilter)
  {
    && (Text.Contains(Text.ToLower(t.description), term) || Text.Contains(Text.ToLower(t.category), term))
    && (categoryFilter == "" || t.category == categoryFilter)
  }

  function Matcher(term: string, categoryFilter: string): Transaction -> bool
  {
    t => Matches(t, term, categoryFilter)
  }

  /** `filterTransactions`, given the search box text and the chosen category
      (empty for "all"): the matching records, in list order, none dropped. */
  function FilterTransactions(ts: seq<Transaction>, search: string, categoryFilter: string): (r: seq<Transaction>)
    ensures IsSubsequence(r, ts)
    ensures forall t :: t in r ==> Matches(t, Text.ToLower(search), categoryFilter)
    ensures forall i :: 0 <= i < |ts| && Matches(ts[i], Text.ToLower(search), categoryFilter) ==>
      multiset(r)[ts[i]] == multiset(ts)[ts[i]]
  {
    var keep := Matcher(Text.ToLower(search), categoryFilter);
    FilterKeepsPassing(ts, keep);
    FilterIsSubsequence(ts, keep);
    Filter(ts, keep)
  }

  /** With an empty search box and no category chosen, the whole list shows. */
  lemma NoFilterShowsAll(ts: seq<Transaction>)
    ensures FilterTransactions(ts, "", "") == ts
  {
    forall i | 0 <= i < |ts|
      ensures Matcher("", "")(ts[i])
    {
      assert "" <= Text.ToLower(ts[i].description)[0..];
    }
    FilterKeepsAll(ts, Matcher("", ""));
  }

  /** Filtering what is already filtered by the same criteria changes nothing. */
  lemma FilterIdempotent(ts: seq<Transaction>, search: string, categoryFilter: string)
    ensures FilterTransactions(FilterTransactions(ts, search, categoryFilter), search, categoryFilter)
         == FilterTransactions(ts, search, categoryFilter)
  {
    var r := FilterTransactions(ts, search, categoryFilter);
    assert forall i :: 0 <= i < |r| ==> r[i] in r;
    FilterKeepsAll(r, Matcher(Text.ToLower(search), categoryFilter));
  }

}
