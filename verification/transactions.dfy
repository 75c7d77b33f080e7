/** The transaction store: the in-memory list of records, newest first, and the
    copy of it last written to the browser's local storage under one key. */
module Transactions {
  import opened Optional
  import opened Seqs
  import Text

  /** One income (positive amount) or expense (negative amount) record.
      `amount` is in whole currency units and `date` is the text of the date
      input (`YYYY-MM-DD`). The random id and the ISO creation time are
      supplied by the caller. */
  datatype Transaction = Transaction(
    id: string,
    description: string,
    amount: int,
    date: string,
    category: string,
    timestamp: string)

  /** `transactions` is the page's list; `persisted` is what the storage key
      holds (`None` while the key has never been written). */
  datatype Store = Store(transactions: seq<Transaction>, persisted: Option<seq<Transaction>>)

  /** The result of adding: the new store and the record that was created. */
  datatype Added = Added(store: Store, record: Transaction)

  /** The result of deleting: the new store and whether a record was removed. */
  datatype Deleted = Deleted(store: Store, removed: bool)

  predicate HasId(ts: seq<Transaction>, id: string)
  {
    exists i :: 0 <= i < |ts| && ts[i].id == id
  }

  /** The ids of `ts`, in list order. */
  function Ids(ts: seq<Transaction>): (r: seq<string>)
    ensures |r| == |ts| && forall k :: 0 <= k < |ts| ==> r[k] == ts[k].id
  {
    seq(|ts|, k requires 0 <= k < |ts| => ts[k].id)
  }

  predicate UniqueIds(ts: seq<Transaction>)
  {
    Distinct(Ids(ts))
  }

  /** `i` is the first position whose record carries `id`. */
  predicate FirstMatch(ts: seq<Transaction>, id: string, i: int)
  {
    && 0 <= i < |ts| && ts[i].id == id
    && forall j :: 0 <= j < i ==> ts[j].id != id
  }

  /** The list a page load reads back: the stored list, or empty when the key
      is absent. */
  function StoredList(persisted: Option<seq<Transaction>>): seq<Transaction>
  {
    match persisted
    case None => []
    case Some(ts) => ts
  }

  /** The page's list agrees with what a reload would read. */
  predicate InSync(s: Store)
  {
    StoredList(s.persisted) == s.transactions
  }

  /** `loadTransactions`: replaces the page's list by what storage holds. */
  function Load(s: Store): (r: Store)
    ensures r.persisted == s.persisted
    ensures InSync(r)
    ensures s.persisted.None? ==> r.transactions == []
    ensures InSync(s) ==> r == s
  {
    Store(StoredList(s.persisted), s.persisted)
  }

  /** `saveTransactions`: overwrites storage with the page's list. */
  function Save(s: Store): (r: Store)
    ensures r.transactions == s.transactions
    ensures r.persisted == Some(s.transactions)
    ensures Load(r) == r
  {
    Store(s.transactions, Some(s.transactions))
  }

  /** `addTransaction`: builds the record with a trimmed description, puts it
      first and saves the whole list. */
  function Add(s: Store, id: string, description: string, amount: int, date: string,
               category: string, timestamp: string): (r: Added)
    ensures r.store.transactions == [r.record] + s.transactions
    ensures |r.store.transactions| == |s.transactions| + 1
    ensures r.store.transactions[0] == r.record && r.store.transactions[1..] == s.transactions
    ensures r.record.id == id && r.record.description == Text.Trim(description)
    ensures r.record.amount == amount && r.record.date == date
    ensures r.record.category == category && r.record.timestamp == timestamp
    ensures InSync(r.store) && r.store.persisted == Some(r.store.transactions)
    ensures UniqueIds(s.transactions) && !HasId(s.transactions, id) ==> UniqueIds(r.store.transactions)
  {
    var t := Transaction(id, Text.Trim(description), amount, date, category, timestamp);
    var r := Added(Save(Store([t] + s.transactions, s.persisted)), t);
    assert r.store.transactions[1..] == s.transactions;
    r
  }

  /** `transactions.findIndex(t => t.id === id)`: the first position holding
      `id`, or -1. */
  function FindIndex(ts: seq<Transaction>, id: string): (r: int)
    ensures -1 <= r < |ts|
    ensures r == -1 <==> !HasId(ts, id)
    ensures r >= 0 ==> FirstMatch(ts, id, r)
  {
    if |ts| == 0 then -1
    else if ts[0].id == id then 0
    else
      var k := FindIndex(ts[1..], id);
      assert forall j :: 1 <= j < |ts| ==> ts[1..][j - 1] == ts[j];
      if k == -1 then -1 else k + 1
  }

  /** `deleteTransaction`: removes the first record with `id` and saves, or
      reports failure and leaves everything as it was. */
  function Delete(s: Store, id: string): (r: Deleted)
    ensures r.removed <==> HasId(s.transactions, id)
    ensures !r.removed ==> r.store == s
    ensures r.removed ==>
      && |r.store.transactions| == |s.transactions| - 1
      && r.store.persisted == Some(r.store.transactions)
      && exists i :: FirstMatch(s.transactions, id, i)
                  && r.store.transactions == s.transactions[..i] + s.transactions[i + 1..]
    ensures UniqueIds(s.transactions) ==>
      UniqueIds(r.store.transactions) && !HasId(r.store.transactions, id)
  {
    var ts := s.transactions;
    var i := FindIndex(ts, id);
    if i > -1 then
      var rest := ts[..i] + ts[i + 1..];
      assert forall j :: 0 <= j < |rest| ==> rest[j] == (if j < i then ts[j] else ts[j + 1]);
      Deleted(Save(Store(rest, s.persisted)), true)
    else
      Deleted(s, false)
  }

  /** The store invariant: ids are unique and storage mirrors the list. */
  predicate Valid(s: Store)
  {
    InSync(s) && UniqueIds(s.transactions)
  }

  /** Adding with a fresh id and deleting keep a store valid. */
  lemma ValidPreserved(s: Store, id: string, description: string, amount: int, date: string,
                       category: string, timestamp: string, victim: string)
    requires Valid(s)
    ensures !HasId(s.transactions, id) ==>
      Valid(Add(s, id, description, amount, date, category, timestamp).store)
    ensures Valid(Delete(s, victim).store)
  {
  }

  /** A page load brings any store in step: the page's list, empty at start,
      becomes what storage holds, so unique stored ids make the store valid. */
  lemma LoadEstablishesValid(s: Store)
    ensures UniqueIds(StoredList(s.persisted)) ==> Valid(Load(s))
    ensures Load(s).transactions == StoredList(s.persisted)
  {
  }

  /** Deleting the id of the front record removes exactly that record. */
  lemma DeleteFront(t: Transaction, ts: seq<Transaction>, persisted: Option<seq<Transaction>>)
    ensures Delete(Store([t] + ts, persisted), t.id) == Deleted(Store(ts, Some(ts)), true)
  {
    var all := [t] + ts;
    assert FindIndex(all, t.id) == 0;
    assert all[..0] + all[1..] == ts;
  }

  /** Deleting the record just added undoes the addition, leaving the old
      list both in memory and in storage. */
  lemma DeleteUndoesAdd(s: Store, id: string, description: string, amount: int,
                        date: string, category: string, timestamp: string)
    ensures Delete(Add(s, id, description, amount, date, category, timestamp).store, id)
         == Deleted(Save(s), true)
  {
    var added := Add(s, id, description, amount, date, category, timestamp);
    DeleteFront(added.record, s.transactions, added.store.persisted);
  }

}
