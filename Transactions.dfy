/** The transactions page's search filter over id, order and status. */
module Transactions {
  import opened Wrappers
  import opened Text
  import opened Lists

  /** The fields of a transaction the search reads; a missing status is None. */
  datatype Transaction = Transaction(id: nat, order: nat, status: Option<string>)

  /** The lower-cased search is in the id's text, the order's text or the lower-cased status. */
  predicate MatchesSearch(t: Transaction, search: string) {
    var q := Lower(search);
    Contains(Decimal(t.id), q) || Contains(Decimal(t.order), q) || Contains(Lower(t.status.GetOr("")), q)
  }

  /** `filtered`. */
  function FilterTransactions(items: seq<Transaction>, search: string): seq<Transaction> {
    Filter(items, t => MatchesSearch(t, search))
  }

  /** The filtered list is the input with some transactions dropped and the rest in their order. */
  lemma FilterTransactionsIsSubsequence(items: seq<Transaction>, search: string)
    ensures IsSubsequence(FilterTransactions(items, search), items)
  {
    FilterIsSubsequence(items, t => MatchesSearch(t, search));
  }

  /** A transaction is kept exactly when one of its three texts contains the lower-cased search. */
  lemma FilterTransactionsMembers(items: seq<Transaction>, search: string, t: Transaction)
    ensures t in FilterTransactions(items, search) <==>
              t in items &&
              (Contains(Decimal(t.id), Lower(search)) ||
               Contains(Decimal(t.order), Lower(search)) ||
               Contains(Lower(t.status.GetOr("")), Lower(search)))
  {
  }

  /** An empty search keeps every transaction. */
  lemma EmptySearchKeepsAll(items: seq<Transaction>)
    ensures FilterTransactions(items, "") == items
  {
    forall t | t in items ensures MatchesSearch(t, "") {
      ContainsEmpty(Decimal(t.id));
    }
    FilterKeepsAll(items, t => MatchesSearch(t, ""));
  }

  /** Searches that differ only in letter case give the same list. */
  lemma SearchIgnoresCase(items: seq<Transaction>, search: string, search': string)
    requires Lower(search) == Lower(search')
    ensures FilterTransactions(items, search) == FilterTransactions(items, search')
  {
    FilterAgrees(items, t => MatchesSearch(t, search), t => MatchesSearch(t, search'));
  }

  /** Filtering the filtered list again with the same search returns it unchanged. */
  lemma FilterTransactionsIdempotent(items: seq<Transaction>, search: string)
    ensures FilterTransactions(FilterTransactions(items, search), search) == FilterTransactions(items, search)
  {
    FilterIdempotent(items, t => MatchesSearch(t, search));
  }
}
