/** The customer-queries page's list filter: a search over message and id, and a status derived from the reply. */
module Queries {
  import opened Wrappers
  import opened Text
  import opened Lists

  /** The fields of a query the filter reads; a missing message or reply is None. */
  datatype Query = Query(id: nat, message: Option<string>, reply: Option<string>)

  const AllStatuses := "all"
  const Replied := "replied"
  const Pending := "pending"
  const Resolved := "resolved"

  /** The status shown for a query: replied when its reply has text after trimming, pending otherwise. */
  function DerivedStatus(q: Query): (r: string)
    ensures r == Replied || r == Pending
  {
    if q.reply.Some? && q.reply.value != "" && |Trim(q.reply.value)| > 0 then Replied else Pending
  }

  /** The message (lower-cased) contains the lower-cased term, or the id's decimal text contains the term as typed. */
  predicate MatchesSearch(q: Query, searchTerm: string) {
    Contains(Lower(q.message.GetOr("")), Lower(searchTerm)) || Contains(Decimal(q.id), searchTerm)
  }

  predicate MatchesStatus(q: Query, statusFilter: string) {
    statusFilter == AllStatuses || DerivedStatus(q) == Lower(statusFilter)
  }

  predicate Keeps(q: Query, searchTerm: string, statusFilter: string) {
    MatchesSearch(q, searchTerm) && MatchesStatus(q, statusFilter)
  }

  /** `filteredQueries`. */
  function FilterQueries(items: seq<Query>, searchTerm: string, statusFilter: string): seq<Query> {
    Filter(items, q => Keeps(q, searchTerm, statusFilter))
  }

  /** A query counts as replied exactly when its reply has a character that is not whitespace. */
  lemma DerivedStatusReplied(q: Query)
    ensures DerivedStatus(q) == Replied <==> q.reply.Some? && !AllWhitespace(q.reply.value)
    ensures DerivedStatus(q) != Replied <==> DerivedStatus(q) == Pending
  {
    if q.reply.Some? {
      TrimEmptyIff(q.reply.value);
    }
  }

  /** The filtered list is the input with some queries dropped and the rest in their order. */
  lemma FilterQueriesIsSubsequence(items: seq<Query>, searchTerm: string, statusFilter: string)
    ensures IsSubsequence(FilterQueries(items, searchTerm, statusFilter), items)
  {
    FilterIsSubsequence(items, q => Keeps(q, searchTerm, statusFilter));
  }

  /** With the status filter at "all", a query is kept exactly when it matches the search. */
  lemma FilterAllStatuses(items: seq<Query>, searchTerm: string, q: Query)
    ensures q in FilterQueries(items, searchTerm, AllStatuses) <==> q in items && MatchesSearch(q, searchTerm)
  {
  }

  /** No query ever has the derived status "resolved", so that filter always shows nothing. */
  lemma ResolvedFilterEmpty(items: seq<Query>, searchTerm: string)
    ensures FilterQueries(items, searchTerm, Resolved) == []
  {
    forall q | q in items ensures !Keeps(q, searchTerm, Resolved) {
      assert Lower(Resolved) == Resolved;
    }
    FilterKeepsNone(items, q => Keeps(q, searchTerm, Resolved));
  }

  /** An empty search term keeps every query when the status filter is "all". */
  lemma EmptySearchKeepsAll(items: seq<Query>)
    ensures FilterQueries(items, "", AllStatuses) == items
  {
    forall q | q in items ensures Keeps(q, "", AllStatuses) {
      ContainsEmpty(Decimal(q.id));
    }
    FilterKeepsAll(items, q => Keeps(q, "", AllStatuses));
  }

  /**
   * The search ignores letter case: the message test compares lower-cased
   * text, and the id test can only match a term made of digits, which
   * lower-casing leaves alone.
   */
  lemma SearchIgnoresCase(q: Query, term: string, term': string)
    requires Lower(term) == Lower(term')
    ensures MatchesSearch(q, term) <==> MatchesSearch(q, term')
  {
    DecimalDigits(q.id);
    if Contains(Decimal(q.id), term) {
      IdMatchTermUnchanged(q.id, term, term');
    }
    if Contains(Decimal(q.id), term') {
      IdMatchTermUnchanged(q.id, term', term);
    }
  }

  /** A term the id matches is made of digits, so any term with the same lower-case form is the same term. */
  lemma IdMatchTermUnchanged(id: nat, term: string, term': string)
    requires Contains(Decimal(id), term) && Lower(term) == Lower(term')
    ensures term' == term
  {
    DecimalDigits(id);
    ContainsInDigits(Decimal(id), term);
    LowerDigits(term);
    LowerDigits(term');
  }

  /** Search terms that differ only in letter case give the same list. */
  lemma FilterQueriesIgnoresCase(items: seq<Query>, term: string, term': string, statusFilter: string)
    requires Lower(term) == Lower(term')
    ensures FilterQueries(items, term, statusFilter) == FilterQueries(items, term', statusFilter)
  {
    forall q | q in items ensures Keeps(q, term, statusFilter) == Keeps(q, term', statusFilter) {
      SearchIgnoresCase(q, term, term');
    }
    FilterAgrees(items, q => Keeps(q, term, statusFilter), q => Keeps(q, term', statusFilter));
  }
}
