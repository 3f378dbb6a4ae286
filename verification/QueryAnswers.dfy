/** Which rows the queries return, in which order: the rows a caller asks for, sorted and cut to the page. */
module QueryAnswers {
  import opened Wrappers
  import opened Ordering
  import opened Pagination

  /** At the first column in which the rows differ, a has the smaller value. */
  ghost predicate SortsBefore(columns: seq<Row -> int>, a: Row, b: Row) {
    exists k :: 0 <= k < |columns| && columns[k](a) < columns[k](b) && forall m :: 0 <= m < k ==> columns[m](a) == columns[m](b)
  }

  /** All the rows that are wanted, each once, sorted by the columns. */
  ghost predicate IsListing(all: seq<Row>, table: set<Row>, wanted: Row -> bool, columns: seq<Row -> int>) {
    && (forall r :: r in all <==> r in table && wanted(r))
    && (forall i, j :: 0 <= i < j < |all| ==> SortsBefore(columns, all[i], all[j]))
  }

  /** The page: at most max rows from the offset on; without a positive max, all of them. */
  ghost predicate IsCut(page: seq<Row>, all: seq<Row>, max: int, offset: int) {
    var from := if offset <= 0 then 0 else if offset <= |all| then offset else |all|;
    page == if 0 < max < |all| - from then all[from..from + max] else all[from..]
  }

  ghost predicate AreColumns(keys: seq<Key>, columns: seq<Row -> int>) {
    |keys| == |columns| && forall i :: 0 <= i < |keys| ==> keys[i] == Column(columns[i])
  }

  /** No two of the rows agree in all columns. */
  ghost predicate NoTies(table: set<Row>, wanted: Row -> bool, columns: seq<Row -> int>) {
    forall a, b :: a in table && b in table && wanted(a) && wanted(b) && a != b ==>
                     exists k :: 0 <= k < |columns| && columns[k](a) != columns[k](b)
  }

  lemma {:induction false} BelowAtFirstDifference(a: seq<int>, b: seq<int>) returns (k: nat)
    requires |a| == |b| && Below(a, b)
    ensures k < |a| && a[k] < b[k] && a[..k] == b[..k]
  {
    if a[0] < b[0] {
      k := 0;
    } else {
      var rest := BelowAtFirstDifference(a[1..], b[1..]);
      k := rest + 1;
      assert a[..k] == [a[0]] + a[1..][..rest] && b[..k] == [b[0]] + b[1..][..rest];
    }
  }

  lemma KeyIsColumns(q: Query, columns: seq<Row -> int>, table: set<Row>, r: Row)
    requires AreColumns(q.order, columns) && r in table
    ensures var key := KeyAt(SortKeys(q, table), r);
            |key| == |columns| && forall i :: 0 <= i < |columns| ==> key[i] == columns[i](r)
  {
    forall i | 0 <= i < |columns| ensures KeyAt(SortKeys(q, table), r)[i] == columns[i](r) {
      assert KeyAt(SortKeys(q, table), r)[i] == Rank(q.order[i], table, r);
    }
  }

  lemma BeforeIsSorted(q: Query, columns: seq<Row -> int>, table: set<Row>, a: Row, b: Row)
    requires AreColumns(q.order, columns) && a in table && b in table && Before(SortKeys(q, table), a, b)
    ensures SortsBefore(columns, a, b)
  {
    var keys := SortKeys(q, table);
    KeyIsColumns(q, columns, table, a);
    KeyIsColumns(q, columns, table, b);
    var k := BelowAtFirstDifference(KeyAt(keys, a), KeyAt(keys, b));
    forall m | 0 <= m < k ensures columns[m](a) == columns[m](b) {
      assert KeyAt(keys, a)[..k][m] == KeyAt(keys, b)[..k][m];
    }
  }

  lemma NoTiesIsTotal(q: Query, wanted: Row -> bool, columns: seq<Row -> int>, table: set<Row>)
    requires AreColumns(q.order, columns) && NoTies(table, wanted, columns)
    requires forall r :: r in Selected(q, table) ==> wanted(r)
    ensures IsTotal(q, table)
  {
    var keys := SortKeys(q, table);
    forall a, b | a in Selected(q, table) && b in Selected(q, table) && a != b ensures KeyAt(keys, a) != KeyAt(keys, b) {
      var k :| 0 <= k < |columns| && columns[k](a) != columns[k](b);
      KeyIsColumns(q, columns, table, a);
      KeyIsColumns(q, columns, table, b);
      assert KeyAt(keys, a)[k] != KeyAt(keys, b)[k];
    }
  }

  lemma RankingLists(q: Query, wanted: Row -> bool, columns: seq<Row -> int>, table: set<Row>)
    requires AreColumns(q.order, columns) && NoTies(table, wanted, columns)
    requires forall r :: r in Selected(q, table) <==> r in table && wanted(r)
    ensures IsListing(Ranking(q, table), table, wanted, columns)
  {
    var all := Ranking(q, table);
    NoTiesIsTotal(q, wanted, columns, table);
    SortIsOrdered(Selected(q, table), SortKeys(q, table));
    forall i, j | 0 <= i < j < |all| ensures SortsBefore(columns, all[i], all[j]) {
      assert all[i] in all && all[j] in all;
      BeforeIsSorted(q, columns, table, all[i], all[j]);
    }
  }

  /** A query that selects the wanted rows and sorts by columns returns its page of their listing. */
  lemma QueryLists(q: Query, wanted: Row -> bool, columns: seq<Row -> int>, max: int, offset: int, table: set<Row>)
    returns (all: seq<Row>)
    requires AreColumns(q.order, columns) && NoTies(table, wanted, columns)
    requires forall r :: r in Selected(q, table) <==> r in table && wanted(r)
    requires q.limit == (if max > 0 then Some(max) else None) && q.offset == (if offset > 0 then Some(offset) else None)
    ensures IsListing(all, table, wanted, columns) && IsCut(Eval(q, table), all, max, offset)
  {
    all := Ranking(q, table);
    RankingLists(q, wanted, columns, table);
    PageIsCut(all, max, offset);
  }

  lemma PageIsCut(all: seq<Row>, max: int, offset: int)
    ensures IsCut(Page(all, if max > 0 then Some(max) else None, if offset > 0 then Some(offset) else None), all, max, offset)
  {
  }

  // ----- Queries of the repositories -----

  /** The rows that pass the caller's filter and the repository's own condition. */
  function Asked(o: Options, own: Row -> bool): Row -> bool {
    r => (o.filters.Some? ==> o.filters.value(r)) && own(r)
  }

  lemma RepositorySelects(o: Options, own: Row -> bool, natural: seq<Key>, table: set<Row>)
    ensures var q := NewSelect(o);
            forall r :: r in Selected(q.(conditions := q.conditions + [Where(own)], order := q.order + natural), table)
                        <==> r in table && Asked(o, own)(r)
  {
    var q := NewSelect(o);
    var sq := q.(conditions := q.conditions + [Where(own)], order := q.order + natural);
    forall r ensures r in Selected(sq, table) <==> r in table && Asked(o, own)(r) {
      if r in Selected(sq, table) {
        assert Holds(sq.conditions[|q.conditions|], table, r);
        assert o.filters.Some? ==> Holds(sq.conditions[0], table, r);
      }
    }
  }

  /**
   What a repository returns for options, whichever way it skips to the offset: the rows that pass the filter, sorted
   as asked and then naturally, cut to the page.
   */
  lemma RepositoryAnswers(o: Options, own: Row -> bool, natural: seq<Key>, columns: seq<Row -> int>, threshold: int, table: set<Row>)
    returns (all: seq<Row>)
    requires AreColumns(o.sort + natural, columns) && NoTies(table, Asked(o, own), columns)
    ensures var q := NewSelect(o);
            var sq := q.(conditions := q.conditions + [Where(own)], order := q.order + natural);
            IsListing(all, table, Asked(o, own), columns)
            && IsCut(Eval(QueryAll(sq, o, threshold), table), all, o.max, o.offset)
  {
    var q := NewSelect(o);
    var sq := q.(conditions := q.conditions + [Where(own)], order := q.order + natural);
    RepositorySelects(o, own, natural, table);
    assert sq.order == o.sort + natural;
    NoTiesIsTotal(sq, Asked(o, own), columns, table);
    RepositoryPageIsTheSame(o, [Where(own)], natural, threshold, table);
    all := QueryLists(sq, Asked(o, own), columns, o.max, o.offset, table);
  }

  // ----- Full-text search -----

  /** The rows a search is after: matching the text, present, in a library of the user, and passing the filter. */
  function SearchedFor(match_: Row -> bool, present: Row -> bool, library: Row -> bool, o: Options): Row -> bool {
    r => match_(r) && present(r) && library(r) && (o.filters.Some? ==> o.filters.value(r))
  }

  lemma RowidQuerySelects(match_: Row -> bool, present: Row -> bool, library: Row -> bool, ranking: seq<Key>, o: Options,
                          table: set<Row>)
    ensures forall r :: r in Selected(RowidQuery(match_, present, library, ranking, o), table)
                        <==> r in table && SearchedFor(match_, present, library, o)(r)
  {
    var q := RowidQuery(match_, present, library, ranking, o);
    forall r ensures r in Selected(q, table) <==> r in table && SearchedFor(match_, present, library, o)(r) {
      assert q.conditions[..3] == [Where(match_), Where(present), Where(library)];
      assert Holds(q.conditions[0], table, r) <==> match_(r);
      assert Holds(q.conditions[1], table, r) <==> present(r);
      assert Holds(q.conditions[2], table, r) <==> library(r);
      assert o.filters.Some? ==> |q.conditions| == 4 && (Holds(q.conditions[3], table, r) <==> o.filters.value(r));
    }
  }

  /** What a search returns in its two phases: the rows searched for, by rank, cut to the page; a sort asked for is ignored. */
  lemma SearchAnswers(match_: Row -> bool, present: Row -> bool, library: Row -> bool, ranking: seq<Key>, o: Options,
                      columns: seq<Row -> int>, table: set<Row>)
    returns (all: seq<Row>)
    requires AreColumns(ranking, columns) && NoTies(table, SearchedFor(match_, present, library, o), columns)
    ensures var page := RowidQuery(match_, present, library, ranking, o);
            var full := ApplyFilters(Query([Where(present), Where(library)], [], None, None), o);
            IsListing(all, table, SearchedFor(match_, present, library, o), columns)
            && IsCut(Eval(Hydrate(full, page), table), all, o.max, o.offset)
  {
    var page := RowidQuery(match_, present, library, ranking, o);
    var wanted := SearchedFor(match_, present, library, o);
    RowidQuerySelects(match_, present, library, ranking, o, table);
    assert page.order == ranking;
    NoTiesIsTotal(page, wanted, columns, table);
    SearchReturnsTheSinglePage(match_, present, library, ranking, o, table);
    all := QueryLists(page, wanted, columns, o.max, o.offset, table);
  }
}
