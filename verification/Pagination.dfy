/**
 Select queries as values, what they return, and the two rewrites that avoid large offsets and wide rows.
 Queries are over one table, a set of rowids, with one result row per rowid.
 */
module Pagination {
  import opened Wrappers
  import opened Ordering

  /** A WHERE condition. */
  datatype Condition = Where(test: Row -> bool) | In(sub: Query) | NotIn(sub: Query)

  /** An ORDER BY term: a column, or a row's place in a subquery. */
  datatype Key = Column(rank: Row -> int) | Place(sub: Query)

  datatype Query = Query(conditions: seq<Condition>, order: seq<Key>, limit: Option<nat>, offset: Option<nat>)

  /** Max 0 means no limit; no sort terms mean none was asked for. */
  datatype Options = Options(max: int, offset: int, sort: seq<Key>, filters: Option<Row -> bool>)

  // ----- What a query returns -----

  ghost predicate Holds(c: Condition, table: set<Row>, r: Row)
    decreases c
  {
    match c
    case Where(test) => test(r)
    case In(sub) => r in Eval(sub, table)
    case NotIn(sub) => r !in Eval(sub, table)
  }

  ghost function Rank(k: Key, table: set<Row>, r: Row): int
    decreases k
  {
    match k
    case Column(rank) => rank(r)
    case Place(sub) => IndexOf(Eval(sub, table), r)
  }

  function IndexOf(s: seq<Row>, r: Row): nat {
    if s == [] || s[0] == r then 0 else 1 + IndexOf(s[1..], r)
  }

  ghost function Selected(q: Query, table: set<Row>): set<Row>
    decreases q, 0
  {
    set r | r in table && forall i :: 0 <= i < |q.conditions| ==> Holds(q.conditions[i], table, r)
  }

  ghost function SortKeys(q: Query, table: set<Row>): Keys
    decreases q, 0
  {
    map r | r in table :: seq(|q.order|, i requires 0 <= i < |q.order| => Rank(q.order[i], table, r))
  }

  ghost function Ranking(q: Query, table: set<Row>): seq<Row>
    decreases q, 1
  {
    Sort(Selected(q, table), SortKeys(q, table))
  }

  ghost function Eval(q: Query, table: set<Row>): seq<Row>
    decreases q, 2
  {
    Page(Ranking(q, table), q.limit, q.offset)
  }

  /** The order decides between any two rows the query selects. */
  ghost predicate IsTotal(q: Query, table: set<Row>) {
    TellsApart(SortKeys(q, table), Selected(q, table))
  }

  /** One column that never ties settles the order. */
  lemma UniqueColumnIsTotal(q: Query, table: set<Row>, i: nat)
    requires i < |q.order|
    requires forall a, b :: a in table && b in table && a != b ==> Rank(q.order[i], table, a) != Rank(q.order[i], table, b)
    ensures IsTotal(q, table)
  {
    var keys := SortKeys(q, table);
    forall a, b | a in Selected(q, table) && b in Selected(q, table) && a != b ensures KeyAt(keys, a) != KeyAt(keys, b) {
      assert KeyAt(keys, a)[i] == Rank(q.order[i], table, a);
      assert KeyAt(keys, b)[i] == Rank(q.order[i], table, b);
    }
  }

  // ----- Building queries -----

  function ApplyOptions(q: Query, o: Options): Query {
    var limited := if o.max > 0 then q.(limit := Some(o.max)) else q;
    var moved := if o.offset > 0 then limited.(offset := Some(o.offset)) else limited;
    moved.(order := moved.order + o.sort)
  }

  function ApplyFilters(q: Query, o: Options): Query {
    if o.filters.Some? then q.(conditions := q.conditions + [Where(o.filters.value)]) else q
  }

  /** What every repository starts from. */
  function NewSelect(o: Options): Query {
    ApplyFilters(ApplyOptions(Query([], [], None, None), o), o)
  }

  /** The rows to skip are named by a subquery, instead of being counted off. */
  function OptimizePagination(q: Query, o: Options, threshold: int): Query
    requires o.offset > 0
  {
    if o.offset > threshold then
      var unmoved := q.(offset := None);
      unmoved.(conditions := unmoved.conditions + [NotIn(unmoved.(limit := Some(o.offset)))])
    else q
  }

  /** The query that is run. */
  function QueryAll(q: Query, o: Options, threshold: int): Query {
    if o.offset > 0 then OptimizePagination(q, o, threshold) else q
  }

  /** Ranked and paged rowids: the caller's filters and the match, nothing but the table itself. */
  function RowidQuery(match_: Row -> bool, present: Row -> bool, library: Row -> bool, ranking: seq<Key>, o: Options): Query {
    var q := Query([Where(match_), Where(present)], ranking, None, None);
    var paged := ApplyOptions(q, o.(sort := []));
    ApplyFilters(paged.(conditions := paged.conditions + [Where(library)]), o)
  }

  /** The full rows of a page of rowids, in the page's order after any order of their own. */
  function Hydrate(q: Query, page: Query): Query {
    Query(q.conditions + [In(page)], q.order + [Place(page)], None, None)
  }

  // ----- NOT IN instead of OFFSET -----

  lemma SelectedWith(q: Query, c: Condition, table: set<Row>)
    ensures Selected(q.(conditions := q.conditions + [c]), table) == set r | r in Selected(q, table) && Holds(c, table, r)
  {
    var q' := q.(conditions := q.conditions + [c]);
    forall r ensures r in Selected(q', table) <==> r in Selected(q, table) && Holds(c, table, r) {
      if r in Selected(q', table) {
        assert Holds(q'.conditions[|q.conditions|], table, r);
        forall i | 0 <= i < |q.conditions| ensures Holds(q.conditions[i], table, r) {
          assert Holds(q'.conditions[i], table, r);
        }
      }
    }
  }

  lemma SameRanking(q: Query, q': Query, table: set<Row>)
    requires q.order == q'.order
    ensures SortKeys(q, table) == SortKeys(q', table)
    ensures q.conditions == q'.conditions ==> Selected(q, table) == Selected(q', table) && Ranking(q, table) == Ranking(q', table)
  {
    assert SortKeys(q, table).Keys == SortKeys(q', table).Keys;
    assert q.conditions == q'.conditions ==> Selected(q, table) == Selected(q', table);
  }

  /** The query without the rows of its first page. */
  function Skipping(q: Query, n: nat): Query {
    q.(conditions := q.conditions + [NotIn(q.(limit := Some(n)))])
  }

  lemma SkippingByRowid(q: Query, n: nat, table: set<Row>)
    requires IsTotal(q, table) && q.limit.None? && q.offset.None?
    ensures Ranking(Skipping(q, n), table) == Page(Ranking(q, table), None, Some(n))
  {
    var skipped := q.(limit := Some(n));
    var p := Skipping(q, n);
    SameRanking(q, skipped, table);
    SameRanking(q, p, table);
    SelectedWith(q, NotIn(skipped), table);
    assert Selected(p, table) == Selected(q, table) - Elements(Eval(skipped, table));
    SortWithoutFirst(Selected(q, table), SortKeys(q, table), n);
  }

  /** Skipping by rowid returns the page that skipping by count returns, for every threshold. */
  lemma OptimizedPageIsTheSame(q: Query, o: Options, threshold: int, table: set<Row>)
    requires IsTotal(q, table)
    requires o.offset > 0 ==> q.offset == Some(o.offset)
    ensures Eval(QueryAll(q, o, threshold), table) == Eval(q, table)
  {
    if o.offset > 0 && o.offset > threshold {
      var base := Query(q.conditions, q.order, None, None);
      var n: nat := o.offset;
      var p := Skipping(base, n);
      SkippingByRowid(base, n, table);
      SameRanking(q, base, table);
      assert QueryAll(q, o, threshold) == p.(limit := q.limit);
      SameRanking(p, p.(limit := q.limit), table);
      PageOfRest(Ranking(q, table), q.limit, n);
    }
  }

  lemma PageOfRest(s: seq<Row>, limit: Option<nat>, n: nat)
    ensures Page(Page(s, None, Some(n)), limit, None) == Page(s, limit, Some(n))
  {
  }

  /** In particular for what a repository builds from the options. */
  lemma RepositoryPageIsTheSame(o: Options, conditions: seq<Condition>, natural: seq<Key>, threshold: int, table: set<Row>)
    requires var q := NewSelect(o); IsTotal(q.(conditions := q.conditions + conditions, order := q.order + natural), table)
    ensures var q := NewSelect(o);
            var sq := q.(conditions := q.conditions + conditions, order := q.order + natural);
            Eval(QueryAll(sq, o, threshold), table) == Eval(sq, table)
  {
    var q := NewSelect(o);
    OptimizedPageIsTheSame(q.(conditions := q.conditions + conditions, order := q.order + natural), o, threshold, table);
  }

  // ----- Two phases instead of one -----

  lemma {:induction false} PlacesAscend(s: seq<Row>, i: nat)
    requires i < |s| && forall j :: 0 <= j < i ==> s[j] != s[i]
    ensures IndexOf(s, s[i]) == i
    decreases |s|
  {
    if i > 0 {
      assert s[0] != s[i];
      PlacesAscend(s[1..], i - 1);
    }
  }

  lemma NoRowTwice(s: seq<Row>, keys: Keys, i: nat, j: nat)
    requires Ordered(s, keys) && i < j < |s|
    ensures s[i] != s[j]
  {
    BelowIsStrictOrder(KeyAt(keys, s[i]), KeyAt(keys, s[j]), []);
  }

  lemma PageRowsAreDistinct(page: Query, table: set<Row>)
    requires IsTotal(page, table)
    ensures var s := Eval(page, table);
            forall i, j :: 0 <= i < j < |s| ==> s[i] != s[j]
  {
    var keys := SortKeys(page, table);
    SortIsOrdered(Selected(page, table), keys);
    PageIsOrdered(Ranking(page, table), page.limit, page.offset, keys);
    var s := Eval(page, table);
    forall i, j | 0 <= i < j < |s| ensures s[i] != s[j] {
      NoRowTwice(s, keys, i, j);
    }
  }

  /** Whatever the second phase sorts by first, its rows are the page's rows that pass its conditions. */
  lemma HydrationSelects(q: Query, page: Query, table: set<Row>)
    ensures Selected(Hydrate(q, page), table) == set r | r in Selected(q, table) && r in Eval(page, table)
  {
    SelectedWith(q, In(page), table);
    var h := Hydrate(q, page);
    assert h.conditions == q.(conditions := q.conditions + [In(page)]).conditions;
    assert Selected(h, table) == Selected(q.(conditions := q.conditions + [In(page)]), table);
  }

  lemma HydrationOrder(q: Query, page: Query, table: set<Row>)
    requires IsTotal(page, table) && q.order == []
    ensures var keys := SortKeys(Hydrate(q, page), table);
            Ordered(Eval(page, table), keys) && TellsApart(keys, Selected(Hydrate(q, page), table))
  {
    var h, ids := Hydrate(q, page), Eval(page, table);
    var keys := SortKeys(h, table);
    PageRowsAreDistinct(page, table);
    HydrationSelects(q, page, table);
    forall i | 0 <= i < |ids| ensures KeyAt(keys, ids[i]) == [i] {
      assert ids[i] in Ranking(page, table);
      PlacesAscend(ids, i);
      assert KeyAt(keys, ids[i]) == [Rank(Place(page), table, ids[i])];
    }
    forall a, b | a in ids && b in ids && a != b ensures KeyAt(keys, a) != KeyAt(keys, b) {
      var i :| 0 <= i < |ids| && ids[i] == a;
      var j :| 0 <= j < |ids| && ids[j] == b;
    }
  }

  /** With no order of its own, it returns them in the page's order. */
  lemma HydrationFilters(q: Query, page: Query, table: set<Row>)
    requires IsTotal(page, table) && q.order == []
    ensures Eval(Hydrate(q, page), table) == Filter(Eval(page, table), Selected(q, table))
  {
    var h, ids := Hydrate(q, page), Eval(page, table);
    var keys := SortKeys(h, table);
    HydrationSelects(q, page, table);
    PageRowsAreDistinct(page, table);
    HydrationOrder(q, page, table);
    FilterKeepsOrder(ids, Selected(q, table), keys);
    SortIsOrdered(Selected(h, table), keys);
    OrderedIsUnique(Ranking(h, table), Filter(ids, Selected(q, table)), keys);
  }

  /** The one query that filters, ranks and pages at once. */
  function SingleQuery(q: Query, page: Query): Query {
    page.(conditions := q.conditions + page.conditions)
  }

  lemma SingleSelects(q: Query, page: Query, table: set<Row>)
    ensures Selected(SingleQuery(q, page), table) == Selected(q, table) * Selected(page, table)
  {
    var s := SingleQuery(q, page);
    forall r ensures r in Selected(s, table) <==> r in Selected(q, table) && r in Selected(page, table) {
      if r in Selected(s, table) {
        forall i | 0 <= i < |q.conditions| ensures Holds(q.conditions[i], table, r) {
          assert Holds(s.conditions[i], table, r);
        }
        forall i | 0 <= i < |page.conditions| ensures Holds(page.conditions[i], table, r) {
          assert Holds(s.conditions[|q.conditions| + i], table, r);
        }
      }
    }
  }

  lemma SingleRanks(q: Query, page: Query, table: set<Row>)
    requires IsTotal(page, table)
    ensures Ranking(SingleQuery(q, page), table) == Filter(Ranking(page, table), Selected(q, table))
  {
    SameRanking(page, SingleQuery(q, page), table);
    SingleSelects(q, page, table);
    FilterCommutes(Selected(page, table), Selected(q, table), SortKeys(page, table));
  }

  /** A page of rowids, at any limit and offset. */
  function PageOf(ranking: Query, limit: Option<nat>, offset: Option<nat>): Query {
    ranking.(limit := limit, offset := offset)
  }

  ghost predicate PhasesAgree(q: Query, ranking: Query, table: set<Row>, limit: Option<nat>, offset: Option<nat>) {
    var page := PageOf(ranking, limit, offset);
    Eval(Hydrate(q, page), table) == Eval(SingleQuery(q, page), table)
  }

  /** No row that the second phase refuses is ranked before one that it accepts. */
  ghost predicate RefusesOnlyLast(q: Query, ranking: Query, table: set<Row>) {
    var s := Ranking(ranking, table);
    forall i, j :: 0 <= i < j < |s| && s[j] in Selected(q, table) ==> s[i] in Selected(q, table)
  }

  /** Two phases return every page of the single query exactly when the second refuses only last rows. */
  lemma TwoPhasesExact(q: Query, ranking: Query, table: set<Row>)
    requires IsTotal(ranking, table) && q.order == []
    ensures (forall limit, offset :: PhasesAgree(q, ranking, table, limit, offset)) <==> RefusesOnlyLast(q, ranking, table)
  {
    var s, keep := Ranking(ranking, table), Selected(q, table);
    forall limit, offset
      ensures PhasesAgree(q, ranking, table, limit, offset) <==>
              Filter(Page(s, limit, offset), keep) == Page(Filter(s, keep), limit, offset)
    {
      var page := PageOf(ranking, limit, offset);
      SameRanking(ranking, page, table);
      HydrationFilters(q, page, table);
      SingleRanks(q, page, table);
    }
    if RefusesOnlyLast(q, ranking, table) {
      forall limit, offset ensures PhasesAgree(q, ranking, table, limit, offset) {
        FilterOfPage(s, keep, limit, offset);
      }
    } else {
      var i, j :| 0 <= i < j < |s| && s[j] in keep && s[i] !in keep;
      var f := FirstRefused(s, keep, i);
      PageShowsRefusal(s, keep, f, j);
      assert !PhasesAgree(q, ranking, table, Some(1), Some(f));
    }
  }

  function FirstRefused(s: seq<Row>, keep: set<Row>, i: nat): (f: nat)
    requires i < |s| && s[i] !in keep
    ensures f <= i && s[f] !in keep && forall k :: 0 <= k < f ==> s[k] in keep
    decreases |s|
  {
    if s[0] !in keep then 0 else 1 + FirstRefused(s[1..], keep, i - 1)
  }

  lemma PageShowsRefusal(s: seq<Row>, keep: set<Row>, f: nat, j: nat)
    requires f < j < |s| && s[f] !in keep && s[j] in keep && forall k :: 0 <= k < f ==> s[k] in keep
    ensures Filter(Page(s, Some(1), Some(f)), keep) != Page(Filter(s, keep), Some(1), Some(f))
  {
    assert Page(s, Some(1), Some(f)) == [s[f]];
    FilterNone([s[f]], keep);
    LongFilter(s, keep, f, j);
  }

  lemma LongFilter(s: seq<Row>, keep: set<Row>, f: nat, j: nat)
    requires f < j < |s| && s[j] in keep && forall k :: 0 <= k < f ==> s[k] in keep
    ensures |Filter(s, keep)| > f
  {
    assert s == s[..f] + s[f..];
    FilterAppend(s[..f], s[f..], keep);
    FilterAll(s[..f], keep);
    assert s[f..][j - f] == s[j] && s[j] in Filter(s[f..], keep);
  }

  lemma FilterOfPage(s: seq<Row>, keep: set<Row>, limit: Option<nat>, offset: Option<nat>)
    requires forall i, j :: 0 <= i < j < |s| && s[j] in keep ==> s[i] in keep
    ensures Filter(Page(s, limit, offset), keep) == Page(Filter(s, keep), limit, offset)
  {
    var n := Accepted(s, keep);
    FilterPrefix(s, keep, n);
    var from, to := From(|s|, offset), To(|s|, limit, offset);
    FilterSlice(s, keep, n, from, to);
    PageOfPrefix(s, n, limit, offset);
  }

  lemma PageOfPrefix(s: seq<Row>, n: nat, limit: Option<nat>, offset: Option<nat>)
    requires n <= |s|
    ensures var from, to := From(|s|, offset), To(|s|, limit, offset);
            Page(s[..n], limit, offset) == if n <= from then [] else if n <= to then s[from..n] else s[from..to]
  {
    var from, to := From(|s|, offset), To(|s|, limit, offset);
    assert n > from ==> From(n, offset) == from && To(n, limit, offset) == if n <= to then n else to;
    assert n <= from ==> From(n, offset) == n;
  }

  lemma FilterSlice(s: seq<Row>, keep: set<Row>, n: nat, from: nat, to: nat)
    requires from <= to <= |s|
    requires n <= |s| && (forall i :: 0 <= i < n ==> s[i] in keep) && (forall i :: n <= i < |s| ==> s[i] !in keep)
    ensures Filter(s[from..to], keep) == if n <= from then [] else if n <= to then s[from..n] else s[from..to]
  {
    var end := if n <= from then from else if n <= to then n else to;
    assert s[from..to] == s[from..end] + s[end..to];
    FilterAppend(s[from..end], s[end..to], keep);
    FilterAll(s[from..end], keep);
    FilterNone(s[end..to], keep);
  }

  function Accepted(s: seq<Row>, keep: set<Row>): (n: nat)
    requires forall i, j :: 0 <= i < j < |s| && s[j] in keep ==> s[i] in keep
    ensures n <= |s| && (forall i :: 0 <= i < n ==> s[i] in keep) && (forall i :: n <= i < |s| ==> s[i] !in keep)
  {
    if s == [] then 0
    else if s[|s| - 1] in keep then |s|
    else Accepted(s[..|s| - 1], keep)
  }

  lemma FilterPrefix(s: seq<Row>, keep: set<Row>, n: nat)
    requires n <= |s| && (forall i :: 0 <= i < n ==> s[i] in keep) && (forall i :: n <= i < |s| ==> s[i] !in keep)
    ensures Filter(s, keep) == s[..n]
  {
    assert s == s[..n] + s[n..];
    FilterAppend(s[..n], s[n..], keep);
    FilterAll(s[..n], keep);
    FilterNone(s[n..], keep);
  }

  /** A search refuses nothing late: its second phase has only conditions that the first had too. */
  lemma SearchReturnsTheSinglePage(match_: Row -> bool, present: Row -> bool, library: Row -> bool,
                                   ranking: seq<Key>, o: Options, table: set<Row>)
    requires IsTotal(RowidQuery(match_, present, library, ranking, o), table)
    ensures var page := RowidQuery(match_, present, library, ranking, o);
            var full := ApplyFilters(Query([Where(present), Where(library)], [], None, None), o);
            Eval(Hydrate(full, page), table) == Eval(page, table)
  {
    var page := RowidQuery(match_, present, library, ranking, o);
    var full := ApplyFilters(Query([Where(present), Where(library)], [], None, None), o);
    HydrationFilters(full, page, table);
    forall r | r in Eval(page, table) ensures r in Selected(full, table) {
      assert r in Ranking(page, table);
      SamePhaseConditions(match_, present, library, ranking, o, table, r);
    }
    FilterAll(Eval(page, table), Selected(full, table));
  }

  lemma SamePhaseConditions(match_: Row -> bool, present: Row -> bool, library: Row -> bool,
                            ranking: seq<Key>, o: Options, table: set<Row>, r: Row)
    requires r in Selected(RowidQuery(match_, present, library, ranking, o), table)
    ensures r in Selected(ApplyFilters(Query([Where(present), Where(library)], [], None, None), o), table)
  {
    var conditions := RowidQuery(match_, present, library, ranking, o).conditions;
    assert conditions[1] == Where(present) && conditions[2] == Where(library);
    assert Holds(conditions[1], table, r) && Holds(conditions[2], table, r);
    if o.filters.Some? {
      assert conditions[3] == Where(o.filters.value) && Holds(conditions[3], table, r);
    }
  }
}
