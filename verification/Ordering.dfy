/** Rows sorted by vectors of sort keys, and the pages cut out of them. */
module Ordering {
  import opened Wrappers

  /** Every other column of a row is a function of its rowid. */
  type Row(==, !new)

  /** The sort keys of each row; SQL values are represented by their ranks. */
  type Keys = map<Row, seq<int>>

  predicate Below(a: seq<int>, b: seq<int>) {
    b != [] && (a == [] || a[0] < b[0] || (a[0] == b[0] && Below(a[1..], b[1..])))
  }

  lemma {:induction false} BelowIsStrictOrder(a: seq<int>, b: seq<int>, c: seq<int>)
    ensures !(Below(a, b) && Below(b, a)) && (a != b ==> Below(a, b) || Below(b, a))
    ensures Below(a, b) && Below(b, c) ==> Below(a, c)
  {
    if a != [] && b != [] {
      BelowIsStrictOrder(a[1..], b[1..], if c == [] then [] else c[1..]);
      assert a == [a[0]] + a[1..] && b == [b[0]] + b[1..];
    }
  }

  function KeyAt(keys: Keys, r: Row): seq<int> {
    if r in keys then keys[r] else []
  }

  predicate Before(keys: Keys, a: Row, b: Row) {
    Below(KeyAt(keys, a), KeyAt(keys, b))
  }

  predicate Ordered(s: seq<Row>, keys: Keys) {
    forall i, j :: 0 <= i < j < |s| ==> Before(keys, s[i], s[j])
  }

  /** No two rows tie. */
  predicate TellsApart(keys: Keys, rows: set<Row>) {
    forall a, b :: a in rows && b in rows && a != b ==> KeyAt(keys, a) != KeyAt(keys, b)
  }

  function Elements(s: seq<Row>): set<Row> {
    set r | r in s
  }

  function Insert(s: seq<Row>, r: Row, keys: Keys): (t: seq<Row>)
    ensures forall x :: x in t <==> x in s || x == r
    ensures |t| == |s| + 1
  {
    if s == [] then [r]
    else if Before(keys, r, s[0]) then [r] + s
    else [s[0]] + Insert(s[1..], r, keys)
  }

  lemma {:induction false} InsertKeepsOrder(s: seq<Row>, r: Row, keys: Keys)
    requires Ordered(s, keys) && forall x :: x in s ==> KeyAt(keys, x) != KeyAt(keys, r)
    ensures Ordered(Insert(s, r, keys), keys)
  {
    if s != [] {
      var t := Insert(s, r, keys);
      if Before(keys, r, s[0]) {
        forall j | 0 <= j < |s| ensures Before(keys, r, s[j]) {
          BelowIsStrictOrder(KeyAt(keys, r), KeyAt(keys, s[0]), KeyAt(keys, s[j]));
        }
      } else {
        BelowIsStrictOrder(KeyAt(keys, r), KeyAt(keys, s[0]), []);
        var rest := Insert(s[1..], r, keys);
        InsertKeepsOrder(s[1..], r, keys);
        forall j | 0 <= j < |rest| ensures Before(keys, s[0], rest[j]) {
          assert rest[j] in rest;
        }
      }
    }
  }

  ghost function Sort(rows: set<Row>, keys: Keys): (s: seq<Row>)
    ensures (forall r :: r in s <==> r in rows) && |s| == |rows|
  {
    if |rows| == 0 then []
    else
      var r :| r in rows;
      Insert(Sort(rows - {r}, keys), r, keys)
  }

  lemma {:induction false} SortIsOrdered(rows: set<Row>, keys: Keys)
    requires TellsApart(keys, rows)
    ensures Ordered(Sort(rows, keys), keys)
  {
    if |rows| > 0 {
      var r :| r in rows && Sort(rows, keys) == Insert(Sort(rows - {r}, keys), r, keys);
      SortIsOrdered(rows - {r}, keys);
      InsertKeepsOrder(Sort(rows - {r}, keys), r, keys);
    }
  }

  lemma {:induction false} OrderedIsUnique(s: seq<Row>, t: seq<Row>, keys: Keys)
    requires Ordered(s, keys) && Ordered(t, keys) && Elements(s) == Elements(t)
    ensures s == t
    decreases |s|
  {
    NoElements(s);
    NoElements(t);
    if s != [] {
      assert s[0] in Elements(t) && t[0] in Elements(s);
      BelowIsStrictOrder(KeyAt(keys, s[0]), KeyAt(keys, t[0]), []);
      assert s[0] == t[0];
      forall r ensures r in Elements(s[1..]) <==> r in Elements(t[1..]) {
        RestWithout(s, keys, r);
        RestWithout(t, keys, r);
      }
      OrderedIsUnique(s[1..], t[1..], keys);
    }
  }

  lemma NoElements(s: seq<Row>)
    ensures Elements(s) == {} <==> s == []
  {
    if s != [] {
      assert s[0] in Elements(s);
    }
  }

  lemma RestWithout(s: seq<Row>, keys: Keys, r: Row)
    requires s != [] && Ordered(s, keys)
    ensures r in Elements(s[1..]) <==> r in Elements(s) && r != s[0]
  {
    if r in s[1..] {
      var j :| 0 < j < |s| && s[j] == r;
      BelowIsStrictOrder(KeyAt(keys, s[0]), KeyAt(keys, s[j]), []);
    }
  }

  // ----- Pages -----

  /** Where a page of n rows starts and where it ends. */
  function From(n: nat, offset: Option<nat>): (from: nat)
    ensures from <= n
  {
    if offset.None? then 0 else if offset.value < n then offset.value else n
  }

  function To(n: nat, limit: Option<nat>, offset: Option<nat>): (to: nat)
    ensures From(n, offset) <= to <= n
  {
    var from := From(n, offset);
    if limit.Some? && limit.value < n - from then from + limit.value else n
  }

  function Page(s: seq<Row>, limit: Option<nat>, offset: Option<nat>): seq<Row> {
    s[From(|s|, offset)..To(|s|, limit, offset)]
  }

  lemma PageIsOrdered(s: seq<Row>, limit: Option<nat>, offset: Option<nat>, keys: Keys)
    requires Ordered(s, keys)
    ensures Ordered(Page(s, limit, offset), keys)
    ensures forall r :: r in Page(s, limit, offset) ==> r in s
  {
  }

  /** What is left of an ordered sequence without its first n rows, as sets. */
  lemma DroppedFirst(s: seq<Row>, n: nat, keys: Keys)
    requires Ordered(s, keys) && n <= |s|
    ensures Elements(s[n..]) == Elements(s) - Elements(s[..n])
  {
    forall r | r in s[n..] ensures r !in s[..n] {
      var j :| n <= j < |s| && s[j] == r;
      if i :| 0 <= i < n && s[i] == r {
        BelowIsStrictOrder(KeyAt(keys, s[i]), KeyAt(keys, s[j]), []);
      }
    }
    assert s == s[..n] + s[n..];
  }

  lemma OrderedRest(s: seq<Row>, t: seq<Row>, m: nat, keys: Keys)
    requires Ordered(s, keys) && Ordered(t, keys) && m <= |s|
    requires forall r :: r in t <==> r in s && r !in s[..m]
    ensures t == s[m..]
  {
    DroppedFirst(s, m, keys);
    forall r ensures r in Elements(t) <==> r in Elements(s[m..]) {
      assert r in Elements(s[m..]) <==> r in Elements(s) && r !in Elements(s[..m]);
    }
    OrderedIsUnique(t, s[m..], keys);
  }

  /** Leaving out the rows of the first page leaves what comes after it. */
  lemma SortWithoutFirst(rows: set<Row>, keys: Keys, n: nat)
    requires TellsApart(keys, rows)
    ensures var s := Sort(rows, keys);
            Sort(rows - Elements(Page(s, Some(n), None)), keys) == Page(s, None, Some(n))
  {
    var skipped := Page(Sort(rows, keys), Some(n), None);
    SortIsOrdered(rows, keys);
    SortIsOrdered(rows - Elements(skipped), keys);
    SkippedFirst(Sort(rows, keys), Sort(rows - Elements(skipped), keys), n, keys);
  }

  lemma SkippedFirst(s: seq<Row>, t: seq<Row>, n: nat, keys: Keys)
    requires Ordered(s, keys) && Ordered(t, keys)
    requires forall r :: r in t <==> r in s && r !in Page(s, Some(n), None)
    ensures t == Page(s, None, Some(n))
  {
    var m := From(|s|, Some(n));
    assert Page(s, Some(n), None) == s[..m];
    assert Page(s, None, Some(n)) == s[m..];
    OrderedRest(s, t, m, keys);
  }

  function Filter(s: seq<Row>, keep: set<Row>): (t: seq<Row>)
    ensures forall r :: r in t <==> r in s && r in keep
    ensures |t| <= |s|
  {
    if s == [] then [] else (if s[0] in keep then [s[0]] else []) + Filter(s[1..], keep)
  }

  lemma {:induction false} FilterKeepsOrder(s: seq<Row>, keep: set<Row>, keys: Keys)
    requires Ordered(s, keys)
    ensures Ordered(Filter(s, keep), keys)
  {
    if s != [] {
      var rest := Filter(s[1..], keep);
      FilterKeepsOrder(s[1..], keep, keys);
      forall j | 0 <= j < |rest| ensures Before(keys, s[0], rest[j]) {
        assert rest[j] in rest;
      }
    }
  }

  /** Filtering and sorting commute. */
  lemma FilterCommutes(rows: set<Row>, keep: set<Row>, keys: Keys)
    requires TellsApart(keys, rows)
    ensures Sort(keep * rows, keys) == Filter(Sort(rows, keys), keep)
  {
    var s, t := Sort(keep * rows, keys), Filter(Sort(rows, keys), keep);
    SortIsOrdered(rows, keys);
    SortIsOrdered(keep * rows, keys);
    FilterKeepsOrder(Sort(rows, keys), keep, keys);
    assert Elements(s) == Elements(t);
    OrderedIsUnique(s, t, keys);
  }

  lemma {:induction false} FilterAppend(s: seq<Row>, t: seq<Row>, keep: set<Row>)
    ensures Filter(s + t, keep) == Filter(s, keep) + Filter(t, keep)
  {
    if s == [] {
      assert s + t == t;
    } else {
      assert (s + t)[1..] == s[1..] + t;
      FilterAppend(s[1..], t, keep);
    }
  }

  lemma {:induction false} FilterAll(s: seq<Row>, keep: set<Row>)
    requires forall r :: r in s ==> r in keep
    ensures Filter(s, keep) == s
  {
    if s != [] {
      assert s[0] in s && forall r :: r in s[1..] ==> r in s;
      FilterAll(s[1..], keep);
    }
  }

  lemma {:induction false} FilterNone(s: seq<Row>, keep: set<Row>)
    requires forall r :: r in s ==> r !in keep
    ensures Filter(s, keep) == []
  {
    if s != [] {
      assert s[0] in s && forall r :: r in s[1..] ==> r in s;
      FilterNone(s[1..], keep);
    }
  }
}
