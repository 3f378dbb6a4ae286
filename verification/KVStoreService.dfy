/** The store as an object over its table: every method does what the transition system says. */
module KVStoreService {
  import opened Wrappers
  import opened MapSums
  import opened Ordering
  import opened KVStore

  // ----- The order of keys -----

  function Codes(key: string): seq<int> {
    seq(|key|, i requires 0 <= i < |key| => key[i] as int)
  }

  /** Keys are compared byte by byte. */
  predicate KeyBefore(a: string, b: string) {
    Below(Codes(a), Codes(b))
  }

  predicate Ascending(keys: seq<string>) {
    forall i, j :: 0 <= i < j < |keys| ==> KeyBefore(keys[i], keys[j])
  }

  lemma BeforeIsStrictOrder(a: string, b: string, c: string)
    ensures !(KeyBefore(a, b) && KeyBefore(b, a)) && (a != b ==> KeyBefore(a, b) || KeyBefore(b, a))
    ensures KeyBefore(a, b) && KeyBefore(b, c) ==> KeyBefore(a, c)
  {
    BelowIsStrictOrder(Codes(a), Codes(b), Codes(c));
    if a != b && |a| == |b| {
      var i :| 0 <= i < |a| && a[i] != b[i];
      assert Codes(a)[i] != Codes(b)[i];
    }
  }

  /** Keys can be listed in ascending order in one way only. */
  lemma {:induction false} OneListing(s: seq<string>, t: seq<string>)
    requires Ascending(s) && Ascending(t) && forall k :: k in s <==> k in t
    ensures s == t
  {
    assert s != [] ==> s[0] in t;
    assert t != [] ==> t[0] in s;
    if s != [] {
      SameFirst(s, t);
      forall k ensures k in s[1..] <==> k in t[1..] {
        LaterKeys(s, k);
        LaterKeys(t, k);
      }
      OneListing(s[1..], t[1..]);
    }
  }

  lemma SameFirst(s: seq<string>, t: seq<string>)
    requires Ascending(s) && Ascending(t) && s != [] && t != [] && s[0] in t && t[0] in s
    ensures s[0] == t[0]
  {
    BeforeIsStrictOrder(s[0], t[0], "");
  }

  lemma LaterKeys(s: seq<string>, k: string)
    requires Ascending(s) && s != []
    ensures k in s[1..] <==> k in s && k != s[0]
  {
    BeforeIsStrictOrder(s[0], s[0], "");
  }

  /** The row that ORDER BY delivers next. */
  method FirstKey(keys: set<string>) returns (first: string)
    requires keys != {}
    ensures first in keys && forall k :: k in keys && k != first ==> KeyBefore(first, k)
  {
    first :| first in keys;
    var left := keys - {first};
    while left != {}
      invariant left <= keys && first in keys && first !in left
      invariant forall k :: k in keys && k !in left && k != first ==> KeyBefore(first, k)
      decreases left
    {
      var k :| k in left;
      forall o | o in keys { BeforeIsStrictOrder(k, first, o); }
      left := left - {k};
      if KeyBefore(k, first) {
        first := k;
      }
    }
  }

  class Service {
    const maxSize: int
    const like: Like
    var rows: Table

    constructor (maxSize: int, like: Like)
      ensures this.maxSize == maxSize && this.like == like && rows == map[]
    {
      this.maxSize, this.like, rows := maxSize, like, map[];
    }

    /** SELECT SUM(size) over the live rows. */
    method StorageUsed(now: nat) returns (used: int)
      ensures used == Used(rows, now)
    {
      used := 0;
      var left := Sizes(LiveView(rows, now));
      while left != map[]
        invariant used + Sum(left) == Used(rows, now)
        decreases |left|
      {
        var k :| k in left;
        SumRemove(left, k);
        used := used + left[k];
        left := left - {k};
      }
    }

    method CheckStorageLimit(delta: int, now: nat) returns (ok: bool)
      ensures ok <==> Fits(rows, delta, now, maxSize)
    {
      if delta <= 0 {
        return true;
      }
      var used := StorageUsed(now);
      var newTotal := used + delta;
      return newTotal <= maxSize;
    }

    method SetValue(key: string, value: Bytes, ttl: nat, read: nat, check: nat, write: nat) returns (r: Reply)
      modifies this`rows
      ensures r == SetReply(old(rows), key, value, read, check, maxSize)
      ensures rows == if r.Done? then Upsert(old(rows), key, value, ttl, write) else old(rows)
      ensures r.Done? ==> forall now: nat :: Read(rows, key, now) == if ttl == 0 || now <= write + ttl then Some(value) else None
      ensures forall k: string, now: nat :: k != key ==> Read(rows, k, now) == Read(old(rows), k, now)
    {
      if key == "" {
        return Refused(EmptyKey);
      }
      if |key| > MAX_KEY_LENGTH {
        return Refused(KeyTooLong);
      }
      var oldSize := 0;
      if key in rows && Live(rows[key], read) {
        oldSize := rows[key].size;
      }
      var fits := CheckStorageLimit(|value| - oldSize, check);
      if !fits {
        return Refused(OverLimit);
      }
      var expires := None;
      if ttl > 0 {
        expires := Some(write + ttl);
      }
      rows := rows[key := Row(value, |value|, expires)];
      return Done;
    }

    method Set(key: string, value: Bytes, read: nat, check: nat, write: nat) returns (r: Reply)
      modifies this`rows
      ensures var e := Event(Operation.Set(key, value), read, check, write);
              r == ReplyTo(old(rows), e, like, maxSize) && rows == After(old(rows), e, like, maxSize)
    {
      r := SetValue(key, value, 0, read, check, write);
    }

    method SetWithTTL(key: string, value: Bytes, ttl: int, read: nat, check: nat, write: nat) returns (r: Reply)
      modifies this`rows
      ensures var e := Event(Operation.SetWithTTL(key, value, ttl), read, check, write);
              r == ReplyTo(old(rows), e, like, maxSize) && rows == After(old(rows), e, like, maxSize)
    {
      if ttl <= 0 {
        return Refused(BadTTL);
      }
      r := SetValue(key, value, ttl, read, check, write);
    }

    method Get(key: string, now: nat) returns (value: Bytes, found: bool)
      ensures found <==> Read(rows, key, now).Some?
      ensures found ==> value == Read(rows, key, now).value
    {
      if key in rows && Live(rows[key], now) {
        return rows[key].value, true;
      }
      return [], false;
    }

    method Has(key: string, now: nat) returns (present: bool)
      ensures present <==> Read(rows, key, now).Some?
    {
      var matches := set k | k in rows && k == key && Live(rows[k], now);
      if key in rows && Live(rows[key], now) {
        assert matches == {key};
      } else {
        assert matches == {};
      }
      return |matches| > 0;
    }

    /** The live keys that the prefix matches, ordered by key. */
    method List(prefix: string, now: nat) returns (keys: seq<string>)
      ensures Ascending(keys) && forall k :: k in keys <==> k in Listed(rows, prefix, like, now)
    {
      var left := set k | k in rows && (prefix == "" || like(prefix, k)) && Live(rows[k], now);
      keys := [];
      while left != {}
        invariant forall k :: k in Listed(rows, prefix, like, now) <==> k in left || k in keys
        invariant Ascending(keys) && forall a, b :: a in keys && b in left ==> KeyBefore(a, b)
        decreases left
      {
        var first := FirstKey(left);
        keys, left := keys + [first], left - {first};
      }
    }

    method Delete(key: string)
      modifies this`rows
      ensures rows == old(rows) - {key}
    {
      rows := rows - {key};
    }

    method DeleteByPrefix(prefix: string) returns (r: Reply)
      modifies this`rows
      ensures var e := Event(Operation.DeleteByPrefix(prefix), 0, 0, 0);
              r == ReplyTo(old(rows), e, like, maxSize) && rows == After(old(rows), e, like, maxSize)
    {
      if prefix == "" {
        return Refused(EmptyPrefix);
      }
      var before := |rows|;
      ghost var were := rows;
      rows := map k | k in rows && !like(prefix, k) :: rows[k];
      assert were.Keys == rows.Keys + Matching(were, prefix, like) && rows.Keys !! Matching(were, prefix, like);
      assert |were.Keys| == |rows.Keys| + |Matching(were, prefix, like)|;
      assert rows == were - Matching(were, prefix, like);
      return Deleted(before - |rows|);
    }

    /** Batch by batch, each with its own reading of the clock. */
    method GetMany(keys: seq<string>, clock: nat -> nat) returns (values: map<string, Bytes>)
      ensures forall k :: k in values <==> ReadInBatch(keys, |keys|, clock, k)
      ensures forall k :: k in values ==> k in rows && values[k] == rows[k].value
    {
      values := map[];
      if |keys| == 0 {
        return;
      }
      var from, batch := 0, 0;
      while from < |keys|
        invariant from == if batch * BATCH_SIZE < |keys| then batch * BATCH_SIZE else |keys|
        invariant forall k :: k in values <==> ReadInBatch(keys, from, clock, k)
        invariant forall k :: k in values ==> k in rows && values[k] == rows[k].value
      {
        var to := if from + BATCH_SIZE < |keys| then from + BATCH_SIZE else |keys|;
        var chunk := keys[from..to];
        var now := clock(batch);
        var found := map k | k in chunk && k in rows && Live(rows[k], now) :: rows[k].value;
        BatchesAdd(keys, from, to, batch, clock);
        values := values + found;
        from, batch := to, batch + 1;
      }
    }

    /** Some occurrence of the key among the first n is live when its batch is read. */
    ghost predicate ReadInBatch(keys: seq<string>, n: nat, clock: nat -> nat, k: string)
      requires n <= |keys|
      reads this
    {
      exists i :: 0 <= i < n && keys[i] == k && k in rows && Live(rows[k], clock(i / BATCH_SIZE))
    }

    lemma BatchesAdd(keys: seq<string>, from: nat, to: nat, batch: nat, clock: nat -> nat)
      requires from == batch * BATCH_SIZE && from < to <= |keys| && to <= from + BATCH_SIZE
      ensures forall k :: ReadInBatch(keys, to, clock, k) <==>
                            ReadInBatch(keys, from, clock, k)
                            || (k in keys[from..to] && k in rows && Live(rows[k], clock(batch)))
    {
      forall k | k in keys[from..to] && k in rows && Live(rows[k], clock(batch)) ensures ReadInBatch(keys, to, clock, k) {
        var j :| 0 <= j < to - from && keys[from..to][j] == k;
        assert keys[from + j] == k && (from + j) / BATCH_SIZE == batch;
      }
      forall k | ReadInBatch(keys, to, clock, k) && !ReadInBatch(keys, from, clock, k)
        ensures k in keys[from..to] && k in rows && Live(rows[k], clock(batch))
      {
        var i :| 0 <= i < to && keys[i] == k && k in rows && Live(rows[k], clock(i / BATCH_SIZE));
        assert from <= i && i / BATCH_SIZE == batch && keys[from..to][i - from] == k;
      }
    }

    /** With the clock standing still, the batches make no difference. */
    lemma BatchesAreInvisible(keys: seq<string>, now: nat, values: map<string, Bytes>)
      requires forall k :: k in values <==> ReadInBatch(keys, |keys|, _ => now, k)
      requires forall k :: k in values ==> k in rows && values[k] == rows[k].value
      ensures values == ReadMany(rows, keys, now)
    {
      var all := ReadMany(rows, keys, now);
      forall k ensures k in values <==> k in all {
        if k in all {
          var i :| 0 <= i < |keys| && keys[i] == k;
          assert ReadInBatch(keys, |keys|, _ => now, k);
        }
      }
    }

    method CleanupExpired(now: nat)
      modifies this`rows
      ensures rows == After(old(rows), Event(Cleanup, now, now, now), like, maxSize)
    {
      rows := map k | k in rows && !(rows[k].expires.Some? && rows[k].expires.value < now) :: rows[k];
    }

    method Close(now: nat)
      modifies this`rows
      ensures rows == After(old(rows), Event(Cleanup, now, now, now), like, maxSize)
    {
      CleanupExpired(now);
    }
  }
}
