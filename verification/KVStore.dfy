/**
 A plugin's key/value table with lazily expiring rows and a storage quota. Keys are strings of bytes; times
 are whole seconds; which keys a LIKE prefix matches is left to a predicate.
 */
module KVStore {
  import opened Wrappers
  import opened MapSums

  type Bytes = seq<bv8>

  datatype Row = Row(value: Bytes, size: nat, expires: Option<nat>)

  type Table = map<string, Row>

  type Like = (string, string) -> bool

  datatype Operation =
    | Set(key: string, value: Bytes)
    | SetWithTTL(key: string, value: Bytes, ttl: int)
    | Get(key: string)
    | Has(key: string)
    | List(prefix: string)
    | GetMany(keys: seq<string>)
    | GetStorageUsed
    | Delete(key: string)
    | DeleteByPrefix(prefix: string)
    | Cleanup

  datatype Refusal = EmptyKey | KeyTooLong | BadTTL | OverLimit | EmptyPrefix

  datatype Reply =
    | Done
    | Refused(why: Refusal)
    | Found(value: Option<Bytes>)
    | Present(yes: bool)
    | Keys(keys: set<string>)
    | Values(values: map<string, Bytes>)
    | Amount(bytes: int)
    | Deleted(rows: nat)

  /** An operation with the clock at its statements; only a Set has three. */
  datatype Event = Event(op: Operation, read: nat, check: nat, write: nat)

  const MAX_KEY_LENGTH := 256
  const BATCH_SIZE := 200

  // ----- What is live -----

  predicate Live(r: Row, now: nat) {
    r.expires.None? || r.expires.value >= now
  }

  function LiveView(rows: Table, now: nat): Table {
    map k | k in rows && Live(rows[k], now) :: rows[k]
  }

  function Sizes(rows: Table): map<string, int> {
    map k | k in rows :: rows[k].size
  }

  ghost function Used(rows: Table, now: nat): int {
    Sum(Sizes(LiveView(rows, now)))
  }

  // ----- The operations -----

  function OldSize(rows: Table, key: string, now: nat): nat {
    if key in rows && Live(rows[key], now) then rows[key].size else 0
  }

  ghost predicate Fits(rows: Table, delta: int, now: nat, maxSize: int) {
    delta <= 0 || Used(rows, now) + delta <= maxSize
  }

  ghost function SetReply(rows: Table, key: string, value: Bytes, read: nat, check: nat, maxSize: int): Reply {
    if key == "" then Refused(EmptyKey)
    else if |key| > MAX_KEY_LENGTH then Refused(KeyTooLong)
    else if !Fits(rows, |value| - OldSize(rows, key, read), check, maxSize) then Refused(OverLimit)
    else Done
  }

  function Upsert(rows: Table, key: string, value: Bytes, ttl: nat, now: nat): Table {
    rows[key := Row(value, |value|, if ttl > 0 then Some(now + ttl) else None)]
  }

  function Read(rows: Table, key: string, now: nat): Option<Bytes> {
    if key in rows && Live(rows[key], now) then Some(rows[key].value) else None
  }

  function Listed(rows: Table, prefix: string, like: Like, now: nat): set<string> {
    set k | k in rows && Live(rows[k], now) && (prefix == "" || like(prefix, k))
  }

  function ReadMany(rows: Table, keys: seq<string>, now: nat): map<string, Bytes> {
    map k | k in keys && Read(rows, k, now).Some? :: Read(rows, k, now).value
  }

  function Matching(rows: Table, prefix: string, like: Like): set<string> {
    set k | k in rows && like(prefix, k)
  }

  function Expired(rows: Table, now: nat): set<string> {
    set k | k in rows && !Live(rows[k], now)
  }

  ghost function ReplyTo(rows: Table, e: Event, like: Like, maxSize: int): Reply {
    match e.op
    case Set(key, value) => SetReply(rows, key, value, e.read, e.check, maxSize)
    case SetWithTTL(key, value, ttl) =>
      if ttl <= 0 then Refused(BadTTL) else SetReply(rows, key, value, e.read, e.check, maxSize)
    case Get(key) => Found(Read(rows, key, e.read))
    case Has(key) => Present(Read(rows, key, e.read).Some?)
    case List(prefix) => Keys(Listed(rows, prefix, like, e.read))
    case GetMany(keys) => Values(ReadMany(rows, keys, e.read))
    case GetStorageUsed => Amount(Used(rows, e.read))
    case Delete(_) => Done
    case DeleteByPrefix(prefix) => if prefix == "" then Refused(EmptyPrefix) else Deleted(|Matching(rows, prefix, like)|)
    case Cleanup => Done
  }

  ghost function After(rows: Table, e: Event, like: Like, maxSize: int): Table {
    if ReplyTo(rows, e, like, maxSize).Refused? then rows
    else
      match e.op
      case Set(key, value) => Upsert(rows, key, value, 0, e.write)
      case SetWithTTL(key, value, ttl) => Upsert(rows, key, value, ttl, e.write)
      case Delete(key) => rows - {key}
      case DeleteByPrefix(prefix) => rows - Matching(rows, prefix, like)
      case Cleanup => rows - Expired(rows, e.read)
      case _ => rows
  }

  ghost function Exec(rows: Table, es: seq<Event>, like: Like, maxSize: int): Table
    decreases |es|
  {
    if es == [] then rows else Exec(After(rows, es[0], like, maxSize), es[1..], like, maxSize)
  }

  /** The clock never goes back, within an operation or from one to the next. */
  ghost predicate InOrder(es: seq<Event>, from: nat)
    decreases |es|
  {
    es == [] || (from <= es[0].read <= es[0].check <= es[0].write && InOrder(es[1..], es[0].write))
  }

  // ----- Cleaning up is unobservable -----

  ghost predicate Alike(r: Table, s: Table, now: nat) {
    LiveView(r, now) == LiveView(s, now)
  }

  /** What a caller sees of a reply: the count of deleted rows may include expired ones, so it is left out. */
  function Seen(r: Reply): Reply {
    if r.Deleted? then Done else r
  }

  ghost function Observed(rows: Table, es: seq<Event>, like: Like, maxSize: int): seq<Reply>
    decreases |es|
  {
    if es == [] then []
    else
      (if es[0].op.Cleanup? then [] else [Seen(ReplyTo(rows, es[0], like, maxSize))])
      + Observed(After(rows, es[0], like, maxSize), es[1..], like, maxSize)
  }

  function WithoutCleanups(es: seq<Event>): seq<Event> {
    if es == [] then [] else (if es[0].op.Cleanup? then [] else [es[0]]) + WithoutCleanups(es[1..])
  }

  lemma AlikeAt(r: Table, s: Table, now: nat, k: string)
    requires Alike(r, s, now)
    ensures k in r && Live(r[k], now) <==> k in s && Live(s[k], now)
    ensures k in r && Live(r[k], now) ==> r[k] == s[k]
  {
    assert k in r && Live(r[k], now) ==> k in LiveView(r, now) && LiveView(r, now)[k] == r[k];
    assert k in s && Live(s[k], now) ==> k in LiveView(s, now) && LiveView(s, now)[k] == s[k];
  }

  lemma AlikeLater(r: Table, s: Table, now: nat, later: nat)
    requires Alike(r, s, now) && now <= later
    ensures Alike(r, s, later)
  {
    forall k ensures k in LiveView(r, later) <==> k in LiveView(s, later)
             ensures k in LiveView(r, later) ==> LiveView(r, later)[k] == LiveView(s, later)[k]
    {
      AlikeAt(r, s, now, k);
    }
  }

  lemma SameReplies(r: Table, s: Table, e: Event, like: Like, maxSize: int)
    requires Alike(r, s, e.read) && e.read <= e.check
    ensures Seen(ReplyTo(r, e, like, maxSize)) == Seen(ReplyTo(s, e, like, maxSize))
  {
    AlikeLater(r, s, e.read, e.check);
    forall k ensures Read(r, k, e.read) == Read(s, k, e.read) && OldSize(r, k, e.read) == OldSize(s, k, e.read) {
      AlikeAt(r, s, e.read, k);
    }
    if e.op.List? {
      forall k ensures k in Listed(r, e.op.prefix, like, e.read) <==> k in Listed(s, e.op.prefix, like, e.read) {
        AlikeAt(r, s, e.read, k);
      }
    }
  }

  lemma StaysAlike(r: Table, s: Table, e: Event, like: Like, maxSize: int)
    requires Alike(r, s, e.read) && e.read <= e.check <= e.write
    ensures Alike(After(r, e, like, maxSize), After(s, e, like, maxSize), e.write)
  {
    SameReplies(r, s, e, like, maxSize);
    var r', s' := After(r, e, like, maxSize), After(s, e, like, maxSize);
    forall k ensures k in LiveView(r', e.write) <==> k in LiveView(s', e.write)
             ensures k in LiveView(r', e.write) ==> LiveView(r', e.write)[k] == LiveView(s', e.write)[k]
    {
      AlikeAt(r, s, e.read, k);
    }
  }

  lemma CleanupLeavesLive(rows: Table, e: Event, like: Like, maxSize: int)
    requires e.op.Cleanup?
    ensures Alike(After(rows, e, like, maxSize), rows, e.read)
  {
  }

  /** The clean-ups in a run make no difference to what any other operation answers. */
  lemma {:induction false} CleanupIsUnobservable(r: Table, s: Table, es: seq<Event>, from: nat, like: Like, maxSize: int)
    requires InOrder(es, from) && Alike(r, s, from)
    ensures Observed(r, es, like, maxSize) == Observed(s, WithoutCleanups(es), like, maxSize)
    decreases |es|
  {
    if es != [] {
      var e := es[0];
      var r' := After(r, e, like, maxSize);
      AlikeLater(r, s, from, e.read);
      if e.op.Cleanup? {
        CleanupLeavesLive(r, e, like, maxSize);
        AlikeLater(r', s, e.read, e.write);
        CleanupIsUnobservable(r', s, es[1..], e.write, like, maxSize);
        assert WithoutCleanups(es) == WithoutCleanups(es[1..]);
      } else {
        SameReplies(r, s, e, like, maxSize);
        StaysAlike(r, s, e, like, maxSize);
        var rest := WithoutCleanups(es[1..]);
        CleanupIsUnobservable(r', After(s, e, like, maxSize), es[1..], e.write, like, maxSize);
        assert WithoutCleanups(es) == [e] + rest && ([e] + rest)[1..] == rest;
      }
    }
  }

  /** The count DeleteByPrefix returns is the exception: a clean-up before it changes it exactly when a match had expired. */
  lemma DeletedCountExact(rows: Table, prefix: string, now: nat, like: Like, maxSize: int)
    requires prefix != ""
    ensures var delete := Event(DeleteByPrefix(prefix), now, now, now);
            ReplyTo(After(rows, Event(Cleanup, now, now, now), like, maxSize), delete, like, maxSize)
            == ReplyTo(rows, delete, like, maxSize)
            <==> Matching(rows, prefix, like) !! Expired(rows, now)
  {
    var all, expired := Matching(rows, prefix, like), Expired(rows, now);
    assert Matching(rows - expired, prefix, like) == all - expired;
    RemovingCounts(all, expired);
  }

  lemma RemovingCounts(all: set<string>, gone: set<string>)
    ensures |all - gone| == |all| <==> all !! gone
  {
    assert all == (all - gone) + all * gone;
    assert |all| == |all - gone| + |all * gone|;
  }

  /** For one: an expired row counts until it is cleaned up. */
  lemma DeletedCountIsObservable(like: Like)
    requires like("a", "a")
    ensures var rows := map["a" := Row([1], 1, Some(5))];
            var delete := Event(DeleteByPrefix("a"), 9, 9, 9);
            && ReplyTo(rows, delete, like, 10) == Deleted(1)
            && ReplyTo(After(rows, Event(Cleanup, 9, 9, 9), like, 10), delete, like, 10) == Deleted(0)
  {
    var rows := map["a" := Row([1], 1, Some(5))];
    assert Matching(rows, "a", like) == {"a"};
    assert rows - Expired(rows, 9) == map[];
    assert Matching(map[], "a", like) == {};
  }

  // ----- The quota -----

  /** A quota too large for a signed 64-bit integer is negative, and then only empty values are accepted. */
  ghost predicate WithinQuota(rows: Table, now: nat, maxSize: int) {
    Used(rows, now) <= if maxSize < 0 then 0 else maxSize
  }

  lemma UsedNonNegative(rows: Table, now: nat)
    ensures Used(rows, now) >= 0
  {
    SumNonNegative(Sizes(LiveView(rows, now)));
  }

  lemma UsedShrinks(rows: Table, gone: set<string>, now: nat, later: nat)
    requires now <= later
    ensures Used(rows - gone, later) <= Used(rows, now)
  {
    var m := Sizes(LiveView(rows, now));
    var dropped := m.Keys - LiveView(rows - gone, later).Keys;
    assert Sizes(LiveView(rows - gone, later)) == m - dropped;
    SumSubMap(m, dropped);
  }

  /** The live size without one key, plus that key's. */
  lemma UsedSplits(rows: Table, key: string, now: nat)
    ensures Used(rows, now) == Used(rows - {key}, now) + OldSize(rows, key, now)
  {
    var m := Sizes(LiveView(rows, now));
    assert Sizes(LiveView(rows - {key}, now)) == m - {key};
    if key in m {
      SumRemove(m, key);
    } else {
      assert m - {key} == m;
    }
  }

  lemma UsedAfterUpsert(rows: Table, key: string, value: Bytes, ttl: nat, write: nat)
    ensures Used(Upsert(rows, key, value, ttl, write), write) == Used(rows - {key}, write) + |value|
  {
    var t := Upsert(rows, key, value, ttl, write);
    UsedSplits(t, key, write);
    assert t - {key} == rows - {key};
  }

  /** The key's row is counted as replaceable at the first reading, but no longer as used at the second. */
  predicate ExpiresMeanwhile(rows: Table, key: string, read: nat, check: nat) {
    key in rows && rows[key].size > 0 && Live(rows[key], read) && !Live(rows[key], check)
  }

  lemma SetKeepsQuota(rows: Table, key: string, value: Bytes, ttl: nat, read: nat, check: nat, write: nat, maxSize: int)
    requires read <= check <= write && WithinQuota(rows, read, maxSize)
    requires SetReply(rows, key, value, read, check, maxSize).Done?
    requires !ExpiresMeanwhile(rows, key, read, check)
    ensures WithinQuota(Upsert(rows, key, value, ttl, write), write, maxSize)
  {
    UsedAfterUpsert(rows, key, value, ttl, write);
    if |value| - OldSize(rows, key, read) <= 0 {
      UsedSplits(rows, key, read);
      UsedShrinks(rows - {key}, {}, read, write);
      assert (rows - {key}) - {} == rows - {key};
    } else {
      UsedSplits(rows, key, check);
      UsedNonNegative(rows, check);
      UsedShrinks(rows - {key}, {}, check, write);
      assert (rows - {key}) - {} == rows - {key};
    }
  }

  /** An accepted Set overshoots by at most the size of the value that expired meanwhile. */
  lemma OvershootIsBounded(rows: Table, key: string, value: Bytes, ttl: nat, read: nat, check: nat, write: nat, maxSize: int)
    requires read <= check <= write && WithinQuota(rows, read, maxSize)
    requires SetReply(rows, key, value, read, check, maxSize).Done?
    ensures Used(Upsert(rows, key, value, ttl, write), write)
            <= (if maxSize < 0 then 0 else maxSize)
               + if ExpiresMeanwhile(rows, key, read, check) then rows[key].size else 0
  {
    if ExpiresMeanwhile(rows, key, read, check) {
      UsedAfterUpsert(rows, key, value, ttl, write);
      UsedSplits(rows, key, check);
      UsedSplits(rows, key, read);
      UsedShrinks(rows - {key}, {}, check, write);
      UsedShrinks(rows - {key}, {}, read, write);
      assert (rows - {key}) - {} == rows - {key};
    } else {
      SetKeepsQuota(rows, key, value, ttl, read, check, write, maxSize);
    }
  }

  /** Whether every Set that is accepted on top of this row keeps the quota. */
  ghost predicate QuotaIsSafe(key: string, row: Row, read: nat, check: nat, write: nat, maxSize: int) {
    forall rows: Table, value: Bytes, ttl: nat ::
      key in rows && rows[key] == row && WithinQuota(rows, read, maxSize)
      && SetReply(rows, key, value, read, check, maxSize).Done? ==>
        WithinQuota(Upsert(rows, key, value, ttl, write), write, maxSize)
  }

  function Zeros(n: nat): Bytes {
    seq(n, _ => 0)
  }

  /** The quota can be overrun exactly when the value being replaced expires between the first two readings. */
  lemma QuotaExact(key: string, row: Row, read: nat, check: nat, write: nat, maxSize: int)
    requires 0 < |key| <= MAX_KEY_LENGTH && read <= check <= write
    ensures QuotaIsSafe(key, row, read, check, write, maxSize) <==>
            !(0 < row.size <= maxSize && Live(row, read) && !Live(row, check))
  {
    if 0 < row.size <= maxSize && Live(row, read) && !Live(row, check) {
      var rows: Table := map[key := row];
      var value := Zeros(maxSize + row.size);
      OnlyRow(key, row, read);
      OnlyRow(key, row, check);
      UsedAfterUpsert(rows, key, value, 0, write);
      UsedNonNegative(rows - {key}, write);
      assert SetReply(rows, key, value, read, check, maxSize).Done?;
      assert !WithinQuota(Upsert(rows, key, value, 0, write), write, maxSize);
    } else {
      forall rows: Table, value: Bytes, ttl: nat
        | key in rows && rows[key] == row && WithinQuota(rows, read, maxSize)
          && SetReply(rows, key, value, read, check, maxSize).Done?
        ensures WithinQuota(Upsert(rows, key, value, ttl, write), write, maxSize)
      {
        UsedSplits(rows, key, read);
        UsedNonNegative(rows - {key}, read);
        SetKeepsQuota(rows, key, value, ttl, read, check, write, maxSize);
      }
    }
  }

  lemma OnlyRow(key: string, row: Row, now: nat)
    ensures Used(map[key := row], now) == if Live(row, now) then row.size else 0
  {
    var rows: Table := map[key := row];
    UsedSplits(rows, key, now);
    assert LiveView(rows - {key}, now) == map[];
    assert Sizes(map[]) == map[];
  }

  /** No Set of the run replaces a value that expires between its first two readings, as none does with one reading. */
  ghost predicate NoneExpiresMeanwhile(rows: Table, es: seq<Event>, like: Like, maxSize: int)
    decreases |es|
  {
    es == [] ||
    (var e := es[0];
     && (e.op.Set? || e.op.SetWithTTL? ==> !ExpiresMeanwhile(rows, e.op.key, e.read, e.check))
     && NoneExpiresMeanwhile(After(rows, e, like, maxSize), es[1..], like, maxSize))
  }

  lemma {:induction false} OneReadingSuffices(rows: Table, es: seq<Event>, like: Like, maxSize: int)
    requires forall e :: e in es ==> e.read == e.check
    ensures NoneExpiresMeanwhile(rows, es, like, maxSize)
    decreases |es|
  {
    if es != [] {
      assert es[0] in es;
      OneReadingSuffices(After(rows, es[0], like, maxSize), es[1..], like, maxSize);
    }
  }

  lemma StepKeepsQuota(rows: Table, e: Event, like: Like, maxSize: int)
    requires e.read <= e.check <= e.write && WithinQuota(rows, e.read, maxSize)
    requires e.op.Set? || e.op.SetWithTTL? ==> !ExpiresMeanwhile(rows, e.op.key, e.read, e.check)
    ensures WithinQuota(After(rows, e, like, maxSize), e.write, maxSize)
  {
    var t := After(rows, e, like, maxSize);
    if t == rows {
      UsedShrinks(rows, {}, e.read, e.write);
      assert rows - {} == rows;
    } else if e.op.Set? {
      SetKeepsQuota(rows, e.op.key, e.op.value, 0, e.read, e.check, e.write, maxSize);
    } else if e.op.SetWithTTL? {
      SetKeepsQuota(rows, e.op.key, e.op.value, e.op.ttl, e.read, e.check, e.write, maxSize);
    } else {
      var gone := if e.op.Delete? then {e.op.key}
                  else if e.op.DeleteByPrefix? then Matching(rows, e.op.prefix, like)
                  else Expired(rows, e.read);
      UsedShrinks(rows, gone, e.read, e.write);
    }
  }

  ghost function EndOf(es: seq<Event>, from: nat): nat {
    if es == [] then from else es[|es| - 1].write
  }

  /** Whatever is done in whatever order, the live size never exceeds the quota, then or at any later time. */
  lemma {:induction false} QuotaHolds(rows: Table, es: seq<Event>, from: nat, now: nat, like: Like, maxSize: int)
    requires InOrder(es, from) && WithinQuota(rows, from, maxSize) && EndOf(es, from) <= now
    requires NoneExpiresMeanwhile(rows, es, like, maxSize)
    ensures WithinQuota(Exec(rows, es, like, maxSize), now, maxSize)
    decreases |es|
  {
    if es == [] {
      UsedShrinks(rows, {}, from, now);
      assert rows - {} == rows;
    } else {
      var e := es[0];
      UsedShrinks(rows, {}, from, e.read);
      assert rows - {} == rows;
      StepKeepsQuota(rows, e, like, maxSize);
      QuotaHolds(After(rows, e, like, maxSize), es[1..], e.write, now, like, maxSize);
    }
  }

  lemma QuotaHoldsFromEmpty(es: seq<Event>, now: nat, like: Like, maxSize: int)
    requires InOrder(es, 0) && EndOf(es, 0) <= now && forall e :: e in es ==> e.read == e.check
    ensures WithinQuota(Exec(map[], es, like, maxSize), now, maxSize)
  {
    OneReadingSuffices(map[], es, like, maxSize);
    assert LiveView(map[], 0) == map[] && Sizes(map[]) == map[];
    QuotaHolds(map[], es, 0, now, like, maxSize);
  }
}
