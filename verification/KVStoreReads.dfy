/** What is read back: the last write to a key is what every later reading finds, until it expires or is deleted. */
module KVStoreReads {
  import opened Wrappers
  import opened MapSums
  import opened KVStore

  /** A value written with this ttl (0 for none) at this time is still there. */
  predicate Lasts(ttl: int, written: nat, now: nat) {
    ttl <= 0 || now <= written + ttl
  }

  /** A write is read back until it expires, and changes no other key. */
  lemma WriteThenRead(rows: Table, key: string, value: Bytes, ttl: nat, written: nat, k: string, now: nat)
    ensures Read(Upsert(rows, key, value, ttl, written), k, now)
            == if k != key then Read(rows, k, now) else if Lasts(ttl, written, now) then Some(value) else None
  {
  }

  predicate IsWrite(op: Operation) {
    op.Set? || op.SetWithTTL?
  }

  function TTLOf(op: Operation): int
    requires IsWrite(op)
  {
    if op.Set? then 0 else op.ttl
  }

  /** The operation may change what the key reads. */
  predicate Touches(op: Operation, key: string, like: Like) {
    || (IsWrite(op) && op.key == key)
    || (op.Delete? && op.key == key)
    || (op.DeleteByPrefix? && like(op.prefix, key))
  }

  lemma AcceptedWrite(rows: Table, e: Event, k: string, now: nat, like: Like, maxSize: int)
    requires IsWrite(e.op) && ReplyTo(rows, e, like, maxSize) == Done
    ensures Read(After(rows, e, like, maxSize), k, now)
            == if k != e.op.key then Read(rows, k, now)
               else if Lasts(TTLOf(e.op), e.write, now) then Some(e.op.value) else None
  {
    if e.op.SetWithTTL? {
      WriteThenRead(rows, e.op.key, e.op.value, e.op.ttl, e.write, k, now);
    } else {
      WriteThenRead(rows, e.op.key, e.op.value, 0, e.write, k, now);
    }
  }

  /** Deleting a key, or the keys a prefix matches, leaves nothing to read there, and everything elsewhere. */
  lemma DeletedIsGone(rows: Table, e: Event, k: string, now: nat, like: Like, maxSize: int)
    requires e.op.Delete? || (e.op.DeleteByPrefix? && e.op.prefix != "")
    ensures Read(After(rows, e, like, maxSize), k, now) == if Touches(e.op, k, like) then None else Read(rows, k, now)
  {
  }

  /** Refused, reading and cleaning-up operations change nothing that can be read from then on. */
  lemma OthersReadAsBefore(rows: Table, e: Event, k: string, now: nat, like: Like, maxSize: int)
    requires !Touches(e.op, k, like) || ReplyTo(rows, e, like, maxSize).Refused?
    requires e.read <= now
    ensures Read(After(rows, e, like, maxSize), k, now) == Read(rows, k, now)
  {
    if IsWrite(e.op) && ReplyTo(rows, e, like, maxSize) == Done {
      AcceptedWrite(rows, e, k, now, like, maxSize);
    }
  }

  /** Nothing touches the key in the run. */
  predicate Untouched(es: seq<Event>, key: string, like: Like) {
    forall i :: 0 <= i < |es| ==> !Touches(es[i].op, key, like)
  }

  lemma {:induction false} UntouchedReadsTheSame(rows: Table, es: seq<Event>, from: nat, k: string, now: nat, like: Like, maxSize: int)
    requires InOrder(es, from) && EndOf(es, from) <= now && Untouched(es, k, like)
    ensures from <= now && Read(Exec(rows, es, like, maxSize), k, now) == Read(rows, k, now)
    decreases |es|
  {
    if es != [] {
      UntouchedReadsTheSame(After(rows, es[0], like, maxSize), es[1..], es[0].write, k, now, like, maxSize);
      OthersReadAsBefore(rows, es[0], k, now, like, maxSize);
    }
  }

  /** After any further operations that leave the key alone, clean-ups included, its last accepted write is read back. */
  lemma LastWriteIsRead(rows: Table, e: Event, es: seq<Event>, now: nat, like: Like, maxSize: int)
    requires IsWrite(e.op) && ReplyTo(rows, e, like, maxSize) == Done
    requires InOrder(es, e.write) && EndOf(es, e.write) <= now && Untouched(es, e.op.key, like)
    ensures Read(Exec(After(rows, e, like, maxSize), es, like, maxSize), e.op.key, now)
            == if Lasts(TTLOf(e.op), e.write, now) then Some(e.op.value) else None
  {
    UntouchedReadsTheSame(After(rows, e, like, maxSize), es, e.write, e.op.key, now, like, maxSize);
    AcceptedWrite(rows, e, e.op.key, now, like, maxSize);
  }

  /** And after its deletion, nothing. */
  lemma DeletionIsRead(rows: Table, e: Event, key: string, es: seq<Event>, now: nat, like: Like, maxSize: int)
    requires e.op.Delete? || (e.op.DeleteByPrefix? && e.op.prefix != "")
    requires Touches(e.op, key, like)
    requires InOrder(es, e.write) && EndOf(es, e.write) <= now && Untouched(es, key, like)
    ensures Read(Exec(After(rows, e, like, maxSize), es, like, maxSize), key, now) == None
  {
    UntouchedReadsTheSame(After(rows, e, like, maxSize), es, e.write, key, now, like, maxSize);
    DeletedIsGone(rows, e, key, now, like, maxSize);
  }

  // ----- The replies -----

  /** Every reading operation tells what Get would tell of each key. */
  lemma ReadersAgree(rows: Table, key: string, keys: seq<string>, prefix: string, e: Event, like: Like, maxSize: int)
    ensures e.op == Get(key) ==> ReplyTo(rows, e, like, maxSize) == Found(Read(rows, key, e.read))
    ensures e.op == Has(key) ==> ReplyTo(rows, e, like, maxSize) == Present(Read(rows, key, e.read) != None)
    ensures e.op == List(prefix) ==>
              && ReplyTo(rows, e, like, maxSize).Keys?
              && (key in ReplyTo(rows, e, like, maxSize).keys
                  <==> Read(rows, key, e.read) != None && (prefix == "" || like(prefix, key)))
    ensures e.op == GetMany(keys) ==>
              && ReplyTo(rows, e, like, maxSize).Values?
              && var values := ReplyTo(rows, e, like, maxSize).values;
                 if key in keys && Read(rows, key, e.read) != None
                 then key in values && Some(values[key]) == Read(rows, key, e.read)
                 else key !in values
  {
  }

  /** A prefix deletion needs a prefix, and counts the rows it matches. */
  lemma PrefixDeletionCounts(rows: Table, e: Event, like: Like, maxSize: int)
    requires e.op.DeleteByPrefix?
    ensures e.op.prefix == "" ==> ReplyTo(rows, e, like, maxSize) == Refused(EmptyPrefix) && After(rows, e, like, maxSize) == rows
    ensures e.op.prefix != "" ==>
              ReplyTo(rows, e, like, maxSize) == Deleted(|rows.Keys| - |After(rows, e, like, maxSize).Keys|)
  {
    var gone := Matching(rows, e.op.prefix, like);
    assert rows.Keys == (rows - gone).Keys + gone;
    assert |rows.Keys| == |(rows - gone).Keys| + |gone|;
  }

  /** What is observed of a run without clean-ups: every reply, in order, given by the table at that moment. */
  lemma {:induction false} ObservedExact(rows: Table, es: seq<Event>, k: nat, like: Like, maxSize: int)
    requires k < |es| && forall i :: 0 <= i < |es| ==> !es[i].op.Cleanup?
    ensures var seen := Observed(rows, es, like, maxSize);
            |seen| == |es| && seen[k] == Seen(ReplyTo(Exec(rows, es[..k], like, maxSize), es[k], like, maxSize))
    decreases |es|
  {
    var next := After(rows, es[0], like, maxSize);
    if |es| == 1 {
      assert Observed(next, es[1..], like, maxSize) == [];
    } else {
      ObservedExact(next, es[1..], if k == 0 then 0 else k - 1, like, maxSize);
      if k > 0 {
        assert es[..k][0] == es[0] && es[..k][1..] == es[1..][..k - 1];
      }
    }
  }

  /** The recorded sizes are the lengths of the values. */
  predicate Sized(rows: Table) {
    forall k :: k in rows ==> rows[k].size == |rows[k].value|
  }

  lemma {:induction false} RunsStaySized(rows: Table, es: seq<Event>, like: Like, maxSize: int)
    requires Sized(rows)
    ensures Sized(Exec(rows, es, like, maxSize))
    decreases |es|
  {
    if es != [] {
      RunsStaySized(After(rows, es[0], like, maxSize), es[1..], like, maxSize);
    }
  }

  /** The bytes that can be read under the key. */
  function Length(rows: Table, key: string, now: nat): nat {
    match Read(rows, key, now)
    case None => 0
    case Some(value) => |value|
  }

  /** Why a write is refused: its key, its ttl, or growth by more bytes than are left at the second reading. */
  lemma RefusedExact(rows: Table, e: Event, like: Like, maxSize: int)
    requires Sized(rows) && IsWrite(e.op)
    ensures var r, growth := ReplyTo(rows, e, like, maxSize), |e.op.value| - Length(rows, e.op.key, e.read);
            r == if e.op.SetWithTTL? && e.op.ttl < 1 then Refused(BadTTL)
                 else if |e.op.key| == 0 then Refused(EmptyKey)
                 else if |e.op.key| > 256 then Refused(KeyTooLong)
                 else if growth > 0 && Used(rows, e.check) > maxSize - growth then Refused(OverLimit)
                 else Done
  {
  }

  /** Used adds up the bytes that can be read: nothing for an empty view, and key by key. */
  lemma UsedByKey(rows: Table, key: string, now: nat)
    requires Sized(rows)
    ensures (forall k :: Read(rows, k, now) == None) ==> Used(rows, now) == 0
    ensures Used(rows, now) == Length(rows, key, now) + Used(rows - {key}, now)
  {
    var m := Sizes(LiveView(rows, now));
    if key in m {
      SumRemove(m, key);
    }
    assert Sizes(LiveView(rows - {key}, now)) == m - {key};
    assert key !in m ==> m - {key} == m;
    if forall k :: Read(rows, k, now) == None {
      NothingLive(rows, now);
    }
  }

  lemma NothingLive(rows: Table, now: nat)
    requires forall k :: Read(rows, k, now) == None
    ensures Used(rows, now) == 0
  {
    forall k ensures k !in LiveView(rows, now) {
      assert Read(rows, k, now) == None;
    }
    assert LiveView(rows, now) == map[];
    assert Sizes(LiveView(rows, now)) == map[];
  }
}
