/**
 What can be seen of a key, and for how long: the store's operations by their effect on later readings.
 Times are on the monotonic clock, in nanoseconds; wall-clock deadlines are as far off as they look at the call.
 */
module Lifetimes {
  import opened Bytes
  import opened Options
  import opened Store

  /** What a reading at time `t` finds under the key. */
  function Seen<V>(table: Table<V>, t: int, key: Bytes): Option<V> {
    if key in View(table, t) then Some(View(table, t)[key].value) else None
  }

  /** From `now` on, all other keys read as they would have. */
  ghost predicate OthersKept<V(!new)>(before: Table<V>, after: Table<V>, now: int, key: Bytes) {
    forall t, k :: now <= t && k != key ==> Seen(after, t, k) == Seen(before, t, k)
  }

  /** From `now` on, the key reads `value` up to the deadline, and nothing from the deadline on. */
  ghost predicate SeenUntil<V(!new)>(table: Table<V>, now: int, key: Bytes, value: V, deadline: int) {
    forall t :: now <= t ==> Seen(table, t, key) == if t < deadline then Some(value) else None
  }

  ghost predicate SeenAlways<V(!new)>(table: Table<V>, now: int, key: Bytes, value: V) {
    forall t :: now <= t ==> Seen(table, t, key) == Some(value)
  }

  ghost predicate SeenNever<V(!new)>(table: Table<V>, now: int, key: Bytes) {
    forall t :: now <= t ==> Seen(table, t, key) == None
  }

  /** From `now` on, every key reads as it would have. */
  ghost predicate AllKept<V(!new)>(before: Table<V>, after: Table<V>, now: int) {
    forall t, k :: now <= t ==> Seen(after, t, k) == Seen(before, t, k)
  }

  lemma SameSeen<V(!new)>(a: Table<V>, b: Table<V>, now: int)
    requires SameFrom(a, b, now)
    ensures AllKept(a, b, now)
  {
    forall t, k | now <= t
      ensures Seen(b, t, k) == Seen(a, t, k)
    {
      SameLater(a, b, now, t);
    }
  }

  lemma BehavesSeen<V(!new)>(op: Op<V>, c: Clock, before: Table<V>, result: Result<V>, after: Table<V>)
    requires Behaves(op, c, before, result, after)
    ensures var spec := Timed(op, c, View(before, c.now));
            && result == spec.result && AllKept(spec.table, after, c.now) && AllKept(before, View(before, c.now), c.now)
  {
    SameSeen(Timed(op, c, View(before, c.now)).table, after, c.now);
  }

  // ----- Readings

  /** A reading answers with what is seen now, and no later reading changes. */
  lemma ReadsWhatIsSeen<V(!new)>(op: Op<V>, c: Clock, before: Table<V>, result: Result<V>, after: Table<V>)
    requires Behaves(op, c, before, result, after)
    requires op.Get? || op.Contains? || op.Len? || op.Keys? || op.Sweep?
    ensures AllKept(before, after, c.now)
    ensures op.Get? ==> result == Value(Seen(before, c.now, op.key))
    ensures op.Contains? ==> result == Flag(Seen(before, c.now, op.key).Some?)
    ensures op.Keys? ==> result.Names? && forall k :: k in result.keys <==> Seen(before, c.now, k).Some?
    ensures op.Len? ==> exists keys: set<Bytes> ::
                          result == Number(|keys|) && forall k :: k in keys <==> Seen(before, c.now, k).Some?
  {
    BehavesSeen(op, c, before, result, after);
    if op.Len? {
      assert forall k :: k in View(before, c.now).Keys <==> Seen(before, c.now, k).Some?;
      assert result == Number(|View(before, c.now).Keys|);
    }
  }

  /** -2 for a key that is not seen, -1 for one that always will be, or else the time at which it stops being seen. */
  lemma WallExpiryTells<V(!new)>(key: Bytes, c: Clock, before: Table<V>, result: Result<V>, after: Table<V>)
    requires Behaves(WallExpiry(key), c, before, result, after)
    ensures AllKept(before, after, c.now) && result.Number?
    ensures Seen(before, c.now, key) == None ==> result.n == -2
    ensures forall value :: Seen(before, c.now, key) == Some(value) ==>
                              if before[key].expiresAt.None? then result.n == -1 && SeenAlways(before, c.now, key, value)
                              else SeenUntil(before, c.now, key, value, c.now + (result.n - c.wall))
  {
    BehavesSeen(WallExpiry(key), c, before, result, after);
  }

  // ----- Writes

  /** A plain set: the new value, for good. */
  lemma PutLasts<V(!new)>(key: Bytes, value: V, c: Clock, before: Table<V>, result: Result<V>, after: Table<V>)
    requires Behaves(Put(key, value), c, before, result, after)
    ensures SeenAlways(after, c.now, key, value) && OthersKept(before, after, c.now, key)
  {
    BehavesSeen(Put(key, value), c, before, result, after);
  }

  /**
   SET: for good when it is given no deadline, up to the deadline when it is given one; and under keep_ttl, on a key
   that is seen, exactly as long as the old value would have been.
   */
  lemma SetLasts<V(!new)>(key: Bytes, value: V, deadline: Option<int>, keepTtl: bool, c: Clock,
                          before: Table<V>, result: Result<V>, after: Table<V>)
    requires Behaves(Set(key, value, deadline, keepTtl), c, before, result, after)
    ensures OthersKept(before, after, c.now, key)
    ensures var kept := keepTtl && Seen(before, c.now, key).Some?;
            && (kept ==> forall t :: c.now <= t ==>
                           Seen(after, t, key) == if Seen(before, t, key).Some? then Some(value) else None)
            && (!kept && deadline.None? ==> SeenAlways(after, c.now, key, value))
            && (!kept && deadline.Some? ==> SeenUntil(after, c.now, key, value, c.now + (deadline.value - c.wall)))
  {
    BehavesSeen(Set(key, value, deadline, keepTtl), c, before, result, after);
  }

  /** A deleted key is never seen again; the answer is whether it was seen. */
  lemma RemoveEnds<V(!new)>(key: Bytes, c: Clock, before: Table<V>, result: Result<V>, after: Table<V>)
    requires Behaves(Remove(key), c, before, result, after)
    ensures SeenNever(after, c.now, key) && OthersKept(before, after, c.now, key)
    ensures result == Number(if Seen(before, c.now, key).Some? then 1 else 0)
  {
    BehavesSeen(Remove(key), c, before, result, after);
  }

  /**
   EXPIRE on a key that is seen: it keeps its value up to `seconds` from the second clock reading, or not a moment
   longer when that is not positive. On any other key: nothing.
   */
  lemma ExpireEnds<V(!new)>(key: Bytes, seconds: int, c: Clock, before: Table<V>, result: Result<V>, after: Table<V>)
    requires Behaves(Expire(key, seconds), c, before, result, after)
    ensures OthersKept(before, after, c.now, key)
    ensures Seen(before, c.now, key) == None ==> result == Number(0) && AllKept(before, after, c.now)
    ensures forall value :: Seen(before, c.now, key) == Some(value) ==>
                              && result == Number(1)
                              && (seconds <= 0 ==> SeenNever(after, c.now, key))
                              && (seconds > 0 ==> SeenUntil(after, c.now, key, value, c.again + seconds * 1_000_000_000))
  {
    BehavesSeen(Expire(key, seconds), c, before, result, after);
  }

  /** The same for a deadline on the wall clock. */
  lemma ExpireAtEnds<V(!new)>(key: Bytes, deadline: int, c: Clock, before: Table<V>, result: Result<V>, after: Table<V>)
    requires Behaves(ExpireAt(key, deadline), c, before, result, after)
    ensures OthersKept(before, after, c.now, key)
    ensures Seen(before, c.now, key) == None ==> result == Number(0) && AllKept(before, after, c.now)
    ensures forall value :: Seen(before, c.now, key) == Some(value) ==>
                              result == Number(1) && SeenUntil(after, c.now, key, value, c.now + (deadline - c.wall))
  {
    BehavesSeen(ExpireAt(key, deadline), c, before, result, after);
  }

  /** PERSIST: a key that is seen keeps its value for good; the answer is whether it would otherwise have gone. */
  lemma PersistLasts<V(!new)>(key: Bytes, c: Clock, before: Table<V>, result: Result<V>, after: Table<V>)
    requires Behaves(Persist(key), c, before, result, after)
    ensures OthersKept(before, after, c.now, key)
    ensures Seen(before, c.now, key) == None ==> result == Number(0) && SeenNever(after, c.now, key)
    ensures forall value :: Seen(before, c.now, key) == Some(value) ==>
                              && SeenAlways(after, c.now, key, value)
                              && (result == Number(0) <==> SeenAlways(before, c.now, key, value))
                              && (result == Number(1) <==> !SeenAlways(before, c.now, key, value))
  {
    BehavesSeen(Persist(key), c, before, result, after);
    if value :| Seen(before, c.now, key) == Some(value) {
      if before[key].expiresAt.Some? {
        assert Seen(before, before[key].expiresAt.value, key) == None;
      }
    }
  }
}
