/**
 The key/value store with lazy expiry. An entry whose deadline has passed is logically missing;
 entries are physically removed only when something happens to touch them. Clocks are read by the
 methods in the source; here each reading is a parameter.
 */
module Store {
  import opened Bytes
  import opened Options

  datatype Entry<+V> = Entry(value: V, expiresAt: Option<int>)

  type Table<V> = map<Bytes, Entry<V>>

  predicate Live<V>(entry: Entry<V>, now: int) {
    entry.expiresAt.None? || entry.expiresAt.value > now
  }

  /** What can be seen of a table at a time: its live entries. */
  function View<V>(table: Table<V>, now: int): Table<V> {
    map k | k in table && Live(table[k], now) :: table[k]
  }

  function Dead<V>(table: Table<V>, now: int): set<Bytes> {
    set k | k in table && !Live(table[k], now)
  }

  /** The two tables look the same now and at any later time. */
  ghost predicate SameFrom<V(!new)>(a: Table<V>, b: Table<V>, now: int) {
    View(a, now) == View(b, now)
  }

  /** Looking the same is never lost by waiting. */
  lemma SameLater<V(!new)>(a: Table<V>, b: Table<V>, now: int, later: int)
    requires SameFrom(a, b, now) && now <= later
    ensures SameFrom(a, b, later)
  {
    forall k
      ensures k in View(a, later) <==> k in View(b, later)
      ensures k in View(a, later) ==> View(a, later)[k] == View(b, later)[k]
    {
      assert k in View(a, later) ==> k in View(a, now);
      assert k in View(b, later) ==> k in View(b, now);
      assert k in View(a, now) ==> View(a, now)[k] == View(b, now)[k] && a[k] == b[k];
    }
  }

  // ----- Write generations

  /** What moves the write generations: a write to one key, or a flush of them all. */
  datatype Mark = Touched(key: Bytes) | Flushed

  type Generations = map<Bytes, nat>

  function Count(generations: Generations, key: Bytes): nat {
    if key in generations then generations[key] else 0
  }

  function AfterMark(generations: Generations, mark: Mark): Generations {
    match mark
    case Touched(key) => generations[key := Count(generations, key) + 1]
    case Flushed => map[]
  }

  function AfterMarks(generations: Generations, marks: seq<Mark>): Generations {
    if marks == [] then generations
    else AfterMark(AfterMarks(generations, marks[..|marks| - 1]), marks[|marks| - 1])
  }

  /** The writes to `key` after the last flush; all of them when there is none. */
  function SinceFlush(marks: seq<Mark>, key: Bytes): nat {
    if marks == [] || marks[|marks| - 1] == Flushed then 0
    else SinceFlush(marks[..|marks| - 1], key) + (if marks[|marks| - 1] == Touched(key) then 1 else 0)
  }

  /** A generation counts the writes since the last flush, on top of what it was if there is none. */
  lemma {:induction false} GenerationCounts(generations: Generations, marks: seq<Mark>, key: Bytes)
    ensures Count(AfterMarks(generations, marks), key) ==
            SinceFlush(marks, key) + (if Flushed in marks then 0 else Count(generations, key))
    ensures Flushed !in marks ==> (SinceFlush(marks, key) == 0 <==> Touched(key) !in marks)
  {
    if marks != [] {
      GenerationCounts(generations, marks[..|marks| - 1], key);
      assert marks == marks[..|marks| - 1] + [marks[|marks| - 1]];
    }
  }

  lemma {:induction false} MarksJoin(generations: Generations, p: seq<Mark>, q: seq<Mark>)
    ensures AfterMarks(generations, p + q) == AfterMarks(AfterMarks(generations, p), q)
  {
    if q == [] {
      assert p + q == p;
    } else {
      MarksJoin(generations, p, q[..|q| - 1]);
      assert (p + q)[..|p + q| - 1] == p + q[..|q| - 1];
    }
  }

  // ----- Operations

  const SECOND: int := 1_000_000_000

  /** The clock readings of one call: monotonic, monotonic again, and wall. */
  datatype Clock = Clock(now: int, again: int, wall: int)

  datatype Op<V> =
    | Get(key: Bytes)
    | Contains(key: Bytes)
    | Len
    | Keys
    | Put(key: Bytes, value: V)
    | Set(key: Bytes, value: V, deadline: Option<int>, keepTtl: bool)
    | Remove(key: Bytes)
    | Expire(key: Bytes, seconds: int)
    | ExpireAt(key: Bytes, wallDeadline: int)
    | Persist(key: Bytes)
    | WallExpiry(key: Bytes)
    | Sweep

  datatype Result<V> = Value(value: Option<V>) | Flag(b: bool) | Number(n: int) | Names(keys: set<Bytes>) | Unit

  datatype Outcome<V> = Outcome(result: Result<V>, table: Table<V>)

  /** A plain timed map: `m` holds only live entries, and no operation ever sees an expired one. */
  function Timed<V>(op: Op<V>, c: Clock, m: Table<V>): Outcome<V> {
    match op
    case Get(key) => Outcome(Value(if key in m then Some(m[key].value) else None), m)
    case Contains(key) => Outcome(Flag(key in m), m)
    case Len => Outcome(Number(|m|), m)
    case Keys => Outcome(Names(m.Keys), m)
    case Put(key, value) => Outcome(Unit, m[key := Entry(value, None)])
    case Set(key, value, deadline, keepTtl) =>
      var expiresAt :=
        if keepTtl && key in m then m[key].expiresAt
        else if deadline.Some? then Some(c.now + (deadline.value - c.wall))
        else None;
      Outcome(Unit, m[key := Entry(value, expiresAt)])
    case Remove(key) => Outcome(Number(if key in m then 1 else 0), m - {key})
    case Expire(key, seconds) =>
      if key !in m then Outcome(Number(0), m)
      else if seconds <= 0 then Outcome(Number(1), m - {key})
      else Outcome(Number(1), m[key := m[key].(expiresAt := Some(c.again + seconds * SECOND))])
    case ExpireAt(key, deadline) =>
      if key !in m then Outcome(Number(0), m)
      else if deadline <= c.wall then Outcome(Number(1), m - {key})
      else Outcome(Number(1), m[key := m[key].(expiresAt := Some(c.now + (deadline - c.wall)))])
    case Persist(key) =>
      if key !in m || m[key].expiresAt.None? then Outcome(Number(0), m)
      else Outcome(Number(1), m[key := m[key].(expiresAt := None)])
    case WallExpiry(key) =>
      if key !in m then Outcome(Number(-2), m)
      else if m[key].expiresAt.None? then Outcome(Number(-1), m)
      else Outcome(Number(c.wall + (m[key].expiresAt.value - c.now)), m)
    case Sweep => Outcome(Unit, m)
  }

  /** A call on a table answers like the timed map, and leaves a table that looks like the timed map's. */
  ghost predicate Behaves<V(!new)>(op: Op<V>, c: Clock, before: Table<V>, result: Result<V>, after: Table<V>) {
    var spec := Timed(op, c, View(before, c.now));
    result == spec.result && SameFrom(after, spec.table, c.now)
  }

  class Data<V(!new)> {
    var storage: Table<V>
    var generations: Generations
    var epoch: nat

    constructor ()
      ensures storage == map[] && generations == map[] && epoch == 0
    {
      storage, generations, epoch := map[], map[], 0;
    }

    method GetValue(key: Bytes, c: Clock) returns (value: Option<V>)
      modifies this`storage
      ensures Behaves(Get(key), c, old(storage), Value(value), storage)
    {
      if key !in storage {
        return None;
      }
      if !Live(storage[key], c.now) {
        PurgeKey(key);
        return None;
      }
      value := Some(storage[key].value);
    }

    method GetItem(key: Bytes, c: Clock) returns (value: Option<V>)
      ensures Behaves(Get(key), c, storage, Value(value), storage)
    {
      if key !in storage || !Live(storage[key], c.now) {
        return None;
      }
      value := Some(storage[key].value);
    }

    method ContainsKey(key: Bytes, c: Clock) returns (present: bool)
      ensures Behaves(Contains(key), c, storage, Flag(present), storage)
    {
      present := key in storage && Live(storage[key], c.now);
    }

    method PurgeKey(key: Bytes)
      requires key in storage
      modifies this`storage
      ensures storage == old(storage) - {key}
    {
      storage := storage - {key};
    }

    /** Deletes every expired entry: the dead keys are listed first, then purged one by one. */
    method SweepExpired(now: int) returns (swept: nat)
      modifies this`storage
      ensures storage == View(old(storage), now)
      ensures swept == |Dead(old(storage), now)|
    {
      var dead := Dead(storage, now);
      swept := |dead|;
      var left := dead;
      while left != {}
        invariant left <= dead
        invariant forall k :: k in storage <==> k in old(storage) && (k in dead ==> k in left)
        invariant forall k :: k in storage ==> storage[k] == old(storage)[k]
        decreases left
      {
        var key :| key in left;
        PurgeKey(key);
        left := left - {key};
      }
    }

    method Iterate(c: Clock) returns (keys: set<Bytes>)
      modifies this`storage
      ensures Behaves(Keys, c, old(storage), Names(keys), storage)
    {
      var _ := SweepExpired(c.now);
      keys := storage.Keys;
    }

    method Length(c: Clock) returns (n: nat)
      modifies this`storage
      ensures Behaves(Len, c, old(storage), Number(n), storage)
    {
      var _ := SweepExpired(c.now);
      n := |storage|;
    }

    method SetValue(key: Bytes, value: V, deadline: Option<int>, keepTtl: bool, c: Clock)
      modifies this`storage
      ensures Behaves(Set(key, value, deadline, keepTtl), c, old(storage), Unit, storage)
    {
      var expiresAt: Option<int>;
      if keepTtl && key in storage && Live(storage[key], c.now) {
        expiresAt := storage[key].expiresAt;
      } else if deadline.Some? {
        expiresAt := Some(c.now + (deadline.value - c.wall));
      } else {
        expiresAt := None;
      }
      storage := storage[key := Entry(value, expiresAt)];
    }

    method SetItem(key: Bytes, value: V, ghost c: Clock)
      modifies this`storage
      ensures Behaves(Put(key, value), c, old(storage), Unit, storage)
    {
      storage := storage[key := Entry(value, None)];
    }

    method Delete(key: Bytes, c: Clock) returns (deleted: int)
      modifies this`storage
      ensures Behaves(Remove(key), c, old(storage), Number(deleted), storage)
    {
      if key !in storage {
        return 0;
      }
      var entry := storage[key];
      storage := storage - {key};
      deleted := if Live(entry, c.now) then 1 else 0;
    }

    /** The source reads the monotonic clock twice: once to test the entry, once to set its deadline. */
    method ExpireKey(key: Bytes, seconds: int, c: Clock) returns (done: int)
      modifies this`storage
      ensures Behaves(Expire(key, seconds), c, old(storage), Number(done), storage)
    {
      if key !in storage {
        return 0;
      }
      if !Live(storage[key], c.now) {
        PurgeKey(key);
        return 0;
      }
      if seconds <= 0 {
        storage := storage - {key};
        return 1;
      }
      storage := storage[key := storage[key].(expiresAt := Some(c.again + seconds * SECOND))];
      done := 1;
    }

    method ExpireKeyAt(key: Bytes, deadline: int, c: Clock) returns (done: int)
      modifies this`storage
      ensures Behaves(ExpireAt(key, deadline), c, old(storage), Number(done), storage)
    {
      if key !in storage {
        return 0;
      }
      if !Live(storage[key], c.now) {
        PurgeKey(key);
        return 0;
      }
      var expiresAt := c.now + (deadline - c.wall);
      if expiresAt <= c.now {
        storage := storage - {key};
        return 1;
      }
      storage := storage[key := storage[key].(expiresAt := Some(expiresAt))];
      done := 1;
    }

    method PersistKey(key: Bytes, c: Clock) returns (done: int)
      modifies this`storage
      ensures Behaves(Persist(key), c, old(storage), Number(done), storage)
    {
      if key !in storage {
        return 0;
      }
      if !Live(storage[key], c.now) {
        storage := storage - {key};
        return 0;
      }
      if storage[key].expiresAt.None? {
        return 0;
      }
      storage := storage[key := storage[key].(expiresAt := None)];
      done := 1;
    }

    method WallExpiryOf(key: Bytes, c: Clock) returns (wall: int)
      modifies this`storage
      ensures Behaves(WallExpiry(key), c, old(storage), Number(wall), storage)
    {
      if key !in storage {
        return -2;
      }
      var expiresAt := storage[key].expiresAt;
      if expiresAt.None? {
        return -1;
      }
      if expiresAt.value <= c.now {
        PurgeKey(key);
        return -2;
      }
      wall := c.wall + (expiresAt.value - c.now);
    }

    method ClearAll()
      modifies this
      ensures storage == map[] && generations == AfterMark(old(generations), Flushed) && epoch == old(epoch) + 1
    {
      storage, generations, epoch := map[], map[], epoch + 1;
    }

    method Touch(key: Bytes)
      modifies this`generations
      ensures generations == AfterMark(old(generations), Touched(key))
      ensures Generation(key) == old(Generation(key)) + 1
      ensures forall k :: k != key ==> Generation(k) == old(Generation(k))
    {
      generations := generations[key := Generation(key) + 1];
    }

    function Generation(key: Bytes): nat
      reads this`generations
    {
      Count(generations, key)
    }
  }

  // ----- Whole runs

  /** One call of a run, with its clock and what it answered. */
  datatype Call<V> = Call(op: Op<V>, clock: Clock, result: Result<V>)

  /** A run of a store: any tables whatever between the calls, as long as every call behaves; time never goes back. */
  ghost predicate IsRun<V(!new)>(tables: seq<Table<V>>, calls: seq<Call<V>>) {
    && |tables| == |calls| + 1
    && (forall i :: 0 <= i < |calls| ==>
          Behaves(calls[i].op, calls[i].clock, tables[i], calls[i].result, tables[i + 1]))
    && (forall i :: 0 < i < |calls| ==> calls[i - 1].clock.now <= calls[i].clock.now)
  }

  /** The timed map after the first `n` calls, from what was live at the first. */
  function TimedAfter<V>(m: Table<V>, calls: seq<Call<V>>, n: nat): Table<V>
    requires n <= |calls|
  {
    if n == 0 then m
    else Timed(calls[n - 1].op, calls[n - 1].clock, View(TimedAfter(m, calls, n - 1), calls[n - 1].clock.now)).table
  }

  /**
   A lazily purging store refines the timed map over every run: each call answers what the timed map
   answers, and after each call the two look the same from then on, whatever expired entries linger.
   */
  lemma {:induction false} LazyRefinesTimedMap<V(!new)>(tables: seq<Table<V>>, calls: seq<Call<V>>, m: Table<V>, n: nat)
    requires IsRun(tables, calls) && n < |calls|
    requires SameFrom(tables[0], m, calls[0].clock.now)
    ensures SameFrom(tables[n], TimedAfter(m, calls, n), calls[n].clock.now)
    ensures calls[n].result ==
            Timed(calls[n].op, calls[n].clock, View(TimedAfter(m, calls, n), calls[n].clock.now)).result
    ensures SameFrom(tables[n + 1], TimedAfter(m, calls, n + 1), calls[n].clock.now)
  {
    if n > 0 {
      LazyRefinesTimedMap(tables, calls, m, n - 1);
      SameLater(tables[n], TimedAfter(m, calls, n), calls[n - 1].clock.now, calls[n].clock.now);
    }
    var call := calls[n];
    assert Behaves(call.op, call.clock, tables[n], call.result, tables[n + 1]);
  }

  /**
   Two stores that look alike stay alike: given the same operations at the same times they answer the
   same, whatever each has or has not purged.
   */
  lemma {:induction false} SameViewSameAnswers<V(!new)>(
      tables: seq<Table<V>>, calls: seq<Call<V>>, tables': seq<Table<V>>, calls': seq<Call<V>>, n: nat)
    requires IsRun(tables, calls) && IsRun(tables', calls') && |calls| == |calls'| && n < |calls|
    requires forall i :: 0 <= i < |calls| ==> calls[i].op == calls'[i].op && calls[i].clock == calls'[i].clock
    requires SameFrom(tables[0], tables'[0], calls[0].clock.now)
    ensures calls[n].result == calls'[n].result
    ensures SameFrom(tables[n + 1], tables'[n + 1], calls[n].clock.now)
  {
    if n > 0 {
      SameViewSameAnswers(tables, calls, tables', calls', n - 1);
      SameLater(tables[n], tables'[n], calls[n - 1].clock.now, calls[n].clock.now);
    }
    var call, call' := calls[n], calls'[n];
    assert Behaves(call.op, call.clock, tables[n], call.result, tables[n + 1]);
    assert Behaves(call'.op, call'.clock, tables'[n], call'.result, tables'[n + 1]);
  }
}
