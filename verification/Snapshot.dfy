/**
 Snapshots: live keys are copied with their deadlines turned into wall-clock time, and turned back
 when they are restored under another monotonic origin. Containers are heap objects that commands
 change in place, so the copy must not share them.
 */
module Snapshot {
  import opened Bytes
  import opened Options
  import opened Store

  /** The contents of a stored container. */
  datatype Contents =
    | HashOf(fields: map<Bytes, Bytes>)
    | SetOf(members: set<Bytes>)
    | ListOf(items: seq<Bytes>)
    | BitsOf(bits: set<nat>)
    | ScoresOf(scores: map<Bytes, real>)

  class Container {
    var contents: Contents

    constructor (contents: Contents)
      ensures this.contents == contents
    {
      this.contents := contents;
    }
  }

  /** A stored value: a byte string, or a reference to a container. */
  datatype Stored = Text(text: Bytes) | Boxed(box: Container)

  /** What a stored value holds at the moment it is read. */
  datatype Held = HeldText(text: Bytes) | HeldContents(contents: Contents)

  ghost function Reading(value: Stored): Held
    reads if value.Boxed? then {value.box} else {}
  {
    match value
    case Text(text) => HeldText(text)
    case Boxed(box) => HeldContents(box.contents)
  }

  /** A saved key: its value and its deadline on the wall clock; rows of the older format have no deadline. */
  datatype Saved<+V> = Saved(value: V, deadline: Option<int>) | Legacy(value: V)
  {
    function WallDeadline(): Option<int> { if Saved? then deadline else None }
  }

  ghost function SavedBoxes(saved: map<Bytes, Saved<Stored>>): set<object> {
    set k | k in saved && saved[k].value.Boxed? :: saved[k].value.box
  }

  function WallDeadline(expiresAt: Option<int>, now: int, wall: int): Option<int> {
    if expiresAt.None? then None else Some(wall + (expiresAt.value - now))
  }

  function Snap<V>(table: Table<V>, now: int, wall: int): map<Bytes, Saved<V>> {
    map k | k in table && Live(table[k], now) :: Saved(table[k].value, WallDeadline(table[k].expiresAt, now, wall))
  }

  /** `_copy_value`: byte strings are shared, every container is duplicated. */
  method CopyValue(value: Stored) returns (copy: Stored)
    ensures Reading(copy) == Reading(value)
    ensures copy.Boxed? ==> fresh(copy.box)
  {
    match value
    case Text(text) =>
      copy := value;
    case Boxed(box) =>
      var duplicate := new Container(box.contents);
      copy := Boxed(duplicate);
  }

  /** The copy `out` of key `k` of `table`: equal contents, the deadline on the wall clock. */
  ghost predicate CopyOf(out: Saved<Stored>, saved: Saved<Stored>)
    reads if out.value.Boxed? then {out.value.box} else {}, if saved.value.Boxed? then {saved.value.box} else {}
  {
    Reading(out.value) == Reading(saved.value) && out.Saved? && saved.Saved? && out.deadline == saved.deadline
  }

  /** Copies every live key, with its deadline in wall-clock time, and purges the expired ones. */
  method Take(table: Table<Stored>, now: int, wall: int) returns (out: map<Bytes, Saved<Stored>>, left: Table<Stored>)
    ensures left == View(table, now)
    ensures out.Keys == Snap(table, now, wall).Keys
    ensures forall k :: k in out ==> CopyOf(out[k], Snap(table, now, wall)[k])
    ensures fresh(SavedBoxes(out))
  {
    left := View(table, now);
    out := map[];
    var todo := left.Keys;
    while todo != {}
      invariant todo <= left.Keys && out.Keys == left.Keys - todo
      invariant forall k :: k in out ==> CopyOf(out[k], Snap(table, now, wall)[k])
      invariant forall k :: k in out && out[k].value.Boxed? ==> fresh(out[k].value.box)
      decreases todo
    {
      var key :| key in todo;
      var copy := CopyValue(left[key].value);
      out := out[key := Saved(copy, WallDeadline(left[key].expiresAt, now, wall))];
      todo := todo - {key};
    }
  }

  /** Whatever a command later does to a stored container, a snapshot already taken keeps what it held. */
  method MutateAfterSnapshot(table: Table<Stored>, now: int, wall: int, box: Container, contents: Contents)
    returns (out: map<Bytes, Saved<Stored>>)
    modifies box
    ensures box.contents == contents
    ensures out.Keys == Snap(table, now, wall).Keys
    ensures forall k :: k in out ==> out[k].WallDeadline() == Snap(table, now, wall)[k].WallDeadline()
    ensures forall k :: k in out ==> Reading(out[k].value) == old(Reading(table[k].value))
  {
    var left;
    out, left := Take(table, now, wall);
    label taken:
    box.contents := contents;
    forall k | k in out
      ensures Reading(out[k].value) == old(Reading(table[k].value))
      ensures out[k].WallDeadline() == Snap(table, now, wall)[k].WallDeadline()
    {
      assert old@taken(CopyOf(out[k], Snap(table, now, wall)[k]));
      assert out[k].value.Boxed? ==> out[k].value.box in SavedBoxes(out);
    }
  }

  // ----- Restoring

  function RestoredEntry<V>(saved: Saved<V>, now: int, wall: int): Entry<V> {
    var deadline := saved.WallDeadline();
    Entry(saved.value, if deadline.None? then None else Some(now + (deadline.value - wall)))
  }

  /** The store a snapshot restores to; the wall clock is read again for every key, the monotonic clock once. */
  function Restored<V>(saved: map<Bytes, Saved<V>>, now: int, walls: Bytes -> int): Table<V> {
    map k | k in saved && Live(RestoredEntry(saved[k], now, walls(k)), now) :: RestoredEntry(saved[k], now, walls(k))
  }

  method Restore<V>(saved: map<Bytes, Saved<V>>, now: int, walls: Bytes -> int) returns (storage: Table<V>)
    ensures storage == Restored(saved, now, walls)
  {
    storage := map[];
    var todo := saved.Keys;
    while todo != {}
      invariant todo <= saved.Keys
      invariant forall k :: k in storage <==> k in Restored(saved, now, walls) && k !in todo
      invariant forall k :: k in storage ==> storage[k] == Restored(saved, now, walls)[k]
      decreases todo
    {
      var key :| key in todo;
      todo := todo - {key};
      var deadline := saved[key].WallDeadline();
      if deadline.None? {
        storage := storage[key := Entry(saved[key].value, None)];
      } else {
        var expiresAt := now + (deadline.value - walls(key));
        if expiresAt > now {
          storage := storage[key := Entry(saved[key].value, Some(expiresAt))];
        }
      }
    }
  }

  // ----- What survives the trip

  /** The values a table shows at a time. */
  function Values<V>(table: Table<V>, now: int): map<Bytes, V> {
    map k | k in table && Live(table[k], now) :: table[k].value
  }

  /**
   The two processes' clocks: each one's wall clock runs a fixed offset ahead of its monotonic clock
   (it is not stepped). The snapshot reads `now` and then `wall`; the restore reads `now'`, and then
   `walls(k)` for each key.
   */
  datatype Trip = Trip(offset: int, now: int, wall: int, offset': int, now': int, walls: Bytes -> int)
  {
    /** The wall-clock time at which the restore begins. */
    function Start(): int { now' + offset' }

    /** How much later key `k` expires than it should: late wall reads add on saving and take away on restoring. */
    function Drift(k: Bytes): int { (wall - (now + offset)) - (walls(k) - (now' + offset')) }

    function After<V>(table: Table<V>): Table<V> { Restored(Snap(table, now, wall), now', walls) }

    predicate Later() { now + offset <= now' + offset' }
  }

  /** Two wall-clock deadlines that no moment at or after `start` can tell apart. */
  predicate Indistinct(x: int, y: int, start: int) {
    x == y || (x <= start && y <= start)
  }

  /** Key `k` is live, after the trip, exactly up to its old deadline plus the drift. */
  lemma RestoredLife<V>(trip: Trip, table: Table<V>, k: Bytes, w: int)
    requires trip.Later() && trip.Start() <= w
    ensures k in Values(table, w - trip.offset) <==>
            k in table && (table[k].expiresAt.Some? ==> table[k].expiresAt.value + trip.offset > w)
    ensures k in Values(trip.After(table), w - trip.offset') <==>
            k in table && Live(table[k], trip.now) &&
            (table[k].expiresAt.Some? ==> table[k].expiresAt.value + trip.offset + trip.Drift(k) > w)
    ensures k in Values(trip.After(table), w - trip.offset') ==>
              Values(trip.After(table), w - trip.offset')[k] == table[k].value
  {
  }

  /** At wall time `w`, the restored store shows what the original shows. */
  ghost predicate ShowsSame<V>(trip: Trip, table: Table<V>, w: int) {
    Values(table, w - trip.offset) == Values(trip.After(table), w - trip.offset')
  }

  ghost predicate SameFromStart<V>(trip: Trip, table: Table<V>) {
    forall w :: trip.Start() <= w ==> ShowsSame(trip, table, w)
  }

  ghost predicate NoVisibleDrift<V>(trip: Trip, table: Table<V>) {
    forall k :: k in table && Live(table[k], trip.now) && table[k].expiresAt.Some? ==>
                  var deadline := table[k].expiresAt.value + trip.offset;
                  Indistinct(deadline, deadline + trip.Drift(k), trip.Start())
  }

  lemma NoDriftSame<V>(trip: Trip, table: Table<V>)
    requires trip.Later() && NoVisibleDrift(trip, table)
    ensures SameFromStart(trip, table)
  {
    forall w | trip.Start() <= w
      ensures ShowsSame(trip, table, w)
    {
      var before, after := Values(table, w - trip.offset), Values(trip.After(table), w - trip.offset');
      forall k
        ensures k in before <==> k in after
        ensures k in before ==> before[k] == after[k]
      {
        RestoredLife(trip, table, k, w);
      }
    }
  }

  lemma SameNoDrift<V>(trip: Trip, table: Table<V>, k: Bytes)
    requires trip.Later() && SameFromStart(trip, table)
    requires k in table && Live(table[k], trip.now) && table[k].expiresAt.Some?
    ensures var deadline := table[k].expiresAt.value + trip.offset;
            Indistinct(deadline, deadline + trip.Drift(k), trip.Start())
  {
    var x := table[k].expiresAt.value + trip.offset;
    var y := x + trip.Drift(k);
    var low := if x < y then x else y;
    var w := if low < trip.Start() then trip.Start() else low;
    RestoredLife(trip, table, k, w);
    assert ShowsSame(trip, table, w);
  }

  /**
   A restored store shows, at every later wall time, exactly what the original would have shown,
   if and only if no key with a deadline has drifted where anyone could still see it.
   */
  lemma RestoreKeepsView<V>(trip: Trip, table: Table<V>)
    requires trip.Later()
    ensures SameFromStart(trip, table) <==> NoVisibleDrift(trip, table)
  {
    if NoVisibleDrift(trip, table) {
      NoDriftSame(trip, table);
    }
    if SameFromStart(trip, table) {
      forall k | k in table && Live(table[k], trip.now) && table[k].expiresAt.Some?
        ensures var deadline := table[k].expiresAt.value + trip.offset;
                Indistinct(deadline, deadline + trip.Drift(k), trip.Start())
      {
        SameNoDrift(trip, table, k);
      }
    }
  }

  /** At wall time `w`, `restored` shows the keys that the original shows. */
  ghost predicate SameKeysAt<V>(trip: Trip, table: Table<V>, restored: Table<V>, w: int) {
    Values(table, w - trip.offset).Keys == Values(restored, w - trip.offset').Keys
  }

  lemma KeysTell<V>(trip: Trip, table: Table<V>, restored: Table<V>, w: int)
    requires trip.Later() && trip.Start() <= w
    requires restored.Keys == trip.After(table).Keys
    requires forall k :: k in restored ==> restored[k].expiresAt == trip.After(table)[k].expiresAt
    ensures SameKeysAt(trip, table, restored, w) <==> ShowsSame(trip, table, w)
  {
    var before, after := Values(table, w - trip.offset), Values(trip.After(table), w - trip.offset');
    assert Values(restored, w - trip.offset').Keys == after.Keys;
    forall k | k in before && k in after
      ensures before[k] == after[k]
    {
      RestoredLife(trip, table, k, w);
    }
  }

  /** A copy of a snapshot, whatever values it holds, restores to the same keys with the same deadlines. */
  lemma CopyRestores<V>(trip: Trip, table: Table<V>, saved: map<Bytes, Saved<V>>)
    requires saved.Keys == Snap(table, trip.now, trip.wall).Keys
    requires forall k :: k in saved ==> saved[k].WallDeadline() == Snap(table, trip.now, trip.wall)[k].WallDeadline()
    ensures var restored := Restored(saved, trip.now', trip.walls);
            && restored.Keys == trip.After(table).Keys
            && (forall k :: k in restored ==>
                  k in saved && restored[k].value == saved[k].value
                  && restored[k].expiresAt == trip.After(table)[k].expiresAt)
  {
  }

  lemma CopyShows<V>(trip: Trip, table: Table<V>, saved: map<Bytes, Saved<V>>)
    requires trip.Later() && saved.Keys == Snap(table, trip.now, trip.wall).Keys
    requires forall k :: k in saved ==> saved[k].WallDeadline() == Snap(table, trip.now, trip.wall)[k].WallDeadline()
    ensures var restored := Restored(saved, trip.now', trip.walls);
            (forall w :: trip.Start() <= w ==> SameKeysAt(trip, table, restored, w)) <==> NoVisibleDrift(trip, table)
  {
    hide Restored, Snap, NoVisibleDrift, SameKeysAt, ShowsSame;
    var restored := Restored(saved, trip.now', trip.walls);
    CopyRestores(trip, table, saved);
    forall w | trip.Start() <= w
      ensures SameKeysAt(trip, table, restored, w) <==> ShowsSame(trip, table, w)
    {
      KeysTell(trip, table, restored, w);
    }
    RestoreKeepsView(trip, table);
  }

  /**
   The whole trip, through the heap: a snapshot is taken, a stored container is changed in place, and the snapshot
   is restored. Every key that comes back holds what it held when the snapshot was taken; and the keys shown are
   the original's at every later wall time, if and only if no deadline has drifted where it could be seen.
   */
  method SaveAndRestore(trip: Trip, table: Table<Stored>, box: Container, contents: Contents)
    returns (restored: Table<Stored>)
    requires trip.Later()
    modifies box
    ensures forall k :: k in restored ==> k in table && Reading(restored[k].value) == old(Reading(table[k].value))
    ensures (forall w :: trip.Start() <= w ==> SameKeysAt(trip, table, restored, w)) <==> NoVisibleDrift(trip, table)
  {
    hide Restored, NoVisibleDrift, SameKeysAt, RestoredEntry;
    var saved := MutateAfterSnapshot(table, trip.now, trip.wall, box, contents);
    restored := Restore(saved, trip.now', trip.walls);
    CopyRestores(trip, table, saved);
    CopyShows(trip, table, saved);
  }

  /** When each process reads its two clocks at one moment, nothing drifts and the view is kept. */
  lemma PromptReadsKeepView<V>(trip: Trip, table: Table<V>)
    requires trip.Later()
    requires trip.wall == trip.now + trip.offset && forall k :: trip.walls(k) == trip.Start()
    ensures SameFromStart(trip, table)
  {
    RestoreKeepsView(trip, table);
  }

  /**
   The restore loop reads the monotonic clock once and the wall clock again for every key, so a key reached
   late loses the time the loop has taken: it is already gone at a wall time when the original still shows it.
   */
  lemma LateReadDropsKeyEarly(k: Bytes, value: Bytes) returns (trip: Trip, table: Table<Bytes>)
    ensures trip.Later() && trip.wall == trip.now + trip.offset && trip.walls(k) == trip.Start() + 5
    ensures k in Values(table, trip.Start() + 2 - trip.offset)
    ensures k !in Values(trip.After(table), trip.Start() + 2 - trip.offset')
  {
    trip := Trip(100, 0, 100, 200, 0, _ => 205);
    table := map[k := Entry(value, Some(104))];
  }

  // ----- Rows by themselves

  /**
   A row restored when the wall clock reads `walls(k)`: without a deadline, of the older format or not, it stays for
   good; with one it is shown as long as the deadline is still ahead, and not at all when it has passed.
   */
  lemma RestoredRow<V>(saved: map<Bytes, Saved<V>>, now: int, walls: Bytes -> int, k: Bytes, t: int)
    requires k in saved && now <= t
    ensures saved[k].Legacy? || saved[k].deadline.None? ==>
              k in Values(Restored(saved, now, walls), t) && Values(Restored(saved, now, walls), t)[k] == saved[k].value
    ensures saved[k].Saved? && saved[k].deadline.Some? ==>
              (k in Values(Restored(saved, now, walls), t) <==> t - now < saved[k].deadline.value - walls(k))
    ensures k in Values(Restored(saved, now, walls), t) ==> Values(Restored(saved, now, walls), t)[k] == saved[k].value
  {
  }

  /** A row saved when the clocks read `now` and `wall` has the deadline its key has left, on the wall clock. */
  lemma SavedRow<V>(table: Table<V>, now: int, wall: int, k: Bytes)
    ensures k in Snap(table, now, wall) <==> k in Values(table, now)
    ensures k in Snap(table, now, wall) ==>
              var row := Snap(table, now, wall)[k];
              && row.Saved? && row.value == table[k].value
              && (row.deadline.None? <==> table[k].expiresAt.None?)
              && (row.deadline.Some? ==> forall t :: k in Values(table, t) <==> t - now < row.deadline.value - wall)
  {
  }
}
