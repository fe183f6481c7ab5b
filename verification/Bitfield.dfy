/**
 BITFIELD: fixed-width integers read from and written to a bitmap, most significant bit first, with
 wrapping, saturating or failing overflow. The bitmap is the set of positions of its 1 bits.
 */
module Bitfield {
  import opened Options

  function Pow2(n: nat): (p: nat)
    ensures p > 0
  {
    if n == 0 then 1 else 2 * Pow2(n - 1)
  }

  function Bit(bits: set<nat>, position: nat): nat { if position in bits then 1 else 0 }

  /** The unsigned value of the `width` bits at `offset`, most significant first. */
  function Window(bits: set<nat>, offset: nat, width: nat): nat {
    if width == 0 then 0 else 2 * Window(bits, offset, width - 1) + Bit(bits, offset + width - 1)
  }

  method ExtractBits(bits: set<nat>, offset: nat, width: nat) returns (value: nat)
    ensures value == Window(bits, offset, width)
  {
    value := 0;
    for k := 0 to width
      invariant value == Window(bits, offset, k)
    {
      value := 2 * value + (if offset + k in bits then 1 else 0);
    }
  }

  /** The two bitmaps agree everywhere but in the window. */
  ghost predicate SameOutside(before: set<nat>, after: set<nat>, offset: nat, width: nat) {
    forall p :: p < offset || p >= offset + width ==> (p in after <==> p in before)
  }

  lemma {:induction false} WindowDepends(a: set<nat>, b: set<nat>, offset: nat, width: nat)
    requires forall p :: offset <= p < offset + width ==> (p in a <==> p in b)
    ensures Window(a, offset, width) == Window(b, offset, width)
  {
    if width > 0 {
      WindowDepends(a, b, offset, width - 1);
    }
  }

  lemma {:induction false} WindowClear(bits: set<nat>, offset: nat, width: nat)
    requires forall p :: offset <= p < offset + width ==> p !in bits
    ensures Window(bits, offset, width) == 0
  {
    if width > 0 {
      WindowClear(bits, offset, width - 1);
    }
  }

  lemma {:induction false} WindowRange(bits: set<nat>, offset: nat, width: nat)
    ensures Window(bits, offset, width) < Pow2(width)
  {
    if width > 0 {
      WindowRange(bits, offset, width - 1);
    }
  }

  lemma MulDouble(h: int, p: int)
    ensures h * (2 * p) == 2 * (h * p)
  {
  }

  /** A window is its high part followed by its low part. */
  lemma {:induction false} WindowSplit(bits: set<nat>, offset: nat, high: nat, low: nat)
    ensures Window(bits, offset, high + low) == Window(bits, offset, high) * Pow2(low) + Window(bits, offset + high, low)
  {
    if low > 0 {
      WindowSplit(bits, offset, high, low - 1);
      var h := Window(bits, offset, high);
      MulDouble(h, Pow2(low - 1));
    }
  }

  /** Bits outside a window and the value in it determine the bitmap. */
  lemma {:induction false} WindowInjective(a: set<nat>, b: set<nat>, offset: nat, width: nat)
    requires SameOutside(a, b, offset, width) && Window(a, offset, width) == Window(b, offset, width)
    ensures a == b
  {
    if width > 0 {
      var last := offset + width - 1;
      assert Bit(a, last) == Bit(b, last);
      WindowInjective(a, b, offset, width - 1);
    }
  }

  lemma Distribute(h: int, b: int, p: int)
    ensures (2 * h + b) * p == 2 * (h * p) + b * p
  {
  }

  /** One more low bit of the value moved into the window. */
  lemma StoreStep(value: nat, left: nat, bits: set<nat>, after: set<nat>, offset: nat, width: nat, n: nat)
    requires 0 < n <= width
    requires value == left * Pow2(width - n) + Window(bits, offset + n, width - n)
    requires after == if left % 2 == 1 then bits + {offset + n - 1} else bits
    requires offset + n - 1 !in bits
    ensures value == (left / 2) * Pow2(width - n + 1) + Window(after, offset + n - 1, width - n + 1)
  {
    var r := width - n;
    WindowSplit(after, offset + n - 1, 1, r);
    WindowDepends(bits, after, offset + n, r);
    var b, half := left % 2, left / 2;
    assert Window(after, offset + n - 1, 0) == 0;
    assert Window(after, offset + n - 1, 1) == Bit(after, offset + n - 1) == b;
    MulDouble(half, Pow2(r));
    Distribute(half, b, Pow2(r));
    assert half * Pow2(r + 1) == half * (2 * Pow2(r));
  }

  /** Writes `value` into the window: the window is cleared, then the 1 bits are set from the low end. */
  method StoreBits(bits: set<nat>, offset: nat, width: nat, value: nat) returns (after: set<nat>)
    requires value < Pow2(width)
    ensures SameOutside(bits, after, offset, width)
    ensures Window(after, offset, width) == value
  {
    after := bits;
    for k := 0 to width
      invariant SameOutside(bits, after, offset, width)
      invariant forall p :: offset <= p < offset + k ==> p !in after
    {
      after := after - {offset + k};
    }
    var left: nat, n: nat := value, width;
    while left != 0 && n > 0
      invariant n <= width && left < Pow2(n)
      invariant SameOutside(bits, after, offset, width)
      invariant forall p :: offset <= p < offset + n ==> p !in after
      invariant value == left * Pow2(width - n) + Window(after, offset + n, width - n)
      decreases n
    {
      ghost var before := after;
      if left % 2 == 1 {
        after := after + {offset + n - 1};
      }
      StoreStep(value, left, before, after, offset, width, n);
      left := left / 2;
      n := n - 1;
    }
    WindowSplit(after, offset, n, width - n);
    WindowClear(after, offset, n);
  }

  // ----- Types and overflow

  /** A signed or unsigned type of some width. */
  datatype IntType = IntType(signed: bool, width: nat)
  {
    function Lo(): int
      requires width > 0
    {
      if signed then 0 - Pow2(width - 1) as int else 0
    }

    function Hi(): int
      requires width > 0
    {
      if signed then Pow2(width - 1) - 1 else Pow2(width) - 1
    }

    predicate Holds(value: int)
      requires width > 0
    {
      Lo() <= value <= Hi()
    }
  }

  datatype Mode = Wrap | Sat | Fail

  /** The signed or unsigned reading of a window's value. */
  function Interpret(value: nat, t: IntType): int
    requires t.width > 0
  {
    if t.signed && value >= Pow2(t.width - 1) then value - Pow2(t.width) else value
  }

  /** Brings a value into range, or fails. */
  function Overflowed(value: int, t: IntType, mode: Mode): Option<int>
    requires t.width > 0
  {
    if t.Holds(value) then Some(value)
    else if mode == Sat then Some(if value < t.Lo() then t.Lo() else t.Hi())
    else if mode == Wrap then
      var wrapped := value % Pow2(t.width);
      Some(if t.signed && wrapped >= Pow2(t.width - 1) then wrapped - Pow2(t.width) else wrapped)
    else None
  }

  /** The only multiple of `m` strictly between `-m` and `m` is 0. */
  lemma SmallMultiple(m: int, k: int)
    requires m > 0 && -m < m * k < m
    ensures k == 0
  {
  }

  lemma ModIs(v: int, m: int, q: int, r: int)
    requires m > 0 && 0 <= r < m && v == m * q + r
    ensures v % m == r
  {
    var q', r' := v / m, v % m;
    assert m * (q - q') == m * q - m * q' == r' - r;
    SmallMultiple(m, q - q');
  }

  /** What the overflow modes mean: in range and unchanged, or the nearest end, or the one congruent value in range. */
  lemma OverflowMeans(value: int, t: IntType, mode: Mode)
    requires t.width > 0
    ensures var r := Overflowed(value, t, mode);
            && (r.Some? ==> t.Holds(r.value))
            && (t.Holds(value) ==> r == Some(value))
            && (!t.Holds(value) && mode == Fail ==> r == None)
            && (mode != Fail ==> r.Some?)
            && (mode == Sat ==> forall x :: t.Holds(x) ==> Distance(value, r.value) <= Distance(value, x))
            && (mode == Wrap ==> (r.value - value) % Pow2(t.width) == 0)
  {
    var m, r := Pow2(t.width), Overflowed(value, t, mode);
    assert m == 2 * Pow2(t.width - 1);
    if mode == Wrap {
      var q, w := value / m, value % m;
      assert value == m * q + w;
      var k := if t.Holds(value) then 0 else if r.value == w then -q else -q - 1;
      assert m * (-q) == -(m * q) && m * (-q - 1) == -(m * q) - m;
      assert r.value - value == m * k;
      ModIs(r.value - value, m, k, 0);
    }
  }

  function Distance(a: int, b: int): nat { if a < b then b - a else a - b }

  /** Two values of one type that are congruent are equal, so wrapping has no other choice. */
  lemma WrapIsUnique(x: int, y: int, t: IntType)
    requires t.width > 0 && t.Holds(x) && t.Holds(y) && (x - y) % Pow2(t.width) == 0
    ensures x == y
  {
    var m := Pow2(t.width);
    assert m == 2 * Pow2(t.width - 1);
    assert x - y == m * ((x - y) / m);
    SmallMultiple(m, (x - y) / m);
  }

  /** A value in range, stored modulo the width, reads back as itself. */
  lemma StoredReadsBack(value: int, t: IntType)
    requires t.width > 0 && t.Holds(value)
    ensures Interpret(value % Pow2(t.width), t) == value
  {
    var m := Pow2(t.width);
    assert m == 2 * Pow2(t.width - 1);
    if value >= 0 {
      ModIs(value, m, 0, value);
    } else {
      ModIs(value, m, -1, value + m);
    }
  }

  // ----- The command

  datatype Op =
    | Get(t: IntType, offset: nat)
    | Put(t: IntType, offset: nat, amount: int, mode: Mode)
    | IncrBy(t: IntType, offset: nat, amount: int, mode: Mode)

  function Reading(bits: set<nat>, offset: nat, t: IntType): int
    requires t.width > 0
  {
    Interpret(Window(bits, offset, t.width), t)
  }

  /** What a writing subcommand asks the window to hold, before overflow. */
  function Wanted(op: Op, before: set<nat>): int
    requires op.t.width > 0 && !op.Get?
  {
    if op.Put? then op.amount else Reading(before, op.offset, op.t) + op.amount
  }

  /** One subcommand, in terms of the integers at its offset. */
  ghost predicate Executes(op: Op, before: set<nat>, result: Option<int>, after: set<nat>)
    requires op.t.width > 0
  {
    if op.Get? then after == before && result == Some(Reading(before, op.offset, op.t))
    else
      var value := Overflowed(Wanted(op, before), op.t, op.mode);
      if value.None? then after == before && result == None
      else
        && SameOutside(before, after, op.offset, op.t.width)
        && Reading(after, op.offset, op.t) == value.value
        && result == Some(if op.Put? then Reading(before, op.offset, op.t) else value.value)
  }

  method ExecuteOne(op: Op, bits: set<nat>) returns (result: Option<int>, after: set<nat>)
    requires op.t.width > 0
    ensures Executes(op, bits, result, after)
  {
    after := bits;
    var raw := ExtractBits(bits, op.offset, op.t.width);
    var old' := Interpret(raw, op.t);
    if op.Get? {
      return Some(old'), bits;
    }
    var value := Overflowed(if op.Put? then op.amount else old' + op.amount, op.t, op.mode);
    if value.None? {
      return None, bits;
    }
    OverflowMeans(Wanted(op, bits), op.t, op.mode);
    StoredReadsBack(value.value, op.t);
    after := StoreBits(bits, op.offset, op.t.width, value.value % Pow2(op.t.width));
    result := Some(if op.Put? then old' else value.value);
  }

  predicate Sound(ops: seq<Op>) { forall k :: 0 <= k < |ops| ==> ops[k].t.width > 0 }

  ghost predicate IsRun(ops: seq<Op>, states: seq<set<nat>>, out: seq<Option<int>>) {
    && Sound(ops) && |states| == |ops| + 1 && |out| == |ops|
    && forall k :: 0 <= k < |ops| ==> Executes(ops[k], states[k], out[k], states[k + 1])
  }

  /** BITFIELD on a key that may be missing; a bitmap created but never written to is not stored. */
  method RunBitfield(stored: Option<set<nat>>, ops: seq<Op>)
    returns (stored': Option<set<nat>>, out: seq<Option<int>>, wrote: bool, ghost states: seq<set<nat>>)
    requires Sound(ops)
    ensures IsRun(ops, states, out) && states[0] == (if stored.None? then {} else stored.value)
    ensures stored' == if stored.None? && !wrote then None else Some(states[|ops|])
    ensures wrote <==> exists k :: 0 <= k < |ops| && !ops[k].Get? && out[k].Some?
    ensures !wrote ==> states[|ops|] == states[0]
  {
    var bits := if stored.None? then {} else stored.value;
    out := [];
    wrote := false;
    states := [bits];
    for k := 0 to |ops|
      invariant IsRun(ops[..k], states, out) && states[k] == bits
      invariant states[0] == (if stored.None? then {} else stored.value)
      invariant wrote <==> exists j :: 0 <= j < k && !ops[j].Get? && out[j].Some?
      invariant !wrote ==> bits == states[0]
    {
      var result, after := ExecuteOne(ops[k], bits);
      out := out + [result];
      states := states + [after];
      bits := after;
      if !ops[k].Get? && result.Some? {
        wrote := true;
      }
    }
    assert ops[..|ops|] == ops;
    stored' := if stored.None? && !wrote then None else Some(bits);
  }

  /**
   A write that did not fail is seen by the next GET of the same type and offset, is in range, and is the
   requested value brought into range; a GET of a window that does not overlap is not affected.
   */
  lemma WriteThenGet(op: Op, before: set<nat>, result: Option<int>, after: set<nat>)
    requires op.t.width > 0 && !op.Get? && Executes(op, before, result, after)
    ensures result.None? <==> op.mode == Fail && !op.t.Holds(Wanted(op, before))
    ensures result.None? ==> after == before
    ensures result.Some? ==>
              && op.t.Holds(Reading(after, op.offset, op.t))
              && Overflowed(Wanted(op, before), op.t, op.mode) == Some(Reading(after, op.offset, op.t))
    ensures result.Some? && op.mode == Wrap ==>
              (Reading(after, op.offset, op.t) - Wanted(op, before)) % Pow2(op.t.width) == 0
    ensures forall t: IntType, offset: nat ::
              t.width > 0 && (offset + t.width <= op.offset || op.offset + op.t.width <= offset) ==>
              Reading(after, offset, t) == Reading(before, offset, t)
  {
    OverflowMeans(Wanted(op, before), op.t, op.mode);
    forall t: IntType, offset: nat | t.width > 0 && (offset + t.width <= op.offset || op.offset + op.t.width <= offset)
      ensures Reading(after, offset, t) == Reading(before, offset, t)
    {
      WindowDepends(after, before, offset, t.width);
    }
  }

  /** The bitmap after a subcommand is determined: no other bitmap meets its contract. */
  lemma ExecutesOnce(op: Op, before: set<nat>, r: Option<int>, after: set<nat>, r': Option<int>, after': set<nat>)
    requires op.t.width > 0 && Executes(op, before, r, after) && Executes(op, before, r', after')
    ensures r == r' && after == after'
  {
    if !op.Get? && Overflowed(Wanted(op, before), op.t, op.mode).Some? {
      WindowRange(after, op.offset, op.t.width);
      WindowRange(after', op.offset, op.t.width);
      WindowInjective(after, after', op.offset, op.t.width);
    }
  }

  // ----- What is answered

  /** The types by name: i8 reaches from -128 to 127, u8 from 0 to 255; and so for every width. */
  lemma {:induction false} TypeRanges(width: nat)
    requires width > 0
    ensures IntType(true, 8).Lo() == -128 && IntType(true, 8).Hi() == 127
    ensures IntType(false, 8).Lo() == 0 && IntType(false, 8).Hi() == 255
    ensures IntType(false, width).Hi() == 2 * IntType(true, width).Hi() + 1
    ensures IntType(true, width).Lo() == -IntType(true, width).Hi() - 1 && IntType(false, width).Lo() == 0
  {
    assert Pow2(8) == 2 * Pow2(7) && Pow2(7) == 2 * Pow2(6) && Pow2(6) == 2 * Pow2(5) && Pow2(5) == 2 * Pow2(4);
    assert Pow2(4) == 2 * Pow2(3) && Pow2(3) == 2 * Pow2(2) && Pow2(2) == 2 * Pow2(1) && Pow2(1) == 2 * Pow2(0);
    assert Pow2(width) == 2 * Pow2(width - 1);
  }

  /** The most significant bit of a window comes first, and is the sign of a signed type. */
  lemma {:induction false} FirstBit(bits: set<nat>, offset: nat, width: nat)
    requires width > 0
    ensures offset in bits <==> Window(bits, offset, width) >= Pow2(width - 1)
    ensures offset in bits <==> Reading(bits, offset, IntType(true, width)) < 0
    ensures Reading(bits, offset, IntType(false, width)) >= 0
  {
    WindowSplit(bits, offset, 1, width - 1);
    WindowRange(bits, offset + 1, width - 1);
    WindowRange(bits, offset, width);
    assert Window(bits, offset, 0) == 0 && Window(bits, offset, 1) == Bit(bits, offset);
    assert Pow2(width) == 2 * Pow2(width - 1);
  }

  /**
   GET answers what the window reads; SET what it read before the write; INCRBY what it reads after it, which is
   the old reading and the increment together when that is in range. A write that fails answers nothing.
   */
  lemma Answers(op: Op, before: set<nat>, result: Option<int>, after: set<nat>)
    requires op.t.width > 0 && Executes(op, before, result, after)
    ensures op.Get? ==> result == Some(Reading(before, op.offset, op.t)) && after == before
    ensures op.Put? && op.mode != Fail ==> result == Some(Reading(before, op.offset, op.t))
    ensures op.Put? && op.t.Holds(op.amount) ==>
              result == Some(Reading(before, op.offset, op.t)) && Reading(after, op.offset, op.t) == op.amount
    ensures op.IncrBy? && result.Some? ==> result == Some(Reading(after, op.offset, op.t))
    ensures op.IncrBy? && op.t.Holds(Reading(before, op.offset, op.t) + op.amount) ==>
              result == Some(Reading(before, op.offset, op.t) + op.amount)
    ensures result == None <==>
              !op.Get? && op.mode == Fail &&
              !op.t.Holds((if op.Put? then 0 else Reading(before, op.offset, op.t)) + op.amount)
  {
    if !op.Get? {
      OverflowMeans(Wanted(op, before), op.t, op.mode);
    }
  }
}
