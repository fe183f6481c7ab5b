/**
 The two list commands that scan: LREM, which removes copies of a value from
 one end, and LPOS, which reports where a value stands.  Their answers are
 described without the scan: LREM by where the list can be cut, LPOS by how
 many copies lie between an index and the end the scan starts from.
 */
module Lists {
  import opened Bytes
  import opened Sequences

  ghost function Occurrences(s: seq<Bytes>, v: Bytes): nat { multiset(s)[v] }

  ghost function Without(s: seq<Bytes>, v: Bytes): seq<Bytes> {
    if s == [] then []
    else Without(s[..|s| - 1], v) + (if s[|s| - 1] == v then [] else [s[|s| - 1]])
  }

  lemma {:induction false} OccurrencesReversed(s: seq<Bytes>, v: Bytes)
    ensures Occurrences(Reversed(s), v) == Occurrences(s, v)
  {
    if s != [] {
      OccurrencesReversed(s[1..], v);
      assert s == [s[0]] + s[1..];
      assert Reversed(s) == Reversed(s[1..]) + [s[0]];
    }
  }

  lemma OccurrencesCut(s: seq<Bytes>, v: Bytes, i: nat)
    requires i <= |s|
    ensures Occurrences(s, v) == Occurrences(s[..i], v) + Occurrences(s[i..], v)
  {
    assert s == s[..i] + s[i..];
  }

  lemma OccurrencesStep(s: seq<Bytes>, v: Bytes, i: nat)
    requires i < |s|
    ensures Occurrences(s[..i + 1], v) == Occurrences(s[..i], v) + (if s[i] == v then 1 else 0)
    ensures Occurrences(s[i..], v) == (if s[i] == v then 1 else 0) + Occurrences(s[i + 1..], v)
  {
    assert s[..i + 1] == s[..i] + [s[i]];
    assert s[i..] == [s[i]] + s[i + 1..];
  }

  lemma OccurrencesGrow(s: seq<Bytes>, v: Bytes, i: nat, j: nat)
    requires i <= j <= |s|
    ensures Occurrences(s[..i], v) <= Occurrences(s[..j], v)
  {
    assert s[..j] == s[..i] + s[i..j];
  }

  lemma {:induction false} WithoutJoins(s: seq<Bytes>, t: seq<Bytes>, v: Bytes)
    ensures Without(s + t, v) == Without(s, v) + Without(t, v)
  {
    if t == [] {
      assert s + t == s;
    } else {
      var front := t[..|t| - 1];
      WithoutJoins(s, front, v);
      assert (s + t)[..|s + t| - 1] == s + front;
    }
  }

  lemma {:induction false} WithoutOne(x: Bytes, v: Bytes)
    ensures Without([x], v) == if x == v then [] else [x]
  {
    assert [x][..0] == [];
  }

  lemma {:induction false} WithoutReversed(s: seq<Bytes>, v: Bytes)
    ensures Without(Reversed(s), v) == Reversed(Without(s, v))
  {
    if s != [] {
      var front, x := s[..|s| - 1], s[|s| - 1];
      WithoutStep(front, x, v);
      assert s == front + [x];
      hide Without, Reversed;
      WithoutReversed(front, v);
      WithoutOne(x, v);
      ReversedSnoc(front, x);
      ReversedSnoc(Without(front, v), x);
      WithoutJoins([x], Reversed(front), v);
      assert [] + Reversed(Without(front, v)) == Reversed(Without(front, v));
    }
  }

  lemma {:induction false} WithoutStep(front: seq<Bytes>, x: Bytes, v: Bytes)
    ensures Without(front + [x], v) == if x == v then Without(front, v) else Without(front, v) + [x]
  {
    WithoutJoins(front, [x], v);
    WithoutOne(x, v);
  }

  lemma {:induction false} WithoutCounts(s: seq<Bytes>, v: Bytes)
    ensures |Without(s, v)| == |s| - Occurrences(s, v)
    ensures Occurrences(Without(s, v), v) == 0
    ensures forall x :: x != v ==> Occurrences(Without(s, v), x) == Occurrences(s, x)
  {
    hide Occurrences;
    NoneInNothing();
    if s != [] {
      var front, last := s[..|s| - 1], s[|s| - 1];
      WithoutCounts(front, v);
      assert s == front + [last];
      forall x
        ensures Occurrences(s, x) == Occurrences(front, x) + (if last == x then 1 else 0)
      {
        OccurrencesSnoc(front, last, x);
      }
      if last != v {
        forall x
          ensures Occurrences(Without(s, v), x) == Occurrences(Without(front, v), x) + (if last == x then 1 else 0)
        {
          OccurrencesSnoc(Without(front, v), last, x);
        }
      } else {
        assert Without(s, v) == Without(front, v);
      }
    }
  }

  lemma NoneInNothing()
    ensures forall x :: Occurrences([], x) == 0 && Without([], x) == []
  {
  }

  lemma OccurrencesSnoc(s: seq<Bytes>, last: Bytes, x: Bytes)
    ensures Occurrences(s + [last], x) == Occurrences(s, x) + (if last == x then 1 else 0)
  {
  }

  lemma OccurrencesJoin(s: seq<Bytes>, t: seq<Bytes>, x: Bytes)
    ensures Occurrences(s + t, x) == Occurrences(s, x) + Occurrences(t, x)
  {
  }

  lemma {:induction false} WithoutKeepsAll(s: seq<Bytes>, v: Bytes)
    requires Occurrences(s, v) == 0
    ensures Without(s, v) == s
  {
    if s != [] {
      assert s == s[..|s| - 1] + [s[|s| - 1]];
      WithoutKeepsAll(s[..|s| - 1], v);
    }
  }

  // ----- LREM

  /**
   `kept` is `s` without the `n` copies of `v` nearest the named end: the list
   splits so that one side loses all its copies, of which there are `n`, and
   the other side is untouched.
   */
  ghost predicate TrimmedAt(s: seq<Bytes>, v: Bytes, n: nat, fromTail: bool, kept: seq<Bytes>, cut: nat) {
    && cut <= |s|
    && if fromTail
       then kept == s[..cut] + Without(s[cut..], v) && Occurrences(s[cut..], v) == n
       else kept == Without(s[..cut], v) + s[cut..] && Occurrences(s[..cut], v) == n
  }

  ghost predicate Trimmed(s: seq<Bytes>, v: Bytes, n: nat, fromTail: bool, kept: seq<Bytes>) {
    exists cut: nat :: TrimmedAt(s, v, n, fromTail, kept, cut)
  }

  /** How many copies LREM takes: all for a count of zero, else at most |count|. */
  ghost function Quota(count: int, available: nat): nat {
    var limit: nat := if count < 0 then -count else count;
    if count == 0 || available <= limit then available else limit
  }

  /**
   The trimmed list has exactly the other elements in the same order, and `n`
   copies of `v` fewer.
   */
  lemma {:induction false} TrimmedKeepsTheRest(s: seq<Bytes>, v: Bytes, n: nat, fromTail: bool, kept: seq<Bytes>)
    requires Trimmed(s, v, n, fromTail, kept)
    ensures n <= Occurrences(s, v)
    ensures Without(kept, v) == Without(s, v)
    ensures Occurrences(kept, v) == Occurrences(s, v) - n
    ensures forall x :: x != v ==> Occurrences(kept, x) == Occurrences(s, x)
    ensures |kept| == |s| - n
  {
    hide Occurrences;
    var cut: nat :| TrimmedAt(s, v, n, fromTail, kept, cut);
    var head, tail := s[..cut], s[cut..];
    assert s == head + tail;
    WithoutJoins(head, tail, v);
    WithoutCounts(head, v);
    WithoutCounts(tail, v);
    var hit := if fromTail then tail else head;
    WithoutKeepsAll(Without(hit, v), v);
    if fromTail {
      WithoutJoins(head, Without(tail, v), v);
    } else {
      WithoutJoins(Without(head, v), tail, v);
    }
    forall x
      ensures Occurrences(s, x) == Occurrences(head, x) + Occurrences(tail, x)
      ensures fromTail ==> Occurrences(kept, x) == Occurrences(head, x) + Occurrences(Without(tail, v), x)
      ensures !fromTail ==> Occurrences(kept, x) == Occurrences(Without(head, v), x) + Occurrences(tail, x)
    {
      OccurrencesJoin(head, tail, x);
      OccurrencesJoin(head, Without(tail, v), x);
      OccurrencesJoin(Without(head, v), tail, x);
    }
  }

  /** The list, the value, the number and the end leave one possible result. */
  lemma TrimmedUnique(s: seq<Bytes>, v: Bytes, n: nat, fromTail: bool, one: seq<Bytes>, two: seq<Bytes>)
    requires Trimmed(s, v, n, fromTail, one) && Trimmed(s, v, n, fromTail, two)
    ensures one == two
  {
    var i: nat :| TrimmedAt(s, v, n, fromTail, one, i);
    var j: nat :| TrimmedAt(s, v, n, fromTail, two, j);
    if i <= j { CutsAgree(s, v, n, fromTail, i, j); } else { CutsAgree(s, v, n, fromTail, j, i); }
  }

  lemma {:induction false} CutsAgree(s: seq<Bytes>, v: Bytes, n: nat, fromTail: bool, i: nat, j: nat)
    requires i <= j <= |s|
    requires if fromTail then Occurrences(s[i..], v) == n == Occurrences(s[j..], v)
             else Occurrences(s[..i], v) == n == Occurrences(s[..j], v)
    ensures !fromTail ==> Without(s[..i], v) + s[i..] == Without(s[..j], v) + s[j..]
    ensures fromTail ==> s[..i] + Without(s[i..], v) == s[..j] + Without(s[j..], v)
  {
    hide Occurrences, Without;
    var head, middle, tail := s[..i], s[i..j], s[j..];
    assert s[..j] == head + middle;
    assert s[i..] == middle + tail;
    OccurrencesJoin(head, middle, v);
    OccurrencesJoin(middle, tail, v);
    WithoutKeepsAll(middle, v);
    WithoutJoins(head, middle, v);
    WithoutJoins(middle, tail, v);
  }

  /** Removing from the tail is removing from the head of the reversed list. */
  lemma TrimmedMirror(s: seq<Bytes>, v: Bytes, n: nat, fromTail: bool, kept: seq<Bytes>)
    ensures Trimmed(s, v, n, fromTail, kept) <==> Trimmed(Reversed(s), v, n, !fromTail, Reversed(kept))
  {
    if Trimmed(s, v, n, fromTail, kept) {
      MirrorOneWay(s, v, n, fromTail, kept);
    }
    if Trimmed(Reversed(s), v, n, !fromTail, Reversed(kept)) {
      MirrorOneWay(Reversed(s), v, n, !fromTail, Reversed(kept));
      ReversedTwice(s);
      ReversedTwice(kept);
    }
  }

  lemma MirrorOneWay(s: seq<Bytes>, v: Bytes, n: nat, fromTail: bool, kept: seq<Bytes>)
    requires Trimmed(s, v, n, fromTail, kept)
    ensures Trimmed(Reversed(s), v, n, !fromTail, Reversed(kept))
  {
    var cut: nat :| TrimmedAt(s, v, n, fromTail, kept, cut);
    var head, tail := s[..cut], s[cut..];
    ReversedCut(s, cut);
    OccurrencesReversed(head, v);
    OccurrencesReversed(tail, v);
    WithoutReversed(head, v);
    WithoutReversed(tail, v);
    if fromTail {
      ReversedCut(kept, cut);
      assert kept[..cut] == head && kept[cut..] == Without(tail, v);
    } else {
      var k := |Without(head, v)|;
      ReversedCut(kept, k);
      assert kept[..k] == Without(head, v) && kept[k..] == tail;
    }
    assert TrimmedAt(Reversed(s), v, n, !fromTail, Reversed(kept), |s| - cut);
  }

  // ----- LPOS

  /** Copies of `v` from the end the scan starts at up to and including index `p`. */
  ghost function Seen(s: seq<Bytes>, v: Bytes, fromTail: bool, p: nat): nat
    requires p < |s|
  {
    if fromTail then Occurrences(s[p..], v) else Occurrences(s[..p + 1], v)
  }

  /**
   Index `p` belongs in the answer: it holds `v`, lies among the first `maxlen`
   elements of the scan (0: no limit), and is the |rank|-th copy or one of the
   next `count - 1` (0: all of them).
   */
  ghost predicate Hit(s: seq<Bytes>, v: Bytes, rank: int, count: nat, maxlen: nat, p: int)
  {
    && 0 <= p < |s|
    && s[p] == v
    && (maxlen == 0 || (if rank < 0 then |s| - 1 - p else p) < maxlen)
    && var seen := Seen(s, v, rank < 0, p);
       var first := if rank < 0 then -rank else rank;
       first <= seen && (count == 0 || seen < first + count)
  }

  ghost predicate Ordered(found: seq<int>, descending: bool) {
    forall i, j :: 0 <= i < j < |found| ==> if descending then found[i] > found[j] else found[i] < found[j]
  }

  /** The hits, all of them and nothing else, in the order of the scan. */
  ghost predicate Answer(s: seq<Bytes>, v: Bytes, rank: int, count: nat, maxlen: nat, found: seq<int>) {
    && Ordered(found, rank < 0)
    && (forall p :: p in found <==> Hit(s, v, rank, count, maxlen, p))
  }

  ghost function Mirrored(found: seq<int>, length: nat): (r: seq<int>)
    ensures |r| == |found|
  {
    seq(|found|, i requires 0 <= i < |found| => length - 1 - found[i])
  }

  /** The indexes a walk from the named end reports for the places it stopped at. */
  ghost function Placed(hits: seq<int>, length: nat, fromTail: bool): seq<int> {
    if fromTail then Mirrored(hits, length) else hits
  }

  lemma PlacedSnoc(hits: seq<int>, index: int, length: nat, fromTail: bool)
    ensures Placed([], length, fromTail) == []
    ensures |Placed(hits, length, fromTail)| == |hits|
    ensures Placed(hits + [index], length, fromTail)
         == Placed(hits, length, fromTail) + [if fromTail then length - 1 - index else index]
  {
  }

  /** The part of the list a scan looks at: `maxlen` elements from its end (0: no limit). */
  ghost function Scanned(s: seq<Bytes>, fromTail: bool, maxlen: nat): seq<Bytes> {
    if maxlen == 0 || maxlen >= |s| then s else if fromTail then s[|s| - maxlen..] else s[..maxlen]
  }

  /** How many indexes are returned: those from the `nth` copy on, at most `count` of them (0: no limit). */
  ghost function HowMany(copies: nat, nth: nat, count: nat): nat
    requires nth > 0
  {
    var all := if copies < nth then 0 else copies - nth + 1;
    if count == 0 || all <= count then all else count
  }

  lemma ScannedMirror(s: seq<Bytes>, v: Bytes, maxlen: nat)
    ensures Occurrences(Scanned(Reversed(s), false, maxlen), v) == Occurrences(Scanned(s, true, maxlen), v)
    ensures Scanned(s, false, maxlen) == s[..|Scanned(s, false, maxlen)|]
  {
    OccurrencesReversed(s, v);
    if 0 < maxlen < |s| {
      ReversedCut(s, |s| - maxlen);
      OccurrencesReversed(s[|s| - maxlen..], v);
    }
  }

  lemma HitMirror(s: seq<Bytes>, v: Bytes, rank: int, count: nat, maxlen: nat, p: int)
    requires rank != 0
    ensures Hit(s, v, rank, count, maxlen, p) <==> Hit(Reversed(s), v, -rank, count, maxlen, |s| - 1 - p)
  {
    if 0 <= p < |s| {
      if rank < 0 {
        ReversedCut(s, p);
        OccurrencesReversed(s[p..], v);
      } else {
        ReversedCut(s, p + 1);
        OccurrencesReversed(s[..p + 1], v);
      }
    }
  }

  /** A negative RANK answers for the reversed list, with the indexes mirrored. */
  lemma AnswerMirror(s: seq<Bytes>, v: Bytes, rank: int, count: nat, maxlen: nat, found: seq<int>)
    requires rank != 0
    requires Answer(s, v, rank, count, maxlen, found)
    ensures Answer(Reversed(s), v, -rank, count, maxlen, Mirrored(found, |s|))
  {
    var back := Mirrored(found, |s|);
    forall p
      ensures p in back <==> Hit(Reversed(s), v, -rank, count, maxlen, p)
    {
      HitMirror(s, v, rank, count, maxlen, |s| - 1 - p);
      assert p in back <==> (|s| - 1 - p) in found by {
        if |s| - 1 - p in found {
          var i :| 0 <= i < |found| && found[i] == |s| - 1 - p;
          assert back[i] == p;
        }
      }
    }
  }

  lemma {:induction false} OrderedUnique(one: seq<int>, two: seq<int>, descending: bool)
    requires Ordered(one, descending) && Ordered(two, descending)
    requires forall p :: p in one <==> p in two
    ensures one == two
  {
    if one != [] {
      assert one[0] in one;
    }
    if two != [] {
      assert two[0] in two;
    }
    if one != [] {
      var i :| 0 <= i < |two| && two[i] == one[0];
      var j :| 0 <= j < |one| && one[j] == two[0];
      assert one[0] == two[0];
      forall p
        ensures p in one[1..] <==> p in two[1..]
      {
        assert p in one[1..] <==> p in one && p != one[0];
        assert p in two[1..] <==> p in two && p != two[0];
      }
      OrderedUnique(one[1..], two[1..], descending);
    }
  }

  lemma AnswerUnique(s: seq<Bytes>, v: Bytes, rank: int, count: nat, maxlen: nat, one: seq<int>, two: seq<int>)
    requires Answer(s, v, rank, count, maxlen, one) && Answer(s, v, rank, count, maxlen, two)
    ensures one == two
  {
    OrderedUnique(one, two, rank < 0);
  }

  // ----- The commands

  datatype Position = Nil | One(index: int) | Many(indexes: seq<int>)

  /** The list keys of the store, the deadlines some of them have, and the keys reported as written, in order. */
  class ListCommands {
    var lists: map<Bytes, seq<Bytes>>
    var deadlines: map<Bytes, int>
    var writes: seq<Bytes>

    /** No key holds an empty list, and only keys have deadlines. */
    ghost predicate Valid()
      reads this
    {
      (forall key :: key in lists ==> lists[key] != []) && deadlines.Keys <= lists.Keys
    }

    constructor ()
      ensures Valid() && lists == map[] && deadlines == map[] && writes == []
    {
      lists, deadlines := map[], map[];
      writes := [];
    }

    method Lrem(key: Bytes, count: int, v: Bytes) returns (removed: nat)
      requires Valid()
      modifies this
      ensures Valid()
      ensures key !in old(lists) ==> removed == 0
      ensures key in old(lists) ==> removed == Quota(count, Occurrences(old(lists)[key], v))
      ensures removed == 0 ==> lists == old(lists) && writes == old(writes)
      ensures deadlines == if key in lists then old(deadlines) else old(deadlines) - {key}
      ensures removed > 0 ==> writes == old(writes) + [key]
      ensures removed > 0 && key in lists ==>
                Trimmed(old(lists)[key], v, removed, count < 0, lists[key])
                && lists == old(lists)[key := lists[key]]
      ensures removed > 0 && key !in lists ==>
                Trimmed(old(lists)[key], v, removed, count < 0, [])
                && lists == old(lists) - {key}
    {
      if key !in lists {
        return 0;
      }
      var kept;
      if count >= 0 {
        removed, kept := TrimHead(lists[key], count, v);
      } else {
        removed, kept := TrimTail(lists[key], count, v);
      }
      if removed > 0 {
        writes := writes + [key];
        if kept != [] {
          lists := lists[key := kept];
        } else {
          lists, deadlines := lists - {key}, deadlines - {key};
        }
      }
    }

    method Lpos(key: Bytes, v: Bytes, rank: int, count: int, maxlen: nat) returns (reply: Position)
      requires rank != 0 && count >= -1
      ensures key !in lists ==> reply == if count == -1 then Nil else Many([])
      ensures key in lists && count == -1 ==>
                (reply.Nil? && Answer(lists[key], v, rank, 1, maxlen, []))
                || (reply.One? && Answer(lists[key], v, rank, 1, maxlen, [reply.index]))
      ensures key in lists && count >= 0 ==>
                reply.Many? && Answer(lists[key], v, rank, count, maxlen, reply.indexes)
                && |reply.indexes| ==
                   HowMany(Occurrences(Scanned(lists[key], rank < 0, maxlen), v), if rank < 0 then -rank else rank, count)
    {
      if key !in lists {
        return if count == -1 then Nil else Many([]);
      }
      reply := Positions(lists[key], v, rank, count, maxlen);
    }
  }

  /** The forward scan: every match counts while the quota lasts. */
  method TrimHead(s: seq<Bytes>, count: nat, v: Bytes) returns (removed: nat, kept: seq<Bytes>)
    ensures removed == Quota(count, Occurrences(s, v))
    ensures Trimmed(s, v, removed, false, kept)
  {
    removed, kept := 0, [];
    ghost var cut := 0;
    hide Occurrences, Without;
    NoneInNothing();
    assert s[..0] == [];
    for i := 0 to |s|
      invariant cut <= i
      invariant kept == Without(s[..cut], v) + s[cut..i]
      invariant removed == Occurrences(s[..cut], v)
      invariant count == 0 || removed < count ==> cut == i
      invariant count > 0 ==> removed <= count
    {
      OccurrencesStep(s, v, i);
      if count == 0 || removed < count {
        assert s[..i + 1][..i] == s[..i];
        cut := i + 1;
      }
      if s[i] == v && (count == 0 || removed < count) {
        removed := removed + 1;
      } else {
        kept := kept + [s[i]];
      }
    }
    assert s[..|s|] == s;
    assert s[cut..|s|] == s[cut..];
    OccurrencesCut(s, v, cut);
    assert TrimmedAt(s, v, removed, false, kept, cut);
  }

  /** The scan from the tail, building what is kept from the right. */
  method TrimTail(s: seq<Bytes>, count: int, v: Bytes) returns (removed: nat, kept: seq<Bytes>)
    requires count < 0
    ensures removed == Quota(count, Occurrences(s, v))
    ensures Trimmed(s, v, removed, true, kept)
  {
    hide Occurrences, Without;
    var limit := -count;
    NoneInNothing();
    removed, kept := 0, [];
    ghost var cut := |s|;
    assert s[|s|..] == [];
    for i := |s| downto 0
      invariant i <= cut <= |s|
      invariant kept == s[i..cut] + Without(s[cut..], v)
      invariant removed == Occurrences(s[cut..], v) <= limit
      invariant removed < limit ==> cut == i
    {
      OccurrencesStep(s, v, i);
      if removed < limit {
        assert s[i..] == [s[i]] + s[i + 1..];
        WithoutOne(s[i], v);
        WithoutJoins([s[i]], s[i + 1..], v);
        cut := i;
      }
      if s[i] == v && removed < limit {
        removed := removed + 1;
      } else {
        kept := [s[i]] + kept;
      }
    }
    OccurrencesCut(s, v, cut);
    assert TrimmedAt(s, v, removed, true, kept, cut);
  }

  /** The hits among the first `bound` elements of a forward walk. */
  ghost predicate Collected(walk: seq<Bytes>, v: Bytes, nth: nat, count: nat, maxlen: nat, bound: nat, hits: seq<int>)
  {
    && Ordered(hits, false)
    && (forall p :: p in hits <==> p < bound && Hit(walk, v, nth, count, maxlen, p))
  }

  lemma CollectNone(walk: seq<Bytes>, v: Bytes, nth: nat, count: nat, maxlen: nat)
    ensures Collected(walk, v, nth, count, maxlen, 0, [])
  {
  }

  /** Standing at an index inside MAXLEN, a hit is a copy whose turn has come. */
  lemma HitNow(walk: seq<Bytes>, v: Bytes, nth: nat, count: nat, maxlen: nat, index: nat)
    requires index < |walk| && (maxlen == 0 || index < maxlen)
    ensures Hit(walk, v, nth, count, maxlen, index) <==>
              && walk[index] == v
              && nth <= Occurrences(walk[..index], v) + 1
              && (count == 0 || Occurrences(walk[..index], v) + 1 < nth + count)
  {
    OccurrencesStep(walk, v, index);
  }

  lemma CollectNext(walk: seq<Bytes>, v: Bytes, nth: nat, count: nat, maxlen: nat, bound: nat, hits: seq<int>)
    requires bound < |walk|
    requires Collected(walk, v, nth, count, maxlen, bound, hits)
    ensures Hit(walk, v, nth, count, maxlen, bound) ==> Collected(walk, v, nth, count, maxlen, bound + 1, hits + [bound])
    ensures !Hit(walk, v, nth, count, maxlen, bound) ==> Collected(walk, v, nth, count, maxlen, bound + 1, hits)
  {
    assert forall i :: 0 <= i < |hits| ==> hits[i] in hits;
    assert forall p :: p in hits + [bound] <==> p in hits || p == bound;
  }

  /**
   The scan may stop at MAXLEN, at the end, or once COUNT copies from the
   |RANK|-th on have gone by: nothing further on is a hit.
   */
  lemma CollectedAll(walk: seq<Bytes>, v: Bytes, nth: nat, count: nat, maxlen: nat, bound: nat, hits: seq<int>)
    requires bound <= |walk|
    requires Collected(walk, v, nth, count, maxlen, bound, hits)
    requires || bound == |walk|
             || (0 < maxlen <= bound)
             || (count > 0 && Occurrences(walk[..bound], v) >= nth + count - 1)
    ensures Answer(walk, v, nth, count, maxlen, hits)
  {
    forall p | bound <= p < |walk|
      ensures !Hit(walk, v, nth, count, maxlen, p)
    {
      OccurrencesStep(walk, v, p);
      OccurrencesGrow(walk, v, bound, p);
    }
  }

  lemma FromWalk(s: seq<Bytes>, v: Bytes, rank: int, count: nat, maxlen: nat, hits: seq<int>)
    requires rank != 0
    requires Answer(if rank < 0 then Reversed(s) else s, v, if rank < 0 then -rank else rank, count, maxlen, hits)
    ensures Answer(s, v, rank, count, maxlen, Placed(hits, |s|, rank < 0))
  {
    if rank < 0 {
      AnswerMirror(Reversed(s), v, -rank, count, maxlen, hits);
      ReversedTwice(s);
    }
  }

  /** A scan that stops inside MAXLEN has seen no more copies than there are to be seen; at its end, all of them. */
  lemma StopsWithin(walk: seq<Bytes>, v: Bytes, index: nat, maxlen: nat)
    requires index <= |walk| && (maxlen == 0 || index <= maxlen)
    ensures Occurrences(walk[..index], v) <= Occurrences(Scanned(walk, false, maxlen), v)
    ensures index == |walk| || (maxlen > 0 && index == maxlen) ==>
              Occurrences(walk[..index], v) == Occurrences(Scanned(walk, false, maxlen), v)
  {
    ScannedMirror(walk, v, maxlen);
    var limit := |Scanned(walk, false, maxlen)|;
    OccurrencesGrow(walk, v, index, limit);
    assert index == |walk| ==> walk[..index] == walk;
  }

  /** The scan, from either end; `nth` and `hits` are in the coordinates of the walk. */
  method Positions(s: seq<Bytes>, v: Bytes, rank: int, count: int, maxlen: nat) returns (reply: Position)
    requires rank != 0 && count >= -1
    ensures count == -1 ==>
              || (reply.Nil? && Answer(s, v, rank, 1, maxlen, []))
              || (reply.One? && Answer(s, v, rank, 1, maxlen, [reply.index]))
    ensures count >= 0 ==> reply.Many? && Answer(s, v, rank, count, maxlen, reply.indexes)
    ensures count >= 0 ==>
              |reply.indexes| == HowMany(Occurrences(Scanned(s, rank < 0, maxlen), v), if rank < 0 then -rank else rank, count)
    ensures count == -1 ==>
              (reply.Nil? <==> Occurrences(Scanned(s, rank < 0, maxlen), v) < if rank < 0 then -rank else rank)
  {
    hide Hit, Collected, Answer, Occurrences, Placed, Reversed, Ordered, Mirrored;
    NoneInNothing();
    var fromTail := rank < 0;
    var nth: nat := if fromTail then -rank else rank;
    var walk := if fromTail then Reversed(s) else s;
    ghost var cap: nat := if count == -1 then 1 else count;
    ghost var hits: seq<int> := [];
    var matches: nat, index: nat, found := 0, 0, [];
    PlacedSnoc([], 0, |s|, fromTail);
    CollectNone(walk, v, nth, cap, maxlen);
    assert walk[..0] == [];
    while index < |walk|
      invariant index <= |walk|
      invariant matches == Occurrences(walk[..index], v)
      invariant Collected(walk, v, nth, cap, maxlen, index, hits)
      invariant found == Placed(hits, |s|, fromTail)
      invariant |hits| == if matches < nth then 0 else matches - nth + 1
      invariant cap > 0 ==> |hits| < cap
      invariant maxlen > 0 ==> index <= maxlen
    {
      if maxlen > 0 && index >= maxlen {
        break;
      }
      OccurrencesStep(walk, v, index);
      HitNow(walk, v, nth, cap, maxlen, index);
      CollectNext(walk, v, nth, cap, maxlen, index, hits);
      var next := if fromTail then |s| - 1 - index else index;
      var matched := walk[index] == v;
      index := index + 1;
      if matched {
        matches := matches + 1;
        if matches >= nth {
          PlacedSnoc(hits, index - 1, |s|, fromTail);
          hits := hits + [index - 1];
          found := found + [next];
          if count == -1 {
            CollectedAll(walk, v, nth, cap, maxlen, index, hits);
            FromWalk(s, v, rank, cap, maxlen, hits);
            assert found == Placed(hits, |s|, rank < 0);
            assert found == [next];
            StopsWithin(walk, v, index, maxlen);
            ScannedMirror(s, v, maxlen);
            return One(next);
          }
          if count > 0 && |found| >= count {
            break;
          }
        }
      }
    }
    CollectedAll(walk, v, nth, cap, maxlen, index, hits);
    FromWalk(s, v, rank, cap, maxlen, hits);
    assert found == Placed(hits, |s|, rank < 0);
    assert count == -1 ==> found == [];
    PlacedSnoc(hits, 0, |s|, fromTail);
    StopsWithin(walk, v, index, maxlen);
    ScannedMirror(s, v, maxlen);
    return if count == -1 then Nil else Many(found);
  }

  // ----- Which copies go, and which are found

  /** A count of zero takes every copy; any other takes at most as many as it says, whichever its sign. */
  lemma QuotaMeans(count: int, available: nat)
    ensures count == 0 ==> Quota(count, available) == available
    ensures count != 0 ==> Quota(count, available) <= (if count < 0 then -count else count)
    ensures Quota(count, available) <= available
    ensures count != 0 && Quota(count, available) < available ==>
              Quota(count, available) == (if count < 0 then -count else count)
  {
  }

  /** From the head, the first copy goes first: what is left of a list that starts with one is left of the others. */
  lemma HeadGoesFirst(s: seq<Bytes>, v: Bytes, n: nat, kept: seq<Bytes>)
    requires Trimmed([v] + s, v, n + 1, false, kept)
    ensures Trimmed(s, v, n, false, kept)
  {
    var all := [v] + s;
    var cut: nat :| TrimmedAt(all, v, n + 1, false, kept, cut);
    NoneInNothing();
    assert cut > 0 by {
      assert all[..0] == [];
    }
    assert all[..cut] == [v] + s[..cut - 1] && all[cut..] == s[cut - 1..];
    WithoutOne(v, v);
    WithoutJoins([v], s[..cut - 1], v);
    OccurrencesJoin([v], s[..cut - 1], v);
    assert TrimmedAt(s, v, n, false, kept, cut - 1);
  }

  /** And of a list with copies at both ends, one copy is taken at the end that is asked for. */
  lemma TheNamedEnd(s: seq<Bytes>, v: Bytes, kept: seq<Bytes>)
    ensures Trimmed([v] + s + [v], v, 1, false, kept) <==> kept == s + [v]
    ensures Trimmed([v] + s + [v], v, 1, true, kept) <==> kept == [v] + s
  {
    var all := [v] + s + [v];
    WithoutOne(v, v);
    assert all[..1] == [v] && all[1..] == s + [v];
    assert all[..|s| + 1] == [v] + s && all[|s| + 1..] == [v];
    assert [] + (s + [v]) == s + [v] && [v] + s + [] == [v] + s;
    assert Occurrences([v], v) == 1;
    assert TrimmedAt(all, v, 1, false, s + [v], 1);
    assert TrimmedAt(all, v, 1, true, [v] + s, |s| + 1);
    if Trimmed(all, v, 1, false, kept) {
      TrimmedUnique(all, v, 1, false, kept, s + [v]);
    }
    if Trimmed(all, v, 1, true, kept) {
      TrimmedUnique(all, v, 1, true, kept, [v] + s);
    }
  }

  lemma FirstCopy(s: seq<Bytes>, v: Bytes, p: nat)
    requires p < |s| && s[p] == v && v !in s[..p]
    ensures Answer(s, v, 1, 1, 0, [p as int])
  {
    assert Occurrences(s[..p], v) == 0;
    hide Occurrences;
    OccurrencesStep(s, v, p);
    assert forall q :: 0 <= q < p ==> s[q] == s[..p][q] && s[..p][q] in s[..p];
    forall q: int | p < q < |s| && s[q] == v
      ensures !Hit(s, v, 1, 1, 0, q)
    {
      OccurrencesStep(s, v, q);
      OccurrencesGrow(s, v, p + 1, q);
    }
  }

  lemma LastCopy(s: seq<Bytes>, v: Bytes, p: nat)
    requires p < |s| && s[p] == v && v !in s[p + 1..]
    ensures Answer(s, v, -1, 1, 0, [p as int])
  {
    assert Occurrences(s[p + 1..], v) == 0;
    hide Occurrences;
    OccurrencesStep(s, v, p);
    assert forall q :: p < q < |s| ==> s[q] == s[p + 1..][q - p - 1] && s[p + 1..][q - p - 1] in s[p + 1..];
    forall q: int | 0 <= q < p && s[q] == v
      ensures !Hit(s, v, -1, 1, 0, q)
    {
      OccurrencesStep(s, v, q);
      OccurrencesShrink(s, v, q + 1, p);
    }
  }

  /** The answer for RANK 1 is the first copy, and for RANK -1 the last. */
  lemma NearestCopy(s: seq<Bytes>, v: Bytes, rank: int, p: nat)
    requires rank == 1 || rank == -1
    requires p < |s| && s[p] == v
    requires if rank == 1 then v !in s[..p] else v !in s[p + 1..]
    ensures Answer(s, v, rank, 1, 0, [p as int])
  {
    if rank == 1 {
      FirstCopy(s, v, p);
    } else {
      LastCopy(s, v, p);
    }
  }

  lemma OccurrencesShrink(s: seq<Bytes>, v: Bytes, i: nat, j: nat)
    requires i <= j <= |s|
    ensures Occurrences(s[j..], v) <= Occurrences(s[i..], v)
  {
    assert s[i..] == s[i..j] + s[j..];
  }

  /** MAXLEN leaves what scanning only that many elements finds. */
  lemma MaxlenScansLess(s: seq<Bytes>, v: Bytes, rank: int, count: nat, maxlen: nat, p: int)
    requires rank != 0 && 0 < maxlen < |s|
    ensures rank > 0 ==>
              (Hit(s, v, rank, count, maxlen, p) <==> Hit(s[..maxlen], v, rank, count, 0, p))
    ensures rank < 0 ==>
              (Hit(s, v, rank, count, maxlen, p) <==> Hit(s[|s| - maxlen..], v, rank, count, 0, p - (|s| - maxlen)))
  {
    var base := |s| - maxlen;
    if rank > 0 && 0 <= p < maxlen {
      assert s[..maxlen][..p + 1] == s[..p + 1];
    }
    if rank < 0 && base <= p < |s| {
      assert s[base..][p - base..] == s[p..];
    }
  }
}
