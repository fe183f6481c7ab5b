/** The sorted-set container: a member-to-score map, and a list of pairs kept in order by bisection. */
module ZSets {
  import opened Bytes
  import opened Options

  datatype Pair = Pair(score: real, member: Bytes)

  // ----- The order of pairs

  predicate Less(p: Pair, q: Pair) {
    p.score < q.score || (p.score == q.score && BytesLess(p.member, q.member))
  }

  lemma LessTransitive(p: Pair, q: Pair, r: Pair)
    requires Less(p, q) && Less(q, r)
    ensures Less(p, r)
  {
    if p.score == q.score == r.score {
      BytesLessTransitive(p.member, q.member, r.member);
    }
  }

  lemma LessTotal(p: Pair, q: Pair)
    ensures Less(p, q) || p == q || Less(q, p)
    ensures !(Less(p, q) && Less(q, p)) && !Less(p, p)
  {
    BytesLessTotal(p.member, q.member);
  }

  ghost predicate Increasing(s: seq<Pair>) {
    forall i, j :: 0 <= i < j < |s| ==> Less(s[i], s[j])
  }

  /** The list holds exactly the map's entries. */
  ghost predicate Lists(s: seq<Pair>, scores: map<Bytes, real>) {
    && (forall p :: p in s ==> p.member in scores && scores[p.member] == p.score)
    && (forall m :: m in scores ==> Pair(scores[m], m) in s)
  }

  ghost predicate IsOrdering(s: seq<Pair>, scores: map<Bytes, real>) {
    Increasing(s) && Lists(s, scores)
  }

  lemma TailOrders(s: seq<Pair>, scores: map<Bytes, real>)
    requires s != [] && IsOrdering(s, scores)
    ensures IsOrdering(s[1..], scores - {s[0].member})
  {
    var rest := scores - {s[0].member};
    forall p | p in s[1..]
      ensures p.member in rest && rest[p.member] == p.score
    {
      var i :| 1 <= i < |s| && s[i] == p;
      LessTotal(s[0], p);
      assert p in s && s[0] in s;
    }
    forall m | m in rest
      ensures Pair(rest[m], m) in s[1..]
    {
      assert Pair(scores[m], m) in s;
    }
  }

  lemma {:induction false} OrderingSize(s: seq<Pair>, scores: map<Bytes, real>)
    requires IsOrdering(s, scores)
    ensures |s| == |scores|
    decreases |s|
  {
    if s == [] {
      assert scores == map[];
    } else {
      assert s[0] in s;
      TailOrders(s, scores);
      OrderingSize(s[1..], scores - {s[0].member});
      assert scores.Keys == (scores - {s[0].member}).Keys + {s[0].member};
    }
  }

  /** A map has only one ordering, so the list is a function of the map. */
  lemma {:induction false} OrderingUnique(s: seq<Pair>, t: seq<Pair>, scores: map<Bytes, real>)
    requires IsOrdering(s, scores) && IsOrdering(t, scores)
    ensures s == t
    decreases |s|
  {
    if s == [] {
      OrderingSize(s, scores);
      OrderingSize(t, scores);
    } else {
      assert s[0] in s && s[0] == Pair(scores[s[0].member], s[0].member);
      assert s[0] in t;
      assert t[0] in t && t[0] == Pair(scores[t[0].member], t[0].member);
      assert t[0] in s;
      var i :| 0 <= i < |t| && t[i] == s[0];
      var j :| 0 <= j < |s| && s[j] == t[0];
      LessTotal(s[0], t[0]);
      assert s[0] == t[0];
      var m := s[0].member;
      TailOrders(s, scores);
      TailOrders(t, scores);
      OrderingUnique(s[1..], t[1..], scores - {m});
    }
  }

  // ----- Bisection

  /** Index of the first pair that is not below `x`. */
  method BisectLeft(s: seq<Pair>, x: Pair) returns (i: nat)
    requires Increasing(s)
    ensures i <= |s|
    ensures forall k :: 0 <= k < i ==> Less(s[k], x)
    ensures forall k :: i <= k < |s| ==> !Less(s[k], x)
  {
    var lo, hi := 0, |s|;
    while lo < hi
      invariant 0 <= lo <= hi <= |s|
      invariant forall k :: 0 <= k < lo ==> Less(s[k], x)
      invariant forall k :: hi <= k < |s| ==> !Less(s[k], x)
    {
      var mid := (lo + hi) / 2;
      if Less(s[mid], x) {
        forall k | 0 <= k < mid ensures Less(s[k], x) {
          LessTransitive(s[k], s[mid], x);
        }
        lo := mid + 1;
      } else {
        forall k | mid < k < |s| ensures !Less(s[k], x) {
          if Less(s[k], x) {
            LessTransitive(s[mid], s[k], x);
          }
        }
        hi := mid;
      }
    }
    i := lo;
  }

  /** Index of the first pair above `x`. */
  method BisectRight(s: seq<Pair>, x: Pair) returns (i: nat)
    requires Increasing(s)
    ensures i <= |s|
    ensures forall k :: 0 <= k < i ==> !Less(x, s[k])
    ensures forall k :: i <= k < |s| ==> Less(x, s[k])
  {
    var lo, hi := 0, |s|;
    while lo < hi
      invariant 0 <= lo <= hi <= |s|
      invariant forall k :: 0 <= k < lo ==> !Less(x, s[k])
      invariant forall k :: hi <= k < |s| ==> Less(x, s[k])
    {
      var mid := (lo + hi) / 2;
      if Less(x, s[mid]) {
        forall k | mid < k < |s| ensures Less(x, s[k]) {
          LessTransitive(x, s[mid], s[k]);
        }
        hi := mid;
      } else {
        forall k | 0 <= k < mid ensures !Less(x, s[k]) {
          if Less(x, s[k]) {
            LessTransitive(x, s[k], s[mid]);
          }
        }
        lo := mid + 1;
      }
    }
    i := lo;
  }

  lemma PutBetween(s: seq<Pair>, x: Pair, t: seq<Pair>)
    requires Increasing(s + t)
    requires (forall k :: 0 <= k < |s| ==> Less(s[k], x)) && (forall k :: 0 <= k < |t| ==> Less(x, t[k]))
    ensures Increasing(s + [x] + t)
    ensures forall p :: p in s + [x] + t <==> p in s + t || p == x
  {
    hide Less;
    var whole, st := s + [x] + t, s + t;
    forall i, j | 0 <= i < j < |whole|
      ensures Less(whole[i], whole[j])
    {
      var i', j' := if i <= |s| then i else i - 1, if j <= |s| then j else j - 1;
      assert i != |s| ==> whole[i] == st[i'];
      assert j != |s| ==> whole[j] == st[j'];
    }
  }

  /** `insort`: the pair goes after everything that is not above it. */
  method Insort(s: seq<Pair>, x: Pair) returns (t: seq<Pair>)
    requires Increasing(s) && x !in s
    ensures Increasing(t)
    ensures forall p :: p in t <==> p in s || p == x
    ensures |t| == |s| + 1
  {
    hide Less, BytesLess;
    var i := BisectRight(s, x);
    t := s[..i] + [x] + s[i..];
    forall k | 0 <= k < i ensures Less(s[k], x) {
      LessTotal(s[k], x);
      assert s[k] in s;
    }
    PutBetween(s[..i], x, s[i..]);
    assert s == s[..i] + s[i..];
  }

  /** The two bisections on the score alone. */
  method BisectScoreLeft(s: seq<Pair>, x: real) returns (i: nat)
    requires Increasing(s)
    ensures i <= |s|
    ensures forall k :: 0 <= k < i ==> s[k].score < x
    ensures forall k :: i <= k < |s| ==> s[k].score >= x
  {
    var lo, hi := 0, |s|;
    while lo < hi
      invariant 0 <= lo <= hi <= |s|
      invariant forall k :: 0 <= k < lo ==> s[k].score < x
      invariant forall k :: hi <= k < |s| ==> s[k].score >= x
    {
      var mid := (lo + hi) / 2;
      if s[mid].score < x {
        assert forall k :: 0 <= k < mid ==> Less(s[k], s[mid]);
        lo := mid + 1;
      } else {
        assert forall k :: mid < k < |s| ==> Less(s[mid], s[k]);
        hi := mid;
      }
    }
    i := lo;
  }

  method BisectScoreRight(s: seq<Pair>, x: real) returns (i: nat)
    requires Increasing(s)
    ensures i <= |s|
    ensures forall k :: 0 <= k < i ==> s[k].score <= x
    ensures forall k :: i <= k < |s| ==> s[k].score > x
  {
    var lo, hi := 0, |s|;
    while lo < hi
      invariant 0 <= lo <= hi <= |s|
      invariant forall k :: 0 <= k < lo ==> s[k].score <= x
      invariant forall k :: hi <= k < |s| ==> s[k].score > x
    {
      var mid := (lo + hi) / 2;
      if x < s[mid].score {
        assert forall k :: mid < k < |s| ==> Less(s[mid], s[k]);
        hi := mid;
      } else {
        assert forall k :: 0 <= k < mid ==> Less(s[k], s[mid]);
        lo := mid + 1;
      }
    }
    i := lo;
  }

  // ----- Filters and windows

  /** The pairs that satisfy `f`, in their order. */
  function Filter(s: seq<Pair>, f: Pair -> bool): seq<Pair> {
    if s == [] then []
    else Filter(s[..|s| - 1], f) + (if f(s[|s| - 1]) then [s[|s| - 1]] else [])
  }

  /** A slice outside which `f` is false, and inside which it is true, is the filter. */
  lemma {:induction false} FilterIsSlice(s: seq<Pair>, f: Pair -> bool, lo: nat, hi: nat)
    requires lo <= hi <= |s|
    requires forall k :: 0 <= k < |s| ==> (f(s[k]) <==> lo <= k < hi)
    ensures Filter(s, f) == s[lo..hi]
    decreases |s|
  {
    if s != [] {
      var init := s[..|s| - 1];
      assert forall k :: 0 <= k < |init| ==> init[k] == s[k];
      if hi == |s| {
        if lo < hi {
          FilterIsSlice(init, f, lo, hi - 1);
          assert s[lo..hi] == init[lo..hi - 1] + [s[|s| - 1]];
        } else {
          FilterIsSlice(init, f, |init|, |init|);
        }
      } else {
        FilterIsSlice(init, f, lo, hi);
        assert s[lo..hi] == init[lo..hi];
      }
    }
  }

  lemma {:induction false} FilterMembers(s: seq<Pair>, f: Pair -> bool)
    ensures forall p :: p in Filter(s, f) <==> p in s && f(p)
  {
    if s != [] {
      FilterMembers(s[..|s| - 1], f);
      assert s == s[..|s| - 1] + [s[|s| - 1]];
    }
  }

  lemma {:induction false} FilterIncreasing(s: seq<Pair>, f: Pair -> bool)
    requires Increasing(s)
    ensures Increasing(Filter(s, f))
  {
    if s != [] {
      var init := s[..|s| - 1];
      FilterIncreasing(init, f);
      FilterMembers(init, f);
      var kept := Filter(init, f);
      forall k | 0 <= k < |kept| ensures Less(kept[k], s[|s| - 1]) {
        assert kept[k] in kept && kept[k] in init;
      }
    }
  }

  /** A score window with open or closed ends. */
  predicate InScores(lo: real, loOpen: bool, hi: real, hiOpen: bool, p: Pair) {
    (if loOpen then lo < p.score else lo <= p.score) && (if hiOpen then p.score < hi else p.score <= hi)
  }

  function ScoreWindow(lo: real, loOpen: bool, hi: real, hiOpen: bool): Pair -> bool {
    p => InScores(lo, loOpen, hi, hiOpen, p)
  }

  /** A member window; `None` is an unbounded end. */
  predicate InMembers(lo: Option<Bytes>, loOpen: bool, hi: Option<Bytes>, hiOpen: bool, p: Pair) {
    && (lo.Some? ==> BytesLess(lo.value, p.member) || (!loOpen && p.member == lo.value))
    && (hi.Some? ==> BytesLess(p.member, hi.value) || (!hiOpen && p.member == hi.value))
  }

  function MemberWindow(lo: Option<Bytes>, loOpen: bool, hi: Option<Bytes>, hiOpen: bool): Pair -> bool {
    p => InMembers(lo, loOpen, hi, hiOpen, p)
  }

  /** Where a window's ends are: a closed end takes the pairs on it, an open end does not; what is beyond stays out. */
  lemma ScoreEnds(lo: real, loOpen: bool, hi: real, hiOpen: bool, p: Pair)
    ensures p.score < lo || p.score > hi ==> !InScores(lo, loOpen, hi, hiOpen, p)
    ensures lo < p.score < hi ==> InScores(lo, loOpen, hi, hiOpen, p)
    ensures p.score == lo < hi ==> (InScores(lo, loOpen, hi, hiOpen, p) <==> !loOpen)
    ensures lo < hi == p.score ==> (InScores(lo, loOpen, hi, hiOpen, p) <==> !hiOpen)
    ensures lo == hi == p.score ==> (InScores(lo, loOpen, hi, hiOpen, p) <==> !loOpen && !hiOpen)
  {
  }

  lemma {:induction false} MemberEnds(lo: Bytes, loOpen: bool, hi: Bytes, hiOpen: bool, p: Pair)
    ensures InMembers(None, loOpen, None, hiOpen, p)
    ensures InMembers(Some(lo), loOpen, None, hiOpen, p) <==> if p.member == lo then !loOpen else BytesLess(lo, p.member)
    ensures InMembers(None, loOpen, Some(hi), hiOpen, p) <==> if p.member == hi then !hiOpen else BytesLess(p.member, hi)
    ensures InMembers(Some(lo), loOpen, Some(hi), hiOpen, p) <==>
            InMembers(Some(lo), loOpen, None, hiOpen, p) && InMembers(None, loOpen, Some(hi), hiOpen, p)
  {
    BytesLessTotal(lo, lo);
    BytesLessTotal(hi, hi);
  }

  /** A rank window as redis reads it: a negative index counts from the end. */
  function FromEnd(index: int, length: nat): int { if index < 0 then index + length else index }

  predicate InRanks(start: int, end: int, length: nat, rank: nat) {
    rank < length && FromEnd(start, length) <= rank <= FromEnd(end, length)
  }

  datatype Slice = Slice(lo: nat, hi: nat)

  /** The half-open slice a rank window selects. */
  function RankSlice(start: int, end: int, length: nat): (slice: Slice)
    ensures slice.lo <= slice.hi <= length
  {
    var first := if FromEnd(start, length) < 0 then 0 else FromEnd(start, length);
    var last := FromEnd(end, length);
    if first > last || first >= length then Slice(0, 0)
    else Slice(first, if last >= length then length else last + 1)
  }

  /** It selects exactly the ranks in the window. */
  lemma RankSliceMeaning(start: int, end: int, length: nat, rank: nat)
    ensures InRanks(start, end, length, rank) <==>
            RankSlice(start, end, length).lo <= rank < RankSlice(start, end, length).hi
  {
  }

  /** The map without the entries whose pair satisfies `f`. */
  function Without(scores: map<Bytes, real>, f: Pair -> bool): map<Bytes, real> {
    map m | m in scores && !f(Pair(scores[m], m)) :: scores[m]
  }

  lemma {:induction false} FilterNext(s: seq<Pair>, f: Pair -> bool, k: nat)
    requires k < |s|
    ensures Filter(s[..k + 1], f) == Filter(s[..k], f) + (if f(s[k]) then [s[k]] else [])
  {
    assert s[..k + 1][..k] == s[..k];
  }

  /** What lies outside a member window: what is beyond a bound, or on an open one. */
  lemma OutsideMembers(scores: map<Bytes, real>, lo: Option<Bytes>, loOpen: bool, hi: Option<Bytes>, hiOpen: bool)
    ensures forall m :: m in Without(scores, MemberWindow(lo, loOpen, hi, hiOpen)) <==>
              m in scores &&
              ((lo.Some? && (if m == lo.value then loOpen else BytesLess(m, lo.value))) ||
               (hi.Some? && (if m == hi.value then hiOpen else BytesLess(hi.value, m))))
    ensures forall m :: m in Without(scores, MemberWindow(lo, loOpen, hi, hiOpen)) ==>
              Without(scores, MemberWindow(lo, loOpen, hi, hiOpen))[m] == scores[m]
  {
    hide BytesLess;
    forall m, b | (lo.Some? && b == lo.value) || (hi.Some? && b == hi.value)
      ensures (m == b || BytesLess(m, b) <==> !BytesLess(b, m)) && (m == b || BytesLess(b, m) <==> !BytesLess(m, b))
      ensures m == b ==> !BytesLess(m, b) && !BytesLess(b, m)
    {
      BytesLessTotal(m, b);
    }
  }

  // ----- Edits of the list

  ghost function Among(ps: seq<Pair>): Pair -> bool { p => p in ps }

  function Outside(f: Pair -> bool): Pair -> bool { p => !f(p) }

  lemma DropOne(scores: map<Bytes, real>, ps: seq<Pair>, p: Pair)
    requires p.member in scores && scores[p.member] == p.score
    ensures Without(scores, Among(ps)) - {p.member} == Without(scores, Among(ps + [p]))
  {
  }

  lemma WithoutNone(scores: map<Bytes, real>)
    ensures Without(scores, Among([])) == scores
  {
  }

  lemma DropNext(s: seq<Pair>, scores: map<Bytes, real>, lo: nat, k: nat)
    requires IsOrdering(s, scores) && lo <= k < |s|
    ensures Without(scores, Among(s[lo..k])) - {s[k].member} == Without(scores, Among(s[lo..k + 1]))
  {
    hide Without, Increasing;
    assert s[lo..k + 1] == s[lo..k] + [s[k]];
    assert s[k] in s;
    DropOne(scores, s[lo..k], s[k]);
  }

  lemma InSlice(s: seq<Pair>, lo: nat, hi: nat)
    requires Increasing(s) && lo <= hi <= |s|
    ensures forall k :: 0 <= k < |s| ==> (Among(s[lo..hi])(s[k]) <==> lo <= k < hi)
  {
    forall k | 0 <= k < |s|
      ensures s[k] in s[lo..hi] <==> lo <= k < hi
    {
      if lo <= k < hi {
        assert s[lo..hi][k - lo] == s[k];
      }
      forall j | lo <= j < hi && s[j] == s[k] ensures j == k {
        LessTotal(s[j], s[k]);
      }
    }
  }

  lemma SliceIs(s: seq<Pair>, scores: map<Bytes, real>, f: Pair -> bool, lo: nat, hi: nat)
    requires IsOrdering(s, scores) && lo <= hi <= |s|
    requires forall k :: 0 <= k < |s| ==> (f(s[k]) <==> lo <= k < hi)
    ensures Without(scores, Among(s[lo..hi])) == Without(scores, f)
  {
    InSlice(s, lo, hi);
    forall m | m in scores
      ensures Among(s[lo..hi])(Pair(scores[m], m)) == f(Pair(scores[m], m))
    {
      var k :| 0 <= k < |s| && s[k] == Pair(scores[m], m);
    }
  }

  /** Keeping the pairs outside a window orders the map without the window. */
  lemma {:induction false} FilterOrders(s: seq<Pair>, scores: map<Bytes, real>, f: Pair -> bool)
    requires IsOrdering(s, scores)
    ensures IsOrdering(Filter(s, Outside(f)), Without(scores, f))
    ensures Without(scores, Among(Filter(s, f))) == Without(scores, f)
  {
    FilterIncreasing(s, Outside(f));
    FilterMembers(s, Outside(f));
    FilterMembers(s, f);
  }

  lemma SubIncreasing(s: seq<Pair>, lo: nat, hi: nat)
    requires Increasing(s) && lo <= hi <= |s|
    ensures Increasing(s[..lo] + s[hi..])
    ensures forall p :: p in s[..lo] + s[hi..] <==> p in s && p !in s[lo..hi]
  {
    var t := s[..lo] + s[hi..];
    assert s == s[..lo] + s[lo..hi] + s[hi..];
    forall p | p in t
      ensures p !in s[lo..hi]
    {
      var k :| 0 <= k < |t| && t[k] == p;
      forall j | lo <= j < hi ensures s[j] != p {
        LessTotal(s[j], p);
      }
    }
  }

  /** Cutting the slice of a window out of the list is dropping the window's entries from the map. */
  lemma CutSlice(s: seq<Pair>, scores: map<Bytes, real>, f: Pair -> bool, lo: nat, hi: nat)
    requires IsOrdering(s, scores) && lo <= hi <= |s|
    requires forall k :: 0 <= k < |s| ==> (f(s[k]) <==> lo <= k < hi)
    ensures IsOrdering(s[..lo] + s[hi..], Without(scores, f))
  {
    var t := s[..lo] + s[hi..];
    SubIncreasing(s, lo, hi);
    InSlice(s, lo, hi);
    forall p
      ensures p in t <==> p in s && !f(p)
    {
      if p in s {
        var k :| 0 <= k < |s| && s[k] == p;
        assert Among(s[lo..hi])(s[k]) <==> lo <= k < hi;
      }
    }
  }

  class ZSet {
    var scores: map<Bytes, real>
    var sorted: seq<Pair>

    /** Strictly increasing by score and member, and exactly the map's entries. */
    ghost predicate Valid()
      reads this
    {
      IsOrdering(sorted, scores)
    }

    constructor ()
      ensures Valid() && scores == map[]
    {
      scores, sorted := map[], [];
    }

    method Len() returns (n: nat)
      requires Valid()
      ensures n == |scores|
    {
      OrderingSize(sorted, scores);
      n := |sorted|;
    }

    method Score(member: Bytes) returns (score: Option<real>)
      ensures score == if member in scores then Some(scores[member]) else None
    {
      score := if member in scores then Some(scores[member]) else None;
    }

    /** The number of pairs below the member's own. */
    method Rank(member: Bytes) returns (rank: Option<nat>)
      requires Valid()
      ensures rank.Some? <==> member in scores
      ensures rank.Some? ==>
                var p := Pair(scores[member], member);
                && rank.value < |sorted| && sorted[rank.value] == p
                && rank.value == |Filter(sorted, q => Less(q, p))|
    {
      if member !in scores {
        return None;
      }
      var p := Pair(scores[member], member);
      var i := BisectLeft(sorted, p);
      FoundAt(sorted, p, i);
      FilterIsSlice(sorted, q => Less(q, p), 0, i);
      rank := Some(i);
    }

    /** Adds or moves a member; reports whether its score changed. */
    method Add(member: Bytes, score: real) returns (changed: bool)
      requires Valid()
      modifies this
      ensures Valid()
      ensures scores == old(scores)[member := score]
      ensures changed <==> member !in old(scores) || old(scores)[member] != score
    {
      if member in scores {
        if scores[member] == score {
          return false;
        }
        var current := Pair(scores[member], member);
        var i := BisectLeft(sorted, current);
        FoundAt(sorted, current, i);
        CutOne(sorted, scores, i);
        sorted := sorted[..i] + sorted[i + 1..];
        scores := scores - {member};
      }
      sorted := Insort(sorted, Pair(score, member));
      scores := scores[member := score];
      changed := true;
    }

    method Remove(member: Bytes) returns (present: bool)
      requires Valid()
      modifies this
      ensures Valid()
      ensures scores == old(scores) - {member}
      ensures present <==> member in old(scores)
    {
      if member !in scores {
        return false;
      }
      var p := Pair(scores[member], member);
      var i := BisectLeft(sorted, p);
      FoundAt(sorted, p, i);
      CutOne(sorted, scores, i);
      scores := scores - {member};
      sorted := sorted[..i] + sorted[i + 1..];
      present := true;
    }

    method ScoreBounds(lo: real, loOpen: bool, hi: real, hiOpen: bool) returns (start: nat, end: nat)
      requires Valid()
      ensures start <= |sorted| && end <= |sorted|
      ensures forall k :: 0 <= k < |sorted| ==> (InScores(lo, loOpen, hi, hiOpen, sorted[k]) <==> start <= k < end)
    {
      if loOpen {
        start := BisectScoreRight(sorted, lo);
      } else {
        start := BisectScoreLeft(sorted, lo);
      }
      if hiOpen {
        end := BisectScoreLeft(sorted, hi);
      } else {
        end := BisectScoreRight(sorted, hi);
      }
    }

    /** The pairs of a score window, in rank order: the in-order filter of all pairs. */
    method ScorePairs(lo: real, loOpen: bool, hi: real, hiOpen: bool) returns (pairs: seq<Pair>)
      requires Valid()
      ensures pairs == Filter(sorted, ScoreWindow(lo, loOpen, hi, hiOpen))
    {
      var start, end := ScoreBounds(lo, loOpen, hi, hiOpen);
      var stop := if end < start then start else end;
      FilterIsSlice(sorted, ScoreWindow(lo, loOpen, hi, hiOpen), start, stop);
      pairs := sorted[start..stop];
    }

    method MemberPairs(lo: Option<Bytes>, loOpen: bool, hi: Option<Bytes>, hiOpen: bool) returns (out: seq<Pair>)
      ensures out == Filter(sorted, MemberWindow(lo, loOpen, hi, hiOpen))
    {
      out := [];
      for k := 0 to |sorted|
        invariant out == Filter(sorted[..k], MemberWindow(lo, loOpen, hi, hiOpen))
      {
        assert sorted[..k + 1][..k] == sorted[..k];
        var p := sorted[k];
        if lo.Some? {
          BytesLessTotal(p.member, lo.value);
        }
        if hi.Some? {
          BytesLessTotal(p.member, hi.value);
        }
        if lo.Some? && (BytesLess(p.member, lo.value) || (loOpen && p.member == lo.value)) {
          continue;
        }
        if hi.Some? && (BytesLess(hi.value, p.member) || (hiOpen && p.member == hi.value)) {
          continue;
        }
        out := out + [p];
      }
      assert sorted[..|sorted|] == sorted;
    }

    /** Removes an inclusive rank range, negative indexes counting from the end. */
    method RemoveRank(start: int, end: int) returns (removed: nat)
      requires Valid()
      modifies this
      ensures Valid()
      ensures var slice := RankSlice(start, end, |old(sorted)|);
              && sorted == old(sorted)[..slice.lo] + old(sorted)[slice.hi..]
              && removed == slice.hi - slice.lo == |old(scores)| - |scores|
    {
      hide IsOrdering;
      var length := |sorted|;
      var first := if start < 0 then start + length else start;
      var last := if end < 0 then end + length else end;
      first := if first < 0 then 0 else first;
      if first > last || first >= length {
        assert RankSlice(start, end, length) == Slice(0, 0);
        assert sorted[..0] + sorted[0..] == sorted;
        return 0;
      }
      last := if last >= length then length - 1 else last;
      assert RankSlice(start, end, length) == Slice(first, last + 1);
      CutRanks(first, last + 1);
      removed := last - first + 1;
    }

    method CutRanks(lo: nat, hi: nat)
      requires Valid() && lo <= hi <= |sorted|
      modifies this
      ensures Valid()
      ensures sorted == old(sorted)[..lo] + old(sorted)[hi..]
      ensures |old(scores)| - |scores| == hi - lo
    {
      OrderingSize(sorted, scores);
      InSlice(sorted, lo, hi);
      CutRange(lo, hi, Among(sorted[lo..hi]));
      OrderingSize(sorted, scores);
    }

    /** Deletes the members of a slice from the map one by one, then the slice from the list. */
    method CutRange(lo: nat, hi: nat, ghost f: Pair -> bool)
      requires Valid() && lo <= hi <= |sorted|
      requires forall k :: 0 <= k < |sorted| ==> (f(sorted[k]) <==> lo <= k < hi)
      modifies this
      ensures Valid()
      ensures sorted == old(sorted)[..lo] + old(sorted)[hi..]
      ensures scores == Without(old(scores), f)
    {
      hide Increasing, Lists, Without, Among;
      ghost var was, list := scores, sorted;
      CutSlice(list, was, f, lo, hi);
      WithoutNone(was);
      assert list[lo..lo] == [];
      for k := lo to hi
        invariant sorted == list
        invariant scores == Without(was, Among(list[lo..k]))
      {
        DropNext(list, was, lo, k);
        scores := scores - {sorted[k].member};
      }
      SliceIs(list, was, f, lo, hi);
      sorted := sorted[..lo] + sorted[hi..];
    }

    method RemoveScore(lo: real, loOpen: bool, hi: real, hiOpen: bool) returns (removed: nat)
      requires Valid()
      modifies this
      ensures Valid()
      ensures scores == Without(old(scores), ScoreWindow(lo, loOpen, hi, hiOpen))
      ensures forall m :: m in scores <==>
                m in old(scores) &&
                (old(scores)[m] < lo || (loOpen && old(scores)[m] == lo) || old(scores)[m] > hi || (hiOpen && old(scores)[m] == hi))
      ensures forall m :: m in scores ==> scores[m] == old(scores)[m]
      ensures removed == |old(scores)| - |scores|
    {
      hide Increasing;
      OrderingSize(sorted, scores);
      var start, end := ScoreBounds(lo, loOpen, hi, hiOpen);
      if start >= end {
        forall m | m in scores
          ensures !InScores(lo, loOpen, hi, hiOpen, Pair(scores[m], m))
        {
          var k :| 0 <= k < |sorted| && sorted[k] == Pair(scores[m], m);
        }
        assert scores == Without(scores, ScoreWindow(lo, loOpen, hi, hiOpen));
        return 0;
      }
      CutRange(start, end, ScoreWindow(lo, loOpen, hi, hiOpen));
      OrderingSize(sorted, scores);
      removed := end - start;
    }

    method RemoveMember(lo: Option<Bytes>, loOpen: bool, hi: Option<Bytes>, hiOpen: bool) returns (removed: nat)
      requires Valid()
      modifies this
      ensures Valid()
      ensures scores == Without(old(scores), MemberWindow(lo, loOpen, hi, hiOpen))
      ensures removed == |old(scores)| - |scores|
    {
      hide BytesLess, Less, Increasing, Without, Among;
      OrderingSize(sorted, scores);
      var kept: seq<Pair> := [];
      removed := 0;
      ghost var was, list := scores, sorted;
      ghost var window := MemberWindow(lo, loOpen, hi, hiOpen);
      ghost var dropped: seq<Pair> := [];
      WithoutNone(was);
      assert list[..0] == [] && Filter(list[..0], window) == Filter(list[..0], Outside(window)) == [];
      hide Filter;
      for k := 0 to |sorted|
        invariant sorted == list && removed + |kept| == k
        invariant kept == Filter(list[..k], Outside(window)) && dropped == Filter(list[..k], window)
        invariant scores == Without(was, Among(dropped))
      {
        FilterNext(list, window, k);
        FilterNext(list, Outside(window), k);
        var p := sorted[k];
        assert p in list;
        if lo.Some? {
          BytesLessTotal(p.member, lo.value);
        }
        if hi.Some? {
          BytesLessTotal(p.member, hi.value);
        }
        if lo.Some? && (BytesLess(p.member, lo.value) || (loOpen && p.member == lo.value)) {
          kept := kept + [p];
          continue;
        }
        if hi.Some? && (BytesLess(hi.value, p.member) || (hiOpen && p.member == hi.value)) {
          kept := kept + [p];
          continue;
        }
        DropOne(was, dropped, p);
        scores := scores - {p.member};
        removed := removed + 1;
        dropped := dropped + [p];
      }
      sorted := kept;
      assert list[..|list|] == list;
      FilterOrders(list, was, window);
      OrderingSize(sorted, scores);
    }

    method Copy() returns (copy: ZSet)
      requires Valid()
      ensures fresh(copy) && copy.Valid() && copy.scores == scores && copy.sorted == sorted
    {
      copy := new ZSet();
      copy.scores := scores;
      copy.sorted := sorted;
    }
  }

  lemma FoundAt(s: seq<Pair>, p: Pair, i: nat)
    requires Increasing(s) && p in s && i <= |s|
    requires forall k :: 0 <= k < i ==> Less(s[k], p)
    requires forall k :: i <= k < |s| ==> !Less(s[k], p)
    ensures i < |s| && s[i] == p
  {
    var k :| 0 <= k < |s| && s[k] == p;
    LessTotal(p, p);
    assert i <= k;
  }

  lemma CutOne(s: seq<Pair>, scores: map<Bytes, real>, i: nat)
    requires IsOrdering(s, scores) && i < |s|
    ensures IsOrdering(s[..i] + s[i + 1..], scores - {s[i].member})
    ensures s[i].member in scores
  {
    hide Increasing, Without, Among;
    assert s[i] in s && s[i..i + 1] == [s[i]] && s[i..i] == [];
    InSlice(s, i, i + 1);
    CutSlice(s, scores, Among([s[i]]), i, i + 1);
    WithoutNone(scores);
    DropNext(s, scores, i, i);
  }
}
