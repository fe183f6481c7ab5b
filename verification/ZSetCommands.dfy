/** The sorted-set commands: rank windows, limits, pops, and weighted union, intersection and difference. */
module ZSetCommands {
  import opened Bytes
  import opened Options
  import opened Sequences
  import opened ZSets

  // ----- Windows

  /** The pairs of a rank window, redis-style: the same window `remove_rank` removes. */
  method SliceRanks(pairs: seq<Pair>, start: int, end: int) returns (slice: seq<Pair>)
    ensures var w := RankSlice(start, end, |pairs|); slice == pairs[w.lo..w.hi]
  {
    var length := |pairs|;
    var first, last := start, end;
    if first < 0 {
      first := first + length;
    }
    if last < 0 {
      last := last + length;
    }
    if first < 0 {
      first := 0;
    }
    if first > last || first >= length {
      return [];
    }
    if last >= length {
      last := length - 1;
    }
    slice := pairs[first..last + 1];
  }

  /** LIMIT offset count: a negative offset selects nothing, a negative count means no limit. */
  method LimitPairs(pairs: seq<Pair>, limit: Option<(int, int)>) returns (out: seq<Pair>)
    ensures limit.None? ==> out == pairs
    ensures limit.Some? ==>
              var (offset, count) := limit.value;
              && (offset < 0 || offset >= |pairs| ==> out == [])
              && (0 <= offset < |pairs| ==>
                    && out <= pairs[offset..]
                    && |out| == if count < 0 || count >= |pairs| - offset then |pairs| - offset else count)
  {
    if limit.None? {
      return pairs;
    }
    var (offset, count) := limit.value;
    if offset < 0 {
      return [];
    }
    if count < 0 {
      count := |pairs|;
    }
    var lo := if offset > |pairs| then |pairs| else offset;
    var hi := if offset + count > |pairs| then |pairs| else offset + count;
    out := pairs[lo..hi];
  }

  datatype RankReply = NoRank | NoRankArray | Rank(rank: int) | RankAndScore(rank: int, score: real)

  /** The rank ZRANK and ZREVRANK report: the number of pairs below the member's own, or above it. */
  function RankOf(pairs: seq<Pair>, p: Pair, reverse: bool): nat {
    if reverse then |Filter(pairs, q => Less(p, q))| else |Filter(pairs, q => Less(q, p))|
  }

  /** A null `zset` stands for a missing key. WITHSCORE asks for the score as well, and changes the null reply. */
  method ZRank(zset: ZSet?, member: Bytes, reverse: bool, withScore: bool) returns (reply: RankReply)
    requires zset != null ==> zset.Valid()
    ensures zset == null || member !in zset.scores ==> reply == if withScore then NoRankArray else NoRank
    ensures zset != null && member in zset.scores ==>
              var rank := RankOf(zset.sorted, Pair(zset.scores[member], member), reverse);
              reply == if withScore then RankAndScore(rank, zset.scores[member]) else Rank(rank)
  {
    var found := None;
    if zset != null {
      found := zset.Rank(member);
    }
    if found.None? {
      return if withScore then NoRankArray else NoRank;
    }
    var rank := found.value;
    if reverse {
      ghost var p := Pair(zset.scores[member], member);
      AboveCount(zset.sorted, p, rank);
      rank := |zset.sorted| - 1 - rank;
    }
    if !withScore {
      return Rank(rank);
    }
    var score := zset.Score(member);
    reply := RankAndScore(rank, score.value);
  }

  lemma AboveCount(s: seq<Pair>, p: Pair, r: nat)
    requires Increasing(s) && r < |s| && s[r] == p
    ensures |Filter(s, q => Less(p, q))| == |s| - 1 - r
  {
    forall k | 0 <= k < |s|
      ensures Less(p, s[k]) <==> r + 1 <= k < |s|
    {
      LessTotal(p, s[k]);
    }
    FilterIsSlice(s, q => Less(p, q), r + 1, |s|);
  }

  // ----- Pops

  datatype PopReply = NotPositive | Popped(pairs: seq<Pair>)

  function Fewest(n: int, length: nat): nat
    requires n >= 0
  {
    if n < length then n else length
  }

  /** The `n` lowest pairs in order, or the `n` highest, highest first. */
  function TakenOf(all: seq<Pair>, n: nat, left: bool): seq<Pair>
    requires n <= |all|
  {
    if left then all[..n] else Reversed(all[|all| - n..])
  }

  /** All the others. */
  function RestOf(all: seq<Pair>, n: nat, left: bool): seq<Pair>
    requires n <= |all|
  {
    if left then all[n..] else all[..|all| - n]
  }

  lemma FewestOf(n: int, length: nat)
    requires n >= 0
    ensures Fewest(n, length) <= length
    ensures Fewest(n, length) == 0 <==> n == 0 || length == 0
  {
  }

  lemma RestSize(all: seq<Pair>, n: nat, left: bool)
    requires n <= |all|
    ensures |RestOf(all, n, left)| == |all| - n
  {
  }

  /** Cutting the window of the first or the last `n` ranks takes those and leaves the others. */
  lemma WindowTaken(all: seq<Pair>, lo: nat, hi: nat, n: nat, left: bool)
    requires n <= |all| && lo <= hi <= |all|
    requires if all == [] then lo == hi else lo == (if left then 0 else |all| - n) && hi == lo + n
    ensures TakenOf(all, n, left) == if left then all[lo..hi] else Reversed(all[lo..hi])
    ensures RestOf(all, n, left) == all[..lo] + all[hi..]
    ensures lo == hi ==> RestOf(all, n, left) == all
  {
    assert all[..lo] + all[lo..] == all;
    if all != [] {
      if left {
        assert all[..lo] == [] && all[lo..hi] == all[..n] && all[hi..] == all[n..];
      } else {
        assert all[hi..] == [] && all[lo..hi] == all[|all| - n..];
      }
    }
  }

  lemma NothingTaken(all: seq<Pair>, left: bool)
    ensures TakenOf(all, 0, left) == [] && RestOf(all, 0, left) == all
  {
  }

  /**
   ZPOPMIN and ZPOPMAX: the lowest pairs in order, or the highest, highest first, and exactly the rest stays.
   `None` stands for no count (one pair).
   */
  method ZPop(zset: ZSet, count: Option<int>, left: bool) returns (reply: PopReply)
    requires zset.Valid()
    modifies zset
    ensures zset.Valid()
    ensures count.Some? && count.value < 0 ==> reply == NotPositive && zset.sorted == old(zset.sorted)
    ensures count.None? || count.value >= 0 ==>
              var all := old(zset.sorted);
              var n := Fewest(if count.None? then 1 else count.value, |all|);
              reply == Popped(TakenOf(all, n, left)) && zset.sorted == RestOf(all, n, left)
  {
    hide IsOrdering, TakenOf, RestOf;
    if count.Some? && count.value < 0 {
      return NotPositive;
    }
    ghost var all := zset.sorted;
    ghost var n := Fewest(if count.None? then 1 else count.value, |all|);
    if count.Some? && count.value == 0 {
      NothingTaken(all, left);
      return Popped([]);
    }
    var start, stop;
    if count.None? {
      start := if left then 0 else -1;
      stop := start;
    } else {
      start, stop := if left then 0 else -count.value, if left then count.value - 1 else -1;
    }
    PopWindow(|zset.sorted|, if count.None? then 1 else count.value, left);
    var taken := SliceRanks(zset.sorted, start, stop);
    ghost var w := RankSlice(start, stop, |all|);
    WindowTaken(all, w.lo, w.hi, n, left);
    if taken != [] {
      var _ := zset.RemoveRank(start, stop);
    }
    if !left {
      taken := Reversed(taken);
    }
    reply := Popped(taken);
  }

  /** The windows the pops ask for are the first `n` or the last `n` ranks. */
  lemma PopWindow(length: nat, n: int, left: bool)
    requires n > 0
    ensures var few := Fewest(n, length);
            && (left && length > 0 ==> RankSlice(0, n - 1, length) == Slice(0, few))
            && (!left && length > 0 ==> RankSlice(-n, -1, length) == Slice(length - few, length))
            && (length == 0 ==> RankSlice(0, n - 1, length) == RankSlice(-n, -1, length) == Slice(0, 0))
  {
  }

  /** The sorted sets of the store by key, and the keys reported as written, in order. */
  class SortedSets {
    var zsets: map<Bytes, ZSet>
    var writes: seq<Bytes>

    /** No key holds an empty set, and no two keys share one. */
    ghost predicate Valid()
      reads this, zsets.Values
    {
      && (forall key :: key in zsets ==> zsets[key].Valid() && zsets[key].sorted != [])
      && (forall key, key' :: key in zsets && key' in zsets && key != key' ==> zsets[key] != zsets[key'])
    }

    /** The same, but that the set of `key` may have become empty. */
    ghost predicate NearlyValid(key: Bytes)
      reads this, zsets.Values
    {
      && (forall k :: k in zsets ==> zsets[k].Valid() && (k != key ==> zsets[k].sorted != []))
      && (forall k, k' :: k in zsets && k' in zsets && k != k' ==> zsets[k] != zsets[k'])
    }

    constructor ()
      ensures Valid() && zsets == map[] && writes == []
    {
      zsets, writes := map[], [];
    }

    /** ZPOPMIN and ZPOPMAX on a key: a set that loses its last member loses its key. */
    method Pop(key: Bytes, count: Option<int>, left: bool) returns (reply: PopReply)
      requires Valid()
      modifies this, if key in zsets then {zsets[key]} else {}
      ensures Valid()
      ensures count.Some? && count.value < 0 ==> reply == NotPositive
      ensures key !in old(zsets) && (count.None? || count.value >= 0) ==> reply == Popped([])
      ensures key !in old(zsets) || (count.Some? && count.value <= 0) ==>
                zsets == old(zsets) && writes == old(writes) &&
                (key in zsets ==> zsets[key].sorted == old(zsets[key].sorted))
      ensures key in old(zsets) && (count.None? || count.value >= 0) ==>
                var all := old(zsets[key].sorted);
                var n := Fewest(if count.None? then 1 else count.value, |all|);
                && reply == Popped(TakenOf(all, n, left))
                && zsets == (if n == |all| then old(zsets) - {key} else old(zsets))
                && (n < |all| ==> zsets[key].sorted == RestOf(all, n, left))
                && writes == old(writes) + (if n > 0 then [key] else [])
    {
      hide IsOrdering, TakenOf, RestOf, Fewest;
      if count.Some? && count.value < 0 {
        return NotPositive;
      }
      FewestOf(if count.None? then 1 else count.value, if key in zsets then |zsets[key].sorted| else 0);
      if key !in zsets || (count.Some? && count.value == 0) {
        if key in zsets {
          NothingTaken(zsets[key].sorted, left);
        }
        return Popped([]);
      }
      var zset := zsets[key];
      ghost var all := zset.sorted;
      reply := ZPop(zset, count, left);
      RestSize(all, Fewest(if count.None? then 1 else count.value, |all|), left);
      writes := writes + [key];
      DropEmpty(key);
    }

    /** The key disappears with its last member. */
    method DropEmpty(key: Bytes)
      requires key in zsets && NearlyValid(key)
      modifies this`zsets
      ensures Valid()
      ensures zsets == if old(zsets)[key].sorted == [] then old(zsets) - {key} else old(zsets)
    {
      hide IsOrdering;
      var size := zsets[key].Len();
      OrderingSize(zsets[key].sorted, zsets[key].scores);
      if size == 0 {
        zsets := zsets - {key};
      }
    }
  }

  // ----- Union, intersection, difference

  datatype Aggregate = Sum | Min | Max

  function Combine(a: real, b: real, aggregate: Aggregate): real {
    match aggregate
    case Min => if b < a then b else a
    case Max => if b > a then b else a
    case Sum => a + b
  }

  /** A source key: its scores (a missing key has none) and its weight. */
  datatype Source = Source(scores: map<Bytes, real>, weight: real)

  /** The weighted score of a member in one source, if the source holds it. */
  function Weighted(source: Source, m: Bytes): seq<real> {
    if m in source.scores then [source.scores[m] * source.weight] else []
  }

  /** The weighted scores a member has in the sources that hold it, in the order of the sources. */
  function Contributions(sources: seq<Source>, m: Bytes): seq<real> {
    if sources == [] then []
    else Contributions(sources[..|sources| - 1], m) + Weighted(sources[|sources| - 1], m)
  }

  /** Left fold of a non-empty list of scores. */
  function Fold(scores: seq<real>, aggregate: Aggregate): real
    requires scores != []
  {
    if |scores| == 1 then scores[0]
    else Combine(Fold(scores[..|scores| - 1], aggregate), scores[|scores| - 1], aggregate)
  }

  predicate InSome(sources: seq<Source>, m: Bytes) { exists i :: 0 <= i < |sources| && m in sources[i].scores }

  predicate InAll(sources: seq<Source>, m: Bytes) { forall i :: 0 <= i < |sources| ==> m in sources[i].scores }

  lemma {:induction false} ContributionsCount(sources: seq<Source>, m: Bytes)
    ensures Contributions(sources, m) != [] <==> InSome(sources, m)
    ensures InAll(sources, m) ==> |Contributions(sources, m)| == |sources|
  {
    if sources != [] {
      var init := sources[..|sources| - 1];
      ContributionsCount(init, m);
      assert InSome(init, m) ==> InSome(sources, m);
      if InSome(sources, m) && m !in sources[|sources| - 1].scores {
        var i :| 0 <= i < |sources| && m in sources[i].scores;
        assert m in init[i].scores;
      }
      assert InAll(sources, m) ==> InAll(init, m);
    }
  }

  lemma {:induction false} SumOfFold(scores: seq<real>)
    requires scores != []
    ensures Fold(scores, Sum) == Total(scores)
  {
    if |scores| > 1 {
      SumOfFold(scores[..|scores| - 1]);
    } else {
      assert scores[..0] == [];
    }
  }

  function Total(scores: seq<real>): real {
    if scores == [] then 0.0 else Total(scores[..|scores| - 1]) + scores[|scores| - 1]
  }

  /** Whatever the aggregate, the fold is what its name says: the sum, the least, the greatest. */
  lemma {:induction false} FoldMeans(scores: seq<real>, aggregate: Aggregate)
    requires scores != []
    ensures aggregate == Sum ==> Fold(scores, aggregate) == Total(scores)
    ensures aggregate != Sum ==> Fold(scores, aggregate) in scores
    ensures aggregate == Min ==> forall x :: x in scores ==> Fold(scores, aggregate) <= x
    ensures aggregate == Max ==> forall x :: x in scores ==> Fold(scores, aggregate) >= x
  {
    if aggregate == Sum {
      SumOfFold(scores);
    }
    if |scores| > 1 {
      FoldMeans(scores[..|scores| - 1], aggregate);
      assert scores == scores[..|scores| - 1] + [scores[|scores| - 1]];
    }
  }

  /** The scores and weights of the source keys; a missing key is an empty set. */
  ghost function SourcesOf(zsets: seq<ZSet?>, weights: seq<real>): (sources: seq<Source>)
    requires |zsets| == |weights|
    reads zsets
    ensures |sources| == |zsets|
  {
    seq(|zsets|, i requires 0 <= i < |zsets| reads zsets =>
      Source(if zsets[i] == null then map[] else zsets[i].scores, weights[i]))
  }

  ghost predicate AllValid(zsets: seq<ZSet?>)
    reads zsets
  {
    forall i :: 0 <= i < |zsets| && zsets[i] != null ==> zsets[i].Valid()
  }

  /** The entry of a member is the fold of its scores; it has none when there are no scores. */
  ghost predicate EntryIs(agg: map<Bytes, real>, m: Bytes, scores: seq<real>, aggregate: Aggregate) {
    (m in agg <==> scores != []) && (m in agg ==> agg[m] == Fold(scores, aggregate))
  }

  /** Every member of some source, with the fold of its weighted scores. */
  ghost predicate IsUnion(agg: map<Bytes, real>, sources: seq<Source>, aggregate: Aggregate) {
    forall m :: EntryIs(agg, m, Contributions(sources, m), aggregate)
  }

  ghost function Target(sources: seq<Source>, source: Source, done: set<Bytes>, m: Bytes): seq<real> {
    if m in done then Contributions(sources + [source], m) else Contributions(sources, m)
  }

  /** Folding one more source into a union, of which the members in `done` have been folded already. */
  ghost predicate Folding(agg: map<Bytes, real>, sources: seq<Source>, source: Source, done: set<Bytes>, aggregate: Aggregate) {
    forall m :: EntryIs(agg, m, Target(sources, source, done, m), aggregate)
  }

  lemma {:induction false} ContributionsAppend(sources: seq<Source>, source: Source, m: Bytes)
    ensures Contributions(sources + [source], m) == Contributions(sources, m) + Weighted(source, m)
    ensures m !in source.scores ==> Contributions(sources + [source], m) == Contributions(sources, m)
  {
    var all := sources + [source];
    assert all[..|all| - 1] == sources && all[|all| - 1] == source;
  }

  lemma {:induction false} FoldAppend(scores: seq<real>, x: real, aggregate: Aggregate)
    ensures Fold(scores + [x], aggregate) == if scores == [] then x else Combine(Fold(scores, aggregate), x, aggregate)
  {
    assert (scores + [x])[..|scores|] == scores;
  }

  function Merged(agg: map<Bytes, real>, m: Bytes, value: real, aggregate: Aggregate): map<Bytes, real> {
    agg[m := if m in agg then Combine(agg[m], value, aggregate) else value]
  }

  lemma FoldingStep(agg: map<Bytes, real>, sources: seq<Source>, source: Source, done: set<Bytes>,
                    m: Bytes, value: real, aggregate: Aggregate)
    requires Folding(agg, sources, source, done, aggregate)
    requires m !in done && m in source.scores && value == source.scores[m] * source.weight
    ensures Folding(Merged(agg, m, value, aggregate), sources, source, done + {m}, aggregate)
  {
    hide Contributions;
    var agg' := Merged(agg, m, value, aggregate);
    forall m'
      ensures EntryIs(agg', m', Target(sources, source, done + {m}, m'), aggregate)
    {
      assert EntryIs(agg, m', Target(sources, source, done, m'), aggregate);
      if m' == m {
        ContributionsAppend(sources, source, m);
        FoldAppend(Contributions(sources, m), value, aggregate);
      }
    }
  }

  lemma FoldingDone(agg: map<Bytes, real>, sources: seq<Source>, source: Source, aggregate: Aggregate)
    requires Folding(agg, sources, source, source.scores.Keys, aggregate)
    ensures IsUnion(agg, sources + [source], aggregate)
  {
    forall m
      ensures EntryIs(agg, m, Contributions(sources + [source], m), aggregate)
    {
      assert EntryIs(agg, m, Target(sources, source, source.scores.Keys, m), aggregate);
      ContributionsAppend(sources, source, m);
    }
  }

  ghost function Members(pairs: seq<Pair>): set<Bytes> { set p | p in pairs :: p.member }

  lemma MemberIsNew(s: seq<Pair>, scores: map<Bytes, real>, k: nat)
    requires IsOrdering(s, scores) && k < |s|
    ensures s[k].member in scores && scores[s[k].member] == s[k].score
    ensures s[k].member !in Members(s[..k])
    ensures Members(s[..k + 1]) == Members(s[..k]) + {s[k].member}
  {
    assert s[k] in s;
    forall t | 0 <= t < k
      ensures s[t].member != s[k].member
    {
      assert s[t] in s;
      LessTotal(s[t], s[k]);
    }
    assert s[..k + 1] == s[..k] + [s[k]];
  }

  lemma MembersAll(s: seq<Pair>, scores: map<Bytes, real>)
    requires IsOrdering(s, scores)
    ensures Members(s) == scores.Keys
  {
    forall m | m in scores ensures m in Members(s) {
      assert Pair(scores[m], m) in s;
    }
  }

  /** Folds one source into the union, pair by pair. */
  method FoldSource(agg: map<Bytes, real>, zset: ZSet, weight: real, aggregate: Aggregate, ghost sources: seq<Source>)
    returns (agg': map<Bytes, real>)
    requires zset.Valid() && IsUnion(agg, sources, aggregate)
    ensures IsUnion(agg', sources + [Source(zset.scores, weight)], aggregate)
  {
    hide IsUnion, Folding, EntryIs, Target, Contributions, Fold, IsOrdering;
    ghost var source := Source(zset.scores, weight);
    agg' := agg;
    FoldingStart(agg, sources, source, aggregate);
    for k := 0 to |zset.sorted|
      invariant Folding(agg', sources, source, Members(zset.sorted[..k]), aggregate)
    {
      var p := zset.sorted[k];
      MemberIsNew(zset.sorted, zset.scores, k);
      var value := p.score * weight;
      FoldingStep(agg', sources, source, Members(zset.sorted[..k]), p.member, value, aggregate);
      if p.member in agg' {
        value := Combine(agg'[p.member], value, aggregate);
      }
      agg' := agg'[p.member := value];
    }
    MembersAll(zset.sorted, zset.scores);
    assert zset.sorted[..|zset.sorted|] == zset.sorted;
    FoldingDone(agg', sources, source, aggregate);
  }

  lemma FoldingStart(agg: map<Bytes, real>, sources: seq<Source>, source: Source, aggregate: Aggregate)
    requires IsUnion(agg, sources, aggregate)
    ensures Folding(agg, sources, source, Members([]), aggregate)
  {
    forall m
      ensures EntryIs(agg, m, Target(sources, source, Members([]), m), aggregate)
    {
      assert EntryIs(agg, m, Contributions(sources, m), aggregate);
    }
  }

  lemma UnionWithMissing(agg: map<Bytes, real>, sources: seq<Source>, source: Source, aggregate: Aggregate)
    requires IsUnion(agg, sources, aggregate) && source.scores == map[]
    ensures IsUnion(agg, sources + [source], aggregate)
  {
    forall m
      ensures EntryIs(agg, m, Contributions(sources + [source], m), aggregate)
    {
      ContributionsAppend(sources, source, m);
      assert EntryIs(agg, m, Contributions(sources, m), aggregate);
    }
  }

  method UnionOf(zsets: seq<ZSet?>, weights: seq<real>, aggregate: Aggregate) returns (agg: map<Bytes, real>)
    requires |zsets| == |weights| && AllValid(zsets)
    ensures IsUnion(agg, SourcesOf(zsets, weights), aggregate)
  {
    agg := map[];
    ghost var sources := SourcesOf(zsets, weights);
    for i := 0 to |zsets|
      invariant IsUnion(agg, sources[..i], aggregate)
    {
      assert sources[..i + 1] == sources[..i] + [sources[i]];
      var zset := zsets[i];
      if zset == null {
        UnionWithMissing(agg, sources[..i], sources[i], aggregate);
        continue;
      }
      agg := FoldSource(agg, zset, weights[i], aggregate, sources[..i]);
    }
    assert sources[..|zsets|] == sources;
  }

  /** Every member of all sources, with the fold of its weighted scores. */
  ghost predicate IsInter(agg: map<Bytes, real>, sources: seq<Source>, aggregate: Aggregate) {
    forall m ::
      && (m in agg <==> InAll(sources, m))
      && (m in agg ==> Contributions(sources, m) != [] && agg[m] == Fold(Contributions(sources, m), aggregate))
  }

  /** The fold of a member's weighted scores in the sources so far, all of which hold it. */
  ghost predicate FoldsTo(sources: seq<Source>, m: Bytes, aggregate: Aggregate, score: real) {
    InAll(sources, m) && Contributions(sources, m) != [] && score == Fold(Contributions(sources, m), aggregate)
  }

  lemma FoldsFirst(source: Source, m: Bytes, aggregate: Aggregate, score: real)
    requires m in source.scores && score == source.scores[m] * source.weight
    ensures FoldsTo([source], m, aggregate, score)
  {
    assert [source] == [] + [source];
    ContributionsAppend([], source, m);
  }

  lemma FoldsNext(sources: seq<Source>, source: Source, m: Bytes, aggregate: Aggregate, score: real, next: real)
    requires FoldsTo(sources, m, aggregate, score)
    requires m in source.scores && next == source.scores[m] * source.weight
    ensures FoldsTo(sources + [source], m, aggregate, Combine(score, next, aggregate))
  {
    hide Contributions, Fold, Combine;
    ContributionsAppend(sources, source, m);
    FoldAppend(Contributions(sources, m), next, aggregate);
    assert Weighted(source, m) == [next];
    assert InAll(sources + [source], m);
  }

  lemma MissingFromOne(sources: seq<Source>, i: nat, m: Bytes)
    requires i < |sources| && m !in sources[i].scores
    ensures !InAll(sources, m)
  {
  }

  /** One member of the first source looked up in all the others; none as soon as one lacks it. */
  method InterScore(zsets: seq<ZSet?>, weights: seq<real>, aggregate: Aggregate, p: Pair) returns (value: Option<real>)
    requires 0 < |zsets| == |weights|
    requires var sources := SourcesOf(zsets, weights);
             p.member in sources[0].scores && sources[0].scores[p.member] == p.score
    ensures value.Some? <==> InAll(SourcesOf(zsets, weights), p.member)
    ensures value.Some? ==> FoldsTo(SourcesOf(zsets, weights), p.member, aggregate, value.value)
  {
    hide FoldsTo, Contributions, Fold, InAll;
    ghost var sources := SourcesOf(zsets, weights);
    var score := p.score * weights[0];
    FoldsFirst(sources[0], p.member, aggregate, score);
    assert sources[..1] == [sources[0]];
    for i := 1 to |zsets|
      invariant FoldsTo(sources[..i], p.member, aggregate, score)
    {
      assert sources[..i + 1] == sources[..i] + [sources[i]];
      var zset := zsets[i];
      if zset == null {
        MissingFromOne(sources, i, p.member);
        return None;
      }
      var other := zset.Score(p.member);
      if other.None? {
        MissingFromOne(sources, i, p.member);
        return None;
      }
      var next := other.value * weights[i];
      FoldsNext(sources[..i], sources[i], p.member, aggregate, score, next);
      score := Combine(score, next, aggregate);
    }
    assert sources[..|zsets|] == sources;
    FoldsInAll(sources, p.member, aggregate, score);
    value := Some(score);
  }

  lemma FoldsInAll(sources: seq<Source>, m: Bytes, aggregate: Aggregate, score: real)
    requires FoldsTo(sources, m, aggregate, score)
    ensures InAll(sources, m)
  {
  }

  method InterOf(zsets: seq<ZSet?>, weights: seq<real>, aggregate: Aggregate) returns (agg: map<Bytes, real>)
    requires 0 < |zsets| == |weights| && AllValid(zsets)
    ensures IsInter(agg, SourcesOf(zsets, weights), aggregate)
  {
    ghost var sources := SourcesOf(zsets, weights);
    agg := map[];
    var first := zsets[0];
    if first != null {
      for k := 0 to |first.sorted|
        invariant forall m :: m in agg <==> m in Members(first.sorted[..k]) && InAll(sources, m)
        invariant forall m :: m in agg ==> FoldsTo(sources, m, aggregate, agg[m])
      {
        var p := first.sorted[k];
        MemberIsNew(first.sorted, first.scores, k);
        var value := InterScore(zsets, weights, aggregate, p);
        if value.Some? {
          agg := agg[p.member := value.value];
        }
      }
      MembersAll(first.sorted, first.scores);
      assert first.sorted[..|first.sorted|] == first.sorted;
    }
    assert forall m :: InAll(sources, m) ==> m in sources[0].scores;
  }

  /** The first source without any member of the others, with the first source's own scores. */
  ghost predicate IsDiff(agg: map<Bytes, real>, sources: seq<Source>)
    requires sources != []
  {
    forall m ::
      && (m in agg <==> m in sources[0].scores && !InSome(sources[1..], m))
      && (m in agg ==> agg[m] == sources[0].scores[m])
  }

  method DiffOf(zsets: seq<ZSet?>, weights: seq<real>) returns (agg: map<Bytes, real>)
    requires 0 < |zsets| == |weights| && AllValid(zsets)
    ensures IsDiff(agg, SourcesOf(zsets, weights))
  {
    ghost var sources := SourcesOf(zsets, weights);
    agg := map[];
    var first := zsets[0];
    if first != null {
      var drop: set<Bytes> := {};
      for i := 1 to |zsets|
        invariant forall m :: m in drop <==> InSome(sources[1..i], m)
      {
        ghost var before := drop;
        var zset := zsets[i];
        if zset != null {
          for k := 0 to |zset.sorted|
            invariant drop == before + Members(zset.sorted[..k])
          {
            MemberIsNew(zset.sorted, zset.scores, k);
            drop := drop + {zset.sorted[k].member};
          }
          MembersAll(zset.sorted, zset.scores);
          assert zset.sorted[..|zset.sorted|] == zset.sorted;
        }
        InSomeAppend(sources[1..i], sources[i]);
        assert sources[1..i + 1] == sources[1..i] + [sources[i]];
      }
      assert sources[1..|zsets|] == sources[1..];
      for k := 0 to |first.sorted|
        invariant forall m :: m in agg <==> m in Members(first.sorted[..k]) && m !in drop
        invariant forall m :: m in agg ==> m in first.scores && agg[m] == first.scores[m]
      {
        var p := first.sorted[k];
        MemberIsNew(first.sorted, first.scores, k);
        if p.member !in drop {
          agg := agg[p.member := p.score];
        }
      }
      MembersAll(first.sorted, first.scores);
      assert first.sorted[..|first.sorted|] == first.sorted;
    }
  }

  lemma InSomeAppend(sources: seq<Source>, source: Source)
    ensures forall m :: InSome(sources + [source], m) <==> InSome(sources, m) || m in source.scores
  {
    var all := sources + [source];
    forall m
      ensures InSome(all, m) <==> InSome(sources, m) || m in source.scores
    {
      if InSome(sources, m) {
        var i :| 0 <= i < |sources| && m in sources[i].scores;
        assert m in all[i].scores;
      }
      assert all[|sources|] == source;
    }
  }

  /** A fresh sorted set holding exactly a map's entries. */
  method Collect(agg: map<Bytes, real>) returns (result: ZSet)
    ensures fresh(result) && result.Valid() && result.scores == agg
  {
    result := new ZSet();
    var todo := agg.Keys;
    while todo != {}
      invariant fresh(result) && result.Valid() && todo <= agg.Keys
      invariant forall m :: m in result.scores <==> m in agg && m !in todo
      invariant forall m :: m in result.scores ==> result.scores[m] == agg[m]
      decreases todo
    {
      var m :| m in todo;
      var _ := result.Add(m, agg[m]);
      todo := todo - {m};
    }
  }

  datatype SetOp = Union | Inter | Diff

  /** ZUNION, ZINTER and ZDIFF: a fresh, valid sorted set; the sources stay as they are. */
  method AggregateSets(zsets: seq<ZSet?>, weights: seq<real>, aggregate: Aggregate, op: SetOp) returns (result: ZSet)
    requires 0 < |zsets| == |weights| && AllValid(zsets)
    ensures fresh(result) && result.Valid()
    ensures op == Union ==> IsUnion(result.scores, SourcesOf(zsets, weights), aggregate)
    ensures op == Inter ==> IsInter(result.scores, SourcesOf(zsets, weights), aggregate)
    ensures op == Diff ==> IsDiff(result.scores, SourcesOf(zsets, weights))
  {
    var agg;
    if op == Union {
      agg := UnionOf(zsets, weights, aggregate);
    } else if op == Inter {
      agg := InterOf(zsets, weights, aggregate);
    } else {
      agg := DiffOf(zsets, weights);
    }
    result := Collect(agg);
  }

  /** In set terms: the domains of union and intersection, and what each score is. */
  lemma {:induction false} AggregateMeans(agg: map<Bytes, real>, sources: seq<Source>, aggregate: Aggregate, m: Bytes)
    requires sources != [] && (IsUnion(agg, sources, aggregate) || IsInter(agg, sources, aggregate))
    ensures IsUnion(agg, sources, aggregate) ==> (m in agg <==> InSome(sources, m))
    ensures IsInter(agg, sources, aggregate) ==> (m in agg <==> InAll(sources, m))
    ensures m in agg ==>
              var scores := Contributions(sources, m);
              && scores != []
              && (aggregate == Sum ==> agg[m] == Total(scores))
              && (aggregate == Min ==> agg[m] in scores && forall x :: x in scores ==> agg[m] <= x)
              && (aggregate == Max ==> agg[m] in scores && forall x :: x in scores ==> agg[m] >= x)
  {
    ContributionsCount(sources, m);
    assert IsUnion(agg, sources, aggregate) ==> EntryIs(agg, m, Contributions(sources, m), aggregate);
    if m in agg {
      FoldMeans(Contributions(sources, m), aggregate);
    }
  }

  // ----- Cross-checks

  /** In rank order, the rank of a pair is its place from the low end, or from the high end in reverse. */
  lemma RankIsPlace(pairs: seq<Pair>, i: nat)
    requires Increasing(pairs) && i < |pairs|
    ensures RankOf(pairs, pairs[i], false) == i
    ensures RankOf(pairs, pairs[i], true) == |pairs| - 1 - i
  {
    forall k | 0 <= k < |pairs|
      ensures Less(pairs[k], pairs[i]) <==> 0 <= k < i
    {
      LessTotal(pairs[k], pairs[i]);
    }
    FilterIsSlice(pairs, q => Less(q, pairs[i]), 0, i);
    AboveCount(pairs, pairs[i], i);
  }

  /** The pairs popped lie below all that stay, lowest first, or above them all, highest first. */
  lemma TakenAreExtreme(all: seq<Pair>, n: nat, left: bool)
    requires Increasing(all) && n <= |all|
    ensures |TakenOf(all, n, left)| == n && |RestOf(all, n, left)| == |all| - n
    ensures forall p, q :: p in TakenOf(all, n, left) && q in RestOf(all, n, left) ==>
                             if left then Less(p, q) else Less(q, p)
    ensures forall i, j :: 0 <= i < j < n ==>
                             if left then Less(TakenOf(all, n, left)[i], TakenOf(all, n, left)[j])
                             else Less(TakenOf(all, n, left)[j], TakenOf(all, n, left)[i])
    ensures forall p :: p in all <==> p in TakenOf(all, n, left) || p in RestOf(all, n, left)
  {
    hide Less;
    var taken, rest := TakenOf(all, n, left), RestOf(all, n, left);
    forall p | p in all
      ensures p in taken || p in rest
    {
      var k :| 0 <= k < |all| && all[k] == p;
      if left {
        assert p == if k < n then taken[k] else rest[k - n];
      } else {
        assert p == if k < |all| - n then rest[k] else taken[|all| - 1 - k];
      }
    }
  }

  /** `x` is what source `i` contributes for a member: its score there, times the weight. */
  ghost predicate Contributes(sources: seq<Source>, m: Bytes, i: int, x: real) {
    0 <= i < |sources| && m in sources[i].scores && x == sources[i].scores[m] * sources[i].weight
  }

  /** What is folded for a member: its score in each source that holds it, times that source's weight. */
  lemma {:induction false} ContributionsAre(sources: seq<Source>, m: Bytes)
    ensures forall x :: x in Contributions(sources, m) <==> exists i :: Contributes(sources, m, i, x)
    ensures InAll(sources, m) ==>
              |Contributions(sources, m)| == |sources| &&
              forall i :: 0 <= i < |sources| ==> Contributions(sources, m)[i] == sources[i].scores[m] * sources[i].weight
  {
    if sources != [] {
      var init, last := sources[..|sources| - 1], sources[|sources| - 1];
      ContributionsAre(init, m);
      assert InAll(sources, m) ==> InAll(init, m);
      forall x
        ensures x in Contributions(sources, m) <==> exists i :: Contributes(sources, m, i, x)
      {
        OneMoreContributes(init, last, m, x);
        assert sources == init + [last];
      }
    }
  }

  lemma OneMoreContributes(init: seq<Source>, last: Source, m: Bytes, x: real)
    ensures (exists i :: Contributes(init + [last], m, i, x)) <==>
            (exists i :: Contributes(init, m, i, x)) || x in Weighted(last, m)
  {
    var sources := init + [last];
    if i :| Contributes(init, m, i, x) {
      assert Contributes(sources, m, i, x);
    }
    if x in Weighted(last, m) {
      assert sources[|init|] == last;
      assert Contributes(sources, m, |init|, x);
    }
    if i :| Contributes(sources, m, i, x) {
      if i < |init| {
        assert sources[i] == init[i];
        assert Contributes(init, m, i, x);
      } else {
        assert sources[i] == last && Weighted(last, m)[0] == x;
      }
    }
  }
}
