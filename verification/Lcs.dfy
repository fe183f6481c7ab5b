/**
 Longest common subsequence, as the LCS command computes it: a row-by-row table of
 lengths and directions, a backtrack that groups diagonal moves into runs, and the
 second, right-to-left walk that places the IDX blocks.
 */
module Lcs {
  import opened Bytes
  import opened Options
  import opened Sequences

  // ----- What a common subsequence is

  /** `ix` places every byte of `s` at a strictly increasing position of `a`. */
  ghost predicate Embeds(s: Bytes, a: Bytes, ix: seq<nat>) {
    && |ix| == |s|
    && (forall k :: 0 <= k < |s| ==> ix[k] < |a| && a[ix[k]] == s[k])
    && (forall k, l :: 0 <= k < l < |s| ==> ix[k] < ix[l])
  }

  ghost predicate IsSubsequence(s: Bytes, a: Bytes) {
    exists ix :: Embeds(s, a, ix)
  }

  ghost predicate IsCommon(s: Bytes, a: Bytes, b: Bytes) {
    IsSubsequence(s, a) && IsSubsequence(s, b)
  }

  /** The first `k` bytes of `s` are a subsequence of the first `i` bytes of `a`. */
  predicate Within(s: Bytes, k: nat, a: Bytes, i: nat)
    requires k <= |s| && i <= |a|
  {
    k == 0 || (i > 0 && ((s[k - 1] == a[i - 1] && Within(s, k - 1, a, i - 1)) || Within(s, k, a, i - 1)))
  }

  lemma {:induction false} WithinOfEmbedding(s: Bytes, k: nat, a: Bytes, i: nat, ix: seq<nat>)
    requires Embeds(s, a, ix)
    requires k <= |s| && i <= |a| && (k > 0 ==> ix[k - 1] < i)
    ensures Within(s, k, a, i)
    decreases i
  {
    if k > 0 {
      if ix[k - 1] == i - 1 {
        WithinOfEmbedding(s, k - 1, a, i - 1, ix);
      } else {
        WithinOfEmbedding(s, k, a, i - 1, ix);
      }
    }
  }

  lemma {:induction false} EmbeddingOfWithin(s: Bytes, k: nat, a: Bytes, i: nat) returns (ix: seq<nat>)
    requires k <= |s| && i <= |a| && Within(s, k, a, i)
    ensures Embeds(s[..k], a, ix) && (k > 0 ==> ix[k - 1] < i)
    decreases i
  {
    if k == 0 {
      ix := [];
    } else if s[k - 1] == a[i - 1] && Within(s, k - 1, a, i - 1) {
      var rest := EmbeddingOfWithin(s, k - 1, a, i - 1);
      ix := rest + [i - 1];
      assert forall l :: 0 <= l < k - 1 ==> s[..k - 1][l] == s[..k][l];
    } else {
      ix := EmbeddingOfWithin(s, k, a, i - 1);
    }
  }

  /** The recursive form and the embedding form say the same thing. */
  lemma {:induction false} WithinIffSubsequence(s: Bytes, a: Bytes)
    ensures Within(s, |s|, a, |a|) <==> IsSubsequence(s, a)
  {
    if Within(s, |s|, a, |a|) {
      var ix := EmbeddingOfWithin(s, |s|, a, |a|);
      assert s[..|s|] == s;
      assert Embeds(s, a, ix);
    }
    if IsSubsequence(s, a) {
      var ix :| Embeds(s, a, ix);
      WithinOfEmbedding(s, |s|, a, |a|, ix);
    }
  }

  lemma {:induction false} WithinShorter(s: Bytes, k: nat, a: Bytes, i: nat)
    requires 0 < k <= |s| && i <= |a| && Within(s, k, a, i)
    ensures i > 0 && Within(s, k - 1, a, i - 1)
    decreases i
  {
    if !(s[k - 1] == a[i - 1] && Within(s, k - 1, a, i - 1)) {
      WithinShorter(s, k, a, i - 1);
      if k > 1 {
        WithinLonger(s, k - 1, a, i - 2);
      }
    }
  }

  lemma WithinLonger(s: Bytes, k: nat, a: Bytes, i: nat)
    requires k <= |s| && i < |a| && Within(s, k, a, i)
    ensures Within(s, k, a, i + 1)
  {
  }

  // ----- The table of lengths and the path through it

  function Max(x: nat, y: nat): nat { if x > y then x else y }

  /** Length of a longest common subsequence of the first `i` bytes of `a` and the first `j` of `b`. */
  function Best(a: Bytes, b: Bytes, i: nat, j: nat): nat
    requires i <= |a| && j <= |b|
  {
    if i == 0 || j == 0 then 0
    else if a[i - 1] == b[j - 1] then Best(a, b, i - 1, j - 1) + 1
    else Max(Best(a, b, i - 1, j), Best(a, b, i, j - 1))
  }

  datatype Move = Unset | Diagonal | Up | Left

  /** The move recorded for a cell: `preferUp` settles equal lengths. */
  function MoveAt(a: Bytes, b: Bytes, i: nat, j: nat, preferUp: bool): Move
    requires 0 < i <= |a| && 0 < j <= |b|
  {
    if a[i - 1] == b[j - 1] then Diagonal
    else if Best(a, b, i - 1, j) > Best(a, b, i, j - 1) then Up
    else if preferUp && Best(a, b, i - 1, j) == Best(a, b, i, j - 1) then Up
    else Left
  }

  /** One matched pair of positions, in `a` and in `b`. */
  datatype Cell = Cell(i: nat, j: nat)

  /** The matched cells of the recorded path, from the end of both strings to their start. */
  function Path(a: Bytes, b: Bytes, i: nat, j: nat, preferUp: bool): (cells: seq<Cell>)
    requires i <= |a| && j <= |b|
    decreases i + j
  {
    if i == 0 || j == 0 then []
    else if MoveAt(a, b, i, j, preferUp) == Diagonal then [Cell(i - 1, j - 1)] + Path(a, b, i - 1, j - 1, preferUp)
    else if MoveAt(a, b, i, j, preferUp) == Up then Path(a, b, i - 1, j, preferUp)
    else Path(a, b, i, j - 1, preferUp)
  }

  /** No common subsequence is longer than the table says. */
  lemma {:induction false} BestIsUpperBound(s: Bytes, k: nat, a: Bytes, i: nat, b: Bytes, j: nat)
    requires k <= |s| && i <= |a| && j <= |b|
    requires Within(s, k, a, i) && Within(s, k, b, j)
    ensures k <= Best(a, b, i, j)
    decreases i + j
  {
    if k == 0 {
    } else if a[i - 1] == b[j - 1] {
      WithinShorter(s, k, a, i);
      WithinShorter(s, k, b, j);
      BestIsUpperBound(s, k - 1, a, i - 1, b, j - 1);
    } else if s[k - 1] != a[i - 1] {
      BestIsUpperBound(s, k, a, i - 1, b, j);
    } else {
      BestIsUpperBound(s, k, a, i, b, j - 1);
    }
  }

  // ----- Chains of matched cells, and the runs they fall into

  /** Cells that match a byte of `a` with an equal byte of `b`, strictly descending in both. */
  ghost predicate IsChain(cells: seq<Cell>, a: Bytes, b: Bytes) {
    && (forall k :: 0 <= k < |cells| ==> cells[k].i < |a| && cells[k].j < |b| && a[cells[k].i] == b[cells[k].j])
    && (forall k, l :: 0 <= k < l < |cells| ==> cells[l].i < cells[k].i && cells[l].j < cells[k].j)
  }

  ghost predicate LieIn(cells: seq<Cell>, a: Bytes) {
    forall k :: 0 <= k < |cells| ==> cells[k].i < |a|
  }

  /** The bytes a chain spells, read forwards. */
  function Spell(cells: seq<Cell>, a: Bytes): (s: Bytes)
    requires LieIn(cells, a)
    ensures |s| == |cells|
    ensures forall k :: 0 <= k < |s| ==> s[k] == a[cells[|cells| - 1 - k].i]
  {
    seq(|cells|, k requires 0 <= k < |cells| => a[cells[|cells| - 1 - k].i])
  }

  lemma ChainSpellsCommon(cells: seq<Cell>, a: Bytes, b: Bytes)
    requires IsChain(cells, a, b)
    ensures IsCommon(Spell(cells, a), a, b)
  {
    var rev := Reversed(cells);
    var ix: seq<nat> := seq(|rev|, k requires 0 <= k < |rev| => rev[k].i);
    var jx: seq<nat> := seq(|rev|, k requires 0 <= k < |rev| => rev[k].j);
    assert Embeds(Spell(cells, a), a, ix) && Embeds(Spell(cells, a), b, jx);
  }

  ghost predicate Inside(cells: seq<Cell>, i: nat, j: nat) {
    forall k :: 0 <= k < |cells| ==> cells[k].i < i && cells[k].j < j
  }

  lemma ChainCons(c: Cell, cells: seq<Cell>, a: Bytes, b: Bytes)
    requires IsChain(cells, a, b) && Inside(cells, c.i, c.j)
    requires c.i < |a| && c.j < |b| && a[c.i] == b[c.j]
    ensures IsChain([c] + cells, a, b)
  {
  }

  lemma {:induction false} PathLength(a: Bytes, b: Bytes, i: nat, j: nat, preferUp: bool)
    requires i <= |a| && j <= |b|
    ensures |Path(a, b, i, j, preferUp)| == Best(a, b, i, j)
    decreases i + j
  {
    if i > 0 && j > 0 {
      if MoveAt(a, b, i, j, preferUp) == Diagonal {
        PathLength(a, b, i - 1, j - 1, preferUp);
      } else if MoveAt(a, b, i, j, preferUp) == Up {
        PathLength(a, b, i - 1, j, preferUp);
      } else {
        PathLength(a, b, i, j - 1, preferUp);
      }
    }
  }

  /** The path from (`i`, `j`) is that of one of the three neighbours, with the cell itself added on a match. */
  lemma PathCases(a: Bytes, b: Bytes, i: nat, j: nat, preferUp: bool)
    requires 0 < i <= |a| && 0 < j <= |b|
    ensures
      var path := Path(a, b, i, j, preferUp);
      || (a[i - 1] == b[j - 1] && path == [Cell(i - 1, j - 1)] + Path(a, b, i - 1, j - 1, preferUp))
      || path == Path(a, b, i - 1, j, preferUp)
      || path == Path(a, b, i, j - 1, preferUp)
  {
  }

  lemma {:induction false} PathIsChain(a: Bytes, b: Bytes, i: nat, j: nat, preferUp: bool)
    requires i <= |a| && j <= |b|
    ensures IsChain(Path(a, b, i, j, preferUp), a, b)
    ensures Inside(Path(a, b, i, j, preferUp), i, j)
    decreases i + j
  {
    if i > 0 && j > 0 {
      PathIsChain(a, b, i - 1, j, preferUp);
      PathIsChain(a, b, i, j - 1, preferUp);
      PathIsChain(a, b, i - 1, j - 1, preferUp);
      PathCases(a, b, i, j, preferUp);
      if a[i - 1] == b[j - 1] {
        ChainCons(Cell(i - 1, j - 1), Path(a, b, i - 1, j - 1, preferUp), a, b);
      }
    }
  }

  /** A run: `cells` matched pairs up the diagonal from (`loI`, `loJ`). */
  datatype Run = Run(loI: nat, loJ: nat, cells: nat)

  /** The cell just below the run on its diagonal. */
  predicate Continues(run: Run, i: int, j: int) {
    run.loI == i + 1 && run.loJ == j + 1
  }

  function Top(run: Run): Cell
    requires run.cells > 0
  {
    Cell(run.loI + run.cells - 1, run.loJ + run.cells - 1)
  }

  /** Adds the next cell of a chain to the runs so far: the last run grows, or a new one starts. */
  function AddCell(runs: seq<Run>, c: Cell): seq<Run> {
    if runs != [] && Continues(runs[|runs| - 1], c.i, c.j)
    then runs[..|runs| - 1] + [Run(c.i, c.j, runs[|runs| - 1].cells + 1)]
    else runs + [Run(c.i, c.j, 1)]
  }

  /** Splits a chain into diagonal runs, in the order of the chain. */
  function Group(chain: seq<Cell>): seq<Run> {
    if chain == [] then [] else AddCell(Group(chain[..|chain| - 1]), chain[|chain| - 1])
  }

  /** The cells of a run, from its end to its start. */
  function Cells(run: Run): (cells: seq<Cell>)
    ensures |cells| == run.cells
    ensures forall k :: 0 <= k < run.cells ==>
              cells[k] == Cell(run.loI + run.cells - 1 - k, run.loJ + run.cells - 1 - k)
  {
    seq(run.cells, k requires 0 <= k < run.cells => Cell(run.loI + run.cells - 1 - k, run.loJ + run.cells - 1 - k))
  }

  function Ungroup(runs: seq<Run>): seq<Cell> {
    if runs == [] then [] else Ungroup(runs[..|runs| - 1]) + Cells(runs[|runs| - 1])
  }

  /** No run is empty, and no run continues the one before it. */
  ghost predicate Maximal(runs: seq<Run>) {
    && (forall k :: 0 <= k < |runs| ==> runs[k].cells > 0)
    && (forall k :: 0 < k < |runs| ==> !Continues(runs[k - 1], Top(runs[k]).i, Top(runs[k]).j))
  }

  lemma {:induction false} GrowLast(init: seq<Run>, last: Run, c: Cell)
    requires Maximal(init + [last]) && Continues(last, c.i, c.j)
    ensures var grown := Run(c.i, c.j, last.cells + 1);
            Maximal(init + [grown]) && Ungroup(init + [grown]) == Ungroup(init + [last]) + [c]
  {
    var grown := Run(c.i, c.j, last.cells + 1);
    assert (init + [last])[|init|] == last;
    assert Cells(grown) == Cells(last) + [c];
    assert Top(grown) == Top(last);
    assert (init + [grown])[..|init|] == init && (init + [last])[..|init|] == init;
    forall k | 0 < k < |init + [grown]|
      ensures !Continues((init + [grown])[k - 1], Top((init + [grown])[k]).i, Top((init + [grown])[k]).j)
    {
      assert !Continues((init + [last])[k - 1], Top((init + [last])[k]).i, Top((init + [last])[k]).j);
    }
  }

  lemma {:induction false} StartNew(runs: seq<Run>, c: Cell)
    requires Maximal(runs) && (runs == [] || !Continues(runs[|runs| - 1], c.i, c.j))
    ensures Maximal(runs + [Run(c.i, c.j, 1)]) && Ungroup(runs + [Run(c.i, c.j, 1)]) == Ungroup(runs) + [c]
  {
    var all := runs + [Run(c.i, c.j, 1)];
    assert Maximal(all) by {
      assert Top(Run(c.i, c.j, 1)) == c;
    }
    hide Maximal;
    assert all[..|runs|] == runs;
    assert Cells(Run(c.i, c.j, 1)) == [c];
  }

  lemma GroupNothing()
    ensures Group([]) == [] && Ungroup([]) == [] && Maximal([])
  {
  }

  lemma {:induction false} GroupSnoc(chain: seq<Cell>, c: Cell)
    ensures Group(chain + [c]) == AddCell(Group(chain), c)
  {
    hide AddCell;
    assert (chain + [c])[..|chain|] == chain;
  }

  /** Grouping loses and reorders nothing, leaves no empty run, and never splits a diagonal. */
  lemma {:induction false} GroupExact(chain: seq<Cell>)
    ensures Ungroup(Group(chain)) == chain
    ensures Maximal(Group(chain))
  {
    hide Group, Ungroup, Maximal;
    GroupNothing();
    if chain != [] {
      var init, c := chain[..|chain| - 1], chain[|chain| - 1];
      var runs := Group(init);
      GroupExact(init);
      assert init + [c] == chain;
      GroupSnoc(init, c);
      if runs != [] && Continues(runs[|runs| - 1], c.i, c.j) {
        assert runs == runs[..|runs| - 1] + [runs[|runs| - 1]];
        GrowLast(runs[..|runs| - 1], runs[|runs| - 1], c);
      } else {
        StartNew(runs, c);
      }
    }
  }

  /** Two runs of one chain: `low` lies strictly before `high` in both strings. */
  ghost predicate Below(low: Run, high: Run) {
    low.loI + low.cells <= high.loI && low.loJ + low.cells <= high.loJ
  }

  /** Every run is one block of equal bytes of both strings, and the runs descend without overlap. */
  ghost predicate AreBlocks(runs: seq<Run>, a: Bytes, b: Bytes) {
    && (forall r :: r in runs ==>
          && r.loI + r.cells <= |a| && r.loJ + r.cells <= |b|
          && a[r.loI..r.loI + r.cells] == b[r.loJ..r.loJ + r.cells])
    && (forall k, l :: 0 <= k < l < |runs| ==> Below(runs[l], runs[k]))
  }

  lemma {:induction false} LowCellOf(runs: seq<Run>, k: nat)
    requires k < |runs| && runs[k].cells > 0
    ensures Cell(runs[k].loI, runs[k].loJ) in Ungroup(runs)
  {
    if k < |runs| - 1 {
      LowCellOf(runs[..|runs| - 1], k);
    } else {
      assert Cells(runs[k])[runs[k].cells - 1] == Cell(runs[k].loI, runs[k].loJ);
    }
  }

  lemma OneBlock(run: Run, a: Bytes, b: Bytes)
    requires run.cells > 0 && IsChain(Cells(run), a, b)
    ensures run.loI + run.cells <= |a| && run.loJ + run.cells <= |b|
    ensures a[run.loI..run.loI + run.cells] == b[run.loJ..run.loJ + run.cells]
  {
    assert Cells(run)[0] == Top(run);
    var x, y := a[run.loI..run.loI + run.cells], b[run.loJ..run.loJ + run.cells];
    forall t | 0 <= t < run.cells
      ensures x[t] == y[t]
    {
      assert Cells(run)[run.cells - 1 - t] == Cell(run.loI + t, run.loJ + t);
    }
  }

  lemma ChainParts(p: seq<Cell>, q: seq<Cell>, a: Bytes, b: Bytes)
    requires IsChain(p + q, a, b)
    ensures IsChain(p, a, b) && IsChain(q, a, b)
    ensures forall c, d :: c in p && d in q ==> d.i < c.i && d.j < c.j
  {
    var pq := p + q;
    forall k | 0 <= k < |p| ensures pq[k] == p[k] {}
    forall k | 0 <= k < |q| ensures pq[|p| + k] == q[k] {}
    assert IsChain(p, a, b);
    forall k | 0 <= k < |q|
      ensures q[k].i < |a| && q[k].j < |b| && a[q[k].i] == b[q[k].j]
    {
      assert pq[|p| + k] == q[k];
    }
    forall k, l | 0 <= k < l < |q|
      ensures q[l].i < q[k].i && q[l].j < q[k].j
    {
      assert pq[|p| + k] == q[k] && pq[|p| + l] == q[l];
    }
    forall c, d | c in p && d in q
      ensures d.i < c.i && d.j < c.j
    {
      var k :| 0 <= k < |p| && p[k] == c;
      var l :| 0 <= l < |q| && q[l] == d;
      assert pq[k] == c && pq[|p| + l] == d;
    }
  }

  lemma BlocksAppend(runs: seq<Run>, last: Run, a: Bytes, b: Bytes)
    requires AreBlocks(runs, a, b) && AreBlocks([last], a, b) && forall r :: r in runs ==> Below(last, r)
    ensures AreBlocks(runs + [last], a, b)
  {
  }

  lemma {:induction false} RunsAreBlocks(runs: seq<Run>, a: Bytes, b: Bytes)
    requires IsChain(Ungroup(runs), a, b) && forall r :: r in runs ==> r.cells > 0
    ensures AreBlocks(runs, a, b)
  {
    if runs != [] {
      var init, last := runs[..|runs| - 1], runs[|runs| - 1];
      ChainParts(Ungroup(init), Cells(last), a, b);
      RunsAreBlocks(init, a, b);
      OneBlock(last, a, b);
      forall r | r in init
        ensures Below(last, r)
      {
        var k :| 0 <= k < |init| && init[k] == r;
        LowCellOf(init, k);
        assert Top(last) == Cells(last)[0];
      }
      assert AreBlocks([last], a, b);
      BlocksAppend(init, last, a, b);
      assert runs == init + [last];
    }
  }

  /** The bytes from `lo` to `hi`, both included; nothing when these are no positions. */
  function Part(a: Bytes, lo: int, hi: int): Bytes {
    if 0 <= lo <= hi < |a| then a[lo..hi + 1] else []
  }

  /** Joins the blocks of `a` in forward order, as the reply without IDX does. */
  function JoinForward(runs: seq<Run>, a: Bytes): Bytes {
    if runs == [] then []
    else
      var last := runs[|runs| - 1];
      Part(a, last.loI, last.loI + last.cells - 1) + JoinForward(runs[..|runs| - 1], a)
  }

  lemma SpellConcat(p: seq<Cell>, q: seq<Cell>, a: Bytes)
    requires LieIn(p + q, a)
    ensures LieIn(p, a) && LieIn(q, a)
    ensures Spell(p + q, a) == Spell(q, a) + Spell(p, a)
  {
    assert forall k :: 0 <= k < |p| ==> (p + q)[k] == p[k];
    assert forall k :: 0 <= k < |q| ==> (p + q)[|p| + k] == q[k];
  }

  lemma BlockSpells(run: Run, a: Bytes)
    requires LieIn(Cells(run), a)
    ensures Part(a, run.loI, run.loI + run.cells - 1) == Spell(Cells(run), a)
  {
    assert run.cells > 0 ==> Cells(run)[0].i == run.loI + run.cells - 1;
  }

  lemma {:induction false} JoinSpells(runs: seq<Run>, a: Bytes)
    requires LieIn(Ungroup(runs), a)
    ensures JoinForward(runs, a) == Spell(Ungroup(runs), a)
  {
    if runs != [] {
      var init, last := runs[..|runs| - 1], runs[|runs| - 1];
      hide Part, Spell, Cells, LieIn;
      SpellConcat(Ungroup(init), Cells(last), a);
      JoinSpells(init, a);
      BlockSpells(last, a);
    } else {
      hide Part;
    }
  }

  lemma {:induction false} JoinNext(runs: seq<Run>, k: nat, a: Bytes)
    requires k < |runs|
    ensures JoinForward(runs[..k + 1], a) == Part(a, runs[k].loI, runs[k].loI + runs[k].cells - 1) + JoinForward(runs[..k], a)
  {
    hide Part;
    assert runs[..k + 1][..k] == runs[..k];
  }

  // ----- The algorithm

  /** A reported match: inclusive bounds in `a` and in `b`. */
  datatype Match = Match(aLo: int, aHi: int, bLo: int, bHi: int)

  function Span(run: Run): Match {
    Match(run.loI, run.loI + run.cells - 1, run.loJ, run.loJ + run.cells - 1)
  }

  function Spans(runs: seq<Run>): (matches: seq<Match>)
    ensures |matches| == |runs|
    ensures forall k :: 0 <= k < |runs| ==> matches[k] == Span(runs[k])
  {
    seq(|runs|, k requires 0 <= k < |runs| => Span(runs[k]))
  }

  ghost predicate IsLengthRow(row: seq<nat>, a: Bytes, b: Bytes, i: nat)
    requires i <= |a|
  {
    |row| == |b| + 1 && forall j :: 0 <= j <= |b| ==> row[j] == Best(a, b, i, j)
  }

  ghost predicate IsMoveRow(row: seq<Move>, a: Bytes, b: Bytes, i: nat, preferUp: bool)
    requires 0 < i <= |a|
  {
    |row| == |b| + 1 && forall j :: 0 < j <= |b| ==> row[j] == MoveAt(a, b, i, j, preferUp)
  }

  ghost predicate IsTable(dirs: seq<seq<Move>>, a: Bytes, b: Bytes, preferUp: bool, rows: nat)
    requires rows <= |a|
  {
    |dirs| == rows + 1 && forall i :: 0 < i <= rows ==> IsMoveRow(dirs[i], a, b, i, preferUp)
  }

  /** The rule for one cell, from its three neighbours. */
  lemma CellRule(a: Bytes, b: Bytes, i: nat, above: seq<nat>, lens: seq<nat>, moves: seq<Move>, preferUp: bool, j: nat)
    requires 0 < i <= |a| && 0 < j <= |b|
    requires IsLengthRow(above, a, b, i - 1) && IsLengthRow(lens, a, b, i) && IsMoveRow(moves, a, b, i, preferUp)
    ensures a[i - 1] == b[j - 1] ==> lens[j] == above[j - 1] + 1 && moves[j] == Diagonal
    ensures a[i - 1] != b[j - 1] ==>
              if above[j] > lens[j - 1] || (preferUp && above[j] == lens[j - 1])
              then lens[j] == above[j] && moves[j] == Up
              else lens[j] == lens[j - 1] && moves[j] == Left
  {
  }

  ghost function LengthRow(a: Bytes, b: Bytes, i: nat): (row: seq<nat>)
    requires i <= |a|
    ensures IsLengthRow(row, a, b, i)
  {
    seq(|b| + 1, j requires 0 <= j <= |b| => Best(a, b, i, j))
  }

  ghost function MoveRow(a: Bytes, b: Bytes, i: nat, preferUp: bool): (row: seq<Move>)
    requires 0 < i <= |a|
    ensures IsMoveRow(row, a, b, i, preferUp) && row[0] == Unset
  {
    seq(|b| + 1, j requires 0 <= j <= |b| => if j == 0 then Unset else MoveAt(a, b, i, j, preferUp))
  }

  /** One row of the table: lengths in `cur`, moves in `drow`, from the row above. */
  method FillRow(a: Bytes, b: Bytes, i: nat, prev: array<nat>, preferUp: bool)
    returns (cur: array<nat>, drow: array<Move>)
    requires 0 < i <= |a| && IsLengthRow(prev[..], a, b, i - 1)
    ensures fresh(cur) && fresh(drow)
    ensures IsLengthRow(cur[..], a, b, i)
    ensures IsMoveRow(drow[..], a, b, i, preferUp)
  {
    var m := |b|;
    ghost var above, lens, moves := prev[..], LengthRow(a, b, i), MoveRow(a, b, i, preferUp);
    assert lens[0] == 0;
    hide Best, MoveAt;
    cur := new nat[m + 1](_ => 0);
    drow := new Move[m + 1](_ => Unset);
    var ai := a[i - 1];
    for j := 1 to m + 1
      invariant prev[..] == above
      invariant cur[..j] == lens[..j]
      invariant drow[..j] == moves[..j]
    {
      CellRule(a, b, i, above, lens, moves, preferUp, j);
      assert prev[j] == above[j] && prev[j - 1] == above[j - 1] && cur[j - 1] == lens[j - 1];
      if ai == b[j - 1] {
        cur[j] := prev[j - 1] + 1;
        drow[j] := Diagonal;
      } else if prev[j] > cur[j - 1] || (preferUp && prev[j] == cur[j - 1]) {
        cur[j] := prev[j];
        drow[j] := Up;
      } else {
        cur[j] := cur[j - 1];
        drow[j] := Left;
      }
      assert cur[..j + 1] == cur[..j] + [cur[j]] && drow[..j + 1] == drow[..j] + [drow[j]];
      assert lens[..j + 1] == lens[..j] + [lens[j]] && moves[..j + 1] == moves[..j] + [moves[j]];
    }
    assert cur[..] == lens && drow[..] == moves;
  }

  /** Fills the direction matrix row by row, keeping two rows of lengths. */
  method FillTable(a: Bytes, b: Bytes, preferUp: bool) returns (length: nat, dirs: seq<seq<Move>>)
    ensures length == Best(a, b, |a|, |b|)
    ensures IsTable(dirs, a, b, preferUp, |a|)
  {
    var n, m := |a|, |b|;
    var prev := new nat[m + 1](_ => 0);
    dirs := [[]];
    for i := 1 to n + 1
      invariant IsLengthRow(prev[..], a, b, i - 1)
      invariant IsTable(dirs, a, b, preferUp, i - 1)
    {
      var cur, drow := FillRow(a, b, i, prev, preferUp);
      dirs := dirs + [drow[..]];
      prev := cur;
    }
    length := prev[..][m];
  }

  /** The run being extended: its end in both strings, and its length so far. */
  datatype OpenRun = Closed | Open(aHi: nat, bHi: nat, cells: nat)

  function CloseRun(run: OpenRun): Match
    requires run.Open?
  {
    Match(run.aHi - run.cells + 1, run.aHi, run.bHi - run.cells + 1, run.bHi)
  }

  function Flushed(matches: seq<Match>, run: OpenRun): seq<Match> {
    if run.Open? then matches + [CloseRun(run)] else matches
  }

  /** With the walk at (`i`, `j`), the reported matches and the open run are exactly `runs`. */
  ghost predicate Tracks(runs: seq<Run>, matches: seq<Match>, run: OpenRun, i: nat, j: nat) {
    && Flushed(matches, run) == Spans(runs)
    && (run.Open? ==> runs != [] && runs[|runs| - 1] == Run(i, j, run.cells))
    && (run.Closed? && runs != [] ==> !Continues(runs[|runs| - 1], i - 1, j - 1))
    && (runs != [] ==> i <= runs[|runs| - 1].loI && j <= runs[|runs| - 1].loJ)
  }

  function Longer(run: OpenRun, i: nat, j: nat): OpenRun {
    if run.Closed? then Open(i, j, 1) else Open(run.aHi, run.bHi, run.cells + 1)
  }

  lemma SpansAppend(runs: seq<Run>, r: Run)
    ensures Spans(runs + [r]) == Spans(runs) + [Span(r)]
  {
  }

  lemma TracksDiagonal(runs: seq<Run>, matches: seq<Match>, run: OpenRun, i: nat, j: nat)
    requires i > 0 && j > 0 && Tracks(runs, matches, run, i, j)
    ensures Tracks(AddCell(runs, Cell(i - 1, j - 1)), matches, Longer(run, i - 1, j - 1), i - 1, j - 1)
  {
    if run.Open? {
      hide Spans;
      var init, last := runs[..|runs| - 1], runs[|runs| - 1];
      assert runs == init + [last];
      SpansAppend(init, last);
      SpansAppend(init, Run(i - 1, j - 1, last.cells + 1));
      assert Spans(init) == matches;
    } else {
      hide Spans;
      SpansAppend(runs, Run(i - 1, j - 1, 1));
    }
  }

  lemma TracksBreak(runs: seq<Run>, matches: seq<Match>, run: OpenRun, i: nat, j: nat)
    requires Tracks(runs, matches, run, i, j)
    ensures i > 0 ==> Tracks(runs, Flushed(matches, run), Closed, i - 1, j)
    ensures j > 0 ==> Tracks(runs, Flushed(matches, run), Closed, i, j - 1)
  {
  }

  lemma AppendDiagonal(seen: seq<Cell>, a: Bytes, b: Bytes, i: nat, j: nat, preferUp: bool)
    requires 0 < i <= |a| && 0 < j <= |b| && MoveAt(a, b, i, j, preferUp) == Diagonal
    ensures seen + Path(a, b, i, j, preferUp) == seen + [Cell(i - 1, j - 1)] + Path(a, b, i - 1, j - 1, preferUp)
    ensures Group(seen + [Cell(i - 1, j - 1)]) == AddCell(Group(seen), Cell(i - 1, j - 1))
  {
    assert (seen + [Cell(i - 1, j - 1)])[..|seen|] == seen;
  }

  lemma SkipMove(a: Bytes, b: Bytes, i: nat, j: nat, preferUp: bool)
    requires 0 < i <= |a| && 0 < j <= |b| && MoveAt(a, b, i, j, preferUp) != Diagonal
    ensures Path(a, b, i, j, preferUp) ==
            if MoveAt(a, b, i, j, preferUp) == Up then Path(a, b, i - 1, j, preferUp) else Path(a, b, i, j - 1, preferUp)
  {
  }

  lemma WalkStarts(i: nat, j: nat)
    ensures Group([]) == [] && Tracks([], [], Closed, i, j)
  {
  }

  lemma {:induction false} WalkEnds(runs: seq<Run>, matches: seq<Match>, run: OpenRun, seen: seq<Cell>,
                                    a: Bytes, b: Bytes, i: nat, j: nat, preferUp: bool)
    requires Tracks(runs, matches, run, i, j) && i <= |a| && j <= |b| && (i == 0 || j == 0)
    ensures Flushed(matches, run) == Spans(runs)
    ensures seen + Path(a, b, i, j, preferUp) == seen
  {
  }

  /** Follows the recorded moves from the end of both strings, closing a run at each break. */
  method Backtrack(a: Bytes, b: Bytes, preferUp: bool, dirs: seq<seq<Move>>) returns (matches: seq<Match>)
    requires IsTable(dirs, a, b, preferUp, |a|)
    ensures matches == Spans(Group(Path(a, b, |a|, |b|, preferUp)))
  {
    hide Path, Group, Tracks, AddCell, Spans, Best;
    var i: nat, j: nat := |a|, |b|;
    matches := [];
    var run := Closed;
    WalkStarts(i, j);
    ghost var whole := Path(a, b, i, j, preferUp);
    ghost var seen: seq<Cell>, runs: seq<Run> := [], [];
    while i > 0 && j > 0
      invariant i <= |a| && j <= |b|
      invariant seen + Path(a, b, i, j, preferUp) == whole
      invariant runs == Group(seen) && Tracks(runs, matches, run, i, j)
      decreases i + j
    {
      assert IsMoveRow(dirs[i], a, b, i, preferUp);
      var d := dirs[i][j];
      if d == Diagonal {
        AppendDiagonal(seen, a, b, i, j, preferUp);
        TracksDiagonal(runs, matches, run, i, j);
        i, j := i - 1, j - 1;
        run := Longer(run, i, j);
        seen, runs := seen + [Cell(i, j)], AddCell(runs, Cell(i, j));
      } else {
        TracksBreak(runs, matches, run, i, j);
        SkipMove(a, b, i, j, preferUp);
        if run.Open? {
          matches := matches + [CloseRun(run)];
          run := Closed;
        }
        if d == Up {
          i := i - 1;
        } else {
          j := j - 1;
        }
      }
    }
    WalkEnds(runs, matches, run, seen, a, b, i, j, preferUp);
    if run.Open? {
      matches := matches + [CloseRun(run)];
    }
  }

  // ----- What the algorithm guarantees

  /** The subsequence the reply spells out. */
  function Text(a: Bytes, b: Bytes, preferUp: bool): Bytes {
    PathIsChain(a, b, |a|, |b|, preferUp);
    Spell(Path(a, b, |a|, |b|, preferUp), a)
  }

  /** The reported length is attained by a common subsequence, and no common subsequence is longer. */
  lemma {:induction false} LengthIsMaximum(a: Bytes, b: Bytes, preferUp: bool)
    ensures IsCommon(Text(a, b, preferUp), a, b)
    ensures |Text(a, b, preferUp)| == Best(a, b, |a|, |b|)
    ensures forall s :: IsCommon(s, a, b) ==> |s| <= Best(a, b, |a|, |b|)
  {
    PathIsChain(a, b, |a|, |b|, preferUp);
    PathLength(a, b, |a|, |b|, preferUp);
    ChainSpellsCommon(Path(a, b, |a|, |b|, preferUp), a, b);
    forall s | IsCommon(s, a, b)
      ensures |s| <= Best(a, b, |a|, |b|)
    {
      WithinIffSubsequence(s, a);
      WithinIffSubsequence(s, b);
      BestIsUpperBound(s, |s|, a, |a|, b, |b|);
    }
  }

  function TotalCells(runs: seq<Run>): nat {
    if runs == [] then 0 else TotalCells(runs[..|runs| - 1]) + runs[|runs| - 1].cells
  }

  lemma {:induction false} TotalIsLength(runs: seq<Run>)
    ensures TotalCells(runs) == |Ungroup(runs)|
  {
    if runs != [] {
      TotalIsLength(runs[..|runs| - 1]);
    }
  }

  /** Grouping any chain gives descending, disjoint blocks of equal bytes that hold every cell of it. */
  lemma {:induction false} GroupedChain(chain: seq<Cell>, a: Bytes, b: Bytes)
    requires IsChain(chain, a, b)
    ensures Maximal(Group(chain)) && AreBlocks(Group(chain), a, b)
    ensures TotalCells(Group(chain)) == |chain|
    ensures JoinForward(Group(chain), a) == Spell(chain, a)
  {
    GroupExact(chain);
    RunsAreBlocks(Group(chain), a, b);
    TotalIsLength(Group(chain));
    JoinSpells(Group(chain), a);
  }

  /**
   The backtrack's runs are equal blocks of both strings, maximal, disjoint and descending;
   their cells add up to the length, and joined forwards they spell a longest common subsequence.
   */
  lemma {:induction false} BacktrackIsSound(a: Bytes, b: Bytes, preferUp: bool)
    ensures var runs := Group(Path(a, b, |a|, |b|, preferUp));
            && Maximal(runs) && AreBlocks(runs, a, b)
            && TotalCells(runs) == Best(a, b, |a|, |b|)
            && JoinForward(runs, a) == Text(a, b, preferUp)
  {
    PathIsChain(a, b, |a|, |b|, preferUp);
    PathLength(a, b, |a|, |b|, preferUp);
    GroupedChain(Path(a, b, |a|, |b|, preferUp), a, b);
  }

  // ----- What the returned matches say, field by field

  /** The matches align equal substrings of both strings, from the end of both to their start, without overlap. */
  ghost predicate IsAlignment(matches: seq<Match>, a: Bytes, b: Bytes) {
    && (forall k :: 0 <= k < |matches| ==>
          && 0 <= matches[k].aLo <= matches[k].aHi < |a|
          && 0 <= matches[k].bLo <= matches[k].bHi < |b|
          && a[matches[k].aLo..matches[k].aHi + 1] == b[matches[k].bLo..matches[k].bHi + 1])
    && (forall k, l :: 0 <= k < l < |matches| ==>
          matches[l].aHi < matches[k].aLo && matches[l].bHi < matches[k].bLo)
  }

  /** No two neighbouring matches could be one. */
  ghost predicate NoneContinues(matches: seq<Match>) {
    forall k :: 0 < k < |matches| ==>
                  !(matches[k].aHi + 1 == matches[k - 1].aLo && matches[k].bHi + 1 == matches[k - 1].bLo)
  }

  function SizeOf(matches: seq<Match>): int {
    if matches == [] then 0
    else SizeOf(matches[..|matches| - 1]) + (matches[|matches| - 1].aHi - matches[|matches| - 1].aLo + 1)
  }

  /** The matched parts of `a`, last match first. */
  function Spelled(matches: seq<Match>, a: Bytes): Bytes {
    if matches == [] then []
    else Part(a, matches[|matches| - 1].aLo, matches[|matches| - 1].aHi) + Spelled(matches[..|matches| - 1], a)
  }

  lemma SpansAlign(runs: seq<Run>, a: Bytes, b: Bytes)
    requires Maximal(runs) && AreBlocks(runs, a, b)
    ensures IsAlignment(Spans(runs), a, b)
  {
    var matches := Spans(runs);
    forall k | 0 <= k < |matches|
      ensures 0 <= matches[k].aLo <= matches[k].aHi < |a| && 0 <= matches[k].bLo <= matches[k].bHi < |b|
      ensures a[matches[k].aLo..matches[k].aHi + 1] == b[matches[k].bLo..matches[k].bHi + 1]
    {
      var r := runs[k];
      assert r in runs && matches[k] == Span(r);
      assert matches[k].aHi + 1 == r.loI + r.cells && matches[k].bHi + 1 == r.loJ + r.cells;
    }
    forall k, l | 0 <= k < l < |matches|
      ensures matches[l].aHi < matches[k].aLo && matches[l].bHi < matches[k].bLo
    {
      assert Below(runs[l], runs[k]);
    }
  }

  lemma SpansApart(runs: seq<Run>)
    requires Maximal(runs)
    ensures NoneContinues(Spans(runs))
  {
    forall k | 0 < k < |runs|
      ensures !(Spans(runs)[k].aHi + 1 == Spans(runs)[k - 1].aLo && Spans(runs)[k].bHi + 1 == Spans(runs)[k - 1].bLo)
    {
      assert !Continues(runs[k - 1], Top(runs[k]).i, Top(runs[k]).j);
    }
  }

  lemma {:induction false} SpelledSnoc(matches: seq<Match>, m: Match, a: Bytes)
    ensures SizeOf(matches + [m]) == SizeOf(matches) + (m.aHi - m.aLo + 1)
    ensures Spelled(matches + [m], a) == Part(a, m.aLo, m.aHi) + Spelled(matches, a)
  {
    assert (matches + [m])[..|matches|] == matches;
  }

  lemma {:induction false} SpansSpell(runs: seq<Run>, a: Bytes)
    ensures SizeOf(Spans(runs)) == TotalCells(runs)
    ensures Spelled(Spans(runs), a) == JoinForward(runs, a)
  {
    if runs == [] {
      assert Spans(runs) == [];
    } else {
      var init, last := runs[..|runs| - 1], runs[|runs| - 1];
      assert Spans(runs) == Spans(init) + [Span(last)];
      hide Spans, Spelled, SizeOf, Part;
      SpansSpell(init, a);
      SpelledSnoc(Spans(init), Span(last), a);
    }
  }

  /** What the path's spans are, without runs or the path: a maximal alignment that spells a longest common subsequence. */
  lemma {:induction false} MatchesAreSound(a: Bytes, b: Bytes, preferUp: bool)
    ensures var matches := Spans(Group(Path(a, b, |a|, |b|, preferUp)));
            && IsAlignment(matches, a, b) && NoneContinues(matches) && SizeOf(matches) == Best(a, b, |a|, |b|)
            && Spelled(matches, a) == Text(a, b, preferUp)
  {
    BacktrackIsSound(a, b, preferUp);
    var runs := Group(Path(a, b, |a|, |b|, preferUp));
    SpansAlign(runs, a, b);
    SpansApart(runs);
    SpansSpell(runs, a);
  }

  /**
   The matches align equal substrings, their sizes add up to the length, and read forwards they spell a common
   subsequence of that length; no common subsequence is longer.
   */
  method LcsRuns(a: Bytes, b: Bytes, preferUp: bool) returns (length: nat, matches: seq<Match>)
    ensures IsAlignment(matches, a, b) && NoneContinues(matches) && SizeOf(matches) == length
    ensures |Spelled(matches, a)| == length && IsCommon(Spelled(matches, a), a, b)
    ensures forall s :: IsCommon(s, a, b) ==> |s| <= length
    ensures length == Best(a, b, |a|, |b|)
    ensures matches == Spans(Group(Path(a, b, |a|, |b|, preferUp)))
  {
    MatchesAreSound(a, b, preferUp);
    LengthIsMaximum(a, b, preferUp);
    hide IsAlignment, NoneContinues, IsCommon, SizeOf, Spelled;
    if |a| == 0 || |b| == 0 {
      return 0, [];
    }
    var dirs;
    length, dirs := FillTable(a, b, preferUp);
    matches := Backtrack(a, b, preferUp, dirs);
  }

  // ----- Which longest common subsequence

  /** No chain of matched cells below (`i`, `j`) is longer than the table says. */
  lemma {:induction false} ChainBound(chain: seq<Cell>, a: Bytes, b: Bytes, i: nat, j: nat)
    requires i <= |a| && j <= |b| && IsChain(chain, a, b) && Inside(chain, i, j)
    ensures |chain| <= Best(a, b, i, j)
    decreases i + j
  {
    if chain != [] {
      assert chain[0].i < i && chain[0].j < j;
      if a[i - 1] == b[j - 1] {
        assert IsChain(chain[1..], a, b) && Inside(chain[1..], i - 1, j - 1);
        ChainBound(chain[1..], a, b, i - 1, j - 1);
      } else if chain[0].i < i - 1 {
        assert Inside(chain, i - 1, j);
        ChainBound(chain, a, b, i - 1, j);
      } else {
        assert Inside(chain, i, j - 1);
        ChainBound(chain, a, b, i, j - 1);
      }
    }
  }

  /** A longest chain that could still be lengthened by the cell `c` is none. */
  lemma {:induction false} NoLongerChain(chain: seq<Cell>, c: Cell, a: Bytes, b: Bytes, i: nat, j: nat)
    requires i <= |a| && j <= |b| && c.i < i && c.j < j && a[c.i] == b[c.j]
    requires IsChain(chain, a, b) && Inside(chain, c.i, c.j)
    ensures |chain| < Best(a, b, i, j)
  {
    ChainCons(c, chain, a, b);
    assert Inside([c] + chain, i, j);
    ChainBound([c] + chain, a, b, i, j);
  }

  /**
   The tie-break. Of all longest chains of matches below a cell, the recorded path starts with a match as far right
   in `a` as any, by default; as far right in `b` as any, when ties move up. So it is again after each match.
   */
  lemma {:induction false} TieBreak(chain: seq<Cell>, a: Bytes, b: Bytes, i: nat, j: nat, preferUp: bool)
    requires i <= |a| && j <= |b| && IsChain(chain, a, b) && Inside(chain, i, j)
    requires chain != [] && |chain| == Best(a, b, i, j)
    ensures var path := Path(a, b, i, j, preferUp);
            && path != []
            && (if preferUp then chain[0].j <= path[0].j else chain[0].i <= path[0].i)
    decreases i + j
  {
    hide Embeds, Within;
    PathLength(a, b, i, j, preferUp);
    PathIsChain(a, b, i, j, preferUp);
    if a[i - 1] != b[j - 1] {
      assert chain[0].i < i - 1 || chain[0].j < j - 1;
      var move := MoveAt(a, b, i, j, preferUp);
      var i', j' := if move == Up then i - 1 else i, if move == Up then j else j - 1;
      var path := Path(a, b, i', j', preferUp);
      assert path == Path(a, b, i, j, preferUp);
      PathIsChain(a, b, i', j', preferUp);
      if chain[0].i < i' && chain[0].j < j' {
        assert Inside(chain, i', j');
        TieBreak(chain, a, b, i', j', preferUp);
      } else if chain[0].i < path[0].i && chain[0].j < path[0].j {
      } else if preferUp && chain[0].j > path[0].j && chain[0].i > path[0].i {
        NoLongerChain(path, chain[0], a, b, i, j);
      } else if !preferUp && chain[0].i > path[0].i && chain[0].j > path[0].j {
        NoLongerChain(path, chain[0], a, b, i, j);
      } else if move == Up && !preferUp {
        assert Inside(chain, i, j - 1);
        ChainBound(chain, a, b, i, j - 1);
      } else if move != Up && preferUp {
        assert Inside(chain, i - 1, j);
        ChainBound(chain, a, b, i - 1, j);
      }
    }
  }

  // ----- The IDX walk

  /** Greatest position below `i` at which `a` holds `c`. */
  function LastAt(a: Bytes, i: nat, c: byte): (p: nat)
    requires i <= |a| && c in a[..i]
    ensures p < i && a[p] == c
    ensures forall q :: p < q < i ==> a[q] != c
  {
    if a[i - 1] == c then i - 1 else LastAt(a, i - 1, c)
  }

  lemma {:induction false} WithinHasLast(s: Bytes, k: nat, a: Bytes, i: nat)
    requires 0 < k <= |s| && i <= |a| && Within(s, k, a, i)
    ensures s[k - 1] in a[..i]
    ensures Within(s, k - 1, a, LastAt(a, i, s[k - 1]))
    decreases i
  {
    if a[i - 1] == s[k - 1] {
      WithinShorter(s, k, a, i);
    } else {
      WithinHasLast(s, k, a, i - 1);
      assert a[..i - 1] == a[..i][..i - 1];
    }
  }

  /** The cells of the rightmost placement of the first `k` bytes of `s` below (`i`, `j`). */
  function Rightmost(s: Bytes, k: nat, a: Bytes, i: nat, b: Bytes, j: nat): seq<Cell>
    requires k <= |s| && i <= |a| && j <= |b|
    requires Within(s, k, a, i) && Within(s, k, b, j)
    decreases k
  {
    if k == 0 then []
    else
      WithinHasLast(s, k, a, i);
      WithinHasLast(s, k, b, j);
      var p, q := LastAt(a, i, s[k - 1]), LastAt(b, j, s[k - 1]);
      [Cell(p, q)] + Rightmost(s, k - 1, a, p, b, q)
  }

  lemma {:induction false} RightmostIsChain(s: Bytes, k: nat, a: Bytes, i: nat, b: Bytes, j: nat)
    requires k <= |s| && i <= |a| && j <= |b|
    requires Within(s, k, a, i) && Within(s, k, b, j)
    ensures IsChain(Rightmost(s, k, a, i, b, j), a, b)
    ensures Inside(Rightmost(s, k, a, i, b, j), i, j)
    ensures |Rightmost(s, k, a, i, b, j)| == k
    ensures forall t :: 0 <= t < k ==> a[Rightmost(s, k, a, i, b, j)[t].i] == s[k - 1 - t]
    decreases k
  {
    if k > 0 {
      WithinHasLast(s, k, a, i);
      WithinHasLast(s, k, b, j);
      var p, q := LastAt(a, i, s[k - 1]), LastAt(b, j, s[k - 1]);
      RightmostIsChain(s, k - 1, a, p, b, q);
      ChainCons(Cell(p, q), Rightmost(s, k - 1, a, p, b, q), a, b);
    }
  }

  /** No embedding puts any byte further right, in either string. */
  lemma {:induction false} RightmostDominates(s: Bytes, k: nat, a: Bytes, i: nat, b: Bytes, j: nat,
                                              ix: seq<nat>, jx: seq<nat>, t: nat)
    requires k <= |s| && i <= |a| && j <= |b|
    requires Within(s, k, a, i) && Within(s, k, b, j)
    requires Embeds(s, a, ix) && Embeds(s, b, jx)
    requires t < k && ix[k - 1] < i && jx[k - 1] < j
    ensures |Rightmost(s, k, a, i, b, j)| == k
    ensures ix[t] <= Rightmost(s, k, a, i, b, j)[k - 1 - t].i
    ensures jx[t] <= Rightmost(s, k, a, i, b, j)[k - 1 - t].j
    decreases k
  {
    WithinHasLast(s, k, a, i);
    WithinHasLast(s, k, b, j);
    RightmostIsChain(s, k, a, i, b, j);
    var p, q := LastAt(a, i, s[k - 1]), LastAt(b, j, s[k - 1]);
    if t < k - 1 {
      RightmostDominates(s, k - 1, a, p, b, q, ix, jx, t);
    }
  }

  /** The cells of the rightmost placement of `s` in both strings. */
  function Placement(s: Bytes, a: Bytes, b: Bytes): seq<Cell>
    requires Within(s, |s|, a, |a|) && Within(s, |s|, b, |b|)
  {
    Rightmost(s, |s|, a, |a|, b, |b|)
  }

  function Kept(runs: seq<Run>, minMatchLen: int): seq<Run> {
    if runs == [] then []
    else
      var last := runs[|runs| - 1];
      Kept(runs[..|runs| - 1], minMatchLen) + (if last.cells >= minMatchLen then [last] else [])
  }

  lemma {:induction false} KeptAppend(runs: seq<Run>, r: Run, minMatchLen: int)
    ensures Kept(runs + [r], minMatchLen) == Kept(runs, minMatchLen) + (if r.cells >= minMatchLen then [r] else [])
  {
    assert (runs + [r])[..|runs|] == runs;
  }

  /** Exactly the runs that are long enough, in their order. */
  lemma {:induction false} KeptExact(runs: seq<Run>, minMatchLen: int)
    ensures forall r :: r in Kept(runs, minMatchLen) <==> r in runs && r.cells >= minMatchLen
  {
    if runs != [] {
      var init, last := runs[..|runs| - 1], runs[|runs| - 1];
      KeptExact(init, minMatchLen);
      forall r
        ensures r in runs <==> r in init || r == last
      {
        assert runs == init + [last];
      }
    }
  }

  lemma {:induction false} KeptAll(runs: seq<Run>, minMatchLen: int)
    requires forall r :: r in runs ==> r.cells >= minMatchLen
    ensures Kept(runs, minMatchLen) == runs
  {
    if runs != [] {
      var init, last := runs[..|runs| - 1], runs[|runs| - 1];
      assert runs == init + [last];
      hide Kept;
      KeptAppend(init, last, minMatchLen);
      KeptAll(init, minMatchLen);
    }
  }

  lemma BlocksParts(runs: seq<Run>, a: Bytes, b: Bytes)
    requires runs != [] && AreBlocks(runs, a, b)
    ensures AreBlocks(runs[..|runs| - 1], a, b) && AreBlocks([runs[|runs| - 1]], a, b)
    ensures var last := runs[|runs| - 1]; forall r :: r in runs[..|runs| - 1] ==> Below(last, r)
  {
  }

  lemma {:induction false} KeptBlocks(runs: seq<Run>, minMatchLen: int, a: Bytes, b: Bytes)
    requires AreBlocks(runs, a, b)
    ensures AreBlocks(Kept(runs, minMatchLen), a, b)
  {
    if runs != [] {
      var init, last := runs[..|runs| - 1], runs[|runs| - 1];
      BlocksParts(runs, a, b);
      KeptBlocks(init, minMatchLen, a, b);
      KeptExact(init, minMatchLen);
      if last.cells >= minMatchLen {
        BlocksAppend(Kept(init, minMatchLen), last, a, b);
      }
    }
  }

  ghost predicate WalkState(runs: seq<Run>, run: Option<Run>, reply: seq<Run>, minMatchLen: int) {
    match run
    case None => runs == [] && reply == []
    case Some(r) => runs != [] && runs[|runs| - 1] == r && reply == Kept(runs[..|runs| - 1], minMatchLen)
  }

  function Report(reply: seq<Run>, run: Option<Run>, minMatchLen: int): seq<Run> {
    if run.Some? && run.value.cells >= minMatchLen then reply + [run.value] else reply
  }

  lemma {:induction false} ReportsAll(runs: seq<Run>, run: Option<Run>, reply: seq<Run>, minMatchLen: int)
    requires WalkState(runs, run, reply, minMatchLen)
    ensures Report(reply, run, minMatchLen) == Kept(runs, minMatchLen)
  {
  }

  function NextRun(run: Option<Run>, i: nat, j: nat): Option<Run> {
    if run.Some? && Continues(run.value, i, j) then Some(Run(i, j, run.value.cells + 1)) else Some(Run(i, j, 1))
  }

  function NextReply(reply: seq<Run>, run: Option<Run>, i: nat, j: nat, minMatchLen: int): seq<Run> {
    if run.Some? && Continues(run.value, i, j) then reply else Report(reply, run, minMatchLen)
  }

  lemma WalkStep(runs: seq<Run>, run: Option<Run>, reply: seq<Run>, minMatchLen: int, i: nat, j: nat)
    requires WalkState(runs, run, reply, minMatchLen)
    ensures WalkState(AddCell(runs, Cell(i, j)), NextRun(run, i, j), NextReply(reply, run, i, j, minMatchLen), minMatchLen)
  {
    ReportsAll(runs, run, reply, minMatchLen);
    assert (runs + [Run(i, j, 1)])[..|runs|] == runs;
    if runs != [] {
      var init := runs[..|runs| - 1];
      assert (init + [Run(i, j, runs[|runs| - 1].cells + 1)])[..|init|] == init;
    }
  }

  /** One search: the last position at or below `i` that holds `c`, where the walk is known to find one. */
  method SearchDown(a: Bytes, i: int, c: byte) returns (p: nat)
    requires -1 <= i < |a| && c in a[..i + 1]
    ensures p == LastAt(a, i + 1, c)
  {
    var at := i;
    while at >= 0 && a[at] != c
      invariant -1 <= at <= i && c in a[..at + 1] && LastAt(a, at + 1, c) == LastAt(a, i + 1, c)
    {
      assert a[..at + 1] == a[..at] + [a[at]];
      at := at - 1;
    }
    p := at;
  }

  /** Where the search for cell `t` starts: just below the cell before it, or at the end of the string. */
  ghost function StartI(cells: seq<Cell>, t: nat, n: nat): nat
    requires t <= |cells|
  {
    if t == 0 then n else cells[t - 1].i
  }

  ghost function StartJ(cells: seq<Cell>, t: nat, m: nat): nat
    requires t <= |cells|
  {
    if t == 0 then m else cells[t - 1].j
  }

  /** The search for cell `t` of a placement of `s` succeeds, and finds just that cell. */
  ghost predicate Found(cells: seq<Cell>, s: Bytes, a: Bytes, n: nat, b: Bytes, m: nat, t: nat)
    requires t < |cells| <= |s|
  {
    var c, i, j := s[|cells| - 1 - t], StartI(cells, t, n), StartJ(cells, t, m);
    && i <= |a| && c in a[..i] && cells[t].i == LastAt(a, i, c)
    && j <= |b| && c in b[..j] && cells[t].j == LastAt(b, j, c)
  }

  /** Every search of the walk succeeds: it never runs off either string. */
  lemma {:induction false} SearchesSucceed(s: Bytes, k: nat, a: Bytes, i: nat, b: Bytes, j: nat, t: nat)
    requires k <= |s| && i <= |a| && j <= |b| && t < k
    requires Within(s, k, a, i) && Within(s, k, b, j)
    ensures |Rightmost(s, k, a, i, b, j)| == k && Found(Rightmost(s, k, a, i, b, j), s, a, i, b, j, t)
    decreases k
  {
    WithinHasLast(s, k, a, i);
    WithinHasLast(s, k, b, j);
    RightmostIsChain(s, k, a, i, b, j);
    if t > 0 {
      var p, q := LastAt(a, i, s[k - 1]), LastAt(b, j, s[k - 1]);
      SearchesSucceed(s, k - 1, a, p, b, q, t - 1);
    }
  }

  lemma GroupPrefix(chain: seq<Cell>, t: nat)
    requires t < |chain|
    ensures Group(chain[..t + 1]) == AddCell(Group(chain[..t]), chain[t])
  {
    assert chain[..t + 1] == chain[..t] + [chain[t]];
    GroupSnoc(chain[..t], chain[t]);
  }

  /** The run grows when the new cell is just below it on the diagonal; otherwise it is reported and a new one starts. */
  method ExtendOrReport(reply: seq<Run>, run: Option<Run>, i: nat, j: nat, minMatchLen: int)
    returns (reply': seq<Run>, run': Option<Run>)
    ensures run' == NextRun(run, i, j) && reply' == NextReply(reply, run, i, j, minMatchLen)
  {
    reply' := reply;
    if run.Some? && i == run.value.loI - 1 && j == run.value.loJ - 1 {
      run' := Some(Run(i, j, run.value.cells + 1));
    } else {
      if run.Some? && run.value.cells >= minMatchLen {
        reply' := reply + [run.value];
      }
      run' := Some(Run(i, j, 1));
    }
  }

  method FinishWalk(ghost runs: seq<Run>, run: Option<Run>, reply: seq<Run>, minMatchLen: int) returns (all: seq<Run>)
    requires WalkState(runs, run, reply, minMatchLen)
    ensures all == Kept(runs, minMatchLen)
  {
    ReportsAll(runs, run, reply, minMatchLen);
    all := reply;
    if run.Some? && run.value.cells >= minMatchLen {
      all := all + [run.value];
    }
  }

  /** Walks `s` from its end, placing each byte as far right as it goes, and reports the long enough runs. */
  method WalkDown(s: Bytes, a: Bytes, b: Bytes, minMatchLen: int, ghost cells: seq<Cell>) returns (reply: seq<Run>)
    requires |cells| == |s| && forall t :: 0 <= t < |s| ==> Found(cells, s, a, |a|, b, |b|, t)
    ensures reply == Kept(Group(cells), minMatchLen)
  {
    reply := [];
    var i: int, j: int, k: int := |a| - 1, |b| - 1, |s| - 1;
    var run := None;
    ghost var runs: seq<Run>, t: nat := [], 0;
    while k >= 0
      invariant -1 <= k && k + t == |s| - 1
      invariant i + 1 == StartI(cells, t, |a|) && j + 1 == StartJ(cells, t, |b|)
      invariant runs == Group(cells[..t]) && WalkState(runs, run, reply, minMatchLen)
    {
      assert Found(cells, s, a, |a|, b, |b|, t);
      i := SearchDown(a, i, s[k]);
      j := SearchDown(b, j, s[k]);
      WalkStep(runs, run, reply, minMatchLen, i, j);
      GroupPrefix(cells, t);
      runs, t := AddCell(runs, Cell(i, j)), t + 1;
      reply, run := ExtendOrReport(reply, run, i, j, minMatchLen);
      i, j, k := i - 1, j - 1, k - 1;
    }
    assert cells[..t] == cells;
    reply := FinishWalk(runs, run, reply, minMatchLen);
  }

  method IndexWalk(s: Bytes, a: Bytes, b: Bytes, minMatchLen: int) returns (reply: seq<Run>)
    requires Within(s, |s|, a, |a|) && Within(s, |s|, b, |b|)
    ensures reply == Kept(Group(Placement(s, a, b)), minMatchLen)
  {
    RightmostIsChain(s, |s|, a, |a|, b, |b|);
    forall t | 0 <= t < |s|
      ensures Found(Placement(s, a, b), s, a, |a|, b, |b|, t)
    {
      SearchesSucceed(s, |s|, a, |a|, b, |b|, t);
    }
    reply := WalkDown(s, a, b, minMatchLen, Placement(s, a, b));
  }

  /**
   The IDX blocks: equal, disjoint, descending blocks of both strings that together spell the
   subsequence, placed as far right as any placement; those with fewer than `minMatchLen` cells,
   and no others, are dropped.
   */
  lemma {:induction false} IndexBlocksAreSound(s: Bytes, a: Bytes, b: Bytes, minMatchLen: int)
    requires IsCommon(s, a, b)
    ensures Within(s, |s|, a, |a|) && Within(s, |s|, b, |b|)
    ensures var all := Group(Placement(s, a, b));
            var reply := Kept(all, minMatchLen);
            && Maximal(all) && AreBlocks(all, a, b) && AreBlocks(reply, a, b)
            && TotalCells(all) == |s| && JoinForward(all, a) == s
            && (forall r :: r in reply <==> r in all && r.cells >= minMatchLen)
            && (minMatchLen <= 1 ==> reply == all)
  {
    WithinIffSubsequence(s, a);
    WithinIffSubsequence(s, b);
    var chain := Placement(s, a, b);
    RightmostIsChain(s, |s|, a, |a|, b, |b|);
    GroupedChain(chain, a, b);
    assert Spell(chain, a) == s;
    KeptExact(Group(chain), minMatchLen);
    if minMatchLen <= 1 {
      KeptAll(Group(chain), minMatchLen);
    }
    KeptBlocks(Group(chain), minMatchLen, a, b);
  }

  // ----- The command

  datatype Reply =
    | Conflict
    | Length(length: nat)
    | Subsequence(text: Bytes)
    | Index(matches: seq<Run>, withMatchLen: bool, length: nat)

  /** Joins the matched parts of `a`, last match first. */
  method JoinMatches(a: Bytes, matches: seq<Match>, ghost runs: seq<Run>) returns (text: Bytes)
    requires matches == Spans(runs) && forall k :: 0 <= k < |runs| ==> runs[k].cells > 0 && runs[k].loI + runs[k].cells <= |a|
    ensures text == JoinForward(runs, a)
  {
    hide JoinForward;
    NothingJoined(a);
    text := [];
    for k := 0 to |matches|
      invariant text == JoinForward(runs[..k], a)
    {
      JoinNext(runs, k, a);
      assert matches[k] == Span(runs[k]);
      text := a[matches[k].aLo..matches[k].aHi + 1] + text;
    }
    assert runs[..|matches|] == runs;
  }

  lemma {:induction false} NothingJoined(a: Bytes)
    ensures JoinForward([], a) == []
  {
  }

  /** LCS on two values (a missing key counts as the empty string), after its options are parsed. */
  method LcsCommand(a: Bytes, b: Bytes, lenOnly: bool, idx: bool, minMatchLen: int, withMatchLen: bool)
    returns (reply: Reply)
    ensures lenOnly && idx <==> reply.Conflict?
    ensures lenOnly && !idx ==> reply == Length(Best(a, b, |a|, |b|))
    ensures !lenOnly && !idx ==> reply == Subsequence(Text(a, b, false))
    ensures idx && !lenOnly ==>
              var s := Text(a, b, false);
              && Within(s, |s|, a, |a|) && Within(s, |s|, b, |b|)
              && reply == Index(Kept(Group(Placement(s, a, b)), if minMatchLen < 1 then 1 else minMatchLen),
                                withMatchLen, Best(a, b, |a|, |b|))
  {
    var least := if minMatchLen < 1 then 1 else minMatchLen;
    if lenOnly && idx {
      return Conflict;
    }
    var length, matches := LcsRuns(a, b, false);
    if lenOnly {
      return Length(length);
    }
    BacktrackIsSound(a, b, false);
    var s := JoinMatches(a, matches, Group(Path(a, b, |a|, |b|, false)));
    if !idx {
      return Subsequence(s);
    }
    LengthIsMaximum(a, b, false);
    WithinIffSubsequence(s, a);
    WithinIffSubsequence(s, b);
    var blocks := IndexWalk(s, a, b, least);
    reply := Index(blocks, withMatchLen, length);
  }
}
