/**
 * The knowledge base as a value: sentences as (cells, count) constraints, the
 * AI's fact sets, and every operation of the AI as a function of the old value.
 * The imperative classes in module Sentences and module Agent are proved to
 * compute exactly these functions; the properties of the AI are proved here.
 */
module Logic {
  import opened Geometry

  /** The value of a sentence: "exactly `count` of `cells` are mines". */
  datatype Constraint = Constraint(cells: set<Cell>, count: int)
  {
    /** The value after learning that x is a mine. */
    function WithMine(x: Cell): (r: Constraint)
      ensures x !in r.cells && r.cells <= cells
      ensures x !in cells ==> r == this
    {
      if x in cells then Constraint(cells - {x}, count - 1) else this
    }

    /** The value after learning that x is safe. */
    function WithSafe(x: Cell): (r: Constraint)
      ensures x !in r.cells && r.cells <= cells && r.count == count
      ensures x !in cells ==> r == this
    {
      if x in cells then Constraint(cells - {x}, count) else this
    }

    /** The value after learning that every cell of s is a mine. */
    function WithMines(s: set<Cell>): Constraint {
      Constraint(cells - s, count - |cells * s|)
    }

    /** The value after learning that every cell of s is safe. */
    function WithSafes(s: set<Cell>): Constraint {
      Constraint(cells - s, count)
    }

    /** The subset rule: this sentence with the cells and the count of b taken away. */
    function Minus(b: Constraint): Constraint {
      Constraint(cells - b.cells, count - b.count)
    }

    /** Every cell is a mine (the resolution pass asks this first). */
    predicate AllMines() {
      |cells| == count
    }

    /** No cell is a mine. */
    predicate AllSafe() {
      count == 0
    }

    predicate Resolved() {
      AllMines() || AllSafe()
    }

    /** The sentence is true of the mine layout m. */
    ghost predicate HoldsIn(m: set<Cell>) {
      |cells * m| == count
    }
  }

  function WithMineAll(ks: seq<Constraint>, x: Cell): seq<Constraint> {
    seq(|ks|, k requires 0 <= k < |ks| => ks[k].WithMine(x))
  }

  function WithSafeAll(ks: seq<Constraint>, x: Cell): seq<Constraint> {
    seq(|ks|, k requires 0 <= k < |ks| => ks[k].WithSafe(x))
  }

  function WithMinesAll(ks: seq<Constraint>, s: set<Cell>): seq<Constraint> {
    seq(|ks|, k requires 0 <= k < |ks| => ks[k].WithMines(s))
  }

  function WithSafesAll(ks: seq<Constraint>, s: set<Cell>): seq<Constraint> {
    seq(|ks|, k requires 0 <= k < |ks| => ks[k].WithSafes(s))
  }

  /** Cells of the first n sentences that resolve to all mines. */
  function ResolvedMines(ks: seq<Constraint>, n: nat): set<Cell>
    requires n <= |ks|
  {
    if n == 0 then {}
    else if ks[n - 1].AllMines() then ResolvedMines(ks, n - 1) + ks[n - 1].cells
    else ResolvedMines(ks, n - 1)
  }

  /** Cells of the first n sentences that resolve to all safe (and not to all mines). */
  function ResolvedSafes(ks: seq<Constraint>, n: nat): set<Cell>
    requires n <= |ks|
  {
    if n == 0 then {}
    else if !ks[n - 1].AllMines() && ks[n - 1].AllSafe() then ResolvedSafes(ks, n - 1) + ks[n - 1].cells
    else ResolvedSafes(ks, n - 1)
  }

  /** The first n sentences that the resolution pass keeps, in their order. */
  function Unresolved(ks: seq<Constraint>, n: nat): seq<Constraint>
    requires n <= |ks|
  {
    if n == 0 then []
    else if ks[n - 1].Resolved() then Unresolved(ks, n - 1)
    else Unresolved(ks, n - 1) + [ks[n - 1]]
  }

  /**
   * One pair (i, j) of the subset pass. Sentences equal by value skip each other;
   * otherwise the sentence whose cells include the other's loses them.
   */
  function Step(ks: seq<Constraint>, i: nat, j: nat): (r: seq<Constraint>)
    requires i < |ks| && j < |ks|
    ensures |r| == |ks|
  {
    if ks[i] == ks[j] then ks
    else if ks[j].cells <= ks[i].cells then ks[i := ks[i].Minus(ks[j])]
    else if ks[i].cells <= ks[j].cells then ks[j := ks[j].Minus(ks[i])]
    else ks
  }

  /** The rest of row i of the subset pass, from column j on. */
  function InnerFrom(ks: seq<Constraint>, i: nat, j: nat): (r: seq<Constraint>)
    requires i < |ks| && j <= |ks|
    ensures |r| == |ks|
    decreases |ks| - j
  {
    if j == |ks| then ks else InnerFrom(Step(ks, i, j), i, j + 1)
  }

  /** The rest of the subset pass, from row i on. */
  function OuterFrom(ks: seq<Constraint>, i: nat): (r: seq<Constraint>)
    requires i <= |ks|
    ensures |r| == |ks|
    decreases |ks| - i
  {
    if i == |ks| then ks else OuterFrom(InnerFrom(ks, i, 0), i + 1)
  }

  /** The whole subset pass over all ordered pairs, row-major, each pair seeing the earlier rewrites. */
  function SubsetPass(ks: seq<Constraint>): seq<Constraint> {
    OuterFrom(ks, 0)
  }

  /** All sentences are true of the layout m. */
  ghost predicate AllHold(ks: seq<Constraint>, m: set<Cell>) {
    forall k {:trigger ks[k].HoldsIn(m)} :: 0 <= k < |ks| ==> ks[k].HoldsIn(m)
  }

  /** ks2 is ks with each sentence's cells possibly shrunk. */
  ghost predicate Shrinks(ks: seq<Constraint>, ks2: seq<Constraint>) {
    |ks2| == |ks| && forall k :: 0 <= k < |ks| ==> ks2[k].cells <= ks[k].cells
  }

  /** The state of the AI: moves made, proven safes, proven mines and the sentences. */
  datatype KB = KB(height: nat, width: nat, movesMade: set<Cell>, safes: set<Cell>, mines: set<Cell>, knowledge: seq<Constraint>)
  {
    function MarkMine(x: Cell): KB {
      this.(mines := mines + {x}, knowledge := WithMineAll(knowledge, x))
    }

    function MarkSafe(x: Cell): KB {
      this.(safes := safes + {x}, knowledge := WithSafeAll(knowledge, x))
    }

    /** mark_mine for every cell of s, in any order. */
    function MarkMines(s: set<Cell>): KB {
      this.(mines := mines + s, knowledge := WithMinesAll(knowledge, s))
    }

    /** mark_safe for every cell of s, in any order. */
    function MarkSafes(s: set<Cell>): KB {
      this.(safes := safes + s, knowledge := WithSafesAll(knowledge, s))
    }

    /** Neighbours that are neither known safe nor known mines. */
    function Unknown(nbrs: set<Cell>): set<Cell> {
      nbrs - safes - mines
    }

    /** Neighbours counted as known mines: in `mines` and not in `safes`, which the pruning loop asks first. */
    function KnownMinesAmong(nbrs: set<Cell>): set<Cell> {
      (nbrs - safes) * mines
    }

    /** The resolution pass: collect, drop the resolved sentences, then mark mines and then safes. */
    function Resolve(): KB {
      var n := |knowledge|;
      this.(knowledge := Unresolved(knowledge, n)).MarkMines(ResolvedMines(knowledge, n)).MarkSafes(ResolvedSafes(knowledge, n))
    }

    function ReduceSubsets(): KB {
      this.(knowledge := SubsetPass(knowledge))
    }

    /**
     * What add_knowledge does with the pruned neighbours and the adjusted count: the
     * all-safe and all-mine shortcuts return early; otherwise the new sentence is
     * added and one resolution pass and one subset pass follow.
     */
    function Deduce(cells: set<Cell>, count: int): KB {
      if count == 0 then MarkSafes(cells)
      else if |cells| == count then MarkMines(cells)
      else this.(knowledge := knowledge + [Constraint(cells, count)]).Resolve().ReduceSubsets()
    }

    /** add_knowledge: the revealed cell with the number of mines the board reports around it. */
    function AddKnowledge(cell: Cell, n: int): KB {
      Revealed(cell).DeduceFrom(Neighbors(cell, height, width), n)
    }

    function Revealed(cell: Cell): KB {
      this.(movesMade := movesMade + {cell}).MarkSafe(cell)
    }

    function DeduceFrom(nbrs: set<Cell>, n: int): KB {
      Deduce(Unknown(nbrs), n - |KnownMinesAmong(nbrs)|)
    }

    /** No cell of any sentence is a known safe or a known mine. */
    ghost predicate Purged() {
      forall k :: 0 <= k < |knowledge| ==> knowledge[k].cells !! safes && knowledge[k].cells !! mines
    }

    /** The layout m agrees with everything the AI believes. */
    ghost predicate Consistent(m: set<Cell>) {
      mines <= m && safes !! m && AllHold(knowledge, m)
    }
  }

  /** The AI before any move. */
  function Initial(height: nat, width: nat): KB {
    KB(height, width, {}, {}, {}, [])
  }

  /** A sequence of moves as the game loop feeds them: each revealed cell with its count. */
  function Replay(kb: KB, moves: seq<(Cell, int)>): KB
    decreases |moves|
  {
    if moves == [] then kb else Replay(kb.AddKnowledge(moves[0].0, moves[0].1), moves[1..])
  }

  /** Every move reveals a non-mine of layout m and reports its true neighbour count. */
  ghost predicate Honest(moves: seq<(Cell, int)>, m: set<Cell>, height: nat, width: nat) {
    forall k :: 0 <= k < |moves| ==> moves[k].0 !in m && moves[k].1 == |Neighbors(moves[k].0, height, width) * m|
  }

  // ---------------------------------------------------------------------------
  // Set cardinalities

  lemma DisjointUnionCard<T>(a: set<T>, b: set<T>)
    requires a !! b
    ensures |a + b| == |a| + |b|
  {
    assert a * b == {};
  }

  lemma SubsetEqualCard<T>(a: set<T>, b: set<T>)
    requires a <= b && |a| == |b|
    ensures a == b
  {
    assert b == a + (b - a);
    DisjointUnionCard(a, b - a);
  }

  // ---------------------------------------------------------------------------
  // One sentence

  /** mark_mine on a cell of the sentence removes it and takes one from the count; the slack |cells| - count is kept. */
  lemma WithMineEffect(c: Constraint, x: Cell)
    ensures x in c.cells ==> c.WithMine(x).count == c.count - 1 && |c.WithMine(x).cells| == |c.cells| - 1
    ensures |c.WithMine(x).cells| - c.WithMine(x).count == |c.cells| - c.count
  {
  }

  /** mark_safe on a cell of the sentence removes it and keeps the count. */
  lemma WithSafeEffect(c: Constraint, x: Cell)
    ensures x in c.cells ==> |c.WithSafe(x).cells| == |c.cells| - 1
    ensures c.WithSafe(x).count == c.count
  {
  }

  /** Marking a mine twice is marking it once. */
  lemma WithMineIdempotent(c: Constraint, x: Cell)
    ensures c.WithMine(x).WithMine(x) == c.WithMine(x)
  {
  }

  /** Marking a safe twice is marking it once. */
  lemma WithSafeIdempotent(c: Constraint, x: Cell)
    ensures c.WithSafe(x).WithSafe(x) == c.WithSafe(x)
  {
  }

  /** A true sentence has a count between 0 and its number of cells. */
  lemma HoldsBounds(c: Constraint, m: set<Cell>)
    requires c.HoldsIn(m)
    ensures 0 <= c.count <= |c.cells|
  {
    Geometry.SubsetCard(c.cells * m, c.cells);
  }

  /** A true sentence whose count is its size consists of mines only. */
  lemma AllMinesForced(c: Constraint, m: set<Cell>)
    requires c.HoldsIn(m) && c.AllMines()
    ensures c.cells <= m
  {
    SubsetEqualCard(c.cells * m, c.cells);
  }

  /** A true sentence with count 0 has no mine. */
  lemma AllSafeForced(c: Constraint, m: set<Cell>)
    requires c.HoldsIn(m) && c.AllSafe()
    ensures c.cells !! m
  {
    var both := c.cells * m;
    assert both == {};
    forall x | x in c.cells ensures x !in m {
      assert x !in both;
    }
  }

  lemma WithMinesSound(c: Constraint, s: set<Cell>, m: set<Cell>)
    requires c.HoldsIn(m) && s <= m
    ensures c.WithMines(s).HoldsIn(m)
  {
    var a, b := (c.cells - s) * m, c.cells * s;
    assert c.cells * m == a + b;
    DisjointUnionCard(a, b);
  }

  lemma WithSafesSound(c: Constraint, s: set<Cell>, m: set<Cell>)
    requires c.HoldsIn(m) && s !! m
    ensures c.WithSafes(s).HoldsIn(m)
  {
    assert (c.cells - s) * m == c.cells * m;
  }

  lemma WithMineSound(c: Constraint, x: Cell, m: set<Cell>)
    requires c.HoldsIn(m) && x in m
    ensures c.WithMine(x).HoldsIn(m)
  {
    WithMineAsSet(c, x);
    WithMinesSound(c, {x}, m);
  }

  lemma WithSafeSound(c: Constraint, x: Cell, m: set<Cell>)
    requires c.HoldsIn(m) && x !in m
    ensures c.WithSafe(x).HoldsIn(m)
  {
    WithSafesSound(c, {x}, m);
    assert c.WithSafe(x) == c.WithSafes({x});
  }

  /** The subset rule is sound: if b's cells lie inside a's, a \ b holds a.count - b.count mines. */
  lemma MinusSound(a: Constraint, b: Constraint, m: set<Cell>)
    requires a.HoldsIn(m) && b.HoldsIn(m) && b.cells <= a.cells
    ensures a.Minus(b).HoldsIn(m)
  {
    var x, y := (a.cells - b.cells) * m, b.cells * m;
    assert a.cells * m == x + y;
    DisjointUnionCard(x, y);
  }

  lemma WithMineAsSet(c: Constraint, x: Cell)
    ensures c.WithMine(x) == c.WithMines({x})
  {
    if x in c.cells {
      assert c.cells * {x} == {x};
    } else {
      assert c.cells * {x} == {};
    }
  }

  /** Marking the cells one at a time adds up to marking the set. */
  lemma WithMinesStep(c: Constraint, s: set<Cell>, x: Cell)
    ensures c.WithMines(s).WithMine(x) == c.WithMines(s + {x})
  {
    if x in c.cells && x !in s {
      assert c.cells * (s + {x}) == c.cells * s + {x};
      DisjointUnionCard(c.cells * s, {x});
    } else {
      assert c.cells * (s + {x}) == c.cells * s;
    }
  }

  // ---------------------------------------------------------------------------
  // Broadcasting a fact to the knowledge base

  /**
   * mark_mine adds x to the known mines; afterwards no sentence mentions x, and
   * each sentence lost only x, with its count decremented when it held x.
   */
  lemma MarkMineEffect(kb: KB, x: Cell)
    ensures kb.MarkMine(x).mines == kb.mines + {x}
    ensures kb.MarkMine(x).safes == kb.safes && kb.MarkMine(x).movesMade == kb.movesMade
    ensures |kb.MarkMine(x).knowledge| == |kb.knowledge|
    ensures forall k :: 0 <= k < |kb.knowledge| ==>
      var (c, r) := (kb.knowledge[k], kb.MarkMine(x).knowledge[k]);
      x !in r.cells && r.cells == c.cells - {x} && r.count == (if x in c.cells then c.count - 1 else c.count)
  {
  }

  /** mark_safe adds x to the known safes; afterwards no sentence mentions x, counts unchanged. */
  lemma MarkSafeEffect(kb: KB, x: Cell)
    ensures kb.MarkSafe(x).safes == kb.safes + {x}
    ensures kb.MarkSafe(x).mines == kb.mines && kb.MarkSafe(x).movesMade == kb.movesMade
    ensures |kb.MarkSafe(x).knowledge| == |kb.knowledge|
    ensures forall k :: 0 <= k < |kb.knowledge| ==>
      var (c, r) := (kb.knowledge[k], kb.MarkSafe(x).knowledge[k]);
      x !in r.cells && r.cells == c.cells - {x} && r.count == c.count
  {
  }

  lemma MarkMineIdempotent(kb: KB, x: Cell)
    ensures kb.MarkMine(x).MarkMine(x) == kb.MarkMine(x)
  {
    assert WithMineAll(WithMineAll(kb.knowledge, x), x) == WithMineAll(kb.knowledge, x);
  }

  lemma MarkSafeIdempotent(kb: KB, x: Cell)
    ensures kb.MarkSafe(x).MarkSafe(x) == kb.MarkSafe(x)
  {
    assert WithSafeAll(WithSafeAll(kb.knowledge, x), x) == WithSafeAll(kb.knowledge, x);
  }

  lemma MarkMinesNone(kb: KB)
    ensures kb.MarkMines({}) == kb
  {
    forall k | 0 <= k < |kb.knowledge| ensures WithMinesAll(kb.knowledge, {})[k] == kb.knowledge[k] {
      assert kb.knowledge[k].cells * {} == {};
    }
    assert WithMinesAll(kb.knowledge, {}) == kb.knowledge;
  }

  lemma MarkSafesNone(kb: KB)
    ensures kb.MarkSafes({}) == kb
  {
    forall k | 0 <= k < |kb.knowledge| ensures WithSafesAll(kb.knowledge, {})[k] == kb.knowledge[k] {
      assert kb.knowledge[k].cells - {} == kb.knowledge[k].cells;
    }
    assert WithSafesAll(kb.knowledge, {}) == kb.knowledge;
  }

  /** One more mark_mine after marking s is marking s + {x}: the loop order does not matter. */
  lemma MarkMinesStep(kb: KB, s: set<Cell>, x: Cell)
    ensures kb.MarkMines(s).MarkMine(x) == kb.MarkMines(s + {x})
  {
    forall k | 0 <= k < |kb.knowledge|
      ensures WithMineAll(WithMinesAll(kb.knowledge, s), x)[k] == WithMinesAll(kb.knowledge, s + {x})[k]
    {
      WithMinesStep(kb.knowledge[k], s, x);
    }
    assert WithMineAll(WithMinesAll(kb.knowledge, s), x) == WithMinesAll(kb.knowledge, s + {x});
  }

  /** One more mark_safe after marking s is marking s + {x}. */
  lemma MarkSafesStep(kb: KB, s: set<Cell>, x: Cell)
    ensures kb.MarkSafes(s).MarkSafe(x) == kb.MarkSafes(s + {x})
  {
    forall k | 0 <= k < |kb.knowledge|
      ensures WithSafeAll(WithSafesAll(kb.knowledge, s), x)[k] == WithSafesAll(kb.knowledge, s + {x})[k]
    {
      var c := kb.knowledge[k];
      assert c.WithSafes(s).WithSafe(x).cells == c.cells - (s + {x});
    }
    assert WithSafeAll(WithSafesAll(kb.knowledge, s), x) == WithSafesAll(kb.knowledge, s + {x});
  }

  lemma PurgedMarkMine(kb: KB, x: Cell)
    requires kb.Purged()
    ensures kb.MarkMine(x).Purged()
  {
  }

  lemma PurgedMarkSafe(kb: KB, x: Cell)
    requires kb.Purged()
    ensures kb.MarkSafe(x).Purged()
  {
  }

  lemma PurgedMarkMines(kb: KB, s: set<Cell>)
    requires kb.Purged()
    ensures kb.MarkMines(s).Purged()
  {
  }

  lemma PurgedMarkSafes(kb: KB, s: set<Cell>)
    requires kb.Purged()
    ensures kb.MarkSafes(s).Purged()
  {
  }

  lemma MarkMinesSound(kb: KB, s: set<Cell>, m: set<Cell>)
    requires kb.Consistent(m) && s <= m
    ensures kb.MarkMines(s).Consistent(m)
  {
    forall k | 0 <= k < |kb.knowledge| ensures kb.MarkMines(s).knowledge[k].HoldsIn(m) {
      WithMinesSound(kb.knowledge[k], s, m);
    }
  }

  lemma MarkSafesSound(kb: KB, s: set<Cell>, m: set<Cell>)
    requires kb.Consistent(m) && s !! m
    ensures kb.MarkSafes(s).Consistent(m)
  {
    forall k | 0 <= k < |kb.knowledge| ensures kb.MarkSafes(s).knowledge[k].HoldsIn(m) {
      WithSafesSound(kb.knowledge[k], s, m);
    }
  }

  lemma MarkSafeSound(kb: KB, x: Cell, m: set<Cell>)
    requires kb.Consistent(m) && x !in m
    ensures kb.MarkSafe(x).Consistent(m)
  {
    forall k | 0 <= k < |kb.knowledge| ensures kb.MarkSafe(x).knowledge[k].HoldsIn(m) {
      WithSafeSound(kb.knowledge[k], x, m);
    }
  }

  lemma MarkMineSound(kb: KB, x: Cell, m: set<Cell>)
    requires kb.Consistent(m) && x in m
    ensures kb.MarkMine(x).Consistent(m)
  {
    forall k | 0 <= k < |kb.knowledge| ensures kb.MarkMine(x).knowledge[k].HoldsIn(m) {
      WithMineSound(kb.knowledge[k], x, m);
    }
  }

  // ---------------------------------------------------------------------------
  // The resolution pass

  lemma {:induction false} ResolvedMinesSound(ks: seq<Constraint>, n: nat, m: set<Cell>)
    requires n <= |ks| && AllHold(ks, m)
    ensures ResolvedMines(ks, n) <= m
  {
    if n > 0 {
      ResolvedMinesSound(ks, n - 1, m);
      if ks[n - 1].AllMines() {
        AllMinesForced(ks[n - 1], m);
      }
    }
  }

  lemma {:induction false} ResolvedSafesSound(ks: seq<Constraint>, n: nat, m: set<Cell>)
    requires n <= |ks| && AllHold(ks, m)
    ensures ResolvedSafes(ks, n) !! m
  {
    if n > 0 {
      ResolvedSafesSound(ks, n - 1, m);
      if !ks[n - 1].AllMines() && ks[n - 1].AllSafe() {
        AllSafeForced(ks[n - 1], m);
      }
    }
  }

  /** The kept sentences are exactly the unresolved sentences of the input. */
  lemma {:induction false} UnresolvedKept(ks: seq<Constraint>, n: nat)
    requires n <= |ks|
    ensures forall c :: c in Unresolved(ks, n) ==> c in ks && !c.Resolved()
    ensures forall k :: 0 <= k < n && !ks[k].Resolved() ==> ks[k] in Unresolved(ks, n)
  {
    if n > 0 {
      UnresolvedKept(ks, n - 1);
    }
  }

  /** Every resolved sentence's cells are marked, and only those. */
  lemma {:induction false} ResolvedCellsCovered(ks: seq<Constraint>, n: nat)
    requires n <= |ks|
    ensures forall k :: 0 <= k < n && ks[k].AllMines() ==> ks[k].cells <= ResolvedMines(ks, n)
    ensures forall k :: 0 <= k < n && !ks[k].AllMines() && ks[k].AllSafe() ==> ks[k].cells <= ResolvedSafes(ks, n)
    ensures forall x :: x in ResolvedMines(ks, n) ==> exists k :: 0 <= k < n && ks[k].AllMines() && x in ks[k].cells
    ensures forall x :: x in ResolvedSafes(ks, n) ==>
      exists k :: 0 <= k < n && !ks[k].AllMines() && ks[k].AllSafe() && x in ks[k].cells
  {
    if n > 0 {
      ResolvedCellsCovered(ks, n - 1);
    }
  }

  lemma ResolveSound(kb: KB, m: set<Cell>)
    requires kb.Consistent(m)
    ensures kb.Resolve().Consistent(m)
  {
    var ks, n := kb.knowledge, |kb.knowledge|;
    ResolvedMinesSound(ks, n, m);
    ResolvedSafesSound(ks, n, m);
    UnresolvedKept(ks, n);
    var kept := kb.(knowledge := Unresolved(ks, n));
    forall k | 0 <= k < |kept.knowledge| ensures kept.knowledge[k].HoldsIn(m) {
      assert kept.knowledge[k] in ks;
    }
    MarkMinesSound(kept, ResolvedMines(ks, n), m);
    MarkSafesSound(kept.MarkMines(ResolvedMines(ks, n)), ResolvedSafes(ks, n), m);
  }

  /** Dropping the resolved sentences keeps the others free of known cells. */
  lemma PurgedUnresolved(kb: KB)
    requires kb.Purged()
    ensures kb.(knowledge := Unresolved(kb.knowledge, |kb.knowledge|)).Purged()
  {
    UnresolvedKept(kb.knowledge, |kb.knowledge|);
    var kept := kb.(knowledge := Unresolved(kb.knowledge, |kb.knowledge|));
    forall k | 0 <= k < |kept.knowledge| ensures kept.knowledge[k].cells !! kb.safes && kept.knowledge[k].cells !! kb.mines {
      assert kept.knowledge[k] in kb.knowledge;
    }
  }

  lemma PurgedResolve(kb: KB)
    requires kb.Purged()
    ensures kb.Resolve().Purged()
  {
    PurgedUnresolved(kb);
  }

  /**
   * The resolution pass marks the cells of every sentence with count == |cells| as
   * mines and, of the others, those with count 0 as safes.
   */
  lemma ResolveMarksResolved(kb: KB)
    ensures forall k :: 0 <= k < |kb.knowledge| && kb.knowledge[k].AllMines() ==> kb.knowledge[k].cells <= kb.Resolve().mines
    ensures forall k :: 0 <= k < |kb.knowledge| && !kb.knowledge[k].AllMines() && kb.knowledge[k].AllSafe() ==>
      kb.knowledge[k].cells <= kb.Resolve().safes
  {
    ResolvedCellsCovered(kb.knowledge, |kb.knowledge|);
  }

  // ---------------------------------------------------------------------------
  // The subset pass

  lemma StepSound(ks: seq<Constraint>, i: nat, j: nat, m: set<Cell>)
    requires i < |ks| && j < |ks| && AllHold(ks, m)
    ensures AllHold(Step(ks, i, j), m)
  {
    if ks[i] == ks[j] {
    } else if ks[j].cells <= ks[i].cells {
      MinusSound(ks[i], ks[j], m);
    } else if ks[i].cells <= ks[j].cells {
      MinusSound(ks[j], ks[i], m);
    }
  }

  lemma {:induction false} InnerFromSound(ks: seq<Constraint>, i: nat, j: nat, m: set<Cell>)
    requires i < |ks| && j <= |ks| && AllHold(ks, m)
    ensures AllHold(InnerFrom(ks, i, j), m)
    decreases |ks| - j
  {
    if j < |ks| {
      StepSound(ks, i, j, m);
      InnerFromSound(Step(ks, i, j), i, j + 1, m);
    }
  }

  lemma {:induction false} OuterFromSound(ks: seq<Constraint>, i: nat, m: set<Cell>)
    requires i <= |ks| && AllHold(ks, m)
    ensures AllHold(OuterFrom(ks, i), m)
    decreases |ks| - i
  {
    if i < |ks| {
      var row := InnerFrom(ks, i, 0);
      InnerFromSound(ks, i, 0, m);
      OuterFromSound(row, i + 1, m);
      assert OuterFrom(ks, i) == OuterFrom(row, i + 1);
    }
  }

  /** Every deduction of the subset pass is sound for every layout the sentences describe. */
  lemma SubsetPassSound(ks: seq<Constraint>, m: set<Cell>)
    requires AllHold(ks, m)
    ensures AllHold(SubsetPass(ks), m)
  {
    OuterFromSound(ks, 0, m);
  }

  lemma {:induction false} InnerFromShrinks(ks: seq<Constraint>, i: nat, j: nat)
    requires i < |ks| && j <= |ks|
    ensures Shrinks(ks, InnerFrom(ks, i, j))
    decreases |ks| - j
  {
    if j < |ks| {
      InnerFromShrinks(Step(ks, i, j), i, j + 1);
    }
  }

  lemma {:induction false} OuterFromShrinks(ks: seq<Constraint>, i: nat)
    requires i <= |ks|
    ensures Shrinks(ks, OuterFrom(ks, i))
    decreases |ks| - i
  {
    if i < |ks| {
      InnerFromShrinks(ks, i, 0);
      OuterFromShrinks(InnerFrom(ks, i, 0), i + 1);
    }
  }

  /** The subset pass only removes cells from sentences: it never adds a cell nor a sentence. */
  lemma SubsetPassShrinks(ks: seq<Constraint>)
    ensures Shrinks(ks, SubsetPass(ks))
  {
    OuterFromShrinks(ks, 0);
  }

  lemma PurgedReduceSubsets(kb: KB)
    requires kb.Purged()
    ensures kb.ReduceSubsets().Purged()
  {
    SubsetPassShrinks(kb.knowledge);
  }

  /**
   * The scenario of the subset rule: {a, b, c} = 1 and {a, b} = 1 give {c} = 0
   * after one pass, so c is found safe by the next resolution pass.
   */
  lemma SubsetPassExample(a: Cell, b: Cell, c: Cell)
    requires a != b && b != c && a != c
    ensures SubsetPass([Constraint({a, b, c}, 1), Constraint({a, b}, 1)]) == [Constraint({c}, 0), Constraint({a, b}, 1)]
  {
    var ks := [Constraint({a, b, c}, 1), Constraint({a, b}, 1)];
    var ks1 := [Constraint({c}, 0), Constraint({a, b}, 1)];
    assert {a, b, c} - {a, b} == {c};
    assert Step(ks, 0, 0) == ks;
    assert Step(ks, 0, 1) == ks1;
    assert InnerFrom(ks1, 0, 2) == ks1;
    assert InnerFrom(ks, 0, 1) == ks1;
    assert InnerFrom(ks, 0, 0) == ks1;
    assert !({c} <= {a, b}) by { assert c !in {a, b}; }
    assert !({a, b} <= {c}) by { assert a !in {c}; }
    assert Step(ks1, 1, 0) == ks1;
    assert Step(ks1, 1, 1) == ks1;
    assert InnerFrom(ks1, 1, 2) == ks1;
    assert InnerFrom(ks1, 1, 1) == ks1;
    assert InnerFrom(ks1, 1, 0) == ks1;
    assert OuterFrom(ks1, 2) == ks1;
    assert OuterFrom(ks1, 1) == ks1;
    assert OuterFrom(ks, 0) == OuterFrom(ks1, 1);
  }

  // ---------------------------------------------------------------------------
  // add_knowledge

  lemma MarkSafesTwice(kb: KB, a: set<Cell>, b: set<Cell>)
    ensures kb.MarkSafes(a).MarkSafes(b) == kb.MarkSafes(a + b)
  {
    forall k | 0 <= k < |kb.knowledge|
      ensures WithSafesAll(WithSafesAll(kb.knowledge, a), b)[k] == WithSafesAll(kb.knowledge, a + b)[k]
    {
      assert kb.knowledge[k].cells - a - b == kb.knowledge[k].cells - (a + b);
    }
    assert WithSafesAll(WithSafesAll(kb.knowledge, a), b) == WithSafesAll(kb.knowledge, a + b);
  }

  /** The resolution and subset passes never shrink the fact sets. */
  lemma DeduceGrows(kb: KB, cells: set<Cell>, count: int)
    ensures var r := kb.Deduce(cells, count);
      && r.movesMade == kb.movesMade && kb.safes <= r.safes && kb.mines <= r.mines
      && r.height == kb.height && r.width == kb.width
  {
  }

  /** The revealed cell is recorded and safe; the three fact sets only grow. */
  lemma AddKnowledgeRecords(kb: KB, cell: Cell, n: int)
    ensures var r := kb.AddKnowledge(cell, n);
      && r.movesMade == kb.movesMade + {cell}
      && kb.safes + {cell} <= r.safes
      && kb.mines <= r.mines
      && r.height == kb.height && r.width == kb.width
  {
    var kb1 := kb.Revealed(cell);
    var nbrs := Neighbors(cell, kb.height, kb.width);
    DeduceGrows(kb1, kb1.Unknown(nbrs), n - |kb1.KnownMinesAmong(nbrs)|);
  }

  /**
   * When no mine remains unaccounted for among the neighbours, they are all safe and
   * no sentence is added: the sentences only lose those cells and the revealed one.
   */
  lemma AddKnowledgeAllSafe(kb: KB, cell: Cell, n: int)
    requires n == |kb.MarkSafe(cell).KnownMinesAmong(Neighbors(cell, kb.height, kb.width))|
    ensures var remaining := Neighbors(cell, kb.height, kb.width) - kb.safes - {cell} - kb.mines;
      kb.AddKnowledge(cell, n) == kb.(movesMade := kb.movesMade + {cell}).MarkSafes({cell} + remaining)
    ensures kb.AddKnowledge(cell, n).mines == kb.mines
  {
    var kb0 := kb.(movesMade := kb.movesMade + {cell});
    var kb1 := kb.Revealed(cell);
    var nbrs := Neighbors(cell, kb.height, kb.width);
    var remaining := nbrs - kb.safes - {cell} - kb.mines;
    assert kb1.Unknown(nbrs) == remaining;
    MarkSafesNone(kb0);
    MarkSafesStep(kb0, {}, cell);
    assert {} + {cell} == {cell};
    MarkSafesTwice(kb0, {cell}, remaining);
  }

  /** When every remaining neighbour must be a mine, every one of them becomes a known mine. */
  lemma AddKnowledgeAllMines(kb: KB, cell: Cell, n: int)
    requires var kb1 := kb.MarkSafe(cell);
      var nbrs := Neighbors(cell, kb.height, kb.width);
      var adjusted := n - |kb1.KnownMinesAmong(nbrs)|;
      adjusted != 0 && adjusted == |kb1.Unknown(nbrs)|
    ensures var r := kb.AddKnowledge(cell, n);
      && Neighbors(cell, kb.height, kb.width) - kb.safes - {cell} <= r.mines
      && r.safes == kb.safes + {cell}
      && |r.knowledge| == |kb.knowledge|
  {
    var kb1 := kb.Revealed(cell);
    var nbrs := Neighbors(cell, kb.height, kb.width);
    assert kb.AddKnowledge(cell, n) == kb1.MarkMines(kb1.Unknown(nbrs));
  }

  /** With honest inputs the unaccounted count is exactly the number of mines among the unknown neighbours. */
  lemma AdjustedCountHolds(kb: KB, nbrs: set<Cell>, m: set<Cell>)
    requires kb.mines <= m && kb.safes !! m
    ensures |kb.Unknown(nbrs) * m| == |nbrs * m| - |kb.KnownMinesAmong(nbrs)|
  {
    var known, unknown := kb.KnownMinesAmong(nbrs), kb.Unknown(nbrs) * m;
    assert nbrs * m == known + unknown;
    DisjointUnionCard(known, unknown);
  }

  /** A true sentence about unknown cells keeps every belief true through the shortcuts and both passes. */
  lemma DeduceSound(kb: KB, cells: set<Cell>, count: int, m: set<Cell>)
    requires kb.Consistent(m) && |cells * m| == count
    ensures kb.Deduce(cells, count).Consistent(m)
  {
    var added := Constraint(cells, count);
    if count == 0 {
      AllSafeForced(added, m);
      MarkSafesSound(kb, cells, m);
    } else if |cells| == count {
      AllMinesForced(added, m);
      MarkMinesSound(kb, cells, m);
    } else {
      var kb2 := kb.(knowledge := kb.knowledge + [added]);
      assert kb2.Consistent(m);
      ResolveSound(kb2, m);
      SubsetPassSound(kb2.Resolve().knowledge, m);
    }
  }

  /**
   * Soundness: if a layout m makes every belief true, the revealed cell is not a
   * mine of m and the count is m's true neighbour count, then m still makes every
   * belief true afterwards.
   */
  lemma AddKnowledgeSound(kb: KB, cell: Cell, n: int, m: set<Cell>)
    requires kb.Consistent(m) && cell !in m
    requires n == |Neighbors(cell, kb.height, kb.width) * m|
    ensures kb.AddKnowledge(cell, n).Consistent(m)
  {
    var kb0 := kb.(movesMade := kb.movesMade + {cell});
    MarkSafeSound(kb0, cell, m);
    var kb1 := kb.Revealed(cell);
    var nbrs := Neighbors(cell, kb.height, kb.width);
    AdjustedCountHolds(kb1, nbrs, m);
    DeduceSound(kb1, kb1.Unknown(nbrs), n - |kb1.KnownMinesAmong(nbrs)|, m);
  }

  /** Deduce keeps sentences free of known cells when the new cells are unknown. */
  lemma PurgedDeduce(kb: KB, cells: set<Cell>, count: int)
    requires kb.Purged() && cells !! kb.safes && cells !! kb.mines
    ensures kb.Deduce(cells, count).Purged()
  {
    if count != 0 && |cells| != count {
      var kb2 := kb.(knowledge := kb.knowledge + [Constraint(cells, count)]);
      assert kb2.Purged();
      PurgedResolve(kb2);
      SubsetPassShrinks(kb2.Resolve().knowledge);
    }
  }

  /** add_knowledge never puts a known cell back into a sentence. */
  lemma PurgedAddKnowledge(kb: KB, cell: Cell, n: int)
    requires kb.Purged()
    ensures kb.AddKnowledge(cell, n).Purged()
  {
    PurgedMarkSafe(kb.(movesMade := kb.movesMade + {cell}), cell);
    PurgedDeduceFrom(kb.Revealed(cell), Neighbors(cell, kb.height, kb.width), n);
  }

  lemma PurgedDeduceFrom(kb: KB, nbrs: set<Cell>, n: int)
    requires kb.Purged()
    ensures kb.DeduceFrom(nbrs, n).Purged()
  {
    PurgedDeduce(kb, kb.Unknown(nbrs), n - |kb.KnownMinesAmong(nbrs)|);
  }

  // ---------------------------------------------------------------------------
  // Consequences of consistency

  /** A belief state some layout agrees with never calls a cell both safe and a mine. */
  lemma ConsistentDisjoint(kb: KB, m: set<Cell>)
    requires kb.Consistent(m)
    ensures kb.safes !! kb.mines
  {
  }

  /** In a belief state some layout agrees with, every sentence has 0 <= count <= |cells|. */
  lemma ConsistentCounts(kb: KB, m: set<Cell>)
    requires kb.Consistent(m)
    ensures forall k :: 0 <= k < |kb.knowledge| ==> 0 <= kb.knowledge[k].count <= |kb.knowledge[k].cells|
  {
    forall k | 0 <= k < |kb.knowledge| ensures 0 <= kb.knowledge[k].count <= |kb.knowledge[k].cells| {
      HoldsBounds(kb.knowledge[k], m);
    }
  }

  /**
   * Any game fed honestly from a mine layout m, starting from the empty AI, keeps
   * every belief true of m; in particular safes and mines stay disjoint.
   */
  lemma {:induction false} ReplaySound(kb: KB, moves: seq<(Cell, int)>, m: set<Cell>)
    requires kb.Consistent(m) && Honest(moves, m, kb.height, kb.width)
    ensures Replay(kb, moves).Consistent(m)
    ensures Replay(kb, moves).safes !! Replay(kb, moves).mines
    decreases |moves|
  {
    if moves != [] {
      AddKnowledgeSound(kb, moves[0].0, moves[0].1, m);
      var next := kb.AddKnowledge(moves[0].0, moves[0].1);
      AddKnowledgeRecords(kb, moves[0].0, moves[0].1);
      assert Honest(moves[1..], m, next.height, next.width) by {
        forall k | 0 <= k < |moves[1..]|
          ensures moves[1..][k].0 !in m && moves[1..][k].1 == |Neighbors(moves[1..][k].0, next.height, next.width) * m|
        {
          assert moves[1..][k] == moves[k + 1];
        }
      }
      ReplaySound(next, moves[1..], m);
    } else {
      ConsistentDisjoint(kb, m);
    }
  }

  /** The empty AI agrees with every layout. */
  lemma InitialConsistent(height: nat, width: nat, m: set<Cell>)
    ensures Initial(height, width).Consistent(m) && Initial(height, width).Purged()
  {
  }

  /**
   * Opening at the corner of the default 8-by-8 board with count 0 makes its three
   * neighbours safe and finds no mine.
   */
  lemma OpeningCornerExample()
    ensures Initial(8, 8).AddKnowledge((0, 0), 0).safes == {(0, 0), (0, 1), (1, 0), (1, 1)}
    ensures Initial(8, 8).AddKnowledge((0, 0), 0).mines == {}
    ensures Initial(8, 8).AddKnowledge((0, 0), 0).movesMade == {(0, 0)}
    ensures Initial(8, 8).AddKnowledge((0, 0), 0).knowledge == []
  {
    Geometry.CornerHasThreeNeighbors(8, 8);
    var kb1 := Initial(8, 8).(movesMade := {(0, 0)}).MarkSafe((0, 0));
    var nbrs := Neighbors((0, 0), 8, 8);
    assert kb1.KnownMinesAmong(nbrs) == {};
    assert kb1.Unknown(nbrs) == {(0, 1), (1, 0), (1, 1)};
  }
}
