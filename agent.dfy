/**
 * The minesweeper player: the moves made, the cells proven safe or mined, and a
 * list of mutable sentences. Every method is proved to compute the matching
 * function of module Logic on the abstract state `State()`, where the soundness
 * and bookkeeping properties are proved.
 */
module Agent {
  import opened Options
  import opened Geometry
  import opened Logic
  import opened Sentences

  /** No sentence object occurs twice in the list. */
  predicate Distinct(ks: seq<Sentence>) {
    forall i, j :: 0 <= i < j < |ks| ==> ks[i] != ks[j]
  }

  /** The sentence objects hold the contents vs, in order, each with its own invariant. */
  ghost predicate Mirrors(ks: seq<Sentence>, vs: seq<Constraint>)
    reads ks
  {
    |ks| == |vs| && forall k :: 0 <= k < |ks| ==> ks[k].Value() == vs[k] && ks[k].Valid()
  }

  /**
   * One neighbour more in the pruning loop: it is removed when it is known, and
   * counted as a known mine when it is a mine and not safe.
   */
  lemma PruneStep(neighbors: set<Cell>, done: set<Cell>, x: Cell, safes: set<Cell>, mines: set<Cell>)
    requires x !in done
    ensures neighbors - done - {x} == neighbors - (done + {x})
    ensures x in safes || x in mines ==> (done + {x}) * (safes + mines) == done * (safes + mines) + {x}
    ensures x !in safes && x !in mines ==> (done + {x}) * (safes + mines) == done * (safes + mines)
    ensures x !in safes && x in mines ==> |(done + {x} - safes) * mines| == |(done - safes) * mines| + 1
    ensures !(x !in safes && x in mines) ==> |(done + {x} - safes) * mines| == |(done - safes) * mines|
  {
    if x !in safes && x in mines {
      assert (done + {x} - safes) * mines == (done - safes) * mines + {x};
    } else {
      assert (done + {x} - safes) * mines == (done - safes) * mines;
    }
  }

  /** The first n sentences of ks that the resolution pass keeps, in order. */
  ghost function Kept(ks: seq<Sentence>, n: nat): seq<Sentence>
    requires n <= |ks|
    reads ks
  {
    if n == 0 then []
    else if ks[n - 1].Value().Resolved() then Kept(ks, n - 1)
    else Kept(ks, n - 1) + [ks[n - 1]]
  }

  /** The kept sentence objects hold the kept contents. */
  lemma {:induction false} KeptMirrors(ks: seq<Sentence>, vs: seq<Constraint>, n: nat)
    requires Mirrors(ks, vs) && n <= |ks|
    ensures Mirrors(Kept(ks, n), Unresolved(vs, n))
  {
    if n > 0 {
      KeptMirrors(ks, vs, n - 1);
      var k0, u0 := Kept(ks, n - 1), Unresolved(vs, n - 1);
      if !ks[n - 1].Value().Resolved() {
        assert forall k :: 0 <= k < |k0| ==> (k0 + [ks[n - 1]])[k] == k0[k] && (u0 + [vs[n - 1]])[k] == u0[k];
      }
    }
  }

  /** The kept sentences are distinct members of the first n. */
  lemma {:induction false} KeptDistinct(ks: seq<Sentence>, n: nat)
    requires Distinct(ks) && n <= |ks|
    ensures Distinct(Kept(ks, n))
    ensures forall k :: 0 <= k < |Kept(ks, n)| ==> Kept(ks, n)[k] in ks[..n]
  {
    if n > 0 {
      KeptDistinct(ks, n - 1);
      var k0 := Kept(ks, n - 1);
      assert forall k :: 0 <= k < |k0| ==> k0[k] in ks[..n - 1] && k0[k] in ks[..n];
      if !ks[n - 1].Value().Resolved() {
        assert ks[n - 1] !in ks[..n - 1];
        assert forall k :: 0 <= k < |k0| ==> (k0 + [ks[n - 1]])[k] == k0[k];
      }
    }
  }

  class MinesweeperAI {
    const height: nat
    const width: nat
    var movesMade: set<Cell>
    var mines: set<Cell>
    var safes: set<Cell>
    var knowledge: seq<Sentence>
    /** The contents of the sentences of `knowledge`, in order. */
    ghost var contents: seq<Constraint>

    /** The abstract value of the player. */
    ghost function State(): KB
      reads this
    {
      KB(height, width, movesMade, safes, mines, contents)
    }

    /**
     * The sentences are distinct objects holding `contents`, each keeping its known
     * sets apart from its cells, and no sentence mentions a cell already known to be
     * safe or a mine.
     */
    ghost predicate Valid()
      reads this, knowledge
    {
      && Mirrors(knowledge, contents)
      && Distinct(knowledge)
      && State().Purged()
    }

    /** A new player on a height-by-width board, 8 by 8 unless given. */
    constructor (height: nat := 8, width: nat := 8)
      ensures Valid()
      ensures State() == Initial(height, width)
    {
      this.height := height;
      this.width := width;
      movesMade := {};
      mines := {};
      safes := {};
      knowledge := [];
      contents := [];
    }

    /** Record x as a mine and tell every sentence. */
    method MarkMine(x: Cell)
      requires Valid()
      modifies this, knowledge
      ensures Valid()
      ensures knowledge == old(knowledge)
      ensures State() == old(State()).MarkMine(x)
    {
      ghost var before := State();
      mines := mines + {x};
      TellMine(x);
      contents := WithMineAll(contents, x);
      PurgedMarkMine(before, x);
    }

    /** The loop of mark_mine: every sentence drops x and, if it held x, one from its count. */
    method TellMine(x: Cell)
      requires Mirrors(knowledge, contents) && Distinct(knowledge)
      modifies knowledge
      ensures Mirrors(knowledge, WithMineAll(contents, x))
    {
      for k := 0 to |knowledge|
        invariant forall i :: 0 <= i < |knowledge| ==> knowledge[i].Valid()
        invariant forall i :: 0 <= i < k ==> knowledge[i].Value() == contents[i].WithMine(x)
        invariant forall i :: k <= i < |knowledge| ==> knowledge[i].Value() == contents[i]
      {
        var sentence := knowledge[k];
        assert forall i :: 0 <= i < |knowledge| && i != k ==> knowledge[i] != sentence;
        sentence.MarkMine(x);
      }
    }

    /** Record x as safe and tell every sentence. */
    method MarkSafe(x: Cell)
      requires Valid()
      modifies this, knowledge
      ensures Valid()
      ensures knowledge == old(knowledge)
      ensures State() == old(State()).MarkSafe(x)
    {
      ghost var before := State();
      safes := safes + {x};
      TellSafe(x);
      contents := WithSafeAll(contents, x);
      PurgedMarkSafe(before, x);
    }

    /** The loop of mark_safe: every sentence drops x. */
    method TellSafe(x: Cell)
      requires Mirrors(knowledge, contents) && Distinct(knowledge)
      modifies knowledge
      ensures Mirrors(knowledge, WithSafeAll(contents, x))
    {
      for k := 0 to |knowledge|
        invariant forall i :: 0 <= i < |knowledge| ==> knowledge[i].Valid()
        invariant forall i :: 0 <= i < k ==> knowledge[i].Value() == contents[i].WithSafe(x)
        invariant forall i :: k <= i < |knowledge| ==> knowledge[i].Value() == contents[i]
      {
        var sentence := knowledge[k];
        assert forall i :: 0 <= i < |knowledge| && i != k ==> knowledge[i] != sentence;
        sentence.MarkSafe(x);
      }
    }

    /** mark_mine for each cell of a set, in whatever order the set is iterated. */
    method MarkMinesIn(s: set<Cell>)
      requires Valid()
      modifies this, knowledge
      ensures Valid()
      ensures knowledge == old(knowledge)
      ensures State() == old(State()).MarkMines(s)
    {
      ghost var before := State();
      MarkMinesNone(before);
      assert s - s == {};
      var pending := s;
      while pending != {}
        invariant Valid()
        invariant knowledge == old(knowledge)
        invariant pending <= s
        invariant State() == before.MarkMines(s - pending)
        decreases pending
      {
        var x :| x in pending;
        MarkMine(x);
        MarkMinesStep(before, s - pending, x);
        assert s - pending + {x} == s - (pending - {x});
        pending := pending - {x};
      }
      assert s - {} == s;
    }

    /** mark_safe for each cell of a set, in whatever order the set is iterated. */
    method MarkSafesIn(s: set<Cell>)
      requires Valid()
      modifies this, knowledge
      ensures Valid()
      ensures knowledge == old(knowledge)
      ensures State() == old(State()).MarkSafes(s)
    {
      ghost var before := State();
      MarkSafesNone(before);
      assert s - s == {};
      var pending := s;
      while pending != {}
        invariant Valid()
        invariant knowledge == old(knowledge)
        invariant pending <= s
        invariant State() == before.MarkSafes(s - pending)
        decreases pending
      {
        var x :| x in pending;
        MarkSafe(x);
        MarkSafesStep(before, s - pending, x);
        assert s - pending + {x} == s - (pending - {x});
        pending := pending - {x};
      }
      assert s - {} == s;
    }

    /**
     * The pruning loop of add_knowledge: drop neighbours known safe, and drop those
     * known to be mines while decrementing the count.
     */
    method PruneKnown(neighbors: set<Cell>, count: int) returns (remaining: set<Cell>, adjusted: int)
      ensures remaining == neighbors - safes - mines
      ensures adjusted == count - |(neighbors - safes) * mines|
    {
      var removeCells: set<Cell> := {};
      adjusted := count;
      var pending := neighbors;
      ghost var done: set<Cell> := {};
      while pending != {}
        invariant done <= neighbors && pending == neighbors - done
        invariant removeCells == done * (safes + mines)
        invariant adjusted == count - |(done - safes) * mines|
        decreases pending
      {
        var x :| x in pending;
        PruneStep(neighbors, done, x, safes, mines);
        if x in safes {
          removeCells := removeCells + {x};
        } else if x in mines {
          removeCells := removeCells + {x};
          adjusted := adjusted - 1;
        }
        pending := pending - {x};
        done := done + {x};
      }
      assert done == neighbors;
      remaining := neighbors - removeCells;
    }

    /**
     * The scan of the resolution pass: the cells of the sentences with count equal
     * to their size (to be marked mines), the cells of the other sentences with
     * count 0 (to be marked safe), and the sentences neither of these, in order.
     */
    method ScanResolved() returns (markMines: set<Cell>, markSafes: set<Cell>, kept: seq<Sentence>)
      requires Mirrors(knowledge, contents)
      ensures markMines == ResolvedMines(contents, |contents|)
      ensures markSafes == ResolvedSafes(contents, |contents|)
      ensures kept == Kept(knowledge, |knowledge|)
    {
      markMines, markSafes, kept := {}, {}, [];
      for k := 0 to |knowledge|
        invariant markMines == ResolvedMines(contents, k)
        invariant markSafes == ResolvedSafes(contents, k)
        invariant kept == Kept(knowledge, k)
      {
        var sentence := knowledge[k];
        assert sentence.Value() == contents[k];
        if |sentence.cells| == sentence.count {
          markMines := markMines + sentence.cells;
        } else if sentence.count == 0 {
          markSafes := markSafes + sentence.cells;
        } else {
          kept := kept + [sentence];
        }
      }
    }

    /** The first half of the resolution pass: collect the cells to mark and drop the resolved sentences. */
    method DropResolved() returns (markMines: set<Cell>, markSafes: set<Cell>)
      requires Valid()
      modifies this`knowledge, this`contents
      ensures Valid()
      ensures State() == old(State()).(knowledge := Unresolved(old(contents), |old(contents)|))
      ensures markMines == ResolvedMines(old(contents), |old(contents)|)
      ensures markSafes == ResolvedSafes(old(contents), |old(contents)|)
      ensures forall k :: 0 <= k < |knowledge| ==> knowledge[k] in old(knowledge)
    {
      PurgedUnresolved(State());
      var kept;
      markMines, markSafes, kept := ScanResolved();
      KeptMirrors(knowledge, contents, |knowledge|);
      KeptDistinct(knowledge, |knowledge|);
      assert knowledge[..|knowledge|] == knowledge;
      knowledge := kept;
      contents := Unresolved(contents, |contents|);
    }

    /**
     * The resolution pass of add_knowledge: drop the resolved sentences, then mark
     * the collected mines, then the collected safes.
     */
    method Resolve()
      requires Valid()
      modifies this, knowledge
      ensures Valid()
      ensures State() == old(State()).Resolve()
      ensures forall k :: 0 <= k < |knowledge| ==> knowledge[k] in old(knowledge)
    {
      var markMines, markSafes := DropResolved();
      MarkMinesIn(markMines);
      MarkSafesIn(markSafes);
    }

    /** One pair (i, j) of the subset pass, rewriting at most one of the two sentences. */
    method ReducePair(i: nat, j: nat)
      requires i < |knowledge| && j < |knowledge|
      requires Mirrors(knowledge, contents) && Distinct(knowledge)
      modifies this`contents, knowledge[i], knowledge[j]
      ensures Mirrors(knowledge, contents)
      ensures contents == Step(old(contents), i, j)
    {
      var sentence, other := knowledge[i], knowledge[j];
      if sentence.Equals(other) {
        return;
      }
      if other.cells <= sentence.cells {
        sentence.cells := sentence.cells - other.cells;
        sentence.count := sentence.count - other.count;
      } else if sentence.cells <= other.cells {
        other.cells := other.cells - sentence.cells;
        other.count := other.count - sentence.count;
      }
      contents := Step(contents, i, j);
    }

    /** Row i of the subset pass: sentence i against every sentence, in order. */
    method ReduceRow(i: nat)
      requires i < |knowledge| && Mirrors(knowledge, contents) && Distinct(knowledge)
      modifies this`contents, knowledge
      ensures Mirrors(knowledge, contents)
      ensures contents == InnerFrom(old(contents), i, 0)
    {
      for j := 0 to |knowledge|
        invariant Mirrors(knowledge, contents)
        invariant InnerFrom(contents, i, j) == InnerFrom(old(contents), i, 0)
      {
        ReducePair(i, j);
      }
    }

    /**
     * The subset pass of add_knowledge: for every ordered pair of sentences, unless
     * they are equal by value, the one whose cells include the other's loses them
     * and the other's count. Later pairs see the sentences already rewritten.
     */
    method ReduceSubsets()
      requires Valid()
      modifies this`contents, knowledge
      ensures Valid()
      ensures State() == old(State()).ReduceSubsets()
    {
      PurgedReduceSubsets(State());
      ReduceRows();
    }

    /** The outer loop of the subset pass, one row per sentence. */
    method ReduceRows()
      requires Mirrors(knowledge, contents) && Distinct(knowledge)
      modifies this`contents, knowledge
      ensures Mirrors(knowledge, contents)
      ensures contents == SubsetPass(old(contents))
    {
      for i := 0 to |knowledge|
        invariant Mirrors(knowledge, contents)
        invariant OuterFrom(contents, i) == SubsetPass(old(contents))
      {
        ReduceRow(i);
      }
    }

    /**
     * The end of add_knowledge, given the unknown neighbours and the adjusted count:
     * the all-safe and all-mine shortcuts, or else a new sentence followed by the
     * resolution pass and the subset pass.
     */
    method Deduce(cells: set<Cell>, count: int)
      requires Valid() && cells !! safes && cells !! mines
      modifies this, knowledge
      ensures Valid()
      ensures State() == old(State()).Deduce(cells, count)
    {
      if count == 0 {
        MarkSafesIn(cells);
      } else if |cells| == count {
        MarkMinesIn(cells);
      } else {
        var sentence := new Sentence(cells, count);
        knowledge := knowledge + [sentence];
        contents := contents + [Constraint(cells, count)];
        Resolve();
        ReduceSubsets();
      }
    }

    /** The part of add_knowledge after the cell is marked safe: prune the neighbours and deduce. */
    method DeduceFrom(neighbors: set<Cell>, count: int)
      requires Valid()
      modifies this, knowledge
      ensures Valid()
      ensures State() == old(State()).DeduceFrom(neighbors, count)
    {
      var remaining, adjusted := PruneKnown(neighbors, count);
      Deduce(remaining, adjusted);
    }

    /**
     * The board reports that the safe cell `cell` has `count` mines around it: record
     * the move, mark the cell safe, and deduce from its remaining neighbours.
     */
    method AddKnowledge(cell: Cell, count: int)
      requires Valid()
      modifies this, knowledge
      ensures Valid()
      ensures State() == old(State()).AddKnowledge(cell, count)
    {
      movesMade := movesMade + {cell};
      MarkSafe(cell);
      var neighbors := NeighborCells(cell, height, width);
      DeduceFrom(neighbors, count);
    }

    /** Some cell known to be safe and not yet played, or None when there is none. */
    method MakeSafeMove() returns (move: Option<Cell>)
      ensures move.None? <==> safes <= movesMade
      ensures move.Some? ==> move.value in safes && move.value !in movesMade
    {
      var safeMoves := safes - movesMade;
      if |safeMoves| == 0 {
        forall p | p in safes ensures p in movesMade {
          assert p !in safeMoves;
        }
        return None;
      }
      var m :| m in safeMoves;
      return Some(m);
    }

    /**
     * The first cell in row-major order that is neither a known mine nor already
     * played; it is recorded as played. None when every cell is one or the other.
     */
    method MakeRandomMove() returns (move: Option<Cell>)
      requires Valid()
      modifies this`movesMade
      ensures Valid()
      ensures move.None? <==> forall p :: InGrid(p, height, width) ==> p in mines || p in old(movesMade)
      ensures move.None? ==> movesMade == old(movesMade)
      ensures move.Some? ==>
        && InGrid(move.value, height, width)
        && move.value !in mines && move.value !in old(movesMade)
        && movesMade == old(movesMade) + {move.value}
        && forall p :: InGrid(p, height, width) && RowMajorBefore(p, move.value) ==> p in mines || p in old(movesMade)
    {
      for i := 0 to height
        invariant movesMade == old(movesMade)
        invariant forall p :: InGrid(p, height, width) && p.0 < i ==> p in mines || p in movesMade
      {
        for j := 0 to width
          invariant movesMade == old(movesMade)
          invariant forall p :: InGrid(p, height, width) && RowMajorBefore(p, (i, j)) ==> p in mines || p in movesMade
        {
          if (i, j) !in mines && (i, j) !in movesMade {
            movesMade := movesMade + {(i, j)};
            return Some((i, j));
          }
        }
      }
      return None;
    }
  }
}
