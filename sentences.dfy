/**
 * A sentence of the knowledge base: "exactly `count` of `cells` are mines". It is
 * a mutable record; marking a cell removes it in place and remembers it in the
 * sentence's own known-mine or known-safe set.
 */
module Sentences {
  import opened Geometry
  import opened Logic

  class Sentence {
    var cells: set<Cell>
    var count: int
    var minesKnown: set<Cell>
    var safesKnown: set<Cell>

    /** A cell leaves `cells` before it is recorded as known, so the two never overlap. */
    ghost predicate Valid()
      reads this
    {
      cells !! minesKnown && cells !! safesKnown
    }

    /** The logical content of the sentence; `__eq__` compares exactly this. */
    function Value(): Constraint
      reads this
    {
      Constraint(cells, count)
    }

    constructor (cells: set<Cell>, count: int)
      ensures Valid()
      ensures this.cells == cells && this.count == count
      ensures minesKnown == {} && safesKnown == {}
    {
      this.cells := cells;
      this.count := count;
      minesKnown := {};
      safesKnown := {};
    }

    /** Equality by content, not identity. */
    predicate Equals(other: Sentence)
      reads this, other
      ensures Equals(other) <==> Value() == other.Value()
    {
      cells == other.cells && count == other.count
    }

    /** Cells of the sentence known to be mines: always none, since known cells are removed first. */
    function KnownMines(): (r: set<Cell>)
      reads this
      ensures forall c :: c in r <==> c in cells && c in minesKnown
      ensures Valid() ==> r == {}
    {
      set c | c in cells && c in minesKnown
    }

    /** Cells of the sentence known to be safe: always none, since known cells are removed first. */
    function KnownSafes(): (r: set<Cell>)
      reads this
      ensures forall c :: c in r <==> c in cells && c in safesKnown
      ensures Valid() ==> r == {}
    {
      set c | c in cells && c in safesKnown
    }

    method MarkMine(x: Cell)
      requires Valid()
      modifies this
      ensures Valid()
      ensures Value() == old(Value()).WithMine(x)
      ensures x in old(cells) ==>
        cells == old(cells) - {x} && count == old(count) - 1 && minesKnown == old(minesKnown) + {x}
      ensures x !in old(cells) ==> cells == old(cells) && count == old(count) && minesKnown == old(minesKnown)
      ensures safesKnown == old(safesKnown)
    {
      if x !in cells {
        return;
      }
      cells := cells - {x};
      minesKnown := minesKnown + {x};
      count := count - 1;
    }

    method MarkSafe(x: Cell)
      requires Valid()
      modifies this
      ensures Valid()
      ensures Value() == old(Value()).WithSafe(x)
      ensures x in old(cells) ==> cells == old(cells) - {x} && safesKnown == old(safesKnown) + {x}
      ensures x !in old(cells) ==> cells == old(cells) && safesKnown == old(safesKnown)
      ensures count == old(count) && minesKnown == old(minesKnown)
    {
      if x !in cells {
        return;
      }
      cells := cells - {x};
      safesKnown := safesKnown + {x};
    }
  }
}
