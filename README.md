# Minesweeper AI: a verified model of its knowledge base

This project models the inference engine of a minesweeper-playing program
(`minesweeper.py`) and proves properties of it. It also models the two board
queries the engine is checked against. The engine has these parts:

- **Grid geometry.** `neighbor_cells` returns the in-bounds cells of a cell's
  3-by-3 window, without the cell itself.
- **The board.** `Minesweeper.nearby_mines` counts the mines around a cell over
  a given board of mine booleans. `Minesweeper.won` compares the cells the
  player has flagged (`mines_found`) with the mines.
- **A sentence** (`Sentence`). A mutable record that says "exactly `count` of
  `cells` are mines". `mark_mine` and `mark_safe` shrink it in place and note the
  cell in its own known-mine or known-safe set.
- **The player** (`MinesweeperAI`).
  - It holds `moves_made`, `safes`, `mines` and a list `knowledge` of sentence
    objects.
  - `add_knowledge` records a revealed cell and its count. It prunes the known
    neighbours and takes the two shortcuts: all safe, and all mines. Otherwise
    it adds a sentence, runs one resolution pass and runs one pairwise subset
    pass, which rewrites sentences while it iterates over them.
  - `make_safe_move` and `make_random_move` answer move queries.

The model has six modules:

- `Options`: the `Option` result type.
- `Geometry`: cells, `Neighbors`, and the loop `NeighborCells`.
- `Board`: the board as a value, and the loop `NearbyMines`.
- `Logic`: the knowledge base as a value (`Constraint`, `KB`), with every
  operation of the player as a function of the old value. All soundness and
  bookkeeping lemmas live here.
- `Sentences`: the class `Sentence`, with fields updated in place.
- `Agent`: the class `MinesweeperAI`. Its sentence list is a `seq<Sentence>` of
  distinct objects. A ghost sequence `contents` holds their values, and each
  method is proved to change the abstract state `State()` exactly as the
  matching `Logic` function does.

Soundness is stated against a hidden mine layout `m`, a set of cells.

- **Consistent.** `KB.Consistent(m)` means three things: `mines` is a subset of
  `m`; `safes` and `m` are disjoint; every sentence is true of `m`, that is,
  `|cells * m| == count`.
- **Honest.** The caller reports a revealed non-mine together with its true
  neighbour count, which is exactly what `NearbyMines` returns over a board
  that agrees with `m`.
- **The result.** Honest input keeps the state consistent. Hence, for every
  honest game, `safes` and `mines` stay disjoint. No such claim is made for
  arbitrary counts.

Three details of the source are kept:

- **Removing resolved sentences.** The resolution pass removes the collected
  sentences with `list.remove`, which matches by value. A sentence equal by
  value to a resolved one is itself resolved. So the removals delete exactly the
  resolved sentences and keep the order of the rest. `Unresolved`, `Kept` and
  `ScanResolved` model this as an order-preserving filter.
- **Self-skip by value.** In the subset pass, two sentences equal by value skip
  each other even when they are distinct objects (`Sentence.Equals`,
  `Logic.Step`).
- **The side lists.** `mark_mines` and `mark_safes` are built completely before
  any cell is marked. All mines are marked before any safe, and each marking
  loop's result does not depend on the order of the set (`MarkMinesStep`,
  `MarkSafesStep`).

## Model

| member | source | states |
|---|---|---|
| Geometry.Neighbors | minesweeper.py:308-322 | A cell is a neighbour exactly when it is in the grid and at king-move distance 1 from the centre. |
| Geometry.NeighborCells | minesweeper.py:308-322 | The nested window loop returns exactly `Neighbors(c, height, width)`. The centre is not in it, and every member is in the grid. |
| Geometry.AtMostEightNeighbors | minesweeper.py:308-322 | No cell has more than 8 neighbours. |
| Geometry.InteriorHasEightNeighbors | minesweeper.py:308-322 | A cell one step away from every border has exactly 8 neighbours. |
| Geometry.CornerHasThreeNeighbors | minesweeper.py:308-322 | On a grid of at least 2 by 2, the neighbours of (0, 0) are exactly {(0,1), (1,0), (1,1)}. |
| Geometry.DefaultBoardInteriorExample | minesweeper.py:153-157 | On the default 8-by-8 board, (3, 3) has 8 neighbours. |
| Board.NearbyMines | minesweeper.py:55-78 | The count is the number of neighbours the board marks as mines. On a board whose booleans match the mine set, it is the number of neighbours in the mine set. |
| Board.ScanStep | minesweeper.py:66-76 | One window cell adds one to the count exactly when it is not the centre, is in bounds and is marked as a mine on the board. |
| Board.BoardMinesNear | minesweeper.py:74-76 | When the board's booleans match the mine set, the board-marked neighbours are the neighbours in the mine set. |
| Board.WonIffFlagsMatchBoard | minesweeper.py:80-84 | With all player flags (`mines_found`) on the grid, `won` holds exactly when the flagged cells are the cells the board marks as mines. |
| Sentences.Sentence.constructor | minesweeper.py:94-98 | A new sentence holds the given cells and count, and its known sets are empty. |
| Sentences.Sentence.Equals | minesweeper.py:100-101 | Two sentences are equal exactly when their values (cells, count) are equal. |
| Sentences.Sentence.KnownMines | minesweeper.py:106-114 | A cell is in the result exactly when it is a cell of the sentence and a known mine. The result is empty whenever the sentence invariant holds. |
| Sentences.Sentence.KnownSafes | minesweeper.py:116-124 | A cell is in the result exactly when it is a cell of the sentence and a known safe. The result is empty whenever the invariant holds. |
| Sentences.Sentence.MarkMine | minesweeper.py:126-135 | The value becomes `WithMine(x)`. When x is a cell, it is removed, recorded as a known mine, and the count drops by 1. Otherwise nothing changes. The invariant is kept. |
| Sentences.Sentence.MarkSafe | minesweeper.py:137-145 | The value becomes `WithSafe(x)`. When x is a cell, it is removed and recorded as a known safe. Otherwise nothing changes. The count never changes. |
| Logic.WithMineEffect | minesweeper.py:131-135 | When x is a cell, one cell and one unit of count go. The slack `\|cells\| - count` is always kept. |
| Logic.WithSafeEffect | minesweeper.py:142-145 | When x is a cell, one cell goes. The count is kept. |
| Logic.WithMineIdempotent | minesweeper.py:131-135 | Marking a mine twice equals marking it once. |
| Logic.WithSafeIdempotent | minesweeper.py:142-145 | Marking a safe twice equals marking it once. |
| Logic.HoldsBounds | minesweeper.py:87-92 | A sentence true of some layout has `0 <= count <= \|cells\|`. |
| Logic.AllMinesForced | minesweeper.py:241-245 | A true sentence with count equal to its size consists of mines only. |
| Logic.AllSafeForced | minesweeper.py:246-249 | A true sentence with count 0 contains no mine. |
| Logic.MinusSound | minesweeper.py:268-274 | The subset rule is sound. If B's cells lie inside A's and both are true, then (A \ B, A.count - B.count) is true. |
| Logic.WithMinesSound | minesweeper.py:126-135 | Removing known mines with their count keeps a sentence true. |
| Logic.WithSafesSound | minesweeper.py:137-145 | Removing known safes keeps a sentence true. |
| Logic.MarkMineEffect | minesweeper.py:169-176 | `mark_mine` adds x to `mines` and leaves the other sets alone. Each sentence loses exactly x, and its count is decremented when it held x. No sentence contains x afterwards. |
| Logic.MarkSafeEffect | minesweeper.py:178-185 | `mark_safe` adds x to `safes`. Each sentence loses exactly x, and the counts are unchanged. |
| Logic.MarkMineIdempotent | minesweeper.py:169-176 | Marking the same mine twice equals marking it once. |
| Logic.MarkSafeIdempotent | minesweeper.py:178-185 | Marking the same safe twice equals marking it once. |
| Logic.MarkMinesStep | minesweeper.py:228-229 | One more `mark_mine` after marking the set s equals marking `s + {x}`, so the loop order does not matter. |
| Logic.MarkSafesStep | minesweeper.py:222-223 | One more `mark_safe` after marking the set s equals marking `s + {x}`. |
| Logic.MarkMinesSound | minesweeper.py:254-255 | Marking mines that are real mines keeps the state consistent. |
| Logic.MarkSafesSound | minesweeper.py:257-258 | Marking cells that are really safe keeps the state consistent. |
| Logic.ResolvedMinesSound | minesweeper.py:240-245 | Every cell the resolution pass collects as a mine is a mine of every layout that makes the sentences true. |
| Logic.ResolvedSafesSound | minesweeper.py:246-249 | Every cell it collects as safe is safe in every such layout. |
| Logic.UnresolvedKept | minesweeper.py:250-252 | The sentences kept by the pass are unresolved members of the list, and every unresolved sentence of the list is kept. |
| Logic.ResolvedCellsCovered | minesweeper.py:240-249 | A cell is collected as a mine exactly when it belongs to some sentence with count equal to its size. A cell is collected as safe exactly when it belongs to some sentence with count 0 that is not all mines. |
| Logic.ResolveSound | minesweeper.py:236-258 | With all its removals and markings, the resolution pass keeps the state consistent. |
| Logic.ResolveMarksResolved | minesweeper.py:236-258 | After the pass, the cells of every all-mine sentence are in `mines`, and those of every all-safe sentence are in `safes`. |
| Logic.StepSound | minesweeper.py:264-274 | One pair step of the subset pass keeps every sentence true. |
| Logic.SubsetPassSound | minesweeper.py:261-274 | The whole in-place subset pass keeps every sentence true. |
| Logic.SubsetPassShrinks | minesweeper.py:261-274 | The subset pass keeps the number of sentences and only removes cells from them. |
| Logic.SubsetPassExample | minesweeper.py:261-274 | {a,b,c}=1 against {a,b}=1 becomes {c}=0, and {a,b}=1 is kept. |
| Logic.DeduceGrows | minesweeper.py:219-275 | The shortcuts and the passes never shrink `safes` or `mines`, and they leave `moves_made` and the size alone. |
| Logic.AddKnowledgeRecords | minesweeper.py:202-204 | After `add_knowledge`, the cell is in `moves_made` and in `safes`. The three fact sets have only grown. |
| Logic.AdjustedCountHolds | minesweeper.py:209-218 | Under an honest count, the adjusted count equals the number of mines among the unknown neighbours. |
| Logic.AddKnowledgeAllSafe | minesweeper.py:220-224 | When the adjusted count is 0, the result marks the cell and all its unknown neighbours safe. No sentence is added and no mine is found. |
| Logic.AddKnowledgeAllMines | minesweeper.py:226-230 | When the adjusted count is nonzero and equals the number of unknown neighbours, all of them become mines. No sentence is added. |
| Logic.DeduceSound | minesweeper.py:219-275 | A true sentence about unknown cells keeps the state consistent through the shortcuts and both passes. |
| Logic.AddKnowledgeSound | minesweeper.py:187-275 | If the revealed cell is not a mine of m and the count is its true neighbour count, then a state consistent with m stays consistent. |
| Logic.PurgedAddKnowledge | minesweeper.py:187-275 | `add_knowledge` never leaves a known safe or known mine inside a sentence. |
| Logic.ConsistentDisjoint | minesweeper.py:162-164 | A state that some layout agrees with never has a cell both safe and a mine. |
| Logic.ConsistentCounts | minesweeper.py:166-167 | In a consistent state, every sentence has `0 <= count <= \|cells\|`. |
| Logic.ReplaySound | minesweeper.py:187-275 | Any honest sequence of `add_knowledge` calls keeps the state consistent, so `safes` and `mines` stay disjoint. |
| Logic.InitialConsistent | minesweeper.py:153-167 | The fresh player agrees with every layout, and no sentence holds a known cell. |
| Logic.OpeningCornerExample | minesweeper.py:187-230 | Opening (0,0) on 8-by-8 with count 0 makes (0,0), (0,1), (1,0) and (1,1) safe. No mine is found and no sentence is added. |
| Logic.Constraint.WithMine | minesweeper.py:126-135 | Afterwards x is not a cell, and no cell is added. When x was not a cell, the value is unchanged. |
| Logic.Constraint.WithSafe | minesweeper.py:137-145 | Afterwards x is not a cell, no cell is added, and the count is kept. When x was not a cell, the value is unchanged. |
| Logic.WithMineSound | minesweeper.py:126-135 | Marking a real mine keeps a true sentence true. |
| Logic.WithSafeSound | minesweeper.py:137-145 | Marking a really safe cell keeps a true sentence true. |
| Logic.WithMineAsSet | minesweeper.py:126-135 | Marking one mine is the set form of marking {x}. |
| Logic.WithMinesStep | minesweeper.py:126-135 | Marking the mines of s and then x is marking `s + {x}`. |
| Logic.MarkMinesNone | minesweeper.py:228-229 | Marking no mines changes nothing. |
| Logic.MarkSafesNone | minesweeper.py:222-223 | Marking no safes changes nothing. |
| Logic.MarkSafesTwice | minesweeper.py:202-223 | Marking a and then b safe is marking `a + b` safe. |
| Logic.MarkMineSound | minesweeper.py:169-176 | Marking a real mine keeps a consistent state consistent. |
| Logic.MarkSafeSound | minesweeper.py:178-185 | Marking a really safe cell keeps a consistent state consistent. |
| Logic.PurgedMarkMine | minesweeper.py:169-176 | After `mark_mine`, no sentence holds a known safe or known mine, if none did before. |
| Logic.PurgedMarkSafe | minesweeper.py:178-185 | After `mark_safe`, no sentence holds a known cell, if none did before. |
| Logic.PurgedMarkMines | minesweeper.py:228-229 | Marking a set of mines keeps the sentences free of known cells. |
| Logic.PurgedMarkSafes | minesweeper.py:222-223 | Marking a set of safes keeps the sentences free of known cells. |
| Logic.PurgedUnresolved | minesweeper.py:250-252 | Dropping the resolved sentences keeps the rest free of known cells. |
| Logic.PurgedResolve | minesweeper.py:236-258 | The resolution pass keeps the sentences free of known cells. |
| Logic.Step | minesweeper.py:264-274 | One pair step keeps the number of sentences. |
| Logic.InnerFrom | minesweeper.py:264-274 | Finishing a row of the subset pass keeps the number of sentences. |
| Logic.OuterFrom | minesweeper.py:262-274 | Finishing the remaining rows keeps the number of sentences. |
| Logic.InnerFromSound | minesweeper.py:264-274 | The rest of one row keeps every sentence true. |
| Logic.OuterFromSound | minesweeper.py:262-274 | The remaining rows keep every sentence true. |
| Logic.InnerFromShrinks | minesweeper.py:264-274 | The rest of one row only removes cells from sentences. |
| Logic.OuterFromShrinks | minesweeper.py:262-274 | The remaining rows only remove cells from sentences. |
| Logic.PurgedReduceSubsets | minesweeper.py:261-274 | The subset pass keeps the sentences free of known cells. |
| Logic.PurgedDeduce | minesweeper.py:219-275 | The shortcuts and the passes over unknown cells keep the sentences free of known cells. |
| Logic.PurgedDeduceFrom | minesweeper.py:207-275 | Pruning and deducing keep the sentences free of known cells. |
| Agent.PruneStep | minesweeper.py:209-218 | Visiting one more neighbour x adds x to the cells to remove exactly when x is safe or a mine. It adds one to the known-mine count exactly when x is a mine and not a safe. |
| Board.ScanSet | minesweeper.py:66-76 | One window cell joins the scanned set of board-marked neighbours exactly when it is not the centre, is in bounds and is marked as a mine on the board. |
| Board.RowDone | minesweeper.py:66-76 | The end of one window row is the start of the next. |
| Board.ScanDone | minesweeper.py:66-78 | After the whole window, the scanned set is the set of neighbours the board marks as mines. |
| Agent.KeptMirrors | minesweeper.py:250-252 | After the removals, the remaining sentence objects hold exactly the unresolved values, in order. |
| Agent.KeptDistinct | minesweeper.py:250-252 | The remaining sentence objects are distinct members of the old list. |
| Agent.MinesweeperAI.constructor | minesweeper.py:153-167 | The new player's state is `Initial(height, width)`, with height and width defaulting to 8. |
| Agent.MinesweeperAI.MarkMine | minesweeper.py:169-176 | The new state is `old.MarkMine(x)`. The list of sentence objects is unchanged. |
| Agent.MinesweeperAI.TellMine | minesweeper.py:175-176 | After the loop, every sentence object holds its old value with x marked as a mine. |
| Agent.MinesweeperAI.MarkSafe | minesweeper.py:178-185 | The new state is `old.MarkSafe(x)`. The list of sentence objects is unchanged. |
| Agent.MinesweeperAI.TellSafe | minesweeper.py:184-185 | After the loop, every sentence object holds its old value with x marked safe. |
| Agent.MinesweeperAI.MarkMinesIn | minesweeper.py:228-229 | Calling `mark_mine` on each cell of s, in any order, gives `old.MarkMines(s)`. |
| Agent.MinesweeperAI.MarkSafesIn | minesweeper.py:222-223 | Calling `mark_safe` on each cell of s, in any order, gives `old.MarkSafes(s)`. |
| Agent.MinesweeperAI.PruneKnown | minesweeper.py:209-218 | The remaining neighbours are those neither safe nor mines. The count drops by the number of neighbours that are mines and not safes. |
| Agent.MinesweeperAI.ScanResolved | minesweeper.py:237-249 | The collected cells are `ResolvedMines` and `ResolvedSafes` of the contents. The kept objects are `Kept(knowledge)`. |
| Agent.MinesweeperAI.DropResolved | minesweeper.py:237-252 | The list becomes the unresolved sentences, in order. The returned sets are the resolved cells. |
| Agent.MinesweeperAI.Resolve | minesweeper.py:236-258 | The new state is `old.Resolve()`, and every remaining object is from the old list. |
| Agent.MinesweeperAI.ReducePair | minesweeper.py:264-274 | The contents become `Step(old, i, j)`: at most one of the two objects is rewritten in place. |
| Agent.MinesweeperAI.ReduceRow | minesweeper.py:264-274 | Row i of the nested loop gives `InnerFrom(old, i, 0)`. |
| Agent.MinesweeperAI.ReduceRows | minesweeper.py:262-274 | The whole nested loop gives `SubsetPass(old)`. |
| Agent.MinesweeperAI.ReduceSubsets | minesweeper.py:261-274 | The new state is `old.ReduceSubsets()`. |
| Agent.MinesweeperAI.Deduce | minesweeper.py:220-274 | The shortcuts and the passes give `old.Deduce(cells, count)`. |
| Agent.MinesweeperAI.DeduceFrom | minesweeper.py:207-274 | Pruning then deducing gives `old.DeduceFrom(neighbors, count)`. |
| Agent.MinesweeperAI.AddKnowledge | minesweeper.py:187-275 | The new state is `old.AddKnowledge(cell, count)`, so every `Logic` lemma about `AddKnowledge` applies to the object. |
| Agent.MinesweeperAI.MakeSafeMove | minesweeper.py:277-292 | Returns some cell of `safes` that is not in `moves_made`. Returns None exactly when `safes <= moves_made`. |
| Agent.MinesweeperAI.MakeRandomMove | minesweeper.py:294-306 | Returns the first cell in row-major order that is in the grid, not a known mine and not played, and adds it to `moves_made`. Returns None exactly when no such cell exists, and then changes nothing. |

## Left out

- Random mine placement in `Minesweeper.__init__` (minesweeper.py:25-31) draws random cells. A `Board.Game` is instead given with its board and its mine set, and `Board.Valid` says they agree.
- `Minesweeper.print` and `Sentence.__str__` (minesweeper.py:36-49, 103-104) are console output and string formatting.
- `Minesweeper.is_mine` (minesweeper.py:51-53) is a plain board lookup. No modelled code calls it.
- The game loop and GUI that call the player are not part of this source. `Logic.Replay` stands for a caller that feeds `(cell, count)` pairs.
- The `itertools` and `random` imports are not used anywhere in the modelled code.
- Agent.MinesweeperAI.MakeSafeMove: the source returns the first element of the set in Python's iteration order. The model returns some element of the set.
- Agent.MinesweeperAI.DropResolved: `knowledge.remove` on the collected list is modelled as keeping the unresolved sentences in order. When several sentences are equal by value, the source may remove a different object of the same value. Every such object is resolved and therefore removed anyway.
- In the resolution pass, the side lists `mark_mines` and `mark_safes` are modelled as sets. Duplicates are harmless because marking is idempotent.
- Grid sizes are `nat`. The source accepts any integer, but a negative size gives an empty grid there too.
- Python integers are unbounded, as Dafny's are, so no wrap-around is modelled.
