# sudoku-variant-solver: a Dafny model of the solving engine

The solver works on a cube of candidates. Every (row, column, digit) triple of
an n×n puzzle holds a tri-state value: `True` (proven), `Poss` (still
possible) or `False` (eliminated). Constraints remove candidates (`apply`) and
name the candidates that one candidate would exclude if it were True
(`affects`). When plain propagation stalls, the engine builds a weak-link graph
and a strong-link graph over the `Poss` candidates. From every candidate it then
runs an alternating breadth-first search. The program treats a search that
closes an odd loop as a contradiction, and sets its start False. The hint
generators run this machinery on the board and then restore it.

The model follows the program's structure:

| file | module | models |
|---|---|---|
| candidates.dfy | `Candidates` | `LogicVal`, the candidate identity `Tuple3D`, `positions`, the flat slot `n*n*x + n*y + z` |
| decimal.dfy | `Decimal` | decimal numerals of `usize` (`to_string`, `{}`) |
| board.dfy | `Boards` | `SdkBoard`: `get`/`getm`, `num_solved`, `max_solved`, `clone`, `serialize` |
| rules.dfy | `Rules` | the rule kinds, and the `apply` of the uniqueness rules (row, column, digit, cell) |
| affects.dfy | `Affects` | `affects` of every rule |
| order_rules.dfy | `OrderRules` | `apply` of `GivenConstraint` and `LessThanConstraint`, `thermo_constraint` |
| constraints.dfy | `Constraints` | the dispatch on rule kind, and one propagation pass (`solve_simple`) as a function |
| graphs.dfy | `LinkGraphs` | `graph` and `graph_strong` |
| chain_search.dfy | `ChainSearch` | one search from a start candidate, with or without parent pointers |
| odd_loops.dfy | `OddLoops` | the loop over start candidates with the shrinking budget `min` |
| solving.dfy | `Solving` | what one `solve`, `rem_odd_loops` or `find_odd_loops` achieves, and runs of them |
| puzzle.dfy | `Puzzles` | the `Puzzle` class: `init`, `solve_simple`, `solve`, `get_weaks`, `graph`, `graph_strong`, `rem_odd_loops`, `find_odd_loops`, `weak_hint`, `strong_hint` |
| det_hash.dfy | `DetHashing` | `DetHash` and `DetBuildHash` |
| hint_string.dfy | `HintText` | `get_hint_string` |

The board is a class over an `array` of candidate values. A `Puzzle` holds the
board and the list of rules, and its methods change the array in place. Each
such method is proved against a function of the old board contents. For
example, `Apply` ends with `Effect(r, n, old(board))`, `SolveSimple` with
`Pass(rules, n, old(board), slow)`, and `RemOddLoops` with an `Eliminates`
outcome. The properties are proved as lemmas about those functions. Hash maps
and hash sets are maps and sets. A loop over one of them picks its elements in
an arbitrary order (`:|`), so nothing proved depends on the iteration order.

Two behaviours of the code are easy to misread. The model follows the code,
and proves both:

- `rem_odd_loops` sets exactly one start candidate False, whether or not `slow`
  is set. A start is searched with budget `0..min`, so a closure found later is
  strictly earlier than every closure before it. Only the last recorded start
  therefore has a step of at most the final `min`. `Solving.Eliminates` states
  this outcome, and `Puzzles.Puzzle.RemOddLoops` proves it for both values of
  `slow`. `find_odd_loops` likewise returns at most one loop in both modes.
- In the chain branch, `strong_hint` asks for the weak links of the candidate
  that just became True, on the board where it is True. A candidate that is
  not `Poss` has no weak links, so no recorded loop matches. The branch
  therefore always answers with no cells (`Puzzles.Puzzle.ChainHint` ensures
  `ret == []`).

## Model

| member | source | states |
|---|---|---|
| Candidates.Equal | src/board.rs:26-43 | the hand-written equality on `LogicVal` holds exactly when the two values are the same |
| Candidates.Positions | src/board.rs:88-100 | `positions` builds, with three nested loops, the list `AllPositions(n)` |
| Candidates.AllPositionsSpec | src/board.rs:88-100 | the list holds exactly the in-range candidates; the candidate at slot `Index(n, p)` is p; the list is strictly increasing in lexicographic order, so no candidate appears twice |
| Candidates.IndexBound | src/board.rs:158-166 | the slot `n*n*x + n*y + z` of an in-range candidate is below n³ |
| Candidates.IndexInjective | src/board.rs:158-166 | distinct in-range candidates have distinct slots |
| Candidates.IndexOrder | src/board.rs:158-166 | slot order is lexicographic order on candidates |
| Candidates.CountIsCardinality | src/board.rs:168-181 | the count of a value is the number of slots holding it |
| Candidates.PossCountDrops | src/board.rs:260-285 | a change that creates no `Poss` does not raise the number of `Poss` candidates, and lowers it when it settles one |
| Candidates.NewTrueExists | src/board.rs:288-309 | from a board to a refinement of it, a rise in the number of True candidates means some candidate went from `Poss` to True |
| Boards.SdkBoard.constructor | src/board.rs:721-731 | a board of n³ slots, all `Poss` |
| Boards.SdkBoard.Set | src/board.rs:158-161 | writing through `getm` changes that slot only |
| Boards.SdkBoard.NumSolved | src/board.rs:168-181 | `num_solved` is the number of True slots |
| Boards.FullIffFilled | src/board.rs:168-185 | when no cell holds two True digits, the True count is at most n·n (`max_solved`), and equals it exactly when every cell has a True digit |
| Boards.SdkBoard.Clone | src/board.rs:187-189 | the clone is a new board with the same size and contents |
| Boards.SdkBoard.Serialize | src/board.rs:133-154 | `serialize` returns the row-major rendering `Ser` of the cells' first True digits |
| Boards.SerializeSpec | src/board.rs:133-154 | `serialize` returns `None` exactly when some cell has no True digit; otherwise it returns each cell's first True digit plus one, each followed by "," |
| Decimal.NatToStringRoundTrip | src/board.rs:141 | the decimal text of a number is non-empty, made of digits, has no leading zero and reads back as the number |
| Rules.ApplyLines | src/constraints.rs:17-38 | row `apply` (and column, src/constraints.rs:65-86, and digit, src/constraints.rs:113-134) leaves `Applied(r, old board)` and reports whether the board changed |
| Rules.ApplyCells | src/constraints.rs:163-182 | cell `apply` leaves `Applied(r, old board)` and reports whether the board changed |
| Rules.AppliedSound | src/constraints.rs:17-38 | a uniqueness rule only turns `Poss` into False, and afterwards no `Poss` candidate shares a line (or listed-cell digit) with a True one |
| Rules.AppliedFixpoint | src/constraints.rs:17-38 | a uniqueness rule changes nothing exactly when its condition already holds |
| Rules.AppliedIdempotent | src/constraints.rs:17-38 | applying a uniqueness rule twice is applying it once |
| Rules.ElimsChain | src/board.rs:260-271 | eliminations compose, and a sequence of them changed the board iff some step did, so `did` can be accumulated |
| Affects.LineAffects | src/constraints.rs:40-60 | row `affects` (and column, src/constraints.rs:88-108, and digit, src/constraints.rs:136-156) returns exactly the other `Poss` candidates on p's line when p is `Poss`, and nothing otherwise, in line order |
| Affects.CellAffects | src/constraints.rs:184-205 | cell `affects` returns exactly the `Poss` same-digit candidates in the other listed cells when p is `Poss` and listed, and nothing otherwise |
| Affects.LessThanAffects | src/constraints.rs:269-298 | from a `Poss` low-cell digit z, the `Poss` high-cell digits below z; from a `Poss` high-cell digit z, the `Poss` low-cell digits above z; nothing otherwise; in digit order |
| Affects.ReportsRemovedByApply | src/constraints.rs:17-60 | every candidate that a uniqueness rule's `affects` reports for p is False once p is True and the rule is applied |
| Constraints.LessThanReportsRemoved | src/constraints.rs:234-298 | `affects` of a LessThan rule between two distinct cells agrees with its `apply` once p's cell is settled: if p is True and every other digit of its cell is False, every candidate reported for p ends False |
| Affects.ReportsSymmetric | src/constraints.rs:40-298 | the weak-link relation of each rule is symmetric (for a LessThan, between two distinct cells) |
| OrderRules.ApplyGiven | src/constraints.rs:211-216 | a given sets its candidate True whatever it held, and reports whether it was `Poss` |
| OrderRules.ApplyLessThan | src/constraints.rs:234-267 | the less-than `apply` leaves `LessRun` after all n digit rounds, and reports whether the board changed |
| OrderRules.LessThanOnlyElims | src/constraints.rs:234-267 | less-than only turns `Poss` into False, and only in its two cells |
| OrderRules.LowRemovedOnlyIf | src/constraints.rs:239-251 | a low-cell digit z is removed only when every high-cell digit above z is False |
| OrderRules.HighRemovedOnlyIf | src/constraints.rs:252-264 | a high-cell digit z is removed only when every low-cell digit below z is False |
| OrderRules.ExtremesRemoved | src/constraints.rs:234-267 | a `Poss` high-cell digit 0 and a `Poss` low-cell digit n-1 always end False |
| OrderRules.HighDigitRemoved | src/constraints.rs:252-264 | with two distinct cells, a `Poss` high-cell digit z whose low-cell digits below z are all False ends False |
| OrderRules.LowDigitRemoved | src/constraints.rs:239-251 | with two distinct cells, a `Poss` low-cell digit z whose high-cell digits above z are all False ends False |
| OrderRules.Thermo | src/constraints.rs:301-310 | k ≥ 1 cells give k-1 rules, the i-th ordering cell i below cell i+1 |
| Constraints.Apply | src/constraints.rs:7 | `apply` of any rule leaves `Effect(r, old board)` and returns `Reported` |
| Constraints.AffectsOf | src/constraints.rs:11-12 | `affects` of any rule returns exactly the candidates `Reports` links to p (nothing for a given, src/constraints.rs:218-226) |
| Constraints.EffectSound | src/constraints.rs:17-267 | every rule other than a given only eliminates, and reports exactly when it eliminated something; a given sets its candidate True and changes nothing else |
| Constraints.EffectDrops | src/constraints.rs:17-267 | no rule creates a `Poss`, and a rule that reports lowers the number of `Poss` candidates |
| Constraints.EffectRefines | src/constraints.rs:17-267 | from a board whose givens are not False, every rule keeps the board a refinement |
| Constraints.PassDrops | src/board.rs:260-271 | a pass never creates a `Poss`, and a pass that reports lowers the number of `Poss` candidates |
| Constraints.PassRefines | src/board.rs:260-271 | from a snapshot whose givens are not False, a pass keeps the board a refinement of the snapshot |
| Constraints.PassQuiet | src/board.rs:260-271 | a pass reports nothing exactly when every rule is quiet on the board, and then it leaves the board unchanged |
| Constraints.SlowStops | src/board.rs:266-268 | in slow mode, once a rule reports, the later rules are not applied |
| Constraints.SlowEagerAgree | src/board.rs:260-271 | slow and eager passes report alike, and agree on the board when they report nothing |
| LinkGraphs.PossSet | src/board.rs:433 | the node set: exactly the in-range `Poss` candidates |
| LinkGraphs.Weaks | src/board.rs:386-402 | the union over the rules of `affects(p)` |
| LinkGraphs.WeakGraphShape | src/board.rs:430-452 | the weak graph's nodes are exactly the `Poss` candidates; it is symmetric, closed and irreflexive; its edges are exactly the weak edges |
| LinkGraphs.AddNode | src/board.rs:435-449 | adding a node links it both ways to those of its weak links already in the graph |
| LinkGraphs.CollectTriangles | src/board.rs:457-467 | the collected pairs are exactly the edges that lie on a triangle of the weak graph |
| LinkGraphs.RemoveEdges | src/board.rs:468-472 | each collected pair is removed from both endpoints |
| LinkGraphs.WithoutTriangles | src/board.rs:455-474 | removing the collected pairs from the weak graph gives `StrongOf` |
| LinkGraphs.StrongShape | src/board.rs:455-474 | the strong graph has the weak graph's nodes, is symmetric and closed, every strong edge is a weak edge, and no strong edge has a common weak neighbour |
| ChainSearch.Search | src/board.rs:502-564 | the step at which a search first closes lies within the budget |
| ChainSearch.BudgetMono | src/board.rs:506-564 | a larger budget finds the same closure, or one the smaller budget could not reach |
| ChainSearch.ClosureBudget | src/board.rs:506-564 | the closure within budget b is the closure within b' ≥ b when that is below b, and none otherwise |
| ChainSearch.ExpandFrontier | src/board.rs:513-533 | one expansion gives the unvisited neighbours of the frontier, and the frontier joins the visited set |
| ChainSearch.ClosureCheck | src/board.rs:534-562 | the closure test succeeds exactly when two new frontier nodes are joined in the opposite graph |
| ChainSearch.SearchFrom | src/board.rs:502-564 | the search from one start returns `FirstClosure` |
| ChainSearch.SearchParents | src/board.rs:603-676 | the search with parent pointers returns the same closure step, and on a closure a parent tree plus two joined frontier nodes at that depth |
| ChainSearch.Reconstruct | src/board.rs:679-690 | following the parent pointers from a node gives an alternating chain back to the start |
| OddLoops.EarliestUnique | src/board.rs:480-576 | the success flag and the earliest step are determined by the graphs and the budget |
| OddLoops.ScanStep | src/board.rs:501-565 | searching one more start with budget `min` finds only a closure earlier than all before, and keeps the scan invariant |
| OddLoops.ScanStarts | src/board.rs:500-565 | after every start is searched, `succ` and `min` are the earliest closure over all starts, and the last recorded start closes at `min` |
| OddLoops.ScanPaths | src/board.rs:601-705 | the same scan, where every recorded path is an odd loop through its start at its step |
| OddLoops.LoopOf | src/board.rs:677-703 | the two rebuilt half-chains together form an odd loop |
| OddLoops.SelectPaths | src/board.rs:707-716 | the final filter keeps only the last recorded loop, in both modes |
| Solving.EliminatesDrops | src/board.rs:567-575 | an elimination only turns one `Poss` into False, and a successful one lowers the number of `Poss` candidates |
| Solving.ScanEliminates | src/board.rs:553-575 | the scan followed by setting the last recorded start False is an elimination |
| Solving.ScanFindsLoop | src/board.rs:707-716 | the scan followed by the final filter gives at most one loop, which closes at the earliest step |
| Solving.SolveStepDrops | src/board.rs:274-285 | a `solve` never creates a `Poss`, and when it reports progress it removes one |
| Solving.SolveStepRefines | src/board.rs:274-285 | from a snapshot whose givens are not False, `solve` keeps the board a refinement of it |
| Solving.WeaksOfSettled | src/board.rs:386-402 | a candidate that is not `Poss` has no weak links |
| Solving.SolveRunExtend | src/board.rs:290-297 | one more reporting `solve(true)` extends a run of them |
| Solving.PassRunExtend | src/board.rs:315-320 | one more reporting `solve_simple(false)` extends a run of them |
| Solving.NewlyTrueExists | src/board.rs:298-303 | if the True count rose over a refinement, some candidate went from `Poss` to True |
| Puzzles.Puzzle.Init | src/board.rs:721-731 | `init` makes an all-`Poss` board of size n and no rules |
| Puzzles.Puzzle.SolveSimple | src/board.rs:260-271 | `solve_simple` leaves the board and flag of `Pass`: every rule applied in order, skipping the rest after the first report in slow mode |
| Puzzles.Puzzle.Solve | src/board.rs:274-285 | `solve` is a pass; when it stalls on a full board it reports false; otherwise it is the odd-loop elimination |
| Puzzles.Puzzle.GetWeaks | src/board.rs:386-402 | `get_weaks` returns the union of every rule's `affects` |
| Puzzles.Puzzle.GraphWeak | src/board.rs:430-452 | `graph` returns the weak graph of the board |
| Puzzles.Puzzle.GraphStrong | src/board.rs:455-474 | `graph_strong` returns the weak graph without its triangle edges |
| Puzzles.ScanRemovals | src/board.rs:500-565 | the scan over starts yields an elimination of the last recorded start |
| Puzzles.Puzzle.RemOddLoops | src/board.rs:480-576 | `rem_odd_loops` reports the earliest closure over all `Poss` candidates, and on success sets exactly one start that closes there False, changing nothing else |
| Puzzles.Puzzle.RemoveEarliest | src/board.rs:567-574 | the final loop sets False only the last recorded start |
| Puzzles.Puzzle.FindOddLoops | src/board.rs:581-717 | `find_odd_loops` reports the earliest closure and at most one path, present exactly when some start closes, which is an odd loop through such a start |
| Puzzles.FindNewlyTrue | src/board.rs:298-303 | the diff finds the first candidate, in `positions` order, that is True now and was `Poss` in the snapshot, or reports that there is none |
| Puzzles.Puzzle.SolveUntilFilled | src/board.rs:290-297 | the loop of `solve(true)` calls stops when the True count changes or a call reports nothing |
| Puzzles.Puzzle.WeakHint | src/board.rs:288-309 | `weak_hint` restores the board, and returns the first newly True candidate after a run of `solve(true)`, or `None` when `solve` stalled first |
| Puzzles.Puzzle.PassUntilFilled | src/board.rs:315-320 | a run of reporting `solve_simple(false)` passes in which every board before the last still has `start` True candidates; the loop ends either on a board whose True count differs from `start`, or with a pass on a board still at `start` that reports nothing |
| Puzzles.Puzzle.StrongHint | src/board.rs:312-383 | `strong_hint` restores the board; its passes run while the True count is unchanged and stop on a change of count or a pass that reports nothing, on a refinement of the starting board; it returns at most one cell, the first newly True candidate after the passes, and returns one exactly when there is one |
| Puzzles.Puzzle.ChainHint | src/board.rs:329-383 | the chain branch of `strong_hint` always returns no cells |
| Puzzles.MatchPaths | src/board.rs:343-344 | the filter keeps exactly the paths that contain a weak link of the candidate, and none when there are no weak links |
| Puzzles.CellsOf | src/board.rs:358-371 | the result holds exactly the cells of the matched paths, and is empty when no path matched |
| DetHashing.DetHash.Finish | src/det_hash.rs:10-12 | `finish` returns the running value and changes nothing |
| DetHashing.DetHash.Write | src/det_hash.rs:14-18 | `write` folds the bytes in order; the result is the Horner value of the bytes in base `mul`, reduced modulo 2^64 |
| DetHashing.FoldIsHorner | src/det_hash.rs:14-18 | wrapping the product at every step gives the exact Horner value reduced modulo 2^64 |
| DetHashing.FoldAppend | src/det_hash.rs:14-18 | writing a and then b is writing a + b |
| DetHashing.DefaultDigest | src/det_hash.rs:34-38 | the default hasher's digest is the Horner value from seed 12938561897 in base 97587301263, modulo 2^64 |
| DetHashing.DetBuildHash.Default | src/det_hash.rs:34-38 | `default` has init 12938561897 and mul 97587301263 |
| DetHashing.DetBuildHash.BuildHasher | src/det_hash.rs:29-31 | `build_hasher` gives a new hasher at `init` with `mul` |
| DetHashing.DetBuildHash.Clone | src/det_hash.rs:41-43 | `clone` gives a new builder with the same fields |
| DetHashing.DetBuildHash.CloneFrom | src/det_hash.rs:45-48 | `clone_from` copies both fields of the source |
| DetHashing.SameDigest | src/det_hash.rs:14-31 | hashers from equal builders fed the same bytes, in one write or two, finish with equal values |
| HintText.RowLetter | src/main.rs:95 | the row letter is an eight-bit character, and is 'A' plus the row for rows below 191 |
| HintText.GetHintString | src/main.rs:92-104 | the loop builds the heading followed by one entry per cell, in order |
| HintText.EntriesRoundTrip | src/main.rs:94-97 | the entries read back as the cells' (row, column) pairs, in order |
| HintText.HintRoundTrip | src/main.rs:92-104 | the whole hint text reads back as the cells, with a heading that matches their number |

## Left out

- `main` and the puzzle set-ups in src/main.rs, the `Display`/`Debug` rendering of boards, the commented-out `set_trues`, `do_squares` and old `init`, and the `eprintln!` logging with its `wsum`/`ssum` tallies: these are input and output, not solving logic.
- The `hasher: RandomState` field of `Puzzle`, and the order in which `HashMap` and `HashSet` are iterated: graphs are maps to sets, and every loop over them picks its next element arbitrarily. `GraphNode::conn` lists become sets, so their order is not modelled.
- The generic `Board<T>`, `Enumerable` and `Constraint` traits: one concrete cube board and a closed `Rule` datatype stand in for them. The rules in src/constraints.rs are written against an older board type with `get(x, y, z)`; here they work on `SdkBoard`.
- The `Tuple3D` `From`, `Hash`, `Eq`, `Clone` and `Copy` impls: a `Pos` datatype value with built-in equality.
- `usize` overflow in slot arithmetic and counters: sizes and counts are unbounded naturals.
- Rules that name cells or candidates off the board: every rule is assumed to name in-range cells and candidates (`Rules.WellFormed`, required through `Puzzles.Puzzle.Valid`). The code indexes `SIZE*SIZE*x + SIZE*y + z` with no check, so a column or digit of `SIZE` or more reads another cell's slot, and a slot past the end panics. The model does not capture either.
- The `self.get_weaks(pos)` calls inside the searches whose results are discarded.
- Puzzles.Puzzle.WeakHint: requires that no given's candidate is False on the board it starts from (`GivensNotFalse`), instead of modelling the "Cell filled, but not found." panic. Under that requirement the panic is proved unreachable. Without it, a given can turn a False candidate True, and the count can rise with no `Poss` → True change.
- Puzzles.Puzzle.StrongHint: same requirement and same reason. The ensures about the chain branch are that it returns no cells and that the board is restored. The run of `solve(true)` calls in that branch is not recorded as a trace.
- Puzzles.Puzzle.RemOddLoops: the eliminations are modelled by their structure: the earliest odd loop in the weak and strong graphs, and its start set False. They are not proved sound with respect to the puzzle's solutions. The strong graph is only the weak edges that lie on no weak triangle, and that does not make each strong edge a true "one of the two holds" link. For example, take a LessThan rule with low cell {0, 3} and high cell {1, 4}. The edge from low 3 to high 1 survives as strong when no other rule gives the two a common weak neighbour. Yet low 0 with high 4 makes both False.
- Affects.LessThanAffects: its agreement with `apply` (`Constraints.LessThanReportsRemoved`) holds only once p's cell has no other digit left. When p is low digit z and other digits of its cell are still `Poss`, `apply` keeps a reported high digit whenever some low digit below that digit is `Poss`.
- Puzzles.Puzzle.ChainHint: the weak links in the `filter` closure are looked up once, not once per path element. `get_weaks` does not change the board, so the result is the same.
- Puzzles.CellsOf: states which cells the result holds, not the `HashSet` order inside each path or the repetition of a cell across paths.
- DetHashing.DetHash.Write: the `+` that adds the byte is taken modulo 2^64, as a release build wraps. A debug build would panic when the wrapped product plus the byte exceeds 2^64 − 1.
- HintText.RowLetter: `65 + row as u8` is taken modulo 256, as a release build wraps. A debug build would panic for rows from 191 to 255 (modulo 256). The round trip is proved for rows below 191.
- HintText.GetHintString: Rust's `char::from(u8)` is a Latin-1 code point. The model uses the Dafny character with the same code.
