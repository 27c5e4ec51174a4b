# Sudoku constraint propagation and a sliding-window maximum, in Dafny

This project models two Python files.

`solve.py` defines a `Sudoku` class over a grid of integers. A value that appears in `symbols` is a
filled cell. Any other value, 0 in the shipped boards, is an empty cell. The model covers:

- construction, with its divisibility check;
- the row-major list of positions;
- the "connected" set of a position (its row, its column and its box);
- the possibility map, a flag per cell and symbol, built from the fixed values alone;
- the chunking of that map by signature;
- the listing of positions with exactly `n` candidates;
- the single naked-subset pass of `solve` for k = 1 to 4, which builds groups of connected cells with
  identical candidates and clears the group's candidates from every non-member neighbour;
- `is_valid`.

`leet.py` defines `Solution.maximumSubarraySum`: the largest sum of a window of `k` consecutive
elements that are pairwise distinct, or 0.

The files are:

- `board.dfy` (module `Board`): the `Sudoku` value, construction, positions, the connected set and
  `is_valid`.
- `possible.dfy` (module `Possibilities`): the possibility map, its candidate totals, and
  `create_possible_map`, `chunk_possible_map` and `find_n_possible`.
- `subsets.dfy` (module `NakedSubsets`): `flatten`, and the grouping and elimination of `solve`.
- `leet.dfy` (module `MaxWindowSum`): `maximumSubarraySum`.

The `Sudoku` object never changes after `__init__`, so it is a datatype. The numpy possibility map
is a value of type `seq<seq<seq<bool>>>`. The loops that fill it (`CreatePossibleMap`,
`FillPosition`), chunk it (`ChunkMap`), group its cells (`BuildGroups`) and narrow it
(`EliminateGroup`, `ClearConnected`, `EliminateGroups`, `Solve`) are methods. `ChunkMap` is proved
to satisfy the relation `Partitions`. Each of the others is proved equal to a function of its
inputs: `FreshMap`, `Groups`, `Eliminated`, `EliminateAll` and `PassMap`. The properties of the code
are then proved as lemmas about those functions and that relation.

## Model

| member | source | states |
|---|---|---|
| Board.NewSudoku | solve.py:9-19 | Construction succeeds exactly when both box dimensions divide the board's dimensions. A 0 box dimension raises `ZeroDivisionError`, with the height test evaluated first; any other failure raises `ValueError`. On success the fields come from the board's shape, the symbols and the box size. |
| Board.NewClassic | solve.py:9 | With the default symbols 1-9 and 3 x 3 boxes, every 9 x 9 board constructs into a square board of depth 9. |
| Board.Positions | solve.py:21-23 | Lists every board position exactly once, in row-major order: `height * width` entries, each one on the board. |
| Board.ProductRowMajor | solve.py:21-23 | The product of two increasing ranges lists its pairs in row-major order. |
| Board.Connected | solve.py:25-35 | As written, with swapped row and column ranges and `p` itself in the result (`-` binds tighter than `\|`). On a square board every member is on the board. |
| Board.Box | solve.py:29-32 | The box `product` starting at `(top, left)` holds exactly the cells within `h` rows and `w` columns of that corner. |
| Board.ConnectedArePeers | solve.py:25-35 | On a square board the connected set of `p` is exactly the cells sharing `p`'s row, column or box (by integer division), `p` included. |
| Board.ConnectedSymmetric | solve.py:25-35 | `q` is connected to `p` exactly when `p` is connected to `q`. |
| Board.ClassicConnectedCount | solve.py:25-35 | On a 9 x 9 board with 3 x 3 boxes, every connected set has 21 cells. |
| Board.ConnectedCount | solve.py:25-35 | On any square board the connected set has `2 * height - 1 + (boxHeight - 1) * (boxWidth - 1)` cells: the row, the column and the rest of the box, with `p` counted once. |
| Board.NoClashIn | solve.py:118-124 | The outer loop of `is_valid` succeeds exactly when no listed position has a clash with a connected position. |
| Board.IsValid | solve.py:117-124 | True exactly when no two different positions sharing a row, a column or a box hold equal values. Empty cells hold values too, so two connected empty cells clash. |
| Possibilities.Count | solve.py:108 | The number of set flags is at most the entry's length. It is 0 exactly when no flag is set, and equals the length exactly when all are set. |
| Possibilities.Total | solve.py:68 | `possible_map.sum()` is at least every row's total. Its partners TotalZero and TotalMonotone state when it is 0 and that clearing flags never raises it. |
| Possibilities.TotalZero | solve.py:68 | The map total is 0 exactly when no cell has a candidate. |
| Possibilities.TotalMonotone | solve.py:68 | A map that is narrower than another (same shape, flags a subset) has a total no larger. |
| Possibilities.NarrowerTransitive | solve.py:68-97 | Only clearing flags, done twice, still only clears flags. |
| Possibilities.SymbolIndex | solve.py:49 | `symbols.index(v)` is the first position holding `v`. |
| Possibilities.FreshEntry | solve.py:42-44 | A filled cell's fresh entry has no candidate. |
| Possibilities.FreshMap | solve.py:40-49 | The fresh map has shape `(height, width, depth)`, and each cell holds that cell's fresh entry. |
| Possibilities.FreshMapCharacterised | solve.py:40-49 | With distinct symbols, flag `i` of cell `p` is set exactly when `p` is empty and no cell in its row, column or box holds `symbols[i]`. |
| Possibilities.NonSymbolsConstrainNothing | solve.py:42-49 | Replacing one non-symbol value by another anywhere on the board leaves the fresh map unchanged. |
| Possibilities.CreatePossibleMap | solve.py:38-50 | The all-ones map filled position by position is the fresh map. It depends on the board alone, so two calls on one board give equal maps. |
| Possibilities.FillPosition | solve.py:41-49 | One loop iteration sets the visited cell to its fresh entry: all zeros when filled, otherwise one flag cleared per connected symbol. Every other cell is left alone. |
| Possibilities.ClearSymbol | solve.py:46-49 | One visit of a connected cell clears at most that cell's symbol flag and touches no other cell. An entry that excluded the symbols of the cells visited so far then also excludes the visited cell's symbol. |
| Possibilities.Signature | solve.py:60 | The key of a cell is its entry as 0s and 1s, 1 exactly where the flag is set. |
| Possibilities.SignatureInjective | solve.py:60 | Equal keys come from equal entries. |
| Possibilities.ChunkPossibleMap | solve.py:52-64 | The resulting dictionary partitions all positions. Each position lies in the bucket keyed by its own signature, every member of a bucket carries that bucket's key, and no bucket is empty. Without a map argument, the fresh map is used. |
| Possibilities.ChunkMap | solve.py:57-64 | The loop over positions builds a dictionary that partitions all positions by signature, with no empty bucket. |
| Possibilities.WithCount | solve.py:107-109 | Filtering a position list keeps exactly the positions with `n` candidates, and keeps row-major order. |
| Possibilities.FindNPossible | solve.py:106-109 | Yields exactly the positions with `n` candidates, each once, in row-major order. |
| NakedSubsets.Flatten | solve.py:127-130 | A position is in the flattened list exactly when it is in one of the groups. |
| NakedSubsets.IsSimilar | solve.py:79-80 | A similar cell differs from the base and has as many candidates as the base. Its partner GroupExact states which cells a group then holds. |
| NakedSubsets.SimilarConnected | solve.py:79-82 | The filter keeps exactly the connected positions that are k-matches with the seed's entry, other than the seed. |
| NakedSubsets.Group | solve.py:82-83 | A group is a non-empty list of board positions that ends with its seed. |
| NakedSubsets.GroupExact | solve.py:79-84 | A position is in a group exactly when it is the seed, or when it is connected to the seed, is a k-match with an identical entry, and is not the seed. |
| NakedSubsets.Extend | solve.py:76-84 | One seed's turn of the seed loop keeps every group on the board. Its partner ExtendKeeps states that the turn only appends and leaves the seed grouped. |
| NakedSubsets.Grouping | solve.py:75-84 | The seed loop over the remaining seeds keeps every group on the board. Its partner GroupsShape states the shape of the groups it builds. |
| NakedSubsets.Groups | solve.py:70-84 | The groups for k, built from the `find_n_possible` seeds, lie on the board. BuildGroups is proved to compute them, and GroupsShape states what they are. |
| NakedSubsets.BuildGroups | solve.py:73-84 | The loop's groups are the specification's groups for this k: seeds in `find_n_possible` order, skipping any seed already in an earlier group. |
| NakedSubsets.ExtendKeeps | solve.py:75-84 | One seed's turn keeps the earlier groups as a prefix and keeps them well formed. Afterwards the seed lies in some group: it is either skipped because it is already grouped, or it ends a new group. |
| NakedSubsets.GroupsShape | solve.py:69-84 | Every group for k has a seed with exactly k candidates. Its other members are connected to the seed, with an identical entry. No seed lies in an earlier group. Every cell with k candidates ends up in some group. |
| NakedSubsets.MaskTwice | solve.py:97 | Masking twice with the same entry is masking once. |
| NakedSubsets.NeighbourhoodMembers | solve.py:93-95 | The neighbourhood of a group is the set of positions connected to some member. |
| NakedSubsets.Mask | solve.py:97 | `e &= ~common` keeps flag `i` exactly when `e` has it and `common` does not. MaskTwice states that masking again changes nothing. |
| NakedSubsets.EliminatedEffect | solve.py:90-97 | After a group's elimination, a member or a cell outside the group's neighbourhood keeps its entry. Every other cell loses exactly the flags of `group[0]`'s entry as it was before the elimination. |
| NakedSubsets.EliminatedNarrows | solve.py:90-97 | A group's elimination only clears flags. |
| NakedSubsets.Eliminated | solve.py:90-97 | One group's elimination keeps the map's shape. EliminateGroup is proved to compute it, and EliminatedEffect and EliminatedNarrows state its effect. |
| NakedSubsets.EliminateGroup | solve.py:90-97 | The nested loops over members and their connected cells compute the group's elimination. |
| NakedSubsets.ClearMember | solve.py:93-97 | One member's turn extends the cleared neighbourhood by that member's connected set. |
| NakedSubsets.ClearConnected | solve.py:95-97 | Clearing one member's connected cells extends the cleared neighbourhood by that member's connected set. Members are skipped. |
| NakedSubsets.EliminateGroups | solve.py:90-97 | The loop over groups eliminates them one after another. Each group reads `group[0]` from the map as it stands when its turn comes. |
| NakedSubsets.EliminateAll | solve.py:90-97 | Eliminating the groups in list order keeps the map's shape. EliminateGroups is proved to compute it, and EliminateAllNarrows states that it only clears flags. |
| NakedSubsets.EliminateAllNarrows | solve.py:90-97 | Eliminating any list of groups only clears flags. |
| NakedSubsets.StepNarrows | solve.py:69-97 | One k-iteration of `solve` only clears flags. |
| NakedSubsets.Step | solve.py:70-97 | One k-iteration, grouping and then elimination on the current map, keeps the map's shape. StepNarrows and StepWithoutMatches state its effect. |
| NakedSubsets.Steps | solve.py:69-97 | The k-iterations 1 to n, each on the map the previous one left, keep the map's shape. StepsNarrow and StepsWithoutCandidates state their effect. |
| NakedSubsets.LastStepNarrows | solve.py:69-97 | If the iterations up to k - 1 only clear flags, the iterations up to k only clear flags too. |
| NakedSubsets.StepsNarrow | solve.py:69-97 | Running the iterations for k = 1 to n only clears flags. |
| NakedSubsets.StepWithoutMatches | solve.py:69-97 | When no cell has exactly k candidates, there are no groups, and the k-iteration changes nothing. |
| NakedSubsets.StepsWithoutCandidates | solve.py:69-97 | A map without candidates is left unchanged by every iteration. |
| NakedSubsets.FilledBoardUnchanged | solve.py:66-100 | On a completely filled board the pass leaves the fresh map as it is, and both totals are 0. |
| NakedSubsets.PassMap | solve.py:67-97 | The map one `solve` pass ends with has the fresh map's shape and is narrower than the fresh map. |
| NakedSubsets.Solve | solve.py:66-100 | The map after the pass is the specification's pass over the fresh map, narrower than the fresh map. The returned totals are the fresh map's total and the final map's total, and the second is at most the first. |
| MaxWindowSum.ElementsCount | leet.py:10 | `len(set(xs)) <= len(xs)`, with equality exactly when no element repeats, so the test skips exactly the windows with a repeat. |
| MaxWindowSum.MaximumSubarraySum | leet.py:5-17 | The result is at least 0 and at least the sum of every window of length k with distinct elements. It is 0 or the sum of one such window. It is 0 when k exceeds the length. |
| MaxWindowSum.Example | leet.py:1-2 | The sample input `[1,1,1,7,8,9]` with k = 3 gives 24. |

## Left out

- Printing is I/O and is not modelled: the totals in `solve`, the clash report in `is_valid`, and the windows and result in leet.py. `Solve` returns the two totals instead of printing them.
- The module script at the end of solve.py and the import of its board literals are not modelled. The board is a parameter of the model.
- `is_filled` and `is_solved` are not modelled. As written, `is_filled` is the truth value of a non-empty tuple, so it is always true, and `is_solved` is `is_valid`.
- numpy arrays become nested sequences, and the methods reassign them instead of writing in place. Nothing aliases the map except `common_possible`, a view of `group[0]`'s entry. Members of the group are never written during the group's own elimination, so reading that entry live gives the same result.
- Python's set iteration order is taken as row-major in the filter that builds a group, so `group[0]` is the first similar cell in row-major order. This choice can change the result, and `Solve`'s exact result holds only under it. The loops that visit connected cells (`FillPosition`, `ClearConnected`) pick each cell with `:|`, so their results are proved for any visiting order. Only the choice of `group[0]` matters, since the per-cell updates commute.
- Board.Connected: on a board that is not square, the swapped ranges can reach cells off the board, and looking them up can raise `IndexError`. Python does not always reach such a cell. On a non-square board with no empty cell, `create_possible_map` skips every cell before it looks at connected cells, and `solve` prints 0 twice. `is_valid` can return False on an in-range clash first, as on an all-zero 3 x 6 board. The model does not follow these cases: `CreatePossibleMap`, `Solve` and `IsValid` require a square board even where Python would return.
- Board.NewSudoku: box dimensions are `nat`, so negative box sizes are not modelled. A 0 dimension is Python's `ZeroDivisionError`.
- Possibilities.FreshMapCharacterised: requires distinct symbols, because `.index` picks the first occurrence of a repeated symbol.
- MaxWindowSum.MaximumSubarraySum: `k` is a `nat`, because a negative `k` gives Python's negative-slice behaviour.
- NakedSubsets.GroupsShape: like the code, groups are not restricted to exactly k members.
