# Forklift and crane yard, modelled in Dafny

A storage yard is a rectangle of single-character cells: `'.'` is an empty cell
and any other character is a box of that type. Requests are processed in
order. Each request is a string whose first character names a box type.

- A request of length two is a crane request. It takes out every box of that type.
- A request of any other length is a forklift request. It takes out only the
  boxes of that type that touch the outside air: they lie on the yard's edge,
  or next to an empty cell joined to the outside through empty cells.

Every box of one forklift request goes at once, judged on the yard as it was
before that request. The answer is the number of boxes left after the last request.

`algorithms/programmers/Lv2_388353_forklift_crane/solution.py` solves this
three ways, and all three are modelled in their imperative form: a board held
in an `array2<char>` that methods update in place, loops with invariants, and a
breadth-first search whose queue is a sequence with a head index. Each method
is proved against ghost functions that say what a request does to the board.

- `Yard` (`yard.dfy`) is the recommended solution. The storage is copied into
  an `(n+2) x (m+2)` board whose outer ring is empty. A forklift request
  searches the empty cells from the corner `(0, 0)` and records the boxes of
  the type next to them. The boxes are emptied only after the search is over.
  A crane request scans the cells inside the ring.
- `YardV2` (`yard_v2.dfy`) is the second solution. It has no padding. The
  border scan starts the search from every empty border cell, and it records
  the border boxes of the type directly.
- `YardV1` (`yard_v1.dfy`) is the first solution. Its border scan enqueues
  border boxes of the type as well as empty border cells. Its search enqueues
  boxes of the type and skips them when they are dequeued.
- `Reach` (`reach.dfy`) holds the reachability predicates (paths of empty
  cells, `Connected`, `Reached`, `Exposed`). It also holds `FloodFill`, the
  search loop that the recommended and the second solution share.
- `Grid` (`grid.dfy`) holds boards, positions, the array snapshot, relabelling
  and counting.
- `YardFacts` (`yard_facts.dfy`) holds properties of requests and runs.
- `Equivalence` (`equivalence.dfy`) proves that padding commutes with every
  request, so the recommended and the second solution agree on every input.
- `Scenarios` (`scenarios.dfy`) holds whole-run outcomes for simple yards and
  two concrete yards.

What each variant computes is a ghost function: `Simulate` for the padded
board, `SimulateV2` for the unpadded one. `Solution`, `SolutionV2` and
`SolutionV1` are proved to return these functions' values.
`Equivalence.SolutionsAgree` proves `SimulateV2 == Simulate`. `SolutionV1` is
proved to return both. So the three solutions return the same answer for
every well-formed input.

The source marks the first solution as risky because it enqueues boxes of
the requested type. Its `continue` at lines 36-37 keeps such cells from being
expanded, and the search's invariant (`YardV1.SearchingV1`) carries that fact
through to the same result as the second solution. A requested type of `'.'`
is a no-op in all three solutions: in the first, the cells it records are
already empty.

## Model

| member | source | states |
|---|---|---|
| Yard.Pad | algorithms/programmers/Lv2_388353_forklift_crane/solution.py:135-139 | the padded board is (n+2) x (m+2), every outer-ring cell is '.', and cell (i, j) for 1 <= i <= n, 1 <= j <= m holds storage[i-1][j-1] |
| Yard.Yard.constructor | algorithms/programmers/Lv2_388353_forklift_crane/solution.py:135-139 | the board built cell by cell equals Pad(storage), is (n+2) x (m+2), and its ring is empty |
| Yard.Yard.CraneRemove | algorithms/programmers/Lv2_388353_forklift_crane/solution.py:164-168 | the new board is Crane(old board, t): cells inside the ring holding t become '.', all others unchanged; the ring stays empty |
| Yard.Yard.ForkliftRemove | algorithms/programmers/Lv2_388353_forklift_crane/solution.py:141-162 | the new board is Forklift(old board, t): exactly the cells that are Removable in the board before the request (a box of type t next to a '.' cell connected to (0, 0) through '.' cells) become '.'; the ring stays empty |
| Yard.Yard.Remain | algorithms/programmers/Lv2_388353_forklift_crane/solution.py:177-183 | the counter equals the number of non-'.' cells inside the ring |
| Yard.Solution | algorithms/programmers/Lv2_388353_forklift_crane/solution.py:170-183 | requests are applied in order, length 2 means crane and any other length forklift, tag req[0]; the result equals Simulate(storage, requests) |
| Yard.CraneKeepsRing | algorithms/programmers/Lv2_388353_forklift_crane/solution.py:164-168 | a crane request keeps the outer ring empty |
| Yard.ForkliftKeepsRing | algorithms/programmers/Lv2_388353_forklift_crane/solution.py:153-162 | a forklift request keeps the outer ring empty, because only non-'.' cells of type t are relabelled |
| Reach.FloodFill | algorithms/programmers/Lv2_388353_forklift_crane/solution.py:143-159 | the recorded cells are exactly the boxes of type t next to a '.' cell reached from the seeds; the visited cells are exactly the '.' cells reached from the seeds and are all '.'; with distinct seeds the loop runs once per visited cell, at most rows*cols times |
| Reach.Visit | algorithms/programmers/Lv2_388353_forklift_crane/solution.py:152-158 | an unvisited in-bounds '.' neighbour is marked visited and enqueued, an unvisited neighbour of type t is recorded but neither marked nor enqueued, anything else is left; the visited set stays reached-only and the record stays exposed-only |
| Reach.Expand | algorithms/programmers/Lv2_388353_forklift_crane/solution.py:150-158 | after the four directions every neighbour of the dequeued cell is handled, the queue only grows, and it grows only together with the visited set |
| Reach.ExpandStep | algorithms/programmers/Lv2_388353_forklift_crane/solution.py:150-158 | handling direction d keeps the invariant of the direction loop and adds direction d to the handled ones |
| Reach.Advance | algorithms/programmers/Lv2_388353_forklift_crane/solution.py:148-159 | one dequeue-and-expand step keeps the search invariant (visited mirrors the region, region equals queue contents, dequeued cells settled) and makes progress |
| Reach.MarkSeeds | algorithms/programmers/Lv2_388353_forklift_crane/solution.py:144-145 | the start cells are marked visited on a fresh grid and form the initial region |
| Reach.MarkVisited | algorithms/programmers/Lv2_388353_forklift_crane/solution.py:42 | marking an unvisited cell adds exactly that cell to the visited set (the first solution's search) |
| Reach.SearchComplete | algorithms/programmers/Lv2_388353_forklift_crane/solution.py:148-159 | when every enqueued cell is settled, every box of type t next to the reached region is recorded and every reached '.' cell is visited |
| Reach.QueueCount | algorithms/programmers/Lv2_388353_forklift_crane/solution.py:152-155 | a queue without repetitions that lists the visited cells has one entry per visited cell, at most rows*cols |
| Reach.ReachedWithin | algorithms/programmers/Lv2_388353_forklift_crane/solution.py:148-155 | a set holding the start cells and closed under empty steps holds every reached cell |
| Reach.ConnectedStep | algorithms/programmers/Lv2_388353_forklift_crane/solution.py:153-155 | one more step onto an empty neighbour keeps a cell connected |
| Reach.ConnectedJoin | algorithms/programmers/Lv2_388353_forklift_crane/solution.py:148-155 | two connections through empty cells that meet make one |
| Reach.PathStartWithin | algorithms/programmers/Lv2_388353_forklift_crane/solution.py:148-155 | walking back along an empty path never leaves a set closed under empty steps |
| Reach.DistinctMembers | algorithms/programmers/Lv2_388353_forklift_crane/solution.py:152-155 | a sequence without repetitions has as many members as entries |
| Grid.Relabel | algorithms/programmers/Lv2_388353_forklift_crane/solution.py:161-162 | after the loop every listed cell is '.', repetitions included, and every other cell is unchanged |
| Grid.CountRow | algorithms/programmers/Lv2_388353_forklift_crane/solution.py:180-182 | the counter equals the number of non-'.' cells of one row segment of the array |
| Grid.CountWindow | algorithms/programmers/Lv2_388353_forklift_crane/solution.py:178-183 | the counter equals the number of non-'.' cells of a rectangle of the array, row by row |
| Grid.CountBoxesZero | algorithms/programmers/Lv2_388353_forklift_crane/solution.py:178-183 | the count is zero exactly when every cell is '.' |
| Grid.CountBoxesCleared | algorithms/programmers/Lv2_388353_forklift_crane/solution.py:178-183 | emptying cells never raises the count |
| Grid.CountNonEmptyBounded | algorithms/programmers/Lv2_388353_forklift_crane/solution.py:180-182 | a row's count is at most its length and is zero exactly when every cell is '.' |
| Grid.CardAllPositions | algorithms/programmers/Lv2_388353_forklift_crane/solution.py:143 | a rows x cols board has rows*cols positions, the bound on the search's visited cells |
| YardFacts.CraneClearsType | algorithms/programmers/Lv2_388353_forklift_crane/solution.py:164-168 | after a crane request for t, no interior cell equals t |
| YardFacts.CraneChangesOnlyType | algorithms/programmers/Lv2_388353_forklift_crane/solution.py:164-168 | a crane request changes only interior cells holding t, each to '.' |
| YardFacts.CraneIdempotent | algorithms/programmers/Lv2_388353_forklift_crane/solution.py:164-168 | a second crane request for the same type changes nothing |
| YardFacts.CraneThenSameType | algorithms/programmers/Lv2_388353_forklift_crane/solution.py:170-175 | after a crane request for t, a second request for t of either kind changes nothing |
| YardFacts.ForkliftChangesOnlyType | algorithms/programmers/Lv2_388353_forklift_crane/solution.py:153-162 | a forklift request changes only non-'.' cells holding t, each to '.' |
| YardFacts.BuriedBoxStays | algorithms/programmers/Lv2_388353_forklift_crane/solution.py:147-162 | a box whose neighbours are all boxes or off the board is never taken by a forklift |
| YardFacts.SealedPocketStays | algorithms/programmers/Lv2_388353_forklift_crane/solution.py:147-162 | a box whose empty neighbours lie in a pocket that is closed under empty steps and excludes the corner is never taken, since relabelling happens only after the search |
| YardFacts.ForkliftWithoutExposedIsNoop | algorithms/programmers/Lv2_388353_forklift_crane/solution.py:147-162 | a forklift request for a type with no exposed box changes nothing |
| YardFacts.RequestOnlyClears | algorithms/programmers/Lv2_388353_forklift_crane/solution.py:161-168 | every request only turns cells into '.' |
| YardFacts.RemainingNeverGrows | algorithms/programmers/Lv2_388353_forklift_crane/solution.py:170-183 | no request raises the number of boxes left |
| YardFacts.RunOnlyClears | algorithms/programmers/Lv2_388353_forklift_crane/solution.py:170-175 | any run of requests only turns cells into '.' |
| YardFacts.RunKeepsRing | algorithms/programmers/Lv2_388353_forklift_crane/solution.py:136-175 | the outer ring stays '.' after any sequence of requests |
| YardFacts.RunConcat | algorithms/programmers/Lv2_388353_forklift_crane/solution.py:170-175 | applying requests in two batches equals applying them all in order |
| YardFacts.InteriorOfPad | algorithms/programmers/Lv2_388353_forklift_crane/solution.py:135-139 | the interior of the padded board is exactly the storage |
| YardFacts.NoRequests | algorithms/programmers/Lv2_388353_forklift_crane/solution.py:177-183 | with zero requests the result is the number of non-'.' cells of the storage |
| YardFacts.SimulateBounded | algorithms/programmers/Lv2_388353_forklift_crane/solution.py:170-183 | the result never exceeds the number of boxes the storage starts with |
| YardV2.BorderScanThenSearch | algorithms/programmers/Lv2_388353_forklift_crane/solution.py:83-105 | the border boxes of type t plus the boxes the search from the empty border cells records are exactly the accessible boxes |
| YardV2.GridYard.constructor | algorithms/programmers/Lv2_388353_forklift_crane/solution.py:75-76 | the grid is an n x m copy of the storage |
| YardV2.GridYard.CraneRemove | algorithms/programmers/Lv2_388353_forklift_crane/solution.py:112-117 | every cell of the whole grid holding t becomes '.', all others unchanged |
| YardV2.GridYard.RemoveAccessible | algorithms/programmers/Lv2_388353_forklift_crane/solution.py:78-108 | exactly the accessible boxes of type t in the grid before the request become '.' |
| YardV2.GridYard.Remain | algorithms/programmers/Lv2_388353_forklift_crane/solution.py:121 | the result is the number of non-'.' cells of the grid |
| YardV2.SolutionV2 | algorithms/programmers/Lv2_388353_forklift_crane/solution.py:74-121 | the result equals SimulateV2(storage, requests) |
| YardV1.ScanBorder | algorithms/programmers/Lv2_388353_forklift_crane/solution.py:19-28 | the border cells that are '.' or t are marked visited and enqueued, those of type t are also recorded, and the search invariant holds with nothing dequeued |
| YardV1.VisitV1 | algorithms/programmers/Lv2_388353_forklift_crane/solution.py:40-48 | an unvisited in-bounds neighbour is marked visited, enqueued if '.', recorded and enqueued if of type t; marks stay sound and the queue and record stay in step with the marks |
| YardV1.ExpandV1 | algorithms/programmers/Lv2_388353_forklift_crane/solution.py:39-48 | after the four directions every in-bounds neighbour of the dequeued cell is marked, and the queue grows only together with the marks |
| YardV1.ExpandStepV1 | algorithms/programmers/Lv2_388353_forklift_crane/solution.py:39-48 | handling direction d keeps the invariant of the direction loop and adds direction d |
| YardV1.AdvanceV1 | algorithms/programmers/Lv2_388353_forklift_crane/solution.py:30-48 | one dequeue step keeps the search invariant: a cell of type t is skipped (lines 36-37), any other cell has all its neighbours marked |
| YardV1.SearchCompleteV1 | algorithms/programmers/Lv2_388353_forklift_crane/solution.py:30-48 | once every enqueued cell is processed, every accessible box is recorded |
| YardV1.SearchV1 | algorithms/programmers/Lv2_388353_forklift_crane/solution.py:16-48 | every recorded cell holds t, and for a box type t the record lists exactly the accessible boxes |
| YardV1.RemoveAccessible | algorithms/programmers/Lv2_388353_forklift_crane/solution.py:15-51 | the new grid is ForkliftV2(old grid, t), the same as in the second solution, also for t = '.' |
| YardV1.SolutionV1 | algorithms/programmers/Lv2_388353_forklift_crane/solution.py:10-63 | requests applied in order, length 2 a crane over the whole grid (lines 54-59), any other length the first solution's forklift; the result equals SimulateV2(storage, requests) and Simulate(storage, requests) |
| Equivalence.RingReached | algorithms/programmers/Lv2_388353_forklift_crane/solution.py:136-145 | on a board with an empty ring every ring cell is connected to (0, 0) |
| Equivalence.AccessibleIff | algorithms/programmers/Lv2_388353_forklift_crane/solution.py:83-105 | a storage box is accessible to the border-seeded search exactly when its padded cell is removable by the search from (0, 0) |
| Equivalence.CranePad | algorithms/programmers/Lv2_388353_forklift_crane/solution.py:112-117 | a crane request on the padded board equals padding the crane result on the grid |
| Equivalence.ForkliftPad | algorithms/programmers/Lv2_388353_forklift_crane/solution.py:141-162 | a forklift request on the padded board equals padding the forklift result on the grid |
| Equivalence.RunPad | algorithms/programmers/Lv2_388353_forklift_crane/solution.py:170-175 | any run of requests on the padded board equals padding the run on the grid |
| Equivalence.SolutionsAgree | algorithms/programmers/Lv2_388353_forklift_crane/solution.py:133-183 | the second and the recommended solution return the same count for every input |
| Scenarios.CraneOfOnlyType | algorithms/programmers/Lv2_388353_forklift_crane/solution.py:164-183 | a crane request for t leaves 0 when every box of the storage is of type t |
| Scenarios.ForkliftOfBorderType | algorithms/programmers/Lv2_388353_forklift_crane/solution.py:141-183 | a forklift request for t leaves 0 when every box is of type t and lies on the storage's border |
| Scenarios.CraneClearsCross | algorithms/programmers/Lv2_388353_forklift_crane/solution.py:133-183 | "..X.." / ".XXX." / "..X.." with the request "XX" leaves 0 |
| Scenarios.ForkliftClearsCorners | algorithms/programmers/Lv2_388353_forklift_crane/solution.py:133-183 | "X.X" / "..." / "X.X" with the request "X" leaves 0 |

## Left out

- `main.py`: random sampling, floating-point means, a statistical test and printed output. These are floats, foreign library calls and I/O, with no yard logic.
- `collections.deque` is not modelled as a library object. The queue is a sequence that only grows, read through a head index, so `popleft` is `queue[head]` followed by `head + 1`.
- The `to_remove` set of the first and second solutions is a sequence in the model. The order in which a set is iterated does not matter, because relabelling a cell twice gives the same board.
- Input validation: the source does none. A non-empty, rectangular storage and non-empty request strings are preconditions. The source reads `storage[0]` and `req[0]` without checks.
- Requests are plain strings dispatched by length (`len(req) == 2` selects the crane), as in the source; the model has no separate request type.
- The source raises no errors of its own, so the model has no error results; malformed input is excluded by the preconditions above.
- Reach.FloodFill: the iteration bound is stated only for seed lists without repetitions. The recommended solution has a single seed. The second solution's seeds are distinct by its row-major scan, but that is not proved.
- YardV1.SearchV1: no iteration bound is proved for the first solution's loop. Only its termination is proved, through the unvisited cells and the queue length.
- Python's int and str are unbounded, and so are Dafny's `int` and `seq<char>`, so no overflow is modelled.
