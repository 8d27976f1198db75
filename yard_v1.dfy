/**
 * The first solution: no padding; the border scan puts empty border cells
 * and border boxes of the requested type on the queue, and the search puts
 * boxes of that type on the queue too but never expands them. Its result is
 * the same as the second solution's.
 */
module YardV1 {
  import opened Grid
  import opened Reach
  import Yard
  import opened YardV2
  import Equivalence

  /** A cell the first solution puts on its queue when it marks it: empty, or of type t. */
  predicate Enqueues(g: Board, t: char, p: Pos) {
    InBounds(g, p) && (At(g, p) == Empty || At(g, p) == t)
  }

  /** p lies on the border or next to an empty cell that is reached from an empty border cell. */
  ghost predicate Touches(g: Board, p: Pos) {
    OnBorder(g, p) || exists q :: q in Neighbours(p) && FromBorder(g, q)
  }

  /** Every marked cell touches the outside air, and every marked empty cell is part of it. */
  ghost predicate SoundMarks(g: Board, marked: set<Pos>) {
    forall p :: p in marked ==> InBounds(g, p) && Touches(g, p) && (At(g, p) == Empty ==> FromBorder(g, p))
  }

  /** The queue lists exactly the marked cells that are empty or of type t. */
  ghost predicate QueueMarks(g: Board, t: char, queue: seq<Pos>, marked: set<Pos>) {
    forall p :: p in queue <==> p in marked && Enqueues(g, t, p)
  }

  /** The record lists exactly the marked cells of type t. */
  ghost predicate Recorded(g: Board, t: char, toRemove: seq<Pos>, marked: set<Pos>) {
    forall p :: p in toRemove <==> p in marked && InBounds(g, p) && At(g, p) == t
  }

  /** Every border cell that is empty or of type t is marked. */
  ghost predicate BorderMarked(g: Board, t: char, marked: set<Pos>) {
    forall p :: OnBorder(g, p) && Enqueues(g, t, p) ==> p in marked
  }

  /** Every neighbour of x on the board is marked. */
  ghost predicate Surrounded(g: Board, x: Pos, marked: set<Pos>) {
    forall nb :: nb in Neighbours(x) && InBounds(g, nb) ==> nb in marked
  }

  /** A dequeued cell: either of type t, and so skipped, or with all its neighbours marked. */
  ghost predicate Processed(g: Board, t: char, x: Pos, marked: set<Pos>) {
    InBounds(g, x) && (At(g, x) != t ==> Surrounded(g, x, marked))
  }

  /** The marks, the queue and the record agree with each other and with the board. */
  ghost predicate Marking(g: Board, t: char, visited: array2<bool>, queue: seq<Pos>, marked: set<Pos>, toRemove: seq<Pos>)
    reads visited
  {
    Mirrors(visited, marked) && SoundMarks(g, marked) && QueueMarks(g, t, queue, marked) && Recorded(g, t, toRemove, marked)
  }

  /** The loop invariant of the first solution's search, with head the number of cells dequeued. */
  ghost predicate SearchingV1(g: Board, t: char, visited: array2<bool>,
                              queue: seq<Pos>, head: int, marked: set<Pos>, toRemove: seq<Pos>)
    reads visited
  {
    0 <= head <= |queue| && Marking(g, t, visited, queue, marked, toRemove) && BorderMarked(g, t, marked) &&
    forall k {:trigger Processed(g, t, queue[k], marked)} :: 0 <= k < head ==> Processed(g, t, queue[k], marked)
  }

  /** An empty border cell is part of the outside air. */
  lemma BorderAir(g: Board, p: Pos)
    requires OnBorder(g, p) && At(g, p) == Empty
    ensures FromBorder(g, p)
  {
    ConnectedItself(g, p);
  }

  /** An empty neighbour of the outside air is part of it. */
  lemma AirStep(g: Board, x: Pos, nb: Pos)
    requires FromBorder(g, x) && nb in Neighbours(x) && InBounds(g, nb) && At(g, nb) == Empty
    ensures FromBorder(g, nb)
  {
    var s :| OnBorder(g, s) && Connected(g, s, x);
    ConnectedStep(g, s, x, nb);
  }

  /** Marking a neighbour of a cell of the outside air keeps the marks sound. */
  lemma MarksGrow(g: Board, marked: set<Pos>, x: Pos, nb: Pos)
    requires SoundMarks(g, marked) && FromBorder(g, x) && nb in Neighbours(x) && InBounds(g, nb)
    ensures SoundMarks(g, marked + {nb})
  {
    NeighbourSymmetric(x, nb);
    assert Touches(g, nb);
    if At(g, nb) == Empty {
      AirStep(g, x, nb);
    }
    forall p | p in marked + {nb}
      ensures InBounds(g, p) && Touches(g, p) && (At(g, p) == Empty ==> FromBorder(g, p))
    {
    }
  }

  /** Marking a new cell extends the queue and the record by that cell exactly when it belongs there. */
  lemma ListsGrow(g: Board, t: char, queue: seq<Pos>, toRemove: seq<Pos>, marked: set<Pos>, nb: Pos)
    requires QueueMarks(g, t, queue, marked) && Recorded(g, t, toRemove, marked)
    requires InBounds(g, nb) && nb !in marked
    ensures Enqueues(g, t, nb) ==> QueueMarks(g, t, queue + [nb], marked + {nb})
    ensures !Enqueues(g, t, nb) ==> QueueMarks(g, t, queue, marked + {nb})
    ensures At(g, nb) == t ==> Recorded(g, t, toRemove + [nb], marked + {nb})
    ensures At(g, nb) != t ==> Recorded(g, t, toRemove, marked + {nb})
  {
  }

  /**
   * Lines up the border cells in row-major order: every empty one and every
   * one of type t is marked visited and enqueued, and those of type t are
   * also recorded.
   */
  method ScanBorder(grid: array2<char>, t: char, visited: array2<bool>)
    returns (queue: seq<Pos>, toRemove: seq<Pos>, ghost marked: set<Pos>)
    requires visited.Length0 == grid.Length0 && visited.Length1 == grid.Length1
    requires forall i, j :: 0 <= i < visited.Length0 && 0 <= j < visited.Length1 ==> !visited[i, j]
    modifies visited
    ensures SearchingV1(Snapshot(grid), t, visited, queue, 0, marked, toRemove)
  {
    ghost var g := Snapshot(grid);
    var n, m := grid.Length0, grid.Length1;
    queue, toRemove, marked := [], [], {};
    for i := 0 to n
      invariant Mirrors(visited, marked)
      invariant forall p :: p in marked <==> OnBorder(g, p) && Enqueues(g, t, p) && p.r < i
      invariant QueueMarks(g, t, queue, marked) && Recorded(g, t, toRemove, marked)
    {
      for j := 0 to m
        invariant Mirrors(visited, marked)
        invariant forall p :: p in marked <==> OnBorder(g, p) && Enqueues(g, t, p) && (p.r < i || (p.r == i && p.c < j))
        invariant QueueMarks(g, t, queue, marked) && Recorded(g, t, toRemove, marked)
      {
        if i == 0 || i == n - 1 || j == 0 || j == m - 1 {
          if grid[i, j] == Empty || grid[i, j] == t {
            ListsGrow(g, t, queue, toRemove, marked, Pos(i, j));
            queue := queue + [Pos(i, j)];
            marked := MarkVisited(visited, Pos(i, j), marked);
            if grid[i, j] == t {
              toRemove := toRemove + [Pos(i, j)];
            }
          }
        }
      }
    }
    forall p | p in marked
      ensures InBounds(g, p) && Touches(g, p) && (At(g, p) == Empty ==> FromBorder(g, p))
    {
      if At(g, p) == Empty {
        BorderAir(g, p);
      }
    }
  }

  /**
   * One neighbour step from the empty cell x: an unvisited neighbour on the
   * board is marked visited; it is enqueued if empty, recorded and enqueued
   * if of type t, and otherwise left alone.
   */
  method VisitV1(grid: array2<char>, t: char, visited: array2<bool>, x: Pos, nb: Pos,
                 queue: seq<Pos>, ghost marked: set<Pos>, toRemove: seq<Pos>)
    returns (queue': seq<Pos>, ghost marked': set<Pos>, toRemove': seq<Pos>)
    requires visited.Length0 == grid.Length0 && visited.Length1 == grid.Length1
    requires t != Empty && FromBorder(Snapshot(grid), x) && nb in Neighbours(x)
    requires Marking(Snapshot(grid), t, visited, queue, marked, toRemove)
    modifies visited
    ensures Marking(Snapshot(grid), t, visited, queue', marked', toRemove')
    ensures InBounds(Snapshot(grid), nb) ==> nb in marked'
    ensures marked <= marked' && queue <= queue'
    ensures marked' == marked ==> queue' == queue
  {
    ghost var g := Snapshot(grid);
    queue', marked', toRemove' := queue, marked, toRemove;
    if 0 <= nb.r < grid.Length0 && 0 <= nb.c < grid.Length1 && !visited[nb.r, nb.c] {
      marked' := MarkVisited(visited, nb, marked);
      MarksGrow(g, marked, x, nb);
      ListsGrow(g, t, queue, toRemove, marked, nb);
      if grid[nb.r, nb.c] == Empty {
        queue' := queue + [nb];
      } else if grid[nb.r, nb.c] == t {
        toRemove' := toRemove + [nb];
        queue' := queue + [nb];
      }
    }
  }

  /** The neighbours of x before index d have been dealt with: those on the board are marked. */
  ghost predicate Expanded(g: Board, x: Pos, d: int, marked: set<Pos>) {
    forall e :: 0 <= e < d && e < 4 && InBounds(g, Neighbours(x)[e]) ==> Neighbours(x)[e] in marked
  }

  /** Handles the four neighbours of the empty cell x, in the order up, down, left, right. */
  method ExpandV1(grid: array2<char>, t: char, visited: array2<bool>, x: Pos,
                  queue: seq<Pos>, ghost marked: set<Pos>, toRemove: seq<Pos>)
    returns (queue': seq<Pos>, ghost marked': set<Pos>, toRemove': seq<Pos>)
    requires visited.Length0 == grid.Length0 && visited.Length1 == grid.Length1
    requires t != Empty && FromBorder(Snapshot(grid), x)
    requires Marking(Snapshot(grid), t, visited, queue, marked, toRemove)
    modifies visited
    ensures Marking(Snapshot(grid), t, visited, queue', marked', toRemove')
    ensures Surrounded(Snapshot(grid), x, marked')
    ensures marked <= marked' && queue <= queue'
    ensures marked' == marked ==> queue' == queue
  {
    queue', marked', toRemove' := queue, marked, toRemove;
    var dirs := Neighbours(x);
    for d := 0 to |dirs|
      invariant Marking(Snapshot(grid), t, visited, queue', marked', toRemove')
      invariant Expanded(Snapshot(grid), x, d, marked')
      invariant marked <= marked' && queue <= queue'
      invariant marked' == marked ==> queue' == queue
    {
      queue', marked', toRemove' := ExpandStepV1(grid, t, visited, x, d, queue, marked, queue', marked', toRemove');
    }
    assert Expanded(Snapshot(grid), x, 4, marked');
  }

  /** Handles neighbour d of x, keeping the invariant of the loop of ExpandV1. */
  method ExpandStepV1(grid: array2<char>, t: char, visited: array2<bool>, x: Pos, d: nat,
                    ghost queue0: seq<Pos>, ghost marked0: set<Pos>,
                    queue: seq<Pos>, ghost marked: set<Pos>, toRemove: seq<Pos>)
    returns (queue': seq<Pos>, ghost marked': set<Pos>, toRemove': seq<Pos>)
    requires visited.Length0 == grid.Length0 && visited.Length1 == grid.Length1
    requires t != Empty && FromBorder(Snapshot(grid), x) && d < 4
    requires Marking(Snapshot(grid), t, visited, queue, marked, toRemove)
    requires Expanded(Snapshot(grid), x, d, marked)
    requires marked0 <= marked && queue0 <= queue
    requires marked == marked0 ==> queue == queue0
    modifies visited
    ensures Marking(Snapshot(grid), t, visited, queue', marked', toRemove')
    ensures Expanded(Snapshot(grid), x, d + 1, marked')
    ensures marked0 <= marked' && queue0 <= queue'
    ensures marked' == marked0 ==> queue' == queue0
  {
    ghost var g := Snapshot(grid);
    var nb := Neighbours(x)[d];
    queue', marked', toRemove' := VisitV1(grid, t, visited, x, nb, queue, marked, toRemove);
    if marked' == marked0 {
      assert marked == marked0;
    }
    forall e | 0 <= e < d + 1 && e < 4 && InBounds(g, Neighbours(x)[e])
      ensures Neighbours(x)[e] in marked'
    {
      if e < d {
        assert Neighbours(x)[e] in marked;
      }
    }
  }

  /** What was processed stays processed as the queue and the marks grow. */
  lemma ProcessedKept(g: Board, t: char, queue0: seq<Pos>, marked0: set<Pos>,
                      queue: seq<Pos>, marked: set<Pos>, head: nat)
    requires 0 < head <= |queue0| && queue0 <= queue && marked0 <= marked
    requires forall k {:trigger Processed(g, t, queue0[k], marked0)} :: 0 <= k < head - 1 ==> Processed(g, t, queue0[k], marked0)
    requires Processed(g, t, queue0[head - 1], marked)
    ensures forall k {:trigger Processed(g, t, queue[k], marked)} :: 0 <= k < head ==> Processed(g, t, queue[k], marked)
  {
    forall k | 0 <= k < head
      ensures Processed(g, t, queue[k], marked)
    {
      assert queue[k] == queue0[k];
      if k < head - 1 {
        assert Processed(g, t, queue0[k], marked0);
      }
    }
  }

  /**
   * One iteration of the first solution's search: takes the next cell off
   * the queue, skips it if it holds t and handles its neighbours otherwise.
   */
  method AdvanceV1(grid: array2<char>, t: char, visited: array2<bool>,
                   queue: seq<Pos>, head: nat, ghost marked: set<Pos>, toRemove: seq<Pos>)
    returns (queue': seq<Pos>, head': nat, ghost marked': set<Pos>, toRemove': seq<Pos>)
    requires visited.Length0 == grid.Length0 && visited.Length1 == grid.Length1
    requires SearchingV1(Snapshot(grid), t, visited, queue, head, marked, toRemove) && head < |queue|
    modifies visited
    ensures SearchingV1(Snapshot(grid), t, visited, queue', head', marked', toRemove')
    ensures marked <= marked'
    ensures marked' == marked ==> queue' == queue && head' == head + 1
  {
    ghost var g := Snapshot(grid);
    var x := queue[head];
    assert x in queue;
    head' := head + 1;
    if grid[x.r, x.c] == t {
      queue', marked', toRemove' := queue, marked, toRemove;
    } else {
      queue', marked', toRemove' := ExpandV1(grid, t, visited, x, queue, marked, toRemove);
    }
    ProcessedKept(g, t, queue, marked, queue', marked', head');
  }

  /**
   * Once every enqueued cell is processed, every accessible box is recorded:
   * the marked empty cells are closed under empty steps and hold the empty
   * border cells, so they hold all of the outside air.
   */
  lemma SearchCompleteV1(g: Board, t: char, queue: seq<Pos>, marked: set<Pos>, toRemove: seq<Pos>)
    requires t != Empty
    requires QueueMarks(g, t, queue, marked) && Recorded(g, t, toRemove, marked) && BorderMarked(g, t, marked)
    requires forall k {:trigger Processed(g, t, queue[k], marked)} :: 0 <= k < |queue| ==> Processed(g, t, queue[k], marked)
    ensures forall p :: Accessible(g, t, p) ==> p in toRemove
  {
    var air := set p | p in marked && InBounds(g, p) && At(g, p) == Empty;
    forall v, nb | v in air && nb in Neighbours(v) && InBounds(g, nb) && At(g, nb) == Empty
      ensures nb in air
    {
      assert v in queue;
      var k :| 0 <= k < |queue| && queue[k] == v;
      assert Processed(g, t, queue[k], marked);
    }
    forall p | Accessible(g, t, p)
      ensures p in toRemove
    {
      if !OnBorder(g, p) {
        var q :| q in Neighbours(p) && FromBorder(g, q);
        var s :| OnBorder(g, s) && Connected(g, s, q);
        var path :| EmptyPath(g, path) && path[0] == s && path[|path| - 1] == q;
        assert At(g, path[0]) == Empty;
        PathWithin(g, path, air);
        assert q in queue;
        var k :| 0 <= k < |queue| && queue[k] == q;
        assert Processed(g, t, queue[k], marked);
        NeighbourSymmetric(p, q);
      }
    }
  }

  /**
   * The first solution's search (the border scan and the queue loop): finds
   * the boxes to take. Every recorded cell holds t, and when t is a box type
   * the record lists exactly the accessible boxes.
   */
  method SearchV1(grid: array2<char>, t: char) returns (toRemove: seq<Pos>)
    ensures forall p :: p in toRemove ==> InBounds(Snapshot(grid), p) && At(Snapshot(grid), p) == t
    ensures t != Empty ==> forall p :: p in toRemove <==> Accessible(Snapshot(grid), t, p)
  {
    ghost var g := Snapshot(grid);
    var rows, cols := grid.Length0, grid.Length1;
    var visited := new bool[rows, cols]((i, j) => false);
    var queue;
    ghost var marked;
    queue, toRemove, marked := ScanBorder(grid, t, visited);
    var head := 0;
    while head < |queue|
      invariant visited.Length0 == rows && visited.Length1 == cols
      invariant SearchingV1(g, t, visited, queue, head, marked, toRemove)
      decreases AllPositions(rows, cols) - marked, |queue| - head
    {
      ghost var marked0 := marked;
      queue, head, marked, toRemove := AdvanceV1(grid, t, visited, queue, head, marked, toRemove);
      if marked != marked0 {
        FewerUnvisited(AllPositions(rows, cols), marked0, marked);
      }
    }
    if t != Empty {
      SearchCompleteV1(g, t, queue, marked, toRemove);
    }
  }

  /** A forklift request in the first solution: searches, then empties every recorded cell. */
  method RemoveAccessible(grid: array2<char>, t: char)
    requires grid.Length0 > 0
    modifies grid
    ensures Snapshot(grid) == ForkliftV2(old(Snapshot(grid)), t)
  {
    ghost var before := Snapshot(grid);
    var toRemove := SearchV1(grid, t);
    Relabel(grid, toRemove);
    forall i, j | 0 <= i < grid.Length0 && 0 <= j < grid.Length1
      ensures Snapshot(grid)[i][j] == ForkliftV2(before, t)[i][j]
    {
      if t != Empty {
        assert Pos(i, j) in toRemove <==> Accessible(before, t, Pos(i, j));
      } else {
        assert !Accessible(before, t, Pos(i, j));
      }
    }
    SameCells(Snapshot(grid), ForkliftV2(before, t), grid.Length0, grid.Length1);
  }

  /**
   * Copies the storage, applies the requests in order (a crane request
   * empties every box of its type on the whole grid) and counts what is
   * left: the same answer as the second and the recommended solutions.
   */
  method SolutionV1(storage: seq<string>, requests: seq<string>) returns (remain: nat)
    requires Yard.WellFormed(storage) && Yard.ValidRequests(requests)
    ensures remain == SimulateV2(storage, requests)
    ensures remain == Yard.Simulate(storage, requests)
  {
    var yard := new GridYard(storage);
    for k := 0 to |requests|
      invariant yard.Valid() && Yard.WellFormed(yard.Cells())
      invariant RunV2(yard.Cells(), requests[k..]) == RunV2(storage, requests)
    {
      var request := requests[k];
      assert requests[k..][0] == request && requests[k..][1..] == requests[k + 1..];
      if |request| == 2 {
        yard.CraneRemove(request[0]);
      } else {
        RemoveAccessible(yard.grid, request[0]);
      }
    }
    remain := yard.Remain();
    Equivalence.SolutionsAgree(storage, requests);
  }
}
