/**
 * Reachability through empty cells, and the breadth-first search that computes
 * which boxes of one type touch the region reachable from a set of start cells.
 */
module Reach {
  import opened Grid

  /** A non-empty walk of orthogonal steps that stays on empty cells of g. */
  ghost predicate EmptyPath(g: Board, path: seq<Pos>) {
    |path| > 0 &&
    (forall k :: 0 <= k < |path| ==> InBounds(g, path[k]) && At(g, path[k]) == Empty) &&
    (forall k :: 0 < k < |path| ==> path[k] in Neighbours(path[k - 1]))
  }

  /** b can be reached from a by walking over empty cells only. */
  ghost predicate Connected(g: Board, a: Pos, b: Pos) {
    exists path :: EmptyPath(g, path) && path[0] == a && path[|path| - 1] == b
  }

  /** A connection to the start of an empty path extends along the path. */
  lemma {:induction false} ConnectedAlong(g: Board, a: Pos, path: seq<Pos>, k: int)
    requires EmptyPath(g, path) && Connected(g, a, path[0]) && 0 <= k < |path|
    ensures Connected(g, a, path[k])
    decreases k
  {
    if k > 0 {
      ConnectedAlong(g, a, path, k - 1);
      ConnectedStep(g, a, path[k - 1], path[k]);
    }
  }

  /** Two connections that meet make one. */
  lemma ConnectedJoin(g: Board, a: Pos, b: Pos, c: Pos)
    requires Connected(g, a, b) && Connected(g, b, c)
    ensures Connected(g, a, c)
  {
    var second :| EmptyPath(g, second) && second[0] == b && second[|second| - 1] == c;
    ConnectedAlong(g, a, second, |second| - 1);
  }

  /** A stretch of empty cells along row i is connected end to end. */
  lemma AlongRow(g: Board, i: int, j0: int, j1: int)
    requires j0 <= j1
    requires forall k :: j0 <= k <= j1 ==> InBounds(g, Pos(i, k)) && At(g, Pos(i, k)) == Empty
    ensures Connected(g, Pos(i, j0), Pos(i, j1))
  {
    var path := seq(j1 - j0 + 1, k => Pos(i, j0 + k));
    forall k | 0 <= k < |path|
      ensures InBounds(g, path[k]) && At(g, path[k]) == Empty
    {
      assert path[k] == Pos(i, j0 + k);
    }
    assert EmptyPath(g, path);
  }

  /** A stretch of empty cells along column j is connected end to end. */
  lemma AlongColumn(g: Board, j: int, i0: int, i1: int)
    requires i0 <= i1
    requires forall k :: i0 <= k <= i1 ==> InBounds(g, Pos(k, j)) && At(g, Pos(k, j)) == Empty
    ensures Connected(g, Pos(i0, j), Pos(i1, j))
  {
    var path := seq(i1 - i0 + 1, k => Pos(i0 + k, j));
    forall k | 0 <= k < |path|
      ensures InBounds(g, path[k]) && At(g, path[k]) == Empty
    {
      assert path[k] == Pos(i0 + k, j);
    }
    assert EmptyPath(g, path);
  }

  /** p can be reached over empty cells from one of the start cells. */
  ghost predicate Reached(g: Board, seeds: seq<Pos>, p: Pos) {
    exists s :: s in seeds && Connected(g, s, p)
  }

  /**
   * p holds a box of type t (so it is not empty) and has a neighbour in the
   * region reached from the start cells.
   */
  ghost predicate Exposed(g: Board, seeds: seq<Pos>, t: char, p: Pos) {
    InBounds(g, p) && At(g, p) != Empty && At(g, p) == t &&
    exists q :: q in Neighbours(p) && Reached(g, seeds, q)
  }

  lemma ConnectedItself(g: Board, a: Pos)
    requires InBounds(g, a) && At(g, a) == Empty
    ensures Connected(g, a, a)
  {
    assert EmptyPath(g, [a]);
  }

  /** One more step onto an empty neighbour keeps a cell connected. */
  lemma ConnectedStep(g: Board, a: Pos, b: Pos, c: Pos)
    requires Connected(g, a, b)
    requires c in Neighbours(b) && InBounds(g, c) && At(g, c) == Empty
    ensures Connected(g, a, c)
  {
    var path :| EmptyPath(g, path) && path[0] == a && path[|path| - 1] == b;
    var longer := path + [c];
    assert forall k :: 0 <= k < |path| ==> longer[k] == path[k];
    assert longer[|path|] == c;
    assert forall k :: 0 < k < |longer| ==> longer[k] in Neighbours(longer[k - 1]) by {
      forall k | 0 < k < |longer|
        ensures longer[k] in Neighbours(longer[k - 1])
      {
        if k < |path| {
          assert longer[k] == path[k] && longer[k - 1] == path[k - 1];
        }
      }
    }
    assert EmptyPath(g, longer);
  }

  lemma ReachedStep(g: Board, seeds: seq<Pos>, b: Pos, c: Pos)
    requires Reached(g, seeds, b)
    requires c in Neighbours(b) && InBounds(g, c) && At(g, c) == Empty
    ensures Reached(g, seeds, c)
  {
    var s :| s in seeds && Connected(g, s, b);
    ConnectedStep(g, s, b, c);
  }

  /** Every cell of an empty path lies in any set that holds its first cell and is closed under empty steps. */
  lemma {:induction false} PathWithin(g: Board, path: seq<Pos>, region: set<Pos>)
    requires EmptyPath(g, path) && path[0] in region
    requires forall v, nb :: v in region && nb in Neighbours(v) && InBounds(g, nb) && At(g, nb) == Empty ==> nb in region
    ensures path[|path| - 1] in region
  {
    if |path| > 1 {
      var init := path[..|path| - 1];
      assert EmptyPath(g, init);
      PathWithin(g, init, region);
      assert path[|path| - 1] in Neighbours(init[|init| - 1]);
    }
  }

  /** Walking back along an empty path never leaves a set closed under empty steps. */
  lemma {:induction false} PathStartWithin(g: Board, path: seq<Pos>, region: set<Pos>)
    requires EmptyPath(g, path) && path[|path| - 1] in region
    requires forall v, nb :: v in region && nb in Neighbours(v) && InBounds(g, nb) && At(g, nb) == Empty ==> nb in region
    ensures path[0] in region
  {
    if |path| > 1 {
      var tail := path[1..];
      assert forall k :: 0 < k < |tail| ==> tail[k] in Neighbours(tail[k - 1]) by {
        forall k | 0 < k < |tail|
          ensures tail[k] in Neighbours(tail[k - 1])
        {
          assert tail[k] == path[k + 1] && tail[k - 1] == path[k];
        }
      }
      assert EmptyPath(g, tail);
      PathStartWithin(g, tail, region);
      assert path[1] in Neighbours(path[0]);
      NeighbourSymmetric(path[0], path[1]);
    }
  }

  /** A region holding the start cells and closed under empty steps holds everything reached. */
  lemma ReachedWithin(g: Board, seeds: seq<Pos>, region: set<Pos>, p: Pos)
    requires forall s :: s in seeds ==> s in region
    requires forall v, nb :: v in region && nb in Neighbours(v) && InBounds(g, nb) && At(g, nb) == Empty ==> nb in region
    requires Reached(g, seeds, p)
    ensures p in region
  {
    var s :| s in seeds && Connected(g, s, p);
    var path :| EmptyPath(g, path) && path[0] == s && path[|path| - 1] == p;
    PathWithin(g, path, region);
  }

  /** The search has dealt with neighbour nb: stepped onto it if empty, recorded it if it holds t. */
  ghost predicate Handled(g: Board, t: char, nb: Pos, visited: set<Pos>, toRemove: seq<Pos>) {
    InBounds(g, nb) ==>
      (At(g, nb) == Empty ==> nb in visited) &&
      (At(g, nb) != Empty && At(g, nb) == t ==> nb in toRemove)
  }

  /** The search has dealt with every neighbour of x. */
  ghost predicate Settled(g: Board, t: char, x: Pos, visited: set<Pos>, toRemove: seq<Pos>) {
    forall nb :: nb in Neighbours(x) ==> Handled(g, t, nb, visited, toRemove)
  }

  lemma SettledGrows(g: Board, t: char, x: Pos, visited: set<Pos>, toRemove: seq<Pos>, visited': set<Pos>, toRemove': seq<Pos>)
    requires Settled(g, t, x, visited, toRemove)
    requires visited <= visited' && forall p :: p in toRemove ==> p in toRemove'
    ensures Settled(g, t, x, visited', toRemove')
  {
  }

  /** The visited grid marks exactly the cells of region. */
  ghost predicate Mirrors(visited: array2<bool>, region: set<Pos>)
    reads visited
  {
    region <= AllPositions(visited.Length0, visited.Length1) &&
    forall i, j :: 0 <= i < visited.Length0 && 0 <= j < visited.Length1 ==> (visited[i, j] <==> Pos(i, j) in region)
  }

  /** Marks the unvisited cell p visited. */
  method MarkVisited(visited: array2<bool>, p: Pos, ghost region: set<Pos>) returns (ghost region': set<Pos>)
    requires Mirrors(visited, region)
    requires 0 <= p.r < visited.Length0 && 0 <= p.c < visited.Length1 && !visited[p.r, p.c]
    modifies visited
    ensures Mirrors(visited, region') && region' == region + {p} && p !in region
  {
    visited[p.r, p.c] := true;
    region' := region + {p};
  }

  /** Every visited cell is empty and reached from a start cell. */
  ghost predicate SoundRegion(g: Board, seeds: seq<Pos>, region: set<Pos>) {
    (forall p :: p in region ==> InBounds(g, p) && At(g, p) == Empty) &&
    forall p {:trigger Reached(g, seeds, p)} :: p in region ==> Reached(g, seeds, p)
  }

  /** Every recorded cell is a box of type t next to the reached region. */
  ghost predicate SoundRecord(g: Board, seeds: seq<Pos>, t: char, toRemove: seq<Pos>) {
    forall p :: p in toRemove ==> Exposed(g, seeds, t, p)
  }

  /** Adding an empty neighbour of a reached cell keeps the region sound. */
  lemma RegionGrows(g: Board, seeds: seq<Pos>, region: set<Pos>, x: Pos, nb: Pos)
    requires SoundRegion(g, seeds, region) && x in region && nb in Neighbours(x)
    requires InBounds(g, nb) && At(g, nb) == Empty
    ensures SoundRegion(g, seeds, region + {nb})
  {
    ReachedStep(g, seeds, x, nb);
  }

  /** Recording a box of type t next to a reached cell keeps the record sound. */
  lemma RecordGrows(g: Board, seeds: seq<Pos>, t: char, toRemove: seq<Pos>, region: set<Pos>, x: Pos, nb: Pos)
    requires SoundRecord(g, seeds, t, toRemove) && SoundRegion(g, seeds, region)
    requires x in region && nb in Neighbours(x)
    requires InBounds(g, nb) && At(g, nb) != Empty && At(g, nb) == t
    ensures SoundRecord(g, seeds, t, toRemove + [nb])
  {
    NeighbourSymmetric(x, nb);
    assert Reached(g, seeds, x);
    assert Exposed(g, seeds, t, nb);
  }

  /**
   * One neighbour step of the search from the visited cell x: an unvisited
   * empty neighbour is marked and enqueued, an unvisited neighbour of type t is
   * recorded, anything else is left alone.
   */
  method Visit(board: array2<char>, t: char, ghost seeds: seq<Pos>, visited: array2<bool>, x: Pos, nb: Pos,
               queue: seq<Pos>, ghost region: set<Pos>, toRemove: seq<Pos>)
    returns (queue': seq<Pos>, ghost region': set<Pos>, toRemove': seq<Pos>)
    requires visited.Length0 == board.Length0 && visited.Length1 == board.Length1
    requires Mirrors(visited, region) && SoundRegion(Snapshot(board), seeds, region)
    requires SoundRecord(Snapshot(board), seeds, t, toRemove)
    requires x in region && nb in Neighbours(x)
    modifies visited
    ensures Mirrors(visited, region') && SoundRegion(Snapshot(board), seeds, region')
    ensures SoundRecord(Snapshot(board), seeds, t, toRemove')
    ensures Handled(Snapshot(board), t, nb, region', toRemove')
    ensures forall p :: p in toRemove ==> p in toRemove'
    ensures (region' == region && queue' == queue) ||
            (nb !in region && nb in AllPositions(board.Length0, board.Length1) &&
             region' == region + {nb} && queue' == queue + [nb])
  {
    ghost var g := Snapshot(board);
    queue', region', toRemove' := queue, region, toRemove;
    if 0 <= nb.r < board.Length0 && 0 <= nb.c < board.Length1 && !visited[nb.r, nb.c] {
      if board[nb.r, nb.c] == Empty {
        visited[nb.r, nb.c] := true;
        RegionGrows(g, seeds, region, x, nb);
        region' := region + {nb};
        queue' := queue + [nb];
      } else if board[nb.r, nb.c] == t {
        RecordGrows(g, seeds, t, toRemove, region, x, nb);
        toRemove' := toRemove + [nb];
      }
    }
  }

  /** The neighbours of x before index d have been handled. */
  ghost predicate HandledUpTo(g: Board, t: char, x: Pos, d: int, visited: set<Pos>, toRemove: seq<Pos>) {
    forall e :: 0 <= e < d && e < 4 ==> Handled(g, t, Neighbours(x)[e], visited, toRemove)
  }

  /** Handles the four neighbours of the visited cell x, in the order up, down, left, right. */
  method Expand(board: array2<char>, t: char, ghost seeds: seq<Pos>, visited: array2<bool>, x: Pos,
                queue: seq<Pos>, ghost region: set<Pos>, toRemove: seq<Pos>)
    returns (queue': seq<Pos>, ghost region': set<Pos>, toRemove': seq<Pos>)
    requires visited.Length0 == board.Length0 && visited.Length1 == board.Length1
    requires Mirrors(visited, region) && SoundRegion(Snapshot(board), seeds, region)
    requires SoundRecord(Snapshot(board), seeds, t, toRemove)
    requires x in region && forall p :: p in region <==> p in queue
    modifies visited
    ensures Mirrors(visited, region') && SoundRegion(Snapshot(board), seeds, region')
    ensures SoundRecord(Snapshot(board), seeds, t, toRemove')
    ensures forall p :: p in region' <==> p in queue'
    ensures Settled(Snapshot(board), t, x, region', toRemove')
    ensures region <= region' && forall p :: p in toRemove ==> p in toRemove'
    ensures queue <= queue'
    ensures region' == region ==> queue' == queue
    ensures Distinct(queue) ==> Distinct(queue')
  {
    queue', region', toRemove' := queue, region, toRemove;
    var dirs := Neighbours(x);
    for d := 0 to |dirs|
      invariant Mirrors(visited, region') && SoundRegion(Snapshot(board), seeds, region')
      invariant SoundRecord(Snapshot(board), seeds, t, toRemove')
      invariant forall p :: p in region' <==> p in queue'
      invariant HandledUpTo(Snapshot(board), t, x, d, region', toRemove')
      invariant region <= region' && forall p :: p in toRemove ==> p in toRemove'
      invariant queue <= queue'
      invariant region' == region ==> queue' == queue
      invariant Distinct(queue) ==> Distinct(queue')
    {
      queue', region', toRemove' := ExpandStep(board, t, seeds, visited, x, d, queue, region, toRemove,
                                               queue', region', toRemove');
    }
    assert HandledUpTo(Snapshot(board), t, x, 4, region', toRemove');
  }

  /** Handles neighbour d of x, keeping the invariant of the loop of Expand. */
  method ExpandStep(board: array2<char>, t: char, ghost seeds: seq<Pos>, visited: array2<bool>, x: Pos, d: nat,
                    ghost queue0: seq<Pos>, ghost region0: set<Pos>, ghost toRemove0: seq<Pos>,
                    queue: seq<Pos>, ghost region: set<Pos>, toRemove: seq<Pos>)
    returns (queue': seq<Pos>, ghost region': set<Pos>, toRemove': seq<Pos>)
    requires visited.Length0 == board.Length0 && visited.Length1 == board.Length1 && d < 4
    requires Mirrors(visited, region) && SoundRegion(Snapshot(board), seeds, region)
    requires SoundRecord(Snapshot(board), seeds, t, toRemove)
    requires x in region && forall p :: p in region <==> p in queue
    requires HandledUpTo(Snapshot(board), t, x, d, region, toRemove)
    requires region0 <= region && forall p :: p in toRemove0 ==> p in toRemove
    requires queue0 <= queue
    requires region == region0 ==> queue == queue0
    requires Distinct(queue0) ==> Distinct(queue)
    modifies visited
    ensures Mirrors(visited, region') && SoundRegion(Snapshot(board), seeds, region')
    ensures SoundRecord(Snapshot(board), seeds, t, toRemove')
    ensures forall p :: p in region' <==> p in queue'
    ensures HandledUpTo(Snapshot(board), t, x, d + 1, region', toRemove')
    ensures region0 <= region' && forall p :: p in toRemove0 ==> p in toRemove'
    ensures queue0 <= queue'
    ensures region' == region0 ==> queue' == queue0
    ensures Distinct(queue0) ==> Distinct(queue')
  {
    ghost var g := Snapshot(board);
    var nb := Neighbours(x)[d];
    queue', region', toRemove' := Visit(board, t, seeds, visited, x, nb, queue, region, toRemove);
    if region' != region {
      if Distinct(queue0) {
        DistinctAppend(queue, nb);
      }
    }
    if region' == region0 {
      assert region == region0;
    }
    forall e | 0 <= e < d + 1 && e < 4
      ensures Handled(g, t, Neighbours(x)[e], region', toRemove')
    {
      if e < d {
        assert Handled(g, t, Neighbours(x)[e], region, toRemove);
      }
    }
  }

  /** The cells listed in a sequence, as a set. */
  function Members(s: seq<Pos>): set<Pos> {
    if s == [] then {} else Members(s[..|s| - 1]) + {s[|s| - 1]}
  }

  /** No cell is listed twice. */
  predicate Distinct(s: seq<Pos>) {
    s == [] || (Distinct(s[..|s| - 1]) && s[|s| - 1] !in s[..|s| - 1])
  }

  lemma DistinctAppend(s: seq<Pos>, x: Pos)
    requires Distinct(s) && x !in s
    ensures Distinct(s + [x])
  {
    assert (s + [x])[..|s|] == s;
  }

  lemma {:induction false} DistinctMembers(s: seq<Pos>)
    requires Distinct(s)
    ensures |Members(s)| == |s|
  {
    if s != [] {
      var init := s[..|s| - 1];
      DistinctMembers(init);
      MembersIff(init);
      assert s[|s| - 1] !in init;
    }
  }

  lemma {:induction false} MembersIff(s: seq<Pos>)
    ensures forall p :: p in Members(s) <==> p in s
  {
    if s != [] {
      MembersIff(s[..|s| - 1]);
      assert s == s[..|s| - 1] + [s[|s| - 1]];
    }
  }

  /** The start cells, being empty, are reached from themselves. */
  lemma SeedsReached(g: Board, seeds: seq<Pos>)
    requires forall s :: s in seeds ==> InBounds(g, s) && At(g, s) == Empty
    ensures SoundRegion(g, seeds, Members(seeds))
  {
    MembersIff(seeds);
    forall p | p in Members(seeds)
      ensures InBounds(g, p) && At(g, p) == Empty && Reached(g, seeds, p)
    {
      ConnectedItself(g, p);
    }
  }

  /**
   * Once every enqueued cell is settled and the queue covers the visited
   * region, every box of type t next to the reached region has been recorded.
   */
  lemma SearchComplete(g: Board, t: char, seeds: seq<Pos>, region: set<Pos>, queue: seq<Pos>, toRemove: seq<Pos>)
    requires Members(seeds) <= region
    requires forall p :: p in region ==> p in queue
    requires forall k {:trigger Settled(g, t, queue[k], region, toRemove)} :: 0 <= k < |queue| ==> Settled(g, t, queue[k], region, toRemove)
    ensures forall p :: Exposed(g, seeds, t, p) ==> p in toRemove
    ensures forall p :: Reached(g, seeds, p) ==> p in region
  {
    MembersIff(seeds);
    forall v, nb | v in region && nb in Neighbours(v) && InBounds(g, nb) && At(g, nb) == Empty
      ensures nb in region
    {
      var k :| 0 <= k < |queue| && queue[k] == v;
      assert Settled(g, t, queue[k], region, toRemove);
    }
    forall p | Reached(g, seeds, p)
      ensures p in region
    {
      ReachedWithin(g, seeds, region, p);
    }
    forall p | Exposed(g, seeds, t, p)
      ensures p in toRemove
    {
      var q :| q in Neighbours(p) && Reached(g, seeds, q);
      ReachedWithin(g, seeds, region, q);
      var k :| 0 <= k < |queue| && queue[k] == q;
      NeighbourSymmetric(p, q);
      assert Settled(g, t, queue[k], region, toRemove);
    }
  }

  /** What the search settled stays settled as the queue, the visited set and the record grow. */
  lemma SettledKept(g: Board, t: char, queue0: seq<Pos>, visited0: set<Pos>, toRemove0: seq<Pos>,
                    queue: seq<Pos>, visited: set<Pos>, toRemove: seq<Pos>, head: nat)
    requires 0 < head <= |queue0| && queue0 <= queue
    requires forall k {:trigger Settled(g, t, queue0[k], visited0, toRemove0)} :: 0 <= k < head - 1 ==> Settled(g, t, queue0[k], visited0, toRemove0)
    requires Settled(g, t, queue0[head - 1], visited, toRemove)
    requires visited0 <= visited && forall p :: p in toRemove0 ==> p in toRemove
    ensures forall k {:trigger Settled(g, t, queue[k], visited, toRemove)} :: 0 <= k < head ==> Settled(g, t, queue[k], visited, toRemove)
  {
    forall k | 0 <= k < head
      ensures Settled(g, t, queue[k], visited, toRemove)
    {
      assert queue[k] == queue0[k];
      if k < head - 1 {
        SettledGrows(g, t, queue0[k], visited0, toRemove0, visited, toRemove);
      }
    }
  }

  /** Visiting a new cell shrinks the set of unvisited cells. */
  lemma FewerUnvisited(all: set<Pos>, visited0: set<Pos>, visited: set<Pos>)
    requires visited0 <= visited <= all && visited != visited0
    ensures all - visited < all - visited0
  {
    var p :| p in visited && p !in visited0;
    assert p in all - visited0 && p !in all - visited;
  }

  /** A queue without repetitions that lists the visited cells has one entry per cell. */
  lemma QueueCount(queue: seq<Pos>, region: set<Pos>, rows: nat, cols: nat)
    requires Distinct(queue) && region <= AllPositions(rows, cols)
    requires forall p :: p in region <==> p in queue
    ensures |queue| == |region| <= rows * cols
  {
    DistinctMembers(queue);
    MembersIff(queue);
    assert Members(queue) == region;
    CardAllPositions(rows, cols);
    SubsetCard(region, AllPositions(rows, cols));
  }

  /** Marks the seed cells visited on a fresh grid: FloodFill's starting state. */
  method MarkSeeds(visited: array2<bool>, seeds: seq<Pos>) returns (ghost region: set<Pos>)
    requires forall i, j :: 0 <= i < visited.Length0 && 0 <= j < visited.Length1 ==> !visited[i, j]
    requires forall s :: s in seeds ==> 0 <= s.r < visited.Length0 && 0 <= s.c < visited.Length1
    modifies visited
    ensures Mirrors(visited, region) && region == Members(seeds)
  {
    region := {};
    for k := 0 to |seeds|
      invariant Mirrors(visited, region)
      invariant region == Members(seeds[..k])
    {
      var s := seeds[k];
      assert s in seeds;
      visited[s.r, s.c] := true;
      region := region + {s};
      assert seeds[..k + 1][..k] == seeds[..k];
    }
    assert seeds[..|seeds|] == seeds;
  }

  /** The loop invariant of the search, with head the number of cells taken off the queue. */
  ghost predicate Searching(g: Board, seeds: seq<Pos>, t: char, visited: array2<bool>,
                            queue: seq<Pos>, head: int, region: set<Pos>, toRemove: seq<Pos>)
    reads visited
  {
    0 <= head <= |queue| &&
    Mirrors(visited, region) && SoundRegion(g, seeds, region) && SoundRecord(g, seeds, t, toRemove) &&
    Members(seeds) <= region &&
    (forall p :: p in region <==> p in queue) &&
    (Distinct(seeds) ==> Distinct(queue)) &&
    forall k {:trigger Settled(g, t, queue[k], region, toRemove)} :: 0 <= k < head ==> Settled(g, t, queue[k], region, toRemove)
  }

  /** One iteration of the search: takes the next cell off the queue and handles its neighbours. */
  method Advance(board: array2<char>, t: char, ghost seeds: seq<Pos>, visited: array2<bool>,
                 queue: seq<Pos>, head: nat, ghost region: set<Pos>, toRemove: seq<Pos>)
    returns (queue': seq<Pos>, head': nat, ghost region': set<Pos>, toRemove': seq<Pos>)
    requires visited.Length0 == board.Length0 && visited.Length1 == board.Length1
    requires Searching(Snapshot(board), seeds, t, visited, queue, head, region, toRemove) && head < |queue|
    modifies visited
    ensures Searching(Snapshot(board), seeds, t, visited, queue', head', region', toRemove')
    ensures region <= region'
    ensures region' == region ==> queue' == queue && head' == head + 1
  {
    ghost var g := Snapshot(board);
    var x := queue[head];
    assert x in queue;
    head' := head + 1;
    queue', region', toRemove' := Expand(board, t, seeds, visited, x, queue, region, toRemove);
    SettledKept(g, t, queue, region, toRemove, queue', region', toRemove', head');
  }

  /**
   * Breadth-first search over the empty cells of board, starting from the
   * (empty) seed cells. Only empty cells are marked visited and enqueued; a
   * neighbour holding t is recorded and never entered; other boxes block.
   * The board itself is only read. Returns the recorded cells, possibly with
   * repetitions: exactly the cells of type t next to the reached region.
   * The ghost results are the visited cells, which are exactly the empty
   * cells reached from the seeds, and the number of loop iterations, one per
   * visited cell when no seed is listed twice.
   */
  method FloodFill(board: array2<char>, t: char, seeds: seq<Pos>)
    returns (toRemove: seq<Pos>, ghost explored: set<Pos>, ghost steps: nat)
    requires forall s :: s in seeds ==> InBounds(Snapshot(board), s) && At(Snapshot(board), s) == Empty
    ensures forall p :: p in toRemove <==> Exposed(Snapshot(board), seeds, t, p)
    ensures forall p :: p in explored ==> InBounds(Snapshot(board), p) && At(Snapshot(board), p) == Empty
    ensures forall p :: p in explored <==> Reached(Snapshot(board), seeds, p)
    ensures Distinct(seeds) ==> steps == |explored| <= board.Length0 * board.Length1
  {
    ghost var g := Snapshot(board);
    var rows, cols := board.Length0, board.Length1;
    var visited := new bool[rows, cols]((i, j) => false);
    ghost var region := MarkSeeds(visited, seeds);
    SeedsReached(g, seeds);
    MembersIff(seeds);

    var queue := seeds;
    var head := 0;
    toRemove := [];
    while head < |queue|
      invariant visited.Length0 == rows && visited.Length1 == cols
      invariant Searching(g, seeds, t, visited, queue, head, region, toRemove)
      decreases AllPositions(rows, cols) - region, |queue| - head
    {
      ghost var region0 := region;
      queue, head, region, toRemove := Advance(board, t, seeds, visited, queue, head, region, toRemove);
      if region != region0 {
        FewerUnvisited(AllPositions(rows, cols), region0, region);
      }
    }
    SearchComplete(g, t, seeds, region, queue, toRemove);
    explored, steps := region, head;
    if Distinct(seeds) {
      QueueCount(queue, region, rows, cols);
    }
  }
}
