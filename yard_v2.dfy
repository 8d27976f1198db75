/**
 * The corrected second solution: no padding; the search starts from every
 * empty cell on the border of the yard, and border boxes of the requested
 * type are taken directly.
 */
module YardV2 {
  import opened Grid
  import opened Reach
  import Yard

  /** p lies on the outermost row or column of g. */
  predicate OnBorder(g: Board, p: Pos) {
    InBounds(g, p) && (p.r == 0 || p.r == |g| - 1 || p.c == 0 || p.c == |g[p.r]| - 1)
  }

  /** q can be reached over empty cells from an empty border cell. */
  ghost predicate FromBorder(g: Board, q: Pos) {
    exists s :: OnBorder(g, s) && Connected(g, s, q)
  }

  /** A box the forklift can take: of type t, and on the border or next to air reached from it. */
  ghost predicate Accessible(g: Board, t: char, p: Pos) {
    InBounds(g, p) && At(g, p) != Empty && At(g, p) == t &&
    (OnBorder(g, p) || exists q :: q in Neighbours(p) && FromBorder(g, q))
  }

  /** A crane request: every box of type t goes. */
  function CraneAll(g: Board, t: char): (r: Board)
    requires Yard.WellFormed(g)
    ensures Yard.WellFormed(r) && Rectangular(r, |g|, |g[0]|)
  {
    seq(|g|, i requires 0 <= i < |g| =>
      seq(|g[0]|, j requires 0 <= j < |g[0]| => if g[i][j] == t then Empty else g[i][j]))
  }

  /** A forklift request: every accessible box goes, judged on the board before the request. */
  ghost function ForkliftV2(g: Board, t: char): (r: Board)
    requires Yard.WellFormed(g)
    ensures Yard.WellFormed(r) && Rectangular(r, |g|, |g[0]|)
  {
    seq(|g|, i requires 0 <= i < |g| =>
      seq(|g[0]|, j requires 0 <= j < |g[0]| => if Accessible(g, t, Pos(i, j)) then Empty else g[i][j]))
  }

  ghost function ApplyV2(g: Board, request: string): (r: Board)
    requires Yard.WellFormed(g) && |request| > 0
    ensures Yard.WellFormed(r) && Rectangular(r, |g|, |g[0]|)
  {
    if |request| == 2 then CraneAll(g, request[0]) else ForkliftV2(g, request[0])
  }

  ghost function RunV2(g: Board, requests: seq<string>): (r: Board)
    requires Yard.WellFormed(g) && Yard.ValidRequests(requests)
    ensures Yard.WellFormed(r) && Rectangular(r, |g|, |g[0]|)
    decreases |requests|
  {
    if requests == [] then g else RunV2(ApplyV2(g, requests[0]), requests[1..])
  }

  /** What the second solution returns: the boxes left after all requests. */
  ghost function SimulateV2(storage: Board, requests: seq<string>): nat
    requires Yard.WellFormed(storage) && Yard.ValidRequests(requests)
  {
    CountBoxes(RunV2(storage, requests))
  }

  /**
   * The border scan followed by the search finds exactly the accessible boxes:
   * the scan lists the empty border cells as start cells and records the
   * border boxes of type t, and the search adds the boxes next to the air.
   */
  lemma BorderScanThenSearch(g: Board, t: char, seeds: seq<Pos>, border: seq<Pos>, found: seq<Pos>)
    requires Yard.WellFormed(g)
    requires forall p :: p in seeds <==> OnBorder(g, p) && At(g, p) == Empty
    requires forall p :: p in border <==> OnBorder(g, p) && At(g, p) != Empty && At(g, p) == t
    requires forall p :: p in found <==> Exposed(g, seeds, t, p)
    ensures forall p :: p in border + found <==> Accessible(g, t, p)
  {
    forall p
      ensures p in border + found <==> Accessible(g, t, p)
    {
      if Exposed(g, seeds, t, p) {
        var q :| q in Neighbours(p) && Reached(g, seeds, q);
        var s :| s in seeds && Connected(g, s, q);
        assert FromBorder(g, q);
      }
      if Accessible(g, t, p) && !OnBorder(g, p) {
        var q :| q in Neighbours(p) && FromBorder(g, q);
        var s :| OnBorder(g, s) && Connected(g, s, q);
        var path :| EmptyPath(g, path) && path[0] == s && path[|path| - 1] == q;
        assert At(g, path[0]) == Empty;
        assert Reached(g, seeds, q);
      }
    }
  }

  /** The unpadded yard of the second solution. */
  class GridYard {
    const n: nat
    const m: nat
    const grid: array2<char>

    ghost predicate Valid()
      reads this
    {
      n > 0 && grid.Length0 == n && grid.Length1 == m
    }

    ghost function Cells(): Board
      reads this, grid
    {
      Snapshot(grid)
    }

    /** Copies the storage, row by row. */
    constructor (storage: seq<string>)
      requires Yard.WellFormed(storage)
      ensures Valid() && fresh(grid)
      ensures n == |storage| && m == |storage[0]|
      ensures Cells() == storage
    {
      var rows, cols := |storage|, |storage[0]|;
      var a := new char[rows, cols]((i, j) => Empty);
      for i := 0 to rows
        invariant forall x, y :: 0 <= x < rows && 0 <= y < cols ==>
          a[x, y] == if x < i then storage[x][y] else Empty
      {
        for j := 0 to cols
          invariant forall x, y :: 0 <= x < rows && 0 <= y < cols ==>
            a[x, y] == if x < i || (x == i && y < j) then storage[x][y] else Empty
        {
          a[i, j] := storage[i][j];
        }
      }
      n, m, grid := rows, cols, a;
      SameCells(Snapshot(a), storage, rows, cols);
    }

    /** Takes out every box of type t. */
    method CraneRemove(t: char)
      requires Valid()
      modifies grid
      ensures Cells() == CraneAll(old(Cells()), t)
    {
      ghost var before := Cells();
      for i := 0 to n
        invariant forall x, y :: 0 <= x < n && 0 <= y < m ==>
          grid[x, y] == if x < i && before[x][y] == t then Empty else before[x][y]
      {
        for j := 0 to m
          invariant forall x, y :: 0 <= x < n && 0 <= y < m ==>
            grid[x, y] == if (x < i || (x == i && y < j)) && before[x][y] == t then Empty else before[x][y]
        {
          if grid[i, j] == t {
            grid[i, j] := Empty;
          }
        }
      }
      SameCells(Cells(), CraneAll(before, t), n, m);
    }

    /**
     * Scans the border: empty cells become start cells, boxes of type t are
     * recorded. Then searches from the start cells and empties every recorded
     * cell once the search is over.
     */
    method RemoveAccessible(t: char)
      requires Valid()
      modifies grid
      ensures Cells() == ForkliftV2(old(Cells()), t)
    {
      ghost var before := Cells();
      var seeds: seq<Pos> := [];
      var toRemove: seq<Pos> := [];
      for i := 0 to n
        invariant forall p :: p in seeds <==> OnBorder(before, p) && p.r < i && At(before, p) == Empty
        invariant forall p :: p in toRemove <==> OnBorder(before, p) && p.r < i && At(before, p) != Empty && At(before, p) == t
      {
        for j := 0 to m
          invariant forall p :: p in seeds <==>
            OnBorder(before, p) && (p.r < i || (p.r == i && p.c < j)) && At(before, p) == Empty
          invariant forall p :: p in toRemove <==>
            OnBorder(before, p) && (p.r < i || (p.r == i && p.c < j)) && At(before, p) != Empty && At(before, p) == t
        {
          if i == 0 || i == n - 1 || j == 0 || j == m - 1 {
            if grid[i, j] == Empty {
              seeds := seeds + [Pos(i, j)];
            } else if grid[i, j] == t {
              toRemove := toRemove + [Pos(i, j)];
            }
          }
        }
      }
      forall p | p in seeds
        ensures InBounds(before, p) && At(before, p) == Empty
      {
      }
      var found;
      ghost var explored, steps;
      found, explored, steps := FloodFill(grid, t, seeds);
      BorderScanThenSearch(before, t, seeds, toRemove, found);
      toRemove := toRemove + found;
      Relabel(grid, toRemove);
      forall i, j | 0 <= i < n && 0 <= j < m
        ensures Cells()[i][j] == ForkliftV2(before, t)[i][j]
      {
        assert Pos(i, j) in toRemove <==> Accessible(before, t, Pos(i, j));
      }
      SameCells(Cells(), ForkliftV2(before, t), n, m);
    }

    /** Counts the boxes on the whole grid. */
    method Remain() returns (remain: nat)
      requires Valid()
      ensures remain == CountBoxes(Cells())
    {
      remain := CountWindow(grid, 0, n, 0, m);
      SameCells(Window(Cells(), 0, n, 0, m), Cells(), n, m);
    }
  }

  /** Copies the storage, applies the requests in order and counts what is left. */
  method SolutionV2(storage: seq<string>, requests: seq<string>) returns (remain: nat)
    requires Yard.WellFormed(storage) && Yard.ValidRequests(requests)
    ensures remain == SimulateV2(storage, requests)
  {
    var yard := new GridYard(storage);
    for k := 0 to |requests|
      invariant yard.Valid() && Yard.WellFormed(yard.Cells())
      invariant RunV2(yard.Cells(), requests[k..]) == RunV2(storage, requests)
    {
      var request := requests[k];
      assert requests[k..][0] == request && requests[k..][1..] == requests[k + 1..];
      if |request| == 2 {
        yard.CraneRemove(request[0]);
      } else {
        yard.RemoveAccessible(request[0]);
      }
    }
    remain := yard.Remain();
  }
}
