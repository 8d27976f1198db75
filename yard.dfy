/**
 * The recommended solution: the yard is surrounded by one ring of empty
 * cells, so a single search from the corner (0, 0) finds all the outside air.
 */
module Yard {
  import opened Grid
  import opened Reach

  /** The input the solution expects: at least one row, all rows of one length. */
  predicate WellFormed(storage: Board) {
    |storage| > 0 && Rectangular(storage, |storage|, |storage[0]|)
  }

  /** A rectangular board with room for an outer ring. */
  predicate Framed(b: Board) {
    |b| >= 2 && Rectangular(b, |b|, |b[0]|) && |b[0]| >= 2
  }

  predicate OnRing(b: Board, i: int, j: int)
    requires Framed(b)
  {
    0 <= i < |b| && 0 <= j < |b[0]| && (i == 0 || i == |b| - 1 || j == 0 || j == |b[0]| - 1)
  }

  predicate Inner(b: Board, i: int, j: int)
    requires Framed(b)
  {
    0 < i < |b| - 1 && 0 < j < |b[0]| - 1
  }

  /** Every cell of the outer ring is empty. */
  predicate RingEmpty(b: Board) {
    Framed(b) && forall i, j :: 0 <= i < |b| && 0 <= j < |b[0]| && OnRing(b, i, j) ==> b[i][j] == Empty
  }

  /** The storage surrounded by one ring of empty cells. */
  function Pad(storage: Board): (b: Board)
    requires WellFormed(storage)
    ensures Rectangular(b, |storage| + 2, |storage[0]| + 2)
    ensures RingEmpty(b)
    ensures forall i, j :: 1 <= i <= |storage| && 1 <= j <= |storage[0]| ==> b[i][j] == storage[i - 1][j - 1]
  {
    var n, m := |storage|, |storage[0]|;
    seq(n + 2, i =>
      seq(m + 2, j => if 1 <= i <= n && 1 <= j <= m then storage[i - 1][j - 1] else Empty))
  }

  /** A crane request: every box of type t inside the ring is taken out. */
  function Crane(b: Board, t: char): (r: Board)
    requires Framed(b)
    ensures Framed(r) && Rectangular(r, |b|, |b[0]|)
  {
    seq(|b|, i requires 0 <= i < |b| =>
      seq(|b[0]|, j requires 0 <= j < |b[0]| =>
        if Inner(b, i, j) && b[i][j] == t then Empty else b[i][j]))
  }

  /** A box the forklift can take: of type t and next to the air reached from the corner. */
  ghost predicate Removable(b: Board, t: char, p: Pos) {
    Exposed(b, [Pos(0, 0)], t, p)
  }

  /** A forklift request: every removable box goes, all at once, judged on the board before the request. */
  ghost function Forklift(b: Board, t: char): (r: Board)
    requires Framed(b)
    ensures Framed(r) && Rectangular(r, |b|, |b[0]|)
  {
    seq(|b|, i requires 0 <= i < |b| =>
      seq(|b[0]|, j requires 0 <= j < |b[0]| =>
        if Removable(b, t, Pos(i, j)) then Empty else b[i][j]))
  }

  /** Every request names its box type in its first character. */
  predicate ValidRequests(requests: seq<string>) {
    forall k :: 0 <= k < |requests| ==> |requests[k]| > 0
  }

  /** A request of length two is a crane request, any other a forklift request. */
  ghost function Apply(b: Board, request: string): (r: Board)
    requires Framed(b) && |request| > 0
    ensures Framed(r) && Rectangular(r, |b|, |b[0]|)
  {
    if |request| == 2 then Crane(b, request[0]) else Forklift(b, request[0])
  }

  /** The requests applied one after another, in order. */
  ghost function Run(b: Board, requests: seq<string>): (r: Board)
    requires Framed(b) && ValidRequests(requests)
    ensures Framed(r) && Rectangular(r, |b|, |b[0]|)
    decreases |requests|
  {
    if requests == [] then b else Run(Apply(b, requests[0]), requests[1..])
  }

  /** The number of boxes inside the ring. */
  function Remaining(b: Board): nat
    requires Framed(b)
  {
    CountBoxes(Interior(b))
  }

  /** What the solution returns: the boxes left after all requests. */
  ghost function Simulate(storage: Board, requests: seq<string>): nat
    requires WellFormed(storage) && ValidRequests(requests)
  {
    Remaining(Run(Pad(storage), requests))
  }

  lemma CraneKeepsRing(b: Board, t: char)
    requires RingEmpty(b)
    ensures RingEmpty(Crane(b, t))
  {
  }

  /** The forklift only takes boxes, and the ring holds none. */
  lemma ForkliftKeepsRing(b: Board, t: char)
    requires RingEmpty(b)
    ensures RingEmpty(Forklift(b, t))
  {
    var r := Forklift(b, t);
    forall i, j | OnRing(r, i, j)
      ensures r[i][j] == Empty
    {
      assert OnRing(b, i, j);
    }
  }

  /** The padded yard: a board of labels whose outer ring stays empty. */
  class Yard {
    const n: nat
    const m: nat
    const board: array2<char>

    ghost predicate Valid()
      reads this, board
    {
      board.Length0 == n + 2 && board.Length1 == m + 2 && RingEmpty(Snapshot(board))
    }

    ghost function Cells(): Board
      reads this, board
    {
      Snapshot(board)
    }

    /** Builds the (n+2) x (m+2) board, empty on the ring, with storage inside. */
    constructor (storage: seq<string>)
      requires WellFormed(storage)
      ensures Valid() && fresh(board)
      ensures n == |storage| && m == |storage[0]|
      ensures Cells() == Pad(storage)
    {
      var rows, cols := |storage|, |storage[0]|;
      var b := new char[rows + 2, cols + 2]((i, j) => Empty);
      for i := 0 to rows
        invariant forall x, y :: 0 <= x < rows + 2 && 0 <= y < cols + 2 ==>
          b[x, y] == if 1 <= x <= i && 1 <= y <= cols then storage[x - 1][y - 1] else Empty
      {
        for j := 0 to cols
          invariant forall x, y :: 0 <= x < rows + 2 && 0 <= y < cols + 2 ==>
            b[x, y] == if (1 <= x <= i && 1 <= y <= cols) || (x == i + 1 && 1 <= y <= j) then storage[x - 1][y - 1] else Empty
        {
          b[i + 1, j + 1] := storage[i][j];
        }
      }
      n, m, board := rows, cols, b;
      SameCells(Snapshot(b), Pad(storage), rows + 2, cols + 2);
    }

    /** Takes out every box of type t inside the ring. */
    method CraneRemove(t: char)
      requires Valid()
      modifies board
      ensures Valid()
      ensures Cells() == Crane(old(Cells()), t)
    {
      ghost var before := Cells();
      for i := 1 to n + 1
        invariant forall x, y :: 0 <= x < n + 2 && 0 <= y < m + 2 ==>
          board[x, y] == if 1 <= x < i && 1 <= y <= m && before[x][y] == t then Empty else before[x][y]
      {
        for j := 1 to m + 1
          invariant forall x, y :: 0 <= x < n + 2 && 0 <= y < m + 2 ==>
            board[x, y] == if ((1 <= x < i && 1 <= y <= m) || (x == i && 1 <= y < j)) && before[x][y] == t then Empty else before[x][y]
        {
          if board[i, j] == t {
            board[i, j] := Empty;
          }
        }
      }
      SameCells(Cells(), Crane(before, t), n + 2, m + 2);
      CraneKeepsRing(before, t);
    }

    /**
     * Searches the outside air from the corner, then empties every recorded
     * cell; nothing is emptied while the search runs.
     */
    method ForkliftRemove(t: char)
      requires Valid()
      modifies board
      ensures Valid()
      ensures Cells() == Forklift(old(Cells()), t)
    {
      ghost var before := Cells();
      assert OnRing(before, 0, 0);
      var toRemove;
      ghost var explored, steps;
      toRemove, explored, steps := FloodFill(board, t, [Pos(0, 0)]);
      assert forall p :: p in toRemove <==> Removable(before, t, p);
      Relabel(board, toRemove);
      forall i, j | 0 <= i < n + 2 && 0 <= j < m + 2
        ensures Cells()[i][j] == Forklift(before, t)[i][j]
      {
        assert Pos(i, j) in toRemove <==> Removable(before, t, Pos(i, j));
      }
      SameCells(Cells(), Forklift(before, t), n + 2, m + 2);
      ForkliftKeepsRing(before, t);
    }

    /** Counts the boxes inside the ring. */
    method Remain() returns (remain: nat)
      requires Valid()
      ensures remain == Remaining(Cells())
    {
      ghost var g := Cells();
      assert |g| == board.Length0 && |g[0]| == board.Length1;
      remain := CountWindow(board, 1, board.Length0 - 1, 1, board.Length1 - 1);
    }
  }

  /** Builds the padded yard, applies the requests in order and counts what is left. */
  method Solution(storage: seq<string>, requests: seq<string>) returns (remain: nat)
    requires WellFormed(storage) && ValidRequests(requests)
    ensures remain == Simulate(storage, requests)
  {
    var yard := new Yard(storage);
    for k := 0 to |requests|
      invariant yard.Valid()
      invariant Run(yard.Cells(), requests[k..]) == Run(Pad(storage), requests)
    {
      var request := requests[k];
      var target := request[0];
      assert requests[k..][0] == request && requests[k..][1..] == requests[k + 1..];
      if |request| == 2 {
        yard.CraneRemove(target);
      } else {
        yard.ForkliftRemove(target);
      }
    }
    remain := yard.Remain();
  }
}
