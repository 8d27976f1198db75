/** Cell labels, coordinates and boards shared by every version of the yard. */
module Grid {
  /** The label of an empty cell; every other character is a box type. */
  const Empty: char := '.'

  /** A cell coordinate: row, then column. */
  datatype Pos = Pos(r: int, c: int)

  /** A board as a sequence of rows of single-character labels. */
  type Board = seq<seq<char>>

  predicate Rectangular(g: Board, rows: nat, cols: nat) {
    |g| == rows && forall i :: 0 <= i < rows ==> |g[i]| == cols
  }

  predicate InBounds(g: Board, p: Pos) {
    0 <= p.r < |g| && 0 <= p.c < |g[p.r]|
  }

  function At(g: Board, p: Pos): char
    requires InBounds(g, p)
  {
    g[p.r][p.c]
  }

  /** The four orthogonal neighbours, in the order up, down, left, right the searches try them. */
  function Neighbours(p: Pos): seq<Pos> {
    [Pos(p.r - 1, p.c), Pos(p.r + 1, p.c), Pos(p.r, p.c - 1), Pos(p.r, p.c + 1)]
  }

  lemma NeighbourSymmetric(p: Pos, q: Pos)
    requires q in Neighbours(p)
    ensures p in Neighbours(q)
  {
  }

  /** Every position of a rows-by-cols board. */
  function AllPositions(rows: nat, cols: nat): set<Pos> {
    set i, j | 0 <= i < rows && 0 <= j < cols :: Pos(i, j)
  }

  /** The positions of row r with a column below cols. */
  function RowPositions(r: int, cols: nat): set<Pos> {
    set j | 0 <= j < cols :: Pos(r, j)
  }

  lemma {:induction false} CardRow(r: int, cols: nat)
    ensures |RowPositions(r, cols)| == cols
    decreases cols
  {
    if cols > 0 {
      CardRow(r, cols - 1);
      assert RowPositions(r, cols) == RowPositions(r, cols - 1) + {Pos(r, cols - 1)};
    }
  }

  /** The last row of a board is disjoint from the rows above it and completes them. */
  lemma SplitLastRow(rows: nat, cols: nat)
    requires rows > 0
    ensures AllPositions(rows, cols) == AllPositions(rows - 1, cols) + RowPositions(rows - 1, cols)
    ensures AllPositions(rows - 1, cols) * RowPositions(rows - 1, cols) == {}
  {
    var before, last := AllPositions(rows - 1, cols), RowPositions(rows - 1, cols);
    assert before * last == {} by {
      forall p | p in last
        ensures p !in before
      {
      }
    }
  }

  lemma DisjointCard(a: set<Pos>, b: set<Pos>)
    requires a * b == {}
    ensures |a + b| == |a| + |b|
  {
  }

  /** A rows-by-cols board has rows * cols positions. */
  lemma {:induction false} CardAllPositions(rows: nat, cols: nat)
    ensures |AllPositions(rows, cols)| == rows * cols
    decreases rows
  {
    if rows > 0 {
      CardAllPositions(rows - 1, cols);
      CardRow(rows - 1, cols);
      SplitLastRow(rows, cols);
      DisjointCard(AllPositions(rows - 1, cols), RowPositions(rows - 1, cols));
      assert (rows - 1) * cols + cols == rows * cols;
    }
  }

  lemma SubsetCard(a: set<Pos>, b: set<Pos>)
    requires a <= b
    ensures |a| <= |b|
  {
    assert b == a + (b - a);
  }

  /** The labels an array currently holds, as a board value. */
  ghost function Snapshot(a: array2<char>): (g: Board)
    reads a
    ensures Rectangular(g, a.Length0, a.Length1)
    ensures forall i, j :: 0 <= i < a.Length0 && 0 <= j < a.Length1 ==> g[i][j] == a[i, j]
  {
    seq(a.Length0, i reads a =>
      seq(a.Length1, j reads a => if 0 <= i < a.Length0 && 0 <= j < a.Length1 then a[i, j] else Empty))
  }

  /** Empties every listed cell of the array, repetitions included, and changes nothing else. */
  method Relabel(a: array2<char>, cells: seq<Pos>)
    requires forall p :: p in cells ==> 0 <= p.r < a.Length0 && 0 <= p.c < a.Length1
    modifies a
    ensures forall x, y :: 0 <= x < a.Length0 && 0 <= y < a.Length1 ==>
      a[x, y] == if Pos(x, y) in cells then Empty else old(a[x, y])
  {
    for k := 0 to |cells|
      invariant forall x, y :: 0 <= x < a.Length0 && 0 <= y < a.Length1 ==>
        a[x, y] == if Pos(x, y) in cells[..k] then Empty else old(a[x, y])
    {
      var p := cells[k];
      assert p in cells;
      a[p.r, p.c] := Empty;
      assert cells[..k + 1] == cells[..k] + [p];
    }
    assert cells[..|cells|] == cells;
  }

  /** Two boards of the same shape that agree cell by cell are equal. */
  lemma SameCells(a: Board, b: Board, rows: nat, cols: nat)
    requires Rectangular(a, rows, cols) && Rectangular(b, rows, cols)
    requires forall i, j :: 0 <= i < rows && 0 <= j < cols ==> a[i][j] == b[i][j]
    ensures a == b
  {
    forall i | 0 <= i < rows
      ensures a[i] == b[i]
    {
      assert forall j :: 0 <= j < cols ==> a[i][j] == b[i][j];
    }
  }

  /** b arises from a by emptying some cells and changing nothing else. */
  predicate Cleared(a: Board, b: Board) {
    |a| == |b| &&
    forall i :: 0 <= i < |a| ==>
      |a[i]| == |b[i]| && forall j :: 0 <= j < |a[i]| ==> b[i][j] == a[i][j] || b[i][j] == Empty
  }

  lemma ClearedTransitive(a: Board, b: Board, c: Board)
    requires Cleared(a, b) && Cleared(b, c)
    ensures Cleared(a, c)
  {
  }

  /** Number of non-empty labels in a row. */
  function CountNonEmpty(s: seq<char>): nat {
    if s == [] then 0
    else CountNonEmpty(s[..|s| - 1]) + (if s[|s| - 1] != Empty then 1 else 0)
  }

  /** Number of non-empty labels on a board. */
  function CountBoxes(g: Board): nat {
    if g == [] then 0 else CountBoxes(g[..|g| - 1]) + CountNonEmpty(g[|g| - 1])
  }

  lemma {:induction false} CountNonEmptyBounded(s: seq<char>)
    ensures CountNonEmpty(s) <= |s|
    ensures CountNonEmpty(s) == 0 <==> forall j :: 0 <= j < |s| ==> s[j] == Empty
  {
    if s != [] {
      var init := s[..|s| - 1];
      CountNonEmptyBounded(init);
      assert forall j :: 0 <= j < |init| ==> init[j] == s[j];
    }
  }

  /** Emptying cells of a row never raises its count. */
  lemma {:induction false} CountNonEmptyCleared(s: seq<char>, t: seq<char>)
    requires |s| == |t|
    requires forall j :: 0 <= j < |s| ==> t[j] == s[j] || t[j] == Empty
    ensures CountNonEmpty(t) <= CountNonEmpty(s)
  {
    if s != [] {
      CountNonEmptyCleared(s[..|s| - 1], t[..|t| - 1]);
    }
  }

  /** Emptying cells of a board never raises its count. */
  lemma {:induction false} CountBoxesCleared(a: Board, b: Board)
    requires Cleared(a, b)
    ensures CountBoxes(b) <= CountBoxes(a)
  {
    if a != [] {
      var k := |a| - 1;
      CountBoxesCleared(a[..k], b[..k]);
      CountNonEmptyCleared(a[k], b[k]);
    }
  }

  /** A board holds no box exactly when every cell is empty. */
  lemma {:induction false} CountBoxesZero(g: Board)
    ensures CountBoxes(g) == 0 <==> forall i, j :: 0 <= i < |g| && 0 <= j < |g[i]| ==> g[i][j] == Empty
  {
    if g != [] {
      var k := |g| - 1;
      CountBoxesZero(g[..k]);
      CountNonEmptyBounded(g[k]);
      assert forall i :: 0 <= i < k ==> g[..k][i] == g[i];
    }
  }

  /** The rectangle of g with rows r0 to r1 and columns c0 to c1, upper ends excluded. */
  function Window(g: Board, r0: nat, r1: nat, c0: nat, c1: nat): (w: Board)
    requires r0 <= r1 <= |g| && c0 <= c1
    requires forall i :: 0 <= i < |g| ==> c1 <= |g[i]|
    ensures Rectangular(w, r1 - r0, c1 - c0)
    ensures forall i :: r0 <= i < r1 ==> w[i - r0] == g[i][c0..c1]
    ensures forall i, j :: r0 <= i < r1 && c0 <= j < c1 ==> w[i - r0][j - c0] == g[i][j]
  {
    seq(r1 - r0, i requires 0 <= i < r1 - r0 => g[r0 + i][c0..c1])
  }

  /** The board with its outer ring of cells dropped. */
  function Interior(g: Board): (r: Board)
    requires |g| >= 2 && Rectangular(g, |g|, |g[0]|) && |g[0]| >= 2
    ensures Rectangular(r, |g| - 2, |g[0]| - 2)
    ensures forall i, j :: 0 <= i < |g| - 2 && 0 <= j < |g[0]| - 2 ==> r[i][j] == g[i + 1][j + 1]
  {
    Window(g, 1, |g| - 1, 1, |g[0]| - 1)
  }

  /** Counts the non-empty cells of row i of the array in columns c0 to c1. */
  method CountRow(a: array2<char>, i: nat, c0: nat, c1: nat) returns (count: nat)
    requires i < a.Length0 && c0 <= c1 <= a.Length1
    ensures count == CountNonEmpty(Snapshot(a)[i][c0..c1])
  {
    ghost var row := Snapshot(a)[i][c0..c1];
    count := 0;
    for j := c0 to c1
      invariant count == CountNonEmpty(row[..j - c0])
    {
      assert row[j - c0] == a[i, j];
      CountNonEmptyPrefix(row, j - c0);
      if a[i, j] != Empty {
        count := count + 1;
      }
    }
    assert row[..c1 - c0] == row;
  }

  /**
   * Counts the non-empty cells of the array in rows r0 to r1 and columns c0
   * to c1, row by row.
   */
  method CountWindow(a: array2<char>, r0: nat, r1: nat, c0: nat, c1: nat) returns (count: nat)
    requires r0 <= r1 <= a.Length0 && c0 <= c1 <= a.Length1
    ensures count == CountBoxes(Window(Snapshot(a), r0, r1, c0, c1))
  {
    ghost var g := Snapshot(a);
    ghost var w := Window(g, r0, r1, c0, c1);
    count := 0;
    for i := r0 to r1
      invariant count == CountBoxes(w[..i - r0])
    {
      var inRow := CountRow(a, i, c0, c1);
      assert w[i - r0] == g[i][c0..c1];
      CountBoxesPrefix(w, i - r0);
      count := count + inRow;
    }
    assert w[..r1 - r0] == w;
  }

  lemma CountNonEmptyPrefix(s: seq<char>, k: int)
    requires 0 <= k < |s|
    ensures CountNonEmpty(s[..k + 1]) == CountNonEmpty(s[..k]) + (if s[k] != Empty then 1 else 0)
  {
    assert s[..k + 1][..k] == s[..k];
  }

  lemma CountBoxesPrefix(g: Board, k: int)
    requires 0 <= k < |g|
    ensures CountBoxes(g[..k + 1]) == CountBoxes(g[..k]) + CountNonEmpty(g[k])
  {
    assert g[..k + 1][..k] == g[..k];
  }

  lemma InteriorCleared(a: Board, b: Board)
    requires |a| >= 2 && Rectangular(a, |a|, |a[0]|) && |a[0]| >= 2
    requires Cleared(a, b)
    ensures |b| >= 2 && Rectangular(b, |b|, |b[0]|) && |b[0]| >= 2
    ensures Cleared(Interior(a), Interior(b))
  {
  }
}
