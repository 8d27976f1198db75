/**
 * The padded solution and the border-seeded solution give the same answer:
 * padding the grid turns "reached from an empty border cell" into "reached
 * from the corner", because the whole empty ring is connected to the corner.
 */
module Equivalence {
  import opened Grid
  import opened Reach
  import opened Yard
  import opened YardV2
  import YardFacts

  /** Where a storage cell lands on the padded board. */
  function Shift(q: Pos): Pos {
    Pos(q.r + 1, q.c + 1)
  }

  /** The first and the last row of a board with an empty ring are empty. */
  lemma RowEmpty(b: Board, i: int)
    requires RingEmpty(b) && (i == 0 || i == |b| - 1)
    ensures forall k :: 0 <= k <= |b[0]| - 1 ==> InBounds(b, Pos(i, k)) && At(b, Pos(i, k)) == Empty
  {
    forall k | 0 <= k <= |b[0]| - 1
      ensures InBounds(b, Pos(i, k)) && At(b, Pos(i, k)) == Empty
    {
      assert OnRing(b, i, k);
    }
  }

  /** The first and the last column of a board with an empty ring are empty. */
  lemma ColumnEmpty(b: Board, j: int)
    requires RingEmpty(b) && (j == 0 || j == |b[0]| - 1)
    ensures forall k :: 0 <= k <= |b| - 1 ==> InBounds(b, Pos(k, j)) && At(b, Pos(k, j)) == Empty
  {
    forall k | 0 <= k <= |b| - 1
      ensures InBounds(b, Pos(k, j)) && At(b, Pos(k, j)) == Empty
    {
      assert OnRing(b, k, j);
    }
  }

  /** On a board with an empty ring, every ring cell is reached from the corner. */
  lemma RingReached(b: Board, i: int, j: int)
    requires RingEmpty(b) && OnRing(b, i, j)
    ensures Connected(b, Pos(0, 0), Pos(i, j))
  {
    var lastRow, lastColumn := |b| - 1, |b[0]| - 1;
    if i == 0 {
      RowEmpty(b, 0);
      AlongRow(b, 0, 0, j);
    } else if j == 0 {
      ColumnEmpty(b, 0);
      AlongColumn(b, 0, 0, i);
    } else if i == lastRow {
      ColumnEmpty(b, 0);
      AlongColumn(b, 0, 0, lastRow);
      RowEmpty(b, lastRow);
      AlongRow(b, lastRow, 0, j);
      ConnectedJoin(b, Pos(0, 0), Pos(lastRow, 0), Pos(i, j));
    } else {
      RowEmpty(b, 0);
      AlongRow(b, 0, 0, lastColumn);
      ColumnEmpty(b, lastColumn);
      AlongColumn(b, lastColumn, 0, i);
      ConnectedJoin(b, Pos(0, 0), Pos(0, lastColumn), Pos(i, j));
    }
  }

  /** Where a padded cell comes from in the storage. */
  function Unshift(p: Pos): Pos {
    Pos(p.r - 1, p.c - 1)
  }

  lemma ShiftNeighbour(p: Pos, q: Pos)
    requires q in Neighbours(p)
    ensures Shift(q) in Neighbours(Shift(p)) && Unshift(q) in Neighbours(Unshift(p))
  {
  }

  /** A storage cell keeps its label when shifted onto the padded board. */
  lemma ShiftedCell(g: Board, q: Pos)
    requires WellFormed(g) && InBounds(g, q)
    ensures InBounds(Pad(g), Shift(q)) && Inner(Pad(g), q.r + 1, q.c + 1)
    ensures At(Pad(g), Shift(q)) == At(g, q)
  {
  }

  /** A cell inside the ring comes from a storage cell with the same label. */
  lemma InnerCell(g: Board, p: Pos)
    requires WellFormed(g) && Inner(Pad(g), p.r, p.c)
    ensures InBounds(g, Unshift(p)) && Shift(Unshift(p)) == p
    ensures At(Pad(g), p) == At(g, Unshift(p))
  {
  }

  /** A cell inside the ring next to a ring cell comes from the storage's border. */
  lemma InnerNextToRing(g: Board, w: Pos, p: Pos)
    requires WellFormed(g) && InBounds(Pad(g), w) && !Inner(Pad(g), w.r, w.c)
    requires Inner(Pad(g), p.r, p.c) && p in Neighbours(w)
    ensures OnBorder(g, Unshift(p))
  {
  }

  /** A border cell of the storage lands next to a ring cell of the padded board. */
  lemma RingNeighbour(g: Board, q: Pos) returns (w: Pos)
    requires WellFormed(g) && OnBorder(g, q)
    ensures w in Neighbours(Shift(q)) && OnRing(Pad(g), w.r, w.c)
  {
    var n, m := |g|, |g[0]|;
    if q.r == 0 {
      w := Pos(0, q.c + 1);
    } else if q.r == n - 1 {
      w := Pos(n + 1, q.c + 1);
    } else if q.c == 0 {
      w := Pos(q.r + 1, 0);
    } else {
      w := Pos(q.r + 1, m + 1);
    }
  }

  lemma BorderNextToRing(g: Board, q: Pos) returns (w: Pos)
    requires WellFormed(g) && OnBorder(g, q)
    ensures w in Neighbours(Shift(q)) && Connected(Pad(g), Pos(0, 0), w)
  {
    w := RingNeighbour(g, q);
    RingReached(Pad(g), w.r, w.c);
  }

  /** A path of empty cells of the storage that starts on the border, shifted, is reached from the corner. */
  lemma {:induction false} PushForward(g: Board, path: seq<Pos>, k: int)
    requires WellFormed(g) && EmptyPath(g, path) && OnBorder(g, path[0]) && 0 <= k < |path|
    ensures Connected(Pad(g), Pos(0, 0), Shift(path[k]))
    decreases k
  {
    ShiftedCell(g, path[k]);
    if k == 0 {
      var w := BorderNextToRing(g, path[0]);
      NeighbourSymmetric(Shift(path[0]), w);
      ConnectedStep(Pad(g), Pos(0, 0), w, Shift(path[0]));
    } else {
      PushForward(g, path, k - 1);
      ShiftNeighbour(path[k - 1], path[k]);
      ConnectedStep(Pad(g), Pos(0, 0), Shift(path[k - 1]), Shift(path[k]));
    }
  }

  /** A cell inside the ring that the corner reaches is, shifted back, reached from the storage's border. */
  lemma {:induction false} PullBack(g: Board, path: seq<Pos>, k: int)
    requires WellFormed(g) && EmptyPath(Pad(g), path) && path[0] == Pos(0, 0) && 0 <= k < |path|
    requires Inner(Pad(g), path[k].r, path[k].c)
    ensures FromBorder(g, Unshift(path[k]))
    decreases k
  {
    var q := Unshift(path[k]);
    InnerCell(g, path[k]);
    var prev := path[k - 1];
    if Inner(Pad(g), prev.r, prev.c) {
      PullBack(g, path, k - 1);
      ShiftNeighbour(prev, path[k]);
      var s :| OnBorder(g, s) && Connected(g, s, Unshift(prev));
      ConnectedStep(g, s, Unshift(prev), q);
    } else {
      InnerNextToRing(g, prev, path[k]);
      ConnectedItself(g, q);
    }
  }

  /** A box the border-seeded forklift takes is taken by the padded one too. */
  lemma AccessibleRemovable(g: Board, t: char, q: Pos)
    requires WellFormed(g) && Accessible(g, t, q)
    ensures Removable(Pad(g), t, Shift(q))
  {
    ShiftedCell(g, q);
    var neighbour: Pos;
    if OnBorder(g, q) {
      neighbour := BorderNextToRing(g, q);
    } else {
      var q' :| q' in Neighbours(q) && FromBorder(g, q');
      var s :| OnBorder(g, s) && Connected(g, s, q');
      var path :| EmptyPath(g, path) && path[0] == s && path[|path| - 1] == q';
      PushForward(g, path, |path| - 1);
      ShiftNeighbour(q, q');
      neighbour := Shift(q');
    }
    assert Pos(0, 0) in [Pos(0, 0)];
    assert Reached(Pad(g), [Pos(0, 0)], neighbour);
  }

  /** A box the padded forklift takes inside the ring is taken by the border-seeded one too. */
  lemma RemovableAccessible(g: Board, t: char, p: Pos)
    requires WellFormed(g) && Inner(Pad(g), p.r, p.c) && Removable(Pad(g), t, p)
    ensures Accessible(g, t, Unshift(p))
  {
    InnerCell(g, p);
    var w :| w in Neighbours(p) && Reached(Pad(g), [Pos(0, 0)], w);
    var s :| s in [Pos(0, 0)] && Connected(Pad(g), s, w);
    var path :| EmptyPath(Pad(g), path) && path[0] == s && path[|path| - 1] == w;
    NeighbourSymmetric(p, w);
    if Inner(Pad(g), w.r, w.c) {
      PullBack(g, path, |path| - 1);
      ShiftNeighbour(p, w);
    } else {
      InnerNextToRing(g, w, p);
    }
  }

  /** A storage cell is taken by the border-seeded forklift exactly when its padded cell is taken by the padded one. */
  lemma AccessibleIff(g: Board, t: char, q: Pos)
    requires WellFormed(g) && InBounds(g, q)
    ensures Removable(Pad(g), t, Shift(q)) <==> Accessible(g, t, q)
  {
    ShiftedCell(g, q);
    if Accessible(g, t, q) {
      AccessibleRemovable(g, t, q);
    }
    if Removable(Pad(g), t, Shift(q)) {
      RemovableAccessible(g, t, Shift(q));
      assert Unshift(Shift(q)) == q;
    }
  }

  /** Padding commutes with a crane request. */
  lemma CranePad(g: Board, t: char)
    requires WellFormed(g)
    ensures Crane(Pad(g), t) == Pad(CraneAll(g, t))
  {
    var b, c := Pad(g), CraneAll(g, t);
    var n, m := |g|, |g[0]|;
    forall i, j | 0 <= i < n + 2 && 0 <= j < m + 2
      ensures Crane(b, t)[i][j] == Pad(c)[i][j]
    {
      if Inner(b, i, j) {
        assert Pad(c)[(i - 1) + 1][(j - 1) + 1] == c[i - 1][j - 1];
        assert b[(i - 1) + 1][(j - 1) + 1] == g[i - 1][j - 1];
      } else {
        assert OnRing(b, i, j) && OnRing(Pad(c), i, j);
      }
    }
    SameCells(Crane(b, t), Pad(c), n + 2, m + 2);
  }

  /** One cell of the padded board after a forklift request. */
  lemma ForkliftPadCell(g: Board, t: char, i: int, j: int)
    requires WellFormed(g) && 0 <= i < |g| + 2 && 0 <= j < |g[0]| + 2
    ensures Forklift(Pad(g), t)[i][j] == Pad(ForkliftV2(g, t))[i][j]
  {
    var b, f := Pad(g), ForkliftV2(g, t);
    if Inner(b, i, j) {
      var q := Pos(i - 1, j - 1);
      AccessibleIff(g, t, q);
      assert Shift(q) == Pos(i, j);
      assert Pad(f)[i][j] == f[q.r][q.c];
      assert b[i][j] == g[q.r][q.c];
    } else {
      assert OnRing(b, i, j) && OnRing(Pad(f), i, j);
    }
  }

  /** Padding commutes with a forklift request. */
  lemma ForkliftPad(g: Board, t: char)
    requires WellFormed(g)
    ensures Forklift(Pad(g), t) == Pad(ForkliftV2(g, t))
  {
    var n, m := |g|, |g[0]|;
    forall i, j | 0 <= i < n + 2 && 0 <= j < m + 2
      ensures Forklift(Pad(g), t)[i][j] == Pad(ForkliftV2(g, t))[i][j]
    {
      ForkliftPadCell(g, t, i, j);
    }
    SameCells(Forklift(Pad(g), t), Pad(ForkliftV2(g, t)), n + 2, m + 2);
  }

  /** Padding commutes with any run of requests. */
  lemma {:induction false} RunPad(g: Board, requests: seq<string>)
    requires WellFormed(g) && ValidRequests(requests)
    ensures Run(Pad(g), requests) == Pad(RunV2(g, requests))
    decreases |requests|
  {
    if requests != [] {
      var request := requests[0];
      if |request| == 2 {
        CranePad(g, request[0]);
      } else {
        ForkliftPad(g, request[0]);
      }
      RunPad(ApplyV2(g, request), requests[1..]);
    }
  }

  /** The two solutions return the same number of boxes for every input. */
  lemma SolutionsAgree(storage: Board, requests: seq<string>)
    requires WellFormed(storage) && ValidRequests(requests)
    ensures SimulateV2(storage, requests) == Simulate(storage, requests)
  {
    RunPad(storage, requests);
    YardFacts.InteriorOfPad(RunV2(storage, requests));
  }
}
