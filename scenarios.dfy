/** Whole-run outcomes for yards of a simple shape, and two concrete yards. */
module Scenarios {
  import opened Grid
  import opened Yard
  import opened YardV2
  import Equivalence

  /** A crane request for t leaves nothing when every box of the storage is of type t. */
  lemma CraneOfOnlyType(storage: Board, request: string)
    requires WellFormed(storage) && |request| == 2
    requires forall i, j :: 0 <= i < |storage| && 0 <= j < |storage[0]| ==>
      storage[i][j] == Empty || storage[i][j] == request[0]
    ensures Simulate(storage, [request]) == 0
  {
    var b := Pad(storage);
    assert [request][1..] == [];
    var r := Crane(b, request[0]);
    assert Run(b, [request]) == r;
    var inside := Interior(r);
    forall i, j | 0 <= i < |inside| && 0 <= j < |inside[i]|
      ensures inside[i][j] == Empty
    {
      assert inside[i][j] == r[i + 1][j + 1];
      assert b[i + 1][j + 1] == storage[i][j];
    }
    CountBoxesZero(inside);
  }

  /** A forklift request for t leaves nothing when every box of the storage is of type t and on its border. */
  lemma ForkliftOfBorderType(storage: Board, request: string)
    requires WellFormed(storage) && |request| > 0 && |request| != 2 && request[0] != Empty
    requires forall i, j :: 0 <= i < |storage| && 0 <= j < |storage[0]| && storage[i][j] != Empty ==>
      storage[i][j] == request[0] && OnBorder(storage, Pos(i, j))
    ensures Simulate(storage, [request]) == 0
  {
    var t := request[0];
    Equivalence.SolutionsAgree(storage, [request]);
    assert [request][1..] == [];
    var r := ForkliftV2(storage, t);
    assert RunV2(storage, [request]) == r;
    forall i, j | 0 <= i < |r| && 0 <= j < |r[i]|
      ensures r[i][j] == Empty
    {
      if storage[i][j] != Empty {
        assert Accessible(storage, t, Pos(i, j));
      }
    }
    CountBoxesZero(r);
  }

  /** The yard "..X.." / ".XXX." / "..X.." is emptied by one crane request for X. */
  lemma CraneClearsCross()
    ensures Simulate(["..X..", ".XXX.", "..X.."], ["XX"]) == 0
  {
    var storage := ["..X..", ".XXX.", "..X.."];
    assert WellFormed(storage);
    CraneOfOnlyType(storage, "XX");
  }

  /** The yard "X.X" / "..." / "X.X" is emptied by one forklift request for X. */
  lemma ForkliftClearsCorners()
    ensures Simulate(["X.X", "...", "X.X"], ["X"]) == 0
  {
    var storage := ["X.X", "...", "X.X"];
    assert WellFormed(storage);
    ForkliftOfBorderType(storage, "X");
  }
}
