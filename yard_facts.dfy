/** Properties of the padded yard's requests and of the final count. */
module YardFacts {
  import opened Grid
  import opened Reach
  import opened Yard

  /** After a crane request for a box type, no cell inside the ring holds that type. */
  lemma CraneClearsType(b: Board, t: char)
    requires Framed(b) && t != Empty
    ensures forall i, j :: 0 <= i < |b| && 0 <= j < |b[0]| && Inner(b, i, j) ==> Crane(b, t)[i][j] != t
  {
  }

  /** A crane request changes only cells holding its type, and empties them; the ring is untouched. */
  lemma CraneChangesOnlyType(b: Board, t: char)
    requires Framed(b)
    ensures Cleared(b, Crane(b, t))
    ensures forall i, j :: 0 <= i < |b| && 0 <= j < |b[0]| && Crane(b, t)[i][j] != b[i][j] ==>
      b[i][j] == t && Crane(b, t)[i][j] == Empty && Inner(b, i, j)
  {
  }

  /** A second crane request for the same type changes nothing. */
  lemma CraneIdempotent(b: Board, t: char)
    requires Framed(b)
    ensures Crane(Crane(b, t), t) == Crane(b, t)
  {
    var once := Crane(b, t);
    SameCells(Crane(once, t), once, |b|, |b[0]|);
  }

  /** A forklift request empties only boxes of its type and changes nothing else. */
  lemma ForkliftChangesOnlyType(b: Board, t: char)
    requires Framed(b)
    ensures Cleared(b, Forklift(b, t))
    ensures forall i, j :: 0 <= i < |b| && 0 <= j < |b[0]| && Forklift(b, t)[i][j] != b[i][j] ==>
      b[i][j] == t && b[i][j] != Empty && Forklift(b, t)[i][j] == Empty
  {
  }

  /** A box whose four neighbours are all boxes (or off the board) is never taken by a forklift. */
  lemma BuriedBoxStays(b: Board, t: char, p: Pos)
    requires Framed(b) && InBounds(b, p)
    requires forall q :: q in Neighbours(p) && InBounds(b, q) ==> At(b, q) != Empty
    ensures Forklift(b, t)[p.r][p.c] == b[p.r][p.c]
  {
  }

  /**
   * A box whose empty neighbours all lie in a sealed pocket (a set of cells
   * without the corner whose empty neighbours stay inside it) is never taken
   * by a forklift: the outside air cannot get into the pocket.
   */
  lemma SealedPocketStays(b: Board, t: char, pocket: set<Pos>, p: Pos)
    requires Framed(b) && InBounds(b, p) && Pos(0, 0) !in pocket
    requires forall v, q :: v in pocket && q in Neighbours(v) && InBounds(b, q) && At(b, q) == Empty ==> q in pocket
    requires forall q :: q in Neighbours(p) && InBounds(b, q) && At(b, q) == Empty ==> q in pocket
    ensures Forklift(b, t)[p.r][p.c] == b[p.r][p.c]
  {
    if Removable(b, t, p) {
      var q :| q in Neighbours(p) && Reached(b, [Pos(0, 0)], q);
      var s :| s in [Pos(0, 0)] && Connected(b, s, q);
      var path :| EmptyPath(b, path) && path[0] == s && path[|path| - 1] == q;
      PathStartWithin(b, path, pocket);
    }
  }

  /** When no box of the type touches the outside air, a forklift request changes nothing. */
  lemma ForkliftWithoutExposedIsNoop(b: Board, t: char)
    requires Framed(b)
    requires forall p :: !Removable(b, t, p)
    ensures Forklift(b, t) == b
  {
    SameCells(Forklift(b, t), b, |b|, |b[0]|);
  }

  /** After a crane request for a type, a second request for that type, of either kind, changes nothing. */
  lemma CraneThenSameType(b: Board, t: char, request: string)
    requires RingEmpty(b) && |request| > 0 && request[0] == t
    ensures Apply(Crane(b, t), request) == Crane(b, t)
  {
    var once := Crane(b, t);
    if |request| == 2 {
      CraneIdempotent(b, t);
    } else {
      forall p | Removable(once, t, p)
        ensures false
      {
        if Inner(b, p.r, p.c) {
          assert false;
        } else {
          assert OnRing(b, p.r, p.c);
          assert false;
        }
      }
      ForkliftWithoutExposedIsNoop(once, t);
    }
  }

  /** Every request only empties cells. */
  lemma RequestOnlyClears(b: Board, request: string)
    requires Framed(b) && |request| > 0
    ensures Cleared(b, Apply(b, request))
  {
    if |request| == 2 {
      CraneChangesOnlyType(b, request[0]);
    } else {
      ForkliftChangesOnlyType(b, request[0]);
    }
  }

  /** Neither kind of request ever raises the number of boxes left. */
  lemma RemainingNeverGrows(b: Board, request: string)
    requires Framed(b) && |request| > 0
    ensures Remaining(Apply(b, request)) <= Remaining(b)
  {
    RequestOnlyClears(b, request);
    InteriorCleared(b, Apply(b, request));
    CountBoxesCleared(Interior(b), Interior(Apply(b, request)));
  }

  /** A run of requests only empties cells. */
  lemma {:induction false} RunOnlyClears(b: Board, requests: seq<string>)
    requires Framed(b) && ValidRequests(requests)
    ensures Cleared(b, Run(b, requests))
    decreases |requests|
  {
    if requests != [] {
      var next := Apply(b, requests[0]);
      RequestOnlyClears(b, requests[0]);
      RunOnlyClears(next, requests[1..]);
      ClearedTransitive(b, next, Run(next, requests[1..]));
    }
  }

  /** The outer ring stays empty whatever requests are applied. */
  lemma {:induction false} RunKeepsRing(b: Board, requests: seq<string>)
    requires RingEmpty(b) && ValidRequests(requests)
    ensures RingEmpty(Run(b, requests))
    decreases |requests|
  {
    if requests != [] {
      if |requests[0]| == 2 {
        CraneKeepsRing(b, requests[0][0]);
      } else {
        ForkliftKeepsRing(b, requests[0][0]);
      }
      RunKeepsRing(Apply(b, requests[0]), requests[1..]);
    }
  }

  /** Applying requests in two batches is the same as applying them all in order. */
  lemma {:induction false} RunConcat(b: Board, first: seq<string>, second: seq<string>)
    requires Framed(b) && ValidRequests(first) && ValidRequests(second)
    ensures ValidRequests(first + second)
    ensures Run(b, first + second) == Run(Run(b, first), second)
    decreases |first|
  {
    if first != [] {
      assert (first + second)[0] == first[0];
      assert (first + second)[1..] == first[1..] + second;
      RunConcat(Apply(b, first[0]), first[1..], second);
    } else {
      assert first + second == second;
    }
  }

  /** Inside the padding lies exactly the storage. */
  lemma InteriorOfPad(storage: Board)
    requires WellFormed(storage)
    ensures Interior(Pad(storage)) == storage
  {
    SameCells(Interior(Pad(storage)), storage, |storage|, |storage[0]|);
  }

  /** With no requests the answer is the number of boxes in the storage. */
  lemma NoRequests(storage: Board)
    requires WellFormed(storage)
    ensures Simulate(storage, []) == CountBoxes(storage)
  {
    InteriorOfPad(storage);
  }

  /** The answer never exceeds the number of boxes the storage starts with. */
  lemma SimulateBounded(storage: Board, requests: seq<string>)
    requires WellFormed(storage) && ValidRequests(requests)
    ensures Simulate(storage, requests) <= CountBoxes(storage)
  {
    var start := Pad(storage);
    RunOnlyClears(start, requests);
    InteriorCleared(start, Run(start, requests));
    CountBoxesCleared(Interior(start), Interior(Run(start, requests)));
    InteriorOfPad(storage);
  }
}
