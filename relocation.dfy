/**
 * The relocation policy of `moveAgents` and the step it makes: every unhappy
 * agent takes the first location, among its random draws, that it would be
 * happy at, judged against the snapshot from before anyone moves.
 */
module Relocation {
  import opened Wrappers
  import opened Agents
  import opened Counting
  import opened Happiness

  /** A neighbourhood size that `ns[:n]` accepts for every agent of a population of `na`. */
  predicate Fits(na: int, n: int)
  {
    na == 0 || 0 <= n < na
  }

  /** Agent `idx` accepts location `p`: it would be happy there, judged against `s`. */
  predicate Accepts(s: Snapshot, idx: int, p: Point, n: int, k: int)
    requires 0 <= idx < |s| && Fits(|s|, n)
  {
    HappyAt(s, idx, p, s[idx].t, n, k)
  }

  /**
   * The rejection-sampling loop run on a finite stream of draws: the index of
   * the first draw at or after `m` that the agent accepts, or `|stream|` if
   * none is.
   */
  function FirstAcceptedFrom(s: Snapshot, idx: int, stream: seq<Point>, n: int, k: int, m: nat): (r: nat)
    requires 0 <= idx < |s| && Fits(|s|, n)
    requires m <= |stream|
    ensures m <= r <= |stream|
    ensures r < |stream| ==> Accepts(s, idx, stream[r], n, k)
    ensures forall j :: m <= j < r ==> !Accepts(s, idx, stream[j], n, k)
    decreases |stream| - m
  {
    if m == |stream| then m
    else if Accepts(s, idx, stream[m], n, k) then m
    else FirstAcceptedFrom(s, idx, stream, n, k, m + 1)
  }

  /** The location the rejection loop settles on, or None when the stream holds no acceptable draw. */
  function FirstAccepted(s: Snapshot, idx: int, stream: seq<Point>, n: int, k: int): (r: Option<Point>)
    requires 0 <= idx < |s| && Fits(|s|, n)
    ensures r.Some? ==> r.value in stream && Accepts(s, idx, r.value, n, k)
  {
    var m := FirstAcceptedFrom(s, idx, stream, n, k, 0);
    if m < |stream| then Some(stream[m]) else None
  }

  /** The search fails exactly when no draw of the stream is acceptable. */
  lemma NoAcceptableDraw(s: Snapshot, idx: int, stream: seq<Point>, n: int, k: int)
    requires 0 <= idx < |s| && Fits(|s|, n)
    ensures FirstAccepted(s, idx, stream, n, k).None? <==>
      forall j :: 0 <= j < |stream| ==> !Accepts(s, idx, stream[j], n, k)
  {
  }

  /** The indices `unhappyAgents` reports. */
  function UnhappySet(s: Snapshot, n: int, k: int): (u: set<int>)
    requires Fits(|s|, n)
    ensures forall i :: i in u ==> 0 <= i < |s|
  {
    set i | 0 <= i < |s| && !Happy(s, i, n, k)
  }

  /** Each agent's verdict, in index order. */
  function Verdicts(s: Snapshot, n: int, k: int): (v: seq<bool>)
    requires Fits(|s|, n)
    ensures |v| == |s| && forall i :: 0 <= i < |s| ==> v[i] == Happy(s, i, n, k)
  {
    seq(|s|, i requires 0 <= i < |s| => Happy(s, i, n, k))
  }

  /** The indices below `j` whose verdict is false, in ascending order. */
  function Rejected(v: seq<bool>, j: nat): seq<int>
    requires j <= |v|
  {
    if j == 0 then []
    else Rejected(v, j - 1) + (if v[j - 1] then [] else [j - 1])
  }

  /** `Rejected` names each index below `j` with a false verdict once, and no other index. */
  lemma {:induction false} RejectedLists(v: seq<bool>, j: nat)
    requires j <= |v|
    ensures Distinct(Rejected(v, j))
    ensures forall a :: 0 <= a < |Rejected(v, j)| ==> 0 <= Rejected(v, j)[a] < j
    ensures forall i :: 0 <= i < j ==> (i in Rejected(v, j) <==> !v[i])
  {
    if j > 0 {
      RejectedLists(v, j - 1);
    }
  }

  /** A list holding exactly the unhappy agents names the set of unhappy agents. */
  lemma ListsUnhappySet(s: Snapshot, indices: seq<int>, n: int, k: int)
    requires Fits(|s|, n)
    requires forall j :: 0 <= j < |indices| ==> 0 <= indices[j] < |s|
    requires forall i :: 0 <= i < |s| ==> (i in indices <==> !Happy(s, i, n, k))
    ensures Members(indices) == UnhappySet(s, n, k)
  {
    assert forall i :: i in Members(indices) <==> i in UnhappySet(s, n, k);
  }

  /** The rejected indices of the whole population are exactly the unhappy agents, each once. */
  lemma RejectedAreUnhappy(s: Snapshot, indices: seq<int>, n: int, k: int)
    requires Fits(|s|, n)
    requires indices == Rejected(Verdicts(s, n, k), |s|)
    ensures Distinct(indices)
    ensures forall j :: 0 <= j < |indices| ==> 0 <= indices[j] < |s|
    ensures forall i :: 0 <= i < |s| ==> (i in indices <==> !Happy(s, i, n, k))
    ensures Members(indices) == UnhappySet(s, n, k)
  {
    var v := Verdicts(s, n, k);
    RejectedLists(v, |s|);
    assert forall i :: 0 <= i < |s| ==> v[i] == Happy(s, i, n, k);
    ListsUnhappySet(s, indices, n, k);
  }

  predicate AllHappy(s: Snapshot, n: int, k: int)
    requires Fits(|s|, n)
  {
    forall i :: 0 <= i < |s| ==> Happy(s, i, n, k)
  }

  /** The agents named in a list of indices. */
  function Members(u: seq<int>): set<int>
  {
    set j | 0 <= j < |u| :: u[j]
  }

  /** Every mover finds an acceptable location in its own stream of draws. */
  predicate CanRelocate(s: Snapshot, movers: set<int>, n: int, k: int, draws: nat -> seq<Point>)
    requires Fits(|s|, n)
    requires forall i :: i in movers ==> 0 <= i < |s|
  {
    forall i :: i in movers ==> FirstAccepted(s, i, draws(i), n, k).Some?
  }

  /** The population after every mover has been placed at its accepted location. */
  function Relocated(s: Snapshot, movers: set<int>, n: int, k: int, draws: nat -> seq<Point>): (r: Snapshot)
    requires Fits(|s|, n)
    requires forall i :: i in movers ==> 0 <= i < |s|
    requires CanRelocate(s, movers, n, k, draws)
    ensures |r| == |s|
  {
    seq(|s|, i requires 0 <= i < |s| =>
      if i in movers then s[i].MovedTo(FirstAccepted(s, i, draws(i), n, k).value) else s[i])
  }

  /**
   * After relocation every mover sits at one of its own draws that it
   * accepts, everybody else is where they were, and nobody changes type.
   */
  lemma RelocatedPlaces(s: Snapshot, movers: set<int>, n: int, k: int, draws: nat -> seq<Point>)
    requires Fits(|s|, n)
    requires forall i :: i in movers ==> 0 <= i < |s|
    requires CanRelocate(s, movers, n, k, draws)
    ensures Types(Relocated(s, movers, n, k, draws)) == Types(s)
    ensures forall i :: 0 <= i < |s| && i !in movers ==> Relocated(s, movers, n, k, draws)[i] == s[i]
    ensures forall i :: 0 <= i < |s| && i in movers ==>
      Relocated(s, movers, n, k, draws)[i].Position() in draws(i)
      && Accepts(s, i, Relocated(s, movers, n, k, draws)[i].Position(), n, k)
  {
    var r := Relocated(s, movers, n, k, draws);
    assert forall i :: 0 <= i < |s| ==> r[i].t == s[i].t;
    assert Types(r) == Types(s);
  }

  /** A location found for every listed agent means every member can relocate. */
  lemma FoundForEach(s0: Snapshot, unhappy: seq<int>, locs: seq<Point>, n: int, k: int, draws: nat -> seq<Point>)
    requires Fits(|s0|, n)
    requires |locs| == |unhappy|
    requires forall a :: 0 <= a < |unhappy| ==> 0 <= unhappy[a] < |s0|
    requires forall a :: 0 <= a < |unhappy| ==> FirstAccepted(s0, unhappy[a], draws(unhappy[a]), n, k) == Some(locs[a])
    ensures CanRelocate(s0, Members(unhappy), n, k, draws)
  {
    forall i | i in Members(unhappy)
      ensures FirstAccepted(s0, i, draws(i), n, k).Some?
    {
      var a :| 0 <= a < |unhappy| && unhappy[a] == i;
    }
  }

  /** Some unhappy agent of `s` finds no location it accepts among its draws. */
  predicate Stuck(s: Snapshot, n: int, k: int, draws: nat -> seq<Point>)
    requires Fits(|s|, n)
  {
    exists i :: 0 <= i < |s| && !Happy(s, i, n, k)
      && forall j :: 0 <= j < |draws(i)| ==> !Accepts(s, i, draws(i)[j], n, k)
  }

  /** One listed agent with no acceptable draw is enough to stop the relocation. */
  lemma StuckMover(s0: Snapshot, unhappy: seq<int>, j: int, n: int, k: int, draws: nat -> seq<Point>)
    requires Fits(|s0|, n)
    requires forall a :: 0 <= a < |unhappy| ==> 0 <= unhappy[a] < |s0|
    requires 0 <= j < |unhappy|
    requires FirstAccepted(s0, unhappy[j], draws(unhappy[j]), n, k).None?
    ensures !CanRelocate(s0, Members(unhappy), n, k, draws)
  {
    assert unhappy[j] in Members(unhappy);
  }

  lemma RelocatedByWrites(s0: Snapshot, s1: Snapshot, unhappy: seq<int>, locs: seq<Point>, n: int, k: int, draws: nat -> seq<Point>)
    requires Fits(|s0|, n)
    requires |s1| == |s0| && |locs| == |unhappy|
    requires forall a :: 0 <= a < |unhappy| ==> 0 <= unhappy[a] < |s0|
    requires forall a :: 0 <= a < |unhappy| ==> FirstAccepted(s0, unhappy[a], draws(unhappy[a]), n, k) == Some(locs[a])
    requires forall a :: 0 <= a < |unhappy| ==> s1[unhappy[a]] == s0[unhappy[a]].MovedTo(locs[a])
    requires forall i :: 0 <= i < |s0| && i !in unhappy ==> s1[i] == s0[i]
    ensures CanRelocate(s0, Members(unhappy), n, k, draws)
    ensures s1 == Relocated(s0, Members(unhappy), n, k, draws)
  {
    FoundForEach(s0, unhappy, locs, n, k, draws);
    var r := Relocated(s0, Members(unhappy), n, k, draws);
    forall i | 0 <= i < |s0|
      ensures s1[i] == r[i]
    {
      if i in Members(unhappy) {
        var a :| 0 <= a < |unhappy| && unhappy[a] == i;
      }
    }
  }

  /**
   * One iteration of the kernel on snapshot `s`: the unhappy agents move to
   * the locations they accept, all judged against `s`. None when some unhappy
   * agent's draws hold no acceptable location, so that the kernel's rejection
   * loop would still be sampling.
   */
  function Step(s: Snapshot, n: int, k: int, draws: nat -> seq<Point>): (r: Option<Snapshot>)
    requires Fits(|s|, n)
    ensures r.Some? ==> |r.value| == |s|
  {
    var u := UnhappySet(s, n, k);
    if CanRelocate(s, u, n, k, draws) then Some(Relocated(s, u, n, k, draws)) else None
  }

  /**
   * What a step does: nobody changes type, the happy agents stay where they
   * are, and each unhappy agent moves to one of its own draws that it accepts.
   */
  lemma StepMoves(s: Snapshot, n: int, k: int, draws: nat -> seq<Point>)
    requires Fits(|s|, n)
    ensures Step(s, n, k, draws).Some? ==> Types(Step(s, n, k, draws).value) == Types(s)
    ensures Step(s, n, k, draws).Some? ==> forall i :: 0 <= i < |s| && Happy(s, i, n, k) ==>
      Step(s, n, k, draws).value[i] == s[i]
    ensures Step(s, n, k, draws).Some? ==> forall i :: 0 <= i < |s| && !Happy(s, i, n, k) ==>
      Step(s, n, k, draws).value[i].Position() in draws(i)
      && Accepts(s, i, Step(s, n, k, draws).value[i].Position(), n, k)
  {
    var u := UnhappySet(s, n, k);
    assert forall i :: i in u <==> 0 <= i < |s| && !Happy(s, i, n, k);
    if CanRelocate(s, u, n, k, draws) {
      RelocatedPlaces(s, u, n, k, draws);
    }
  }

  /** A step cannot be made exactly when some unhappy agent finds no acceptable location among its draws. */
  lemma StepFails(s: Snapshot, n: int, k: int, draws: nat -> seq<Point>)
    requires Fits(|s|, n)
    ensures Step(s, n, k, draws).None? <==>
      exists i :: 0 <= i < |s| && !Happy(s, i, n, k) && FirstAccepted(s, i, draws(i), n, k).None?
  {
    var u := UnhappySet(s, n, k);
    assert forall i :: i in u <==> 0 <= i < |s| && !Happy(s, i, n, k);
  }

  /** A step keeps every agent in the unit square when all draws lie there, as `rand.Float64` promises. */
  lemma StepStaysInUnitSquare(s: Snapshot, n: int, k: int, draws: nat -> seq<Point>)
    requires Fits(|s|, n)
    requires AllInUnitSquare(s)
    requires forall a: nat, j :: 0 <= j < |draws(a)| ==> InUnitSquare(draws(a)[j])
    ensures Step(s, n, k, draws).Some? ==> AllInUnitSquare(Step(s, n, k, draws).value)
  {
    var r := Step(s, n, k, draws);
    StepMoves(s, n, k, draws);
    if r.Some? {
      forall i | 0 <= i < |s|
        ensures InUnitSquare(r.value[i].Position())
      {
        if !Happy(s, i, n, k) {
          var p := r.value[i].Position();
          var j :| 0 <= j < |draws(i)| && draws(i)[j] == p;
        }
      }
    }
  }

  /** When everybody is happy nobody moves. */
  lemma SettledStepIsIdentity(s: Snapshot, n: int, k: int, draws: nat -> seq<Point>)
    requires Fits(|s|, n)
    requires AllHappy(s, n, k)
    ensures Step(s, n, k, draws) == Some(s)
  {
    assert UnhappySet(s, n, k) == {};
    RelocatedPlaces(s, {}, n, k, draws);
    assert Relocated(s, {}, n, k, draws) == s;
  }

  /**
   * As written at schelling.go:151-155: the locations arrive on the channel in
   * the order the searches finish, and the `k`-th one received is written to
   * agent `unhappy[k]`, whichever agent it was found for.
   */
  function AssignInDrainOrder(s: Snapshot, unhappy: seq<int>, received: seq<Point>): (r: Snapshot)
    requires |received| == |unhappy|
    requires forall j :: 0 <= j < |unhappy| ==> 0 <= unhappy[j] < |s|
    ensures |r| == |s|
    decreases |unhappy|
  {
    if unhappy == [] then s
    else AssignInDrainOrder(s[unhappy[0] := s[unhappy[0]].MovedTo(received[0])], unhappy[1..], received[1..])
  }

  predicate Distinct(u: seq<int>)
  {
    forall a, b :: 0 <= a < b < |u| ==> u[a] != u[b]
  }

  /** With distinct indices, agent `unhappy[j]` ends up at `received[j]` and nobody else moves. */
  lemma {:induction false} AssignInDrainOrderAt(s: Snapshot, unhappy: seq<int>, received: seq<Point>)
    requires |received| == |unhappy|
    requires forall j :: 0 <= j < |unhappy| ==> 0 <= unhappy[j] < |s|
    requires Distinct(unhappy)
    ensures forall j :: 0 <= j < |unhappy| ==>
      AssignInDrainOrder(s, unhappy, received)[unhappy[j]] == s[unhappy[j]].MovedTo(received[j])
    ensures forall i :: 0 <= i < |s| && i !in unhappy ==> AssignInDrainOrder(s, unhappy, received)[i] == s[i]
    decreases |unhappy|
  {
    if unhappy != [] {
      var s' := s[unhappy[0] := s[unhappy[0]].MovedTo(received[0])];
      AssignInDrainOrderAt(s', unhappy[1..], received[1..]);
      var r := AssignInDrainOrder(s, unhappy, received);
      assert r == AssignInDrainOrder(s', unhappy[1..], received[1..]);
      forall j | 0 <= j < |unhappy|
        ensures r[unhappy[j]] == s[unhappy[j]].MovedTo(received[j])
      {
        if j == 0 {
          assert unhappy[0] !in unhappy[1..];
        } else {
          assert unhappy[j] == unhappy[1..][j - 1];
        }
      }
    }
  }

  /**
   * Had the locations been received in list order, every agent would get the
   * location found for it, and the drain loop would agree with Relocated.
   */
  lemma DrainInListOrderAgrees(s: Snapshot, unhappy: seq<int>, received: seq<Point>, n: int, k: int, draws: nat -> seq<Point>)
    requires Fits(|s|, n)
    requires |received| == |unhappy|
    requires forall j :: 0 <= j < |unhappy| ==> 0 <= unhappy[j] < |s|
    requires Distinct(unhappy)
    requires forall j :: 0 <= j < |unhappy| ==>
      FirstAccepted(s, unhappy[j], draws(unhappy[j]), n, k) == Some(received[j])
    ensures CanRelocate(s, Members(unhappy), n, k, draws)
    ensures AssignInDrainOrder(s, unhappy, received) == Relocated(s, Members(unhappy), n, k, draws)
  {
    var movers := Members(unhappy);
    AssignInDrainOrderAt(s, unhappy, received);
    var a := AssignInDrainOrder(s, unhappy, received);
    assert CanRelocate(s, movers, n, k, draws) by {
      forall i | i in movers
        ensures FirstAccepted(s, i, draws(i), n, k).Some?
      {
        var j :| 0 <= j < |unhappy| && unhappy[j] == i;
      }
    }
    var r := Relocated(s, movers, n, k, draws);
    forall i | 0 <= i < |s|
      ensures a[i] == r[i]
    {
      if i in movers {
        var j :| 0 <= j < |unhappy| && unhappy[j] == i;
      } else {
        assert i !in unhappy;
      }
    }
  }

  /** Four agents on a line: types alternate, and each one's nearest neighbour has the other type. */
  predicate IsLine(s: Snapshot)
  {
    |s| == 4
    && s[0] == Agent(0.0, 0.0, true) && s[1] == Agent(0.1, 0.0, false)
    && s[2] == Agent(0.5, 0.0, true) && s[3] == Agent(0.6, 0.0, false)
  }

  /** With `n = 1` and `k = 1` every agent of the line is unhappy. */
  lemma LineAllUnhappy(s: Snapshot)
    requires IsLine(s)
    ensures UnhappySet(s, 1, 1) == {0, 1, 2, 3}
  {
    NearestDecides(s, 0, Point(0.0, 0.0), true, 1, 1);
    NearestDecides(s, 1, Point(0.1, 0.0), false, 1, 0);
    NearestDecides(s, 2, Point(0.5, 0.0), true, 1, 3);
    NearestDecides(s, 3, Point(0.6, 0.0), false, 1, 2);
    assert forall i :: i in UnhappySet(s, 1, 1) <==> i in {0, 1, 2, 3};
  }

  /** The list `[0, 1, 2, 3]` names the four agents. */
  lemma LineMembers()
    ensures Members([0, 1, 2, 3]) == {0, 1, 2, 3}
  {
    var u := [0, 1, 2, 3];
    forall x
      ensures x in Members(u) <==> x in {0, 1, 2, 3}
    {
      if x in {0, 1, 2, 3} {
        assert u[x] == x;
      }
    }
  }

  /** Each agent accepts a location next to an agent of its own type. */
  lemma LineOwnLocationsAccepted(s: Snapshot)
    requires IsLine(s)
    ensures Accepts(s, 0, Point(0.45, 0.0), 1, 1) && Accepts(s, 1, Point(0.65, 0.0), 1, 1)
    ensures Accepts(s, 2, Point(0.02, 0.0), 1, 1) && Accepts(s, 3, Point(0.15, 0.0), 1, 1)
  {
    NearestDecides(s, 0, Point(0.45, 0.0), true, 1, 2);
    NearestDecides(s, 1, Point(0.65, 0.0), false, 1, 3);
    NearestDecides(s, 2, Point(0.02, 0.0), true, 1, 0);
    NearestDecides(s, 3, Point(0.15, 0.0), false, 1, 1);
  }

  /** Agents 0 and 1 reject the locations accepted by each other. */
  lemma LineSwappedLocationsRejected(s: Snapshot)
    requires IsLine(s)
    ensures !Accepts(s, 0, Point(0.65, 0.0), 1, 1) && !Accepts(s, 1, Point(0.45, 0.0), 1, 1)
  {
    NearestDecides(s, 0, Point(0.65, 0.0), true, 1, 3);
    NearestDecides(s, 1, Point(0.45, 0.0), false, 1, 2);
  }

  /** The drain loop writes the first two locations received to agents 0 and 1. */
  lemma LineDrainPositions(s: Snapshot, unhappy: seq<int>, received: seq<Point>)
    requires |s| == 4 && unhappy == [0, 1, 2, 3] && |received| == 4
    ensures AssignInDrainOrder(s, unhappy, received)[0].Position() == received[0]
    ensures AssignInDrainOrder(s, unhappy, received)[1].Position() == received[1]
  {
    AssignInDrainOrderAt(s, unhappy, received);
    assert unhappy[0] == 0 && unhappy[1] == 1;
  }

  /**
   * The drain loop can put an agent where it was never accepted. With `n = 1`
   * and `k = 1` all four agents of the line are unhappy, and `unhappyAgents`
   * lists them all. Agents 0, 1, 2 and 3 accept (0.45, 0), (0.65, 0),
   * (0.02, 0) and (0.15, 0). If agent 1's search finishes first and agent
   * 0's second, the first two locations received are swapped against
   * `unhappy`, and agents 0 and 1 each land where they are not happy.
   */
  lemma DrainOrderMisplacesAgent(s: Snapshot, unhappy: seq<int>, received: seq<Point>)
    requires IsLine(s)
    requires unhappy == [0, 1, 2, 3]
    requires received == [Point(0.65, 0.0), Point(0.45, 0.0), Point(0.02, 0.0), Point(0.15, 0.0)]
    ensures Members(unhappy) == UnhappySet(s, 1, 1)
    ensures Accepts(s, 0, received[1], 1, 1) && Accepts(s, 1, received[0], 1, 1)
    ensures Accepts(s, 2, received[2], 1, 1) && Accepts(s, 3, received[3], 1, 1)
    ensures AssignInDrainOrder(s, unhappy, received)[0].Position() == received[0]
    ensures AssignInDrainOrder(s, unhappy, received)[1].Position() == received[1]
    ensures !Accepts(s, 0, AssignInDrainOrder(s, unhappy, received)[0].Position(), 1, 1)
    ensures !Accepts(s, 1, AssignInDrainOrder(s, unhappy, received)[1].Position(), 1, 1)
  {
    LineAllUnhappy(s);
    LineMembers();
    LineOwnLocationsAccepted(s);
    LineDrainPositions(s, unhappy, received);
    LineSwappedLocationsRejected(s);
  }
}
