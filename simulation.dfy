/**
 * The course of a whole simulation as a value: the initial placement and the
 * snapshots one iteration after another, until everybody is happy, the
 * iterations run out, or some unhappy agent's draws hold no location it
 * accepts.
 */
module Simulation {
  import opened Wrappers
  import opened Agents
  import opened Happiness
  import opened Relocation

  /** The states recorded, and whether the run stopped because a step could not be made. */
  datatype Run<S> = Run(snaps: seq<S>, stalled: bool)

  /**
   * The driver loop of `Simulate` over any population: the states recorded
   * from iteration `i` on, starting with `s`. The run ends when the
   * iterations are used up or `settled` holds, stalls when `next` cannot be
   * taken, and otherwise records the next state and goes on.
   */
  function Trajectory<S>(s: S, i: nat, iterations: int, settled: S -> bool, next: (S, int) -> Option<S>): (r: Run<S>)
    ensures |r.snaps| >= 1 && r.snaps[0] == s
    decreases iterations - i
  {
    if i >= iterations || settled(s) then Run([s], false)
    else
      match next(s, i)
      case None => Run([s], true)
      case Some(t) =>
        var r := Trajectory(t, i + 1, iterations, settled, next);
        Run([s] + r.snaps, r.stalled)
  }

  /** At most one state is recorded per iteration, on top of the first; a stall happens within the iterations. */
  lemma {:induction false} TrajectoryLength<S>(s: S, i: nat, iterations: int, settled: S -> bool, next: (S, int) -> Option<S>)
    ensures var r := Trajectory(s, i, iterations, settled, next);
      |r.snaps| <= (if i < iterations then iterations - i else 0) + 1
      && (r.stalled ==> i + |r.snaps| - 1 < iterations)
    decreases iterations - i
  {
    if i < iterations && !settled(s) && next(s, i).Some? {
      TrajectoryLength(next(s, i).value, i + 1, iterations, settled, next);
    }
  }

  /**
   * Recorded state `j + 1` is the step from state `j`, taken at iteration
   * `i + j` because state `j` was not settled.
   */
  ghost predicate StepsTo<S>(snaps: seq<S>, i: nat, j: nat, iterations: int, settled: S -> bool, next: (S, int) -> Option<S>)
    requires j + 1 < |snaps|
  {
    i + j < iterations && !settled(snaps[j]) && next(snaps[j], i + j) == Some(snaps[j + 1])
  }

  /** Every recorded state after the first is the step taken from the one before, at its own iteration. */
  lemma {:induction false} TrajectoryChain<S>(s: S, i: nat, iterations: int, settled: S -> bool, next: (S, int) -> Option<S>)
    ensures forall j: nat :: j + 1 < |Trajectory(s, i, iterations, settled, next).snaps| ==>
      StepsTo(Trajectory(s, i, iterations, settled, next).snaps, i, j, iterations, settled, next)
    decreases iterations - i
  {
    var r := Trajectory(s, i, iterations, settled, next);
    if i < iterations && !settled(s) && next(s, i).Some? {
      var t := next(s, i).value;
      TrajectoryChain(t, i + 1, iterations, settled, next);
      var rt := Trajectory(t, i + 1, iterations, settled, next);
      assert r.snaps == [s] + rt.snaps;
      forall j: nat | j + 1 < |r.snaps|
        ensures StepsTo(r.snaps, i, j, iterations, settled, next)
      {
        if j > 0 {
          assert StepsTo(rt.snaps, i + 1, j - 1, iterations, settled, next);
          assert r.snaps[j] == rt.snaps[j - 1] && r.snaps[j + 1] == rt.snaps[j];
          assert i + j == (i + 1) + (j - 1);
        } else {
          assert r.snaps[1] == rt.snaps[0];
        }
      }
    }
  }

  /** The last state a run records. */
  function Last<S>(r: Run<S>): S
    requires |r.snaps| > 0
  {
    r.snaps[|r.snaps| - 1]
  }

  /** A run that neither stalled nor used up its iterations ends in a settled state. */
  lemma {:induction false} TrajectorySettles<S>(s: S, i: nat, iterations: int, settled: S -> bool, next: (S, int) -> Option<S>)
    requires !Trajectory(s, i, iterations, settled, next).stalled
    requires i + |Trajectory(s, i, iterations, settled, next).snaps| - 1 < iterations
    ensures settled(Last(Trajectory(s, i, iterations, settled, next)))
    decreases iterations - i
  {
    if i < iterations && !settled(s) && next(s, i).Some? {
      var t := next(s, i).value;
      var rt := Trajectory(t, i + 1, iterations, settled, next);
      assert Trajectory(s, i, iterations, settled, next).snaps == [s] + rt.snaps;
      TrajectorySettles(t, i + 1, iterations, settled, next);
    }
  }

  /**
   * A run that stalled did so within its iterations, on a last state that
   * was not settled and from which the step could not be made.
   */
  lemma {:induction false} TrajectoryStalls<S>(s: S, i: nat, iterations: int, settled: S -> bool, next: (S, int) -> Option<S>)
    requires Trajectory(s, i, iterations, settled, next).stalled
    ensures i + |Trajectory(s, i, iterations, settled, next).snaps| - 1 < iterations
    ensures !settled(Last(Trajectory(s, i, iterations, settled, next)))
    ensures next(Last(Trajectory(s, i, iterations, settled, next)), i + |Trajectory(s, i, iterations, settled, next).snaps| - 1).None?
    decreases iterations - i
  {
    if i < iterations && !settled(s) && next(s, i).Some? {
      var t := next(s, i).value;
      var rt := Trajectory(t, i + 1, iterations, settled, next);
      assert Trajectory(s, i, iterations, settled, next).snaps == [s] + rt.snaps;
      TrajectoryStalls(t, i + 1, iterations, settled, next);
      assert i + |Trajectory(s, i, iterations, settled, next).snaps| - 1 == (i + 1) + |rt.snaps| - 1;
    }
  }

  /**
   * What a run from iteration 0 records at its `i`-th state: a state with a
   * successor was unsettled and stepped to it within the iterations; a last
   * state that stalled was unsettled and had no step, within the iterations;
   * a last state that did not stall, within the iterations, was settled.
   */
  lemma TrajectoryAt<S>(r: Run<S>, s: S, iterations: int, settled: S -> bool, next: (S, int) -> Option<S>, i: nat)
    requires r == Trajectory(s, 0, iterations, settled, next)
    requires i < |r.snaps|
    ensures i + 1 < |r.snaps| ==>
      i < iterations && !settled(r.snaps[i]) && next(r.snaps[i], i) == Some(r.snaps[i + 1])
    ensures i + 1 == |r.snaps| && r.stalled ==>
      i < iterations && !settled(r.snaps[i]) && next(r.snaps[i], i).None?
    ensures i + 1 == |r.snaps| && !r.stalled && i < iterations ==> settled(r.snaps[i])
  {
    if i + 1 < |r.snaps| {
      TrajectoryChain(s, 0, iterations, settled, next);
      assert StepsTo(r.snaps, 0, i, iterations, settled, next);
    } else if r.stalled {
      TrajectoryStalls(s, 0, iterations, settled, next);
    } else if i < iterations {
      TrajectorySettles(s, 0, iterations, settled, next);
    }
  }

  /** A property of the first state that every step keeps holds of every recorded state. */
  lemma {:induction false} TrajectoryKeeps<S>(s: S, i: nat, iterations: int, settled: S -> bool, next: (S, int) -> Option<S>, p: S -> bool)
    requires p(s)
    requires forall x, it :: p(x) && next(x, it).Some? ==> p(next(x, it).value)
    ensures forall j :: 0 <= j < |Trajectory(s, i, iterations, settled, next).snaps| ==>
      p(Trajectory(s, i, iterations, settled, next).snaps[j])
    decreases iterations - i
  {
    var r := Trajectory(s, i, iterations, settled, next);
    if i < iterations && !settled(s) && next(s, i).Some? {
      var t := next(s, i).value;
      TrajectoryKeeps(t, i + 1, iterations, settled, next, p);
      var rt := Trajectory(t, i + 1, iterations, settled, next);
      assert r.snaps == [s] + rt.snaps;
      forall j | 0 <= j < |r.snaps|
        ensures p(r.snaps[j])
      {
        if j > 0 {
          assert r.snaps[j] == rt.snaps[j - 1];
        } else {
          assert r.snaps[0] == s;
        }
      }
    }
  }

  /** A settled first state is recorded once, whatever the iterations. */
  lemma SettledTrajectory<S>(s: S, i: nat, iterations: int, settled: S -> bool, next: (S, int) -> Option<S>)
    requires settled(s)
    ensures Trajectory(s, i, iterations, settled, next) == Run([s], false)
  {
  }

  /**
   * The initial placement: agent `i` at `(x0[i], y0[i])`, of type true exactly
   * when its coin came up 1.
   */
  function Initial(x0: seq<real>, y0: seq<real>, coins: seq<int>): (s: Snapshot)
    requires |x0| == |y0| == |coins|
    ensures |s| == |coins|
    ensures forall i :: 0 <= i < |s| ==> s[i].Position() == Point(x0[i], y0[i])
    ensures forall i :: 0 <= i < |s| ==> (s[i].t <==> coins[i] == 1)
  {
    seq(|coins|, i requires 0 <= i < |coins| => Agent(x0[i], y0[i], coins[i] == 1))
  }

  /** Coordinates drawn from `[0, 1)` place every agent in the unit square. */
  lemma InitialInUnitSquare(x0: seq<real>, y0: seq<real>, coins: seq<int>)
    requires |x0| == |y0| == |coins|
    requires forall i :: 0 <= i < |x0| ==> InUnitInterval(x0[i]) && InUnitInterval(y0[i])
    ensures AllInUnitSquare(Initial(x0, y0, coins))
  {
  }

  /** Nobody is unhappy exactly when everybody is happy. */
  lemma NoneUnhappy(s: Snapshot, n: int, k: int)
    requires Fits(|s|, n)
    ensures UnhappySet(s, n, k) == {} <==> AllHappy(s, n, k)
  {
    if UnhappySet(s, n, k) == {} {
      forall i | 0 <= i < |s|
        ensures Happy(s, i, n, k)
      {
        assert i !in UnhappySet(s, n, k);
      }
    } else {
      var i :| i in UnhappySet(s, n, k);
    }
  }

  /** The kernel's test for stopping early: nobody is unhappy. */
  predicate Settled(s: Snapshot, n: int, k: int)
  {
    Fits(|s|, n) && UnhappySet(s, n, k) == {}
  }

  /**
   * One iteration of the kernel at iteration `it`, on that iteration's draws.
   * It cannot be taken when `n` does not fit the population, a case no run
   * reaches, since `Simulate` demands that it fit.
   */
  function Advance(s: Snapshot, n: int, k: int, draws: int -> nat -> seq<Point>, it: int): (r: Option<Snapshot>)
    ensures r.Some? ==> |r.value| == |s|
  {
    if Fits(|s|, n) then Step(s, n, k, draws(it)) else None
  }

  /** `Settled` as the stopping test of a run. */
  function SettledTest(n: int, k: int): Snapshot -> bool
  {
    (s: Snapshot) => Settled(s, n, k)
  }

  /** `Advance` as the step of a run. */
  function AdvanceStep(n: int, k: int, draws: int -> nat -> seq<Point>): (Snapshot, int) -> Option<Snapshot>
  {
    (s: Snapshot, it: int) => Advance(s, n, k, draws, it)
  }

  /** The run of the kernel from `s0` with `n` neighbours, `k` of the same type required. */
  function Course(s0: Snapshot, n: int, k: int, iterations: int, draws: int -> nat -> seq<Point>): Run<Snapshot>
  {
    Trajectory(s0, 0, iterations, SettledTest(n, k), AdvanceStep(n, k, draws))
  }

  /** Every recorded snapshot has the population and the types of the first. */
  lemma CourseKeepsTypes(s0: Snapshot, n: int, k: int, iterations: int, draws: int -> nat -> seq<Point>)
    ensures var r := Course(s0, n, k, iterations, draws);
      forall j :: 0 <= j < |r.snaps| ==> |r.snaps[j]| == |s0| && Types(r.snaps[j]) == Types(s0)
  {
    var next := AdvanceStep(n, k, draws);
    var p := (s: Snapshot) => |s| == |s0| && Types(s) == Types(s0);
    forall x, it | p(x) && next(x, it).Some?
      ensures p(next(x, it).value)
    {
      StepMoves(x, n, k, draws(it));
    }
    TrajectoryKeeps(s0, 0, iterations, SettledTest(n, k), next, p);
  }

  /**
   * Snapshot `j + 1` is the kernel's step from snapshot `j` on the draws of
   * iteration `j`, taken because somebody in snapshot `j` was unhappy.
   */
  predicate KernelStep(snaps: seq<Snapshot>, j: nat, n: int, k: int, draws: int -> nat -> seq<Point>)
    requires j + 1 < |snaps|
  {
    Fits(|snaps[j]|, n) && UnhappySet(snaps[j], n, k) != {} && Step(snaps[j], n, k, draws(j)) == Some(snaps[j + 1])
  }

  /** Each snapshot after the first is the kernel's step from the one before, on that iteration's draws. */
  lemma CourseSteps(s0: Snapshot, n: int, k: int, iterations: int, draws: int -> nat -> seq<Point>, j: nat)
    requires j + 1 < |Course(s0, n, k, iterations, draws).snaps|
    ensures j < iterations && KernelStep(Course(s0, n, k, iterations, draws).snaps, j, n, k, draws)
  {
    CourseChain(s0, n, k, iterations, draws);
    AdvanceIsKernelStep(Course(s0, n, k, iterations, draws).snaps, j, n, k, iterations, draws);
  }

  /** `TrajectoryChain` for a run of the kernel. */
  lemma CourseChain(s0: Snapshot, n: int, k: int, iterations: int, draws: int -> nat -> seq<Point>)
    ensures forall j: nat :: j + 1 < |Course(s0, n, k, iterations, draws).snaps| ==>
      StepsTo(Course(s0, n, k, iterations, draws).snaps, 0, j, iterations, SettledTest(n, k), AdvanceStep(n, k, draws))
  {
    TrajectoryChain(s0, 0, iterations, SettledTest(n, k), AdvanceStep(n, k, draws));
  }

  /** A step of a run in the generic sense is a step of the kernel. */
  lemma AdvanceIsKernelStep(snaps: seq<Snapshot>, j: nat, n: int, k: int, iterations: int, draws: int -> nat -> seq<Point>)
    requires j + 1 < |snaps|
    requires StepsTo(snaps, 0, j, iterations, SettledTest(n, k), AdvanceStep(n, k, draws))
    ensures j < iterations && KernelStep(snaps, j, n, k, draws)
  {
  }

  /**
   * Within the iterations, snapshot `i` has a successor exactly when it is
   * not settled and the kernel's step from it can be made, and the successor
   * is that step; when it is the last one, the run stalled exactly when it
   * was not settled.
   */
  lemma CourseNext(c: Run<Snapshot>, s0: Snapshot, n: int, k: int, iterations: int, draws: int -> nat -> seq<Point>, i: nat)
    requires c == Course(s0, n, k, iterations, draws)
    requires i < |c.snaps| && i < iterations
    ensures i + 1 < |c.snaps| <==> !Settled(c.snaps[i], n, k) && Advance(c.snaps[i], n, k, draws, i).Some?
    ensures i + 1 < |c.snaps| ==> Advance(c.snaps[i], n, k, draws, i) == Some(c.snaps[i + 1])
    ensures i + 1 == |c.snaps| ==> (c.stalled <==> !Settled(c.snaps[i], n, k))
  {
    TrajectoryAt(c, s0, iterations, SettledTest(n, k), AdvanceStep(n, k, draws), i);
  }

  /** Once the iterations are used up, the snapshot reached is the last, and the run did not stall. */
  lemma CourseEnds(c: Run<Snapshot>, s0: Snapshot, n: int, k: int, iterations: int, draws: int -> nat -> seq<Point>, i: nat)
    requires c == Course(s0, n, k, iterations, draws)
    requires i < |c.snaps| && i >= iterations
    ensures i + 1 == |c.snaps| && !c.stalled
  {
    TrajectoryAt(c, s0, iterations, SettledTest(n, k), AdvanceStep(n, k, draws), i);
  }

  /** The last snapshot a run records. */
  function Final(s0: Snapshot, n: int, k: int, iterations: int, draws: int -> nat -> seq<Point>): Snapshot
  {
    Last(Course(s0, n, k, iterations, draws))
  }

  /** A run records at most one snapshot per iteration beyond the first. */
  lemma CourseLength(s0: Snapshot, n: int, k: int, iterations: int, draws: int -> nat -> seq<Point>)
    ensures |Course(s0, n, k, iterations, draws).snaps| <= (if iterations > 0 then iterations else 0) + 1
  {
    TrajectoryLength(s0, 0, iterations, SettledTest(n, k), AdvanceStep(n, k, draws));
  }

  /** A run that neither stalled nor used up its iterations ends with everybody happy. */
  lemma CourseSettles(s0: Snapshot, n: int, k: int, iterations: int, draws: int -> nat -> seq<Point>)
    requires !Course(s0, n, k, iterations, draws).stalled
    requires |Course(s0, n, k, iterations, draws).snaps| <= iterations
    ensures Fits(|Final(s0, n, k, iterations, draws)|, n) && AllHappy(Final(s0, n, k, iterations, draws), n, k)
  {
    TrajectorySettles(s0, 0, iterations, SettledTest(n, k), AdvanceStep(n, k, draws));
    var last := Final(s0, n, k, iterations, draws);
    assert Settled(last, n, k);
    NoneUnhappy(last, n, k);
  }

  /**
   * A run that stalled did so within its iterations, on a last snapshot in
   * which some unhappy agent's draws for the next iteration hold no location
   * it accepts.
   */
  lemma CourseStalls(s0: Snapshot, n: int, k: int, iterations: int, draws: int -> nat -> seq<Point>)
    requires iterations > 0 ==> Fits(|s0|, n)
    requires Course(s0, n, k, iterations, draws).stalled
    ensures |Course(s0, n, k, iterations, draws).snaps| <= iterations
    ensures Fits(|Final(s0, n, k, iterations, draws)|, n)
    ensures Stuck(Final(s0, n, k, iterations, draws), n, k, draws(|Course(s0, n, k, iterations, draws).snaps| - 1))
  {
    var c := Course(s0, n, k, iterations, draws);
    var settled, next := SettledTest(n, k), AdvanceStep(n, k, draws);
    TrajectoryStalls(s0, 0, iterations, settled, next);
    var i := |c.snaps| - 1;
    var last := Last(c);
    assert next(last, i).None?;
    assert Advance(last, n, k, draws, i).None?;
    CourseKeepsLength(s0, n, k, iterations, draws, i);
    assert iterations > 0;
    assert Fits(|last|, n);
    StalledAdvance(last, i, n, k, draws);
  }

  /** Every recorded snapshot has the population of the first. */
  lemma CourseKeepsLength(s0: Snapshot, n: int, k: int, iterations: int, draws: int -> nat -> seq<Point>, i: nat)
    requires i < |Course(s0, n, k, iterations, draws).snaps|
    ensures |Course(s0, n, k, iterations, draws).snaps[i]| == |s0|
  {
    TrajectoryKeeps(s0, 0, iterations, SettledTest(n, k), AdvanceStep(n, k, draws), s => |s| == |s0|);
  }

  /** A move that cannot be made leaves some unhappy agent stuck. */
  lemma StalledAdvance(last: Snapshot, m: int, n: int, k: int, draws: int -> nat -> seq<Point>)
    requires Fits(|last|, n)
    requires Advance(last, n, k, draws, m).None?
    ensures Stuck(last, n, k, draws(m))
  {
    StepFails(last, n, k, draws(m));
    var i :| 0 <= i < |last| && !Happy(last, i, n, k) && FirstAccepted(last, i, draws(m)(i), n, k).None?;
    NoAcceptableDraw(last, i, draws(m)(i), n, k);
  }

  /** When the placement and every draw lie in the unit square, so does every recorded snapshot. */
  lemma CourseInUnitSquare(s0: Snapshot, n: int, k: int, iterations: int, draws: int -> nat -> seq<Point>)
    requires AllInUnitSquare(s0)
    requires forall it, a: nat, j :: 0 <= j < |draws(it)(a)| ==> InUnitSquare(draws(it)(a)[j])
    ensures var r := Course(s0, n, k, iterations, draws);
      forall j :: 0 <= j < |r.snaps| ==> AllInUnitSquare(r.snaps[j])
  {
    var next := AdvanceStep(n, k, draws);
    forall x, it | AllInUnitSquare(x) && next(x, it).Some?
      ensures AllInUnitSquare(next(x, it).value)
    {
      StepStaysInUnitSquare(x, n, k, draws(it));
    }
    TrajectoryKeeps(s0, 0, iterations, SettledTest(n, k), next, AllInUnitSquare);
  }

  /** A population in which everybody is happy is recorded once and nobody moves. */
  lemma SettledCourse(s0: Snapshot, n: int, k: int, iterations: int, draws: int -> nat -> seq<Point>)
    requires Fits(|s0|, n)
    requires AllHappy(s0, n, k)
    ensures Course(s0, n, k, iterations, draws) == Run([s0], false)
  {
    NoneUnhappy(s0, n, k);
    SettledTrajectory(s0, 0, iterations, SettledTest(n, k), AdvanceStep(n, k, draws));
  }

  /**
   * A threshold above the neighbourhood size can never be met: every agent is
   * unhappy and rejects every location, so the first iteration stalls. The
   * kernel's searches then sample forever and the run never returns.
   */
  lemma ThresholdAboveNeighboursStalls(s0: Snapshot, n: int, k: int, iterations: int, draws: int -> nat -> seq<Point>)
    requires |s0| > 0 && iterations > 0 && Fits(|s0|, n) && k > n
    ensures Course(s0, n, k, iterations, draws).stalled
    ensures |Course(s0, n, k, iterations, draws).snaps| == 1
  {
    var c := Course(s0, n, k, iterations, draws);
    assert 0 in UnhappySet(s0, n, k);
    assert !Settled(s0, n, k);
    NoAcceptableDraw(s0, 0, draws(0)(0), n, k);
    StepFails(s0, n, k, draws(0));
    assert Advance(s0, n, k, draws, 0).None?;
    CourseNext(c, s0, n, k, iterations, draws, 0);
  }
}
