/**
 * The simulation kernel: the per-iteration state, the happiness test, the
 * search for unhappy agents, their relocation, and the driver that records one
 * snapshot per iteration. The goroutines of the kernel run here one after the
 * other; randomness is supplied by the caller.
 */
module Schelling {
  import opened Wrappers
  import opened Agents
  import opened Counting
  import opened Happiness
  import opened Relocation
  import opened Simulation

  /** The state of all agents at one iteration: three parallel slices, indexed by agent. */
  class Status {
    const xs: array<real>
    const ys: array<real>
    const ts: array<bool>

    /** The slices have one entry per agent, and the two coordinate slices are distinct storage. */
    predicate Valid()
    {
      xs.Length == ys.Length == ts.Length && xs != ys
    }

    /** The snapshot the slices hold. */
    function State(): Snapshot
      reads xs, ys, ts
      requires Valid()
    {
      Zip(xs[..], ys[..], ts[..])
    }

    /** `&status{xs: ..., ys: ..., ts: ...}`: wraps the given slices without copying them. */
    constructor (xs: array<real>, ys: array<real>, ts: array<bool>)
      requires xs.Length == ys.Length == ts.Length && xs != ys
      ensures this.xs == xs && this.ys == ys && this.ts == ts
      ensures Valid()
    {
      this.xs, this.ys, this.ts := xs, ys, ts;
    }

    /** `deepCopy`: a new status over new storage holding the same entries. */
    method DeepCopy() returns (ns: Status)
      requires Valid()
      ensures fresh(ns) && fresh(ns.xs) && fresh(ns.ys) && fresh(ns.ts)
      ensures ns.Valid()
      ensures ns.xs[..] == xs[..] && ns.ys[..] == ys[..] && ns.ts[..] == ts[..]
      ensures ns.State() == State()
    {
      var nxs := new real[xs.Length](i reads xs => if 0 <= i < xs.Length then xs[i] else 0.0);
      var nys := new real[ys.Length](i reads ys => if 0 <= i < ys.Length then ys[i] else 0.0);
      var nts := new bool[ts.Length](i reads ts => if 0 <= i < ts.Length then ts[i] else false);
      ns := new Status(nxs, nys, nts);
      assert ns.xs[..] == xs[..] && ns.ys[..] == ys[..] && ns.ts[..] == ts[..];
    }

    /** `json`: one `[x, y, t]` triple per agent, in index order. */
    method Json() returns (res: seq<Agent>)
      requires Valid()
      ensures |res| == ts.Length
      ensures forall i :: 0 <= i < ts.Length ==> res[i] == Agent(xs[i], ys[i], ts[i])
      ensures res == State()
    {
      res := [];
      for i := 0 to ts.Length
        invariant |res| == i
        invariant forall j :: 0 <= j < i ==> res[j] == Agent(xs[j], ys[j], ts[j])
      {
        res := res + [Agent(xs[i], ys[i], ts[i])];
      }
    }
  }

  /**
   * `isAgentHappyAtLocation`: builds the candidate list of every agent but
   * `idx`, sorts it by distance from `loc`, and counts the entries of type `t`
   * among the first `n`; happy when there are at least `k`.
   */
  method IsAgentHappyAtLocation(all: Status, idx: int, loc: Point, t: bool, n: int, k: int) returns (happy: bool)
    requires all.Valid()
    requires 0 <= n <= CandidateCount(all.ts.Length, idx)
    ensures happy == HappyAt(all.State(), idx, loc, t, n, k)
  {
    ghost var s := all.State();
    var ns: seq<Neighbour> := [];
    for i := 0 to all.ts.Length
      invariant ns == Neighbours(s[..i], idx, loc)
    {
      assert s[..i + 1][..i] == s[..i];
      if idx == i {
        continue;
      }
      var o := Point(all.xs[i], all.ys[i]);
      ns := ns + [Neighbour(SquaredDistance(loc, o), all.ts[i])];
    }
    assert s[..all.ts.Length] == s;
    ns := SortByDistance(ns);
    var st := 0;
    for i := 0 to n
      invariant st == CountSame(ns[..i], t)
    {
      assert ns[..i + 1][..i] == ns[..i];
      if ns[i].t == t {
        st := st + 1;
      }
    }
    happy := st >= k;
  }

  /** `isAgentHappy`: the happiness test at the agent's own position and for its own type. */
  method IsAgentHappy(all: Status, idx: int, n: int, k: int) returns (happy: bool)
    requires all.Valid()
    requires 0 <= idx < all.ts.Length
    requires 0 <= n < all.ts.Length
    ensures happy == Happy(all.State(), idx, n, k)
  {
    var a := Point(all.xs[idx], all.ys[idx]);
    happy := IsAgentHappyAtLocation(all, idx, a, all.ts[idx], n, k);
  }

  /**
   * `unhappyAgents`: the indices of the agents that are not happy where they
   * are, each once. The kernel collects them from a channel in no particular
   * order; here they come out ascending, which the contract does not promise.
   */
  method UnhappyAgents(all: Status, nn: int, nst: int) returns (indices: seq<int>)
    requires all.Valid()
    requires Fits(all.ts.Length, nn)
    ensures Distinct(indices)
    ensures forall j :: 0 <= j < |indices| ==> 0 <= indices[j] < all.ts.Length
    ensures forall i :: 0 <= i < all.ts.Length ==> (i in indices <==> !Happy(all.State(), i, nn, nst))
    ensures Members(indices) == UnhappySet(all.State(), nn, nst)
  {
    ghost var s := all.State();
    ghost var v := Verdicts(s, nn, nst);
    var na := all.ts.Length;
    indices := [];
    for j := 0 to na
      invariant indices == Rejected(v, j)
    {
      var happy := IsAgentHappy(all, j, nn, nst);
      assert v[j] == happy;
      if !happy {
        indices := indices + [j];
      }
    }
    RejectedAreUnhappy(s, indices, nn, nst);
  }

  /**
   * The body of one goroutine of `moveAgents`: draw candidate locations until
   * one is accepted. The draws come from `stream`; when it runs out, `found`
   * is false and the kernel would still be drawing.
   */
  method FindLocation(all: Status, idx: int, stream: seq<Point>, nn: int, nst: int) returns (found: bool, loc: Point)
    requires all.Valid()
    requires 0 <= idx < all.ts.Length
    requires Fits(all.ts.Length, nn)
    ensures found <==> FirstAccepted(all.State(), idx, stream, nn, nst).Some?
    ensures found ==> FirstAccepted(all.State(), idx, stream, nn, nst) == Some(loc)
  {
    ghost var s := all.State();
    var t := all.ts[idx];
    var m := 0;
    found := false;
    while m < |stream| && !found
      invariant 0 <= m <= |stream|
      invariant FirstAcceptedFrom(s, idx, stream, nn, nst, m) == FirstAcceptedFrom(s, idx, stream, nn, nst, 0)
      invariant found ==> m < |stream| && Accepts(s, idx, stream[m], nn, nst)
      decreases |stream| - m, !found
    {
      found := IsAgentHappyAtLocation(all, idx, stream[m], t, nn, nst);
      if !found {
        m := m + 1;
      }
    }
    loc := if found then stream[m] else Point(0.0, 0.0);
  }

  /** The drain loop of `moveAgents`, with location `newLocs[j]` written to agent `unhappy[j]`. */
  method WriteLocations(all: Status, unhappy: seq<int>, newLocs: seq<Point>)
    requires all.Valid()
    requires |newLocs| == |unhappy|
    requires forall j :: 0 <= j < |unhappy| ==> 0 <= unhappy[j] < all.ts.Length
    requires forall a, b :: 0 <= a < |unhappy| && 0 <= b < |unhappy| && unhappy[a] == unhappy[b] ==> newLocs[a] == newLocs[b]
    modifies all.xs, all.ys
    ensures |all.State()| == |old(all.State())|
    ensures forall i :: 0 <= i < all.ts.Length && i !in unhappy ==> all.State()[i] == old(all.State())[i]
    ensures forall a :: 0 <= a < |unhappy| ==> all.State()[unhappy[a]] == old(all.State())[unhappy[a]].MovedTo(newLocs[a])
  {
    for j := 0 to |unhappy|
      invariant forall i :: 0 <= i < all.ts.Length && i !in unhappy[..j] ==>
        all.xs[i] == old(all.xs[i]) && all.ys[i] == old(all.ys[i])
      invariant forall a :: 0 <= a < j ==> all.xs[unhappy[a]] == newLocs[a].x && all.ys[unhappy[a]] == newLocs[a].y
    {
      var idx := unhappy[j];
      all.xs[idx], all.ys[idx] := newLocs[j].x, newLocs[j].y;
      assert unhappy[..j + 1] == unhappy[..j] + [idx];
    }
    assert unhappy[..|unhappy|] == unhappy;
  }

  /**
   * The search phase of `moveAgents`: each listed agent looks through its own
   * stream of draws for the first location it accepts, every agent judged
   * against the same status. `ok` is false when some stream holds no
   * acceptable draw; otherwise `newLocs[j]` is the location found for
   * agent `unhappy[j]`.
   */
  method FindLocations(all: Status, unhappy: seq<int>, nn: int, nst: int, draws: nat -> seq<Point>)
    returns (ok: bool, newLocs: seq<Point>)
    requires all.Valid()
    requires forall j :: 0 <= j < |unhappy| ==> 0 <= unhappy[j] < all.ts.Length
    requires Fits(all.ts.Length, nn)
    ensures !ok ==> exists j :: 0 <= j < |unhappy| && FirstAccepted(all.State(), unhappy[j], draws(unhappy[j]), nn, nst).None?
    ensures ok ==> |newLocs| == |unhappy|
    ensures ok ==> forall a :: 0 <= a < |unhappy| ==>
      FirstAccepted(all.State(), unhappy[a], draws(unhappy[a]), nn, nst) == Some(newLocs[a])
  {
    ghost var s0 := all.State();
    newLocs := [];
    for j := 0 to |unhappy|
      invariant |newLocs| == j
      invariant forall a :: 0 <= a < j ==> FirstAccepted(s0, unhappy[a], draws(unhappy[a]), nn, nst) == Some(newLocs[a])
    {
      var found, loc := FindLocation(all, unhappy[j], draws(unhappy[j]), nn, nst);
      assert all.State() == s0;
      if !found {
        assert FirstAccepted(s0, unhappy[j], draws(unhappy[j]), nn, nst).None?;
        return false, newLocs;
      }
      newLocs := newLocs + [loc];
    }
    ok := true;
  }

  /**
   * `moveAgents`: every listed agent searches its stream of draws for the first
   * location it accepts, all judged against the status as it is before anyone
   * moves; only then are the coordinates of the movers overwritten. Each
   * location is written to the agent it was found for. When some stream holds
   * no acceptable draw the kernel's search would go on sampling and nothing
   * would ever be written: that is `ok == false`, with the status untouched.
   */
  method MoveAgents(all: Status, unhappy: seq<int>, nn: int, nst: int, draws: nat -> seq<Point>) returns (ok: bool)
    requires all.Valid()
    requires forall j :: 0 <= j < |unhappy| ==> 0 <= unhappy[j] < all.ts.Length
    requires Fits(all.ts.Length, nn)
    modifies all.xs, all.ys
    ensures ok <==> CanRelocate(old(all.State()), Members(unhappy), nn, nst, draws)
    ensures ok ==> all.State() == Relocated(old(all.State()), Members(unhappy), nn, nst, draws)
    ensures !ok ==> all.State() == old(all.State())
  {
    ghost var s0 := all.State();
    var newLocs;
    ok, newLocs := FindLocations(all, unhappy, nn, nst, draws);
    if !ok {
      ghost var j :| 0 <= j < |unhappy| && FirstAccepted(s0, unhappy[j], draws(unhappy[j]), nn, nst).None?;
      StuckMover(s0, unhappy, j, nn, nst, draws);
      return;
    }
    WriteLocations(all, unhappy, newLocs);
    RelocatedByWrites(s0, all.State(), unhappy, newLocs, nn, nst, draws);
  }

  /** The first loop of `Simulate`: new slices holding the initial placement. */
  method Populate(x0: seq<real>, y0: seq<real>, coins: seq<int>) returns (st: Status)
    requires |x0| == |y0| == |coins|
    ensures fresh(st) && fresh(st.xs) && fresh(st.ys) && fresh(st.ts)
    ensures st.Valid() && st.ts.Length == |coins|
    ensures st.State() == Initial(x0, y0, coins)
  {
    var xs := new real[|coins|];
    var ys := new real[|coins|];
    var ts := new bool[|coins|];
    for i := 0 to |coins|
      invariant forall j :: 0 <= j < i ==> xs[j] == x0[j] && ys[j] == y0[j] && (ts[j] <==> coins[j] == 1)
    {
      xs[i], ys[i], ts[i] := x0[i], y0[i], coins[i] == 1;
    }
    st := new Status(xs, ys, ts);
  }

  /**
   * What one iteration of `Simulate` decides, in terms of the model: the list
   * of unhappy agents is empty exactly when the snapshot is settled, and
   * otherwise `moveAgents` succeeding is the kernel's step being taken, to
   * the relocated snapshot.
   */
  lemma KernelDecision(s: Snapshot, unhappy: seq<int>, n: int, k: int, draws: int -> nat -> seq<Point>, it: int)
    requires Fits(|s|, n)
    requires forall j :: 0 <= j < |unhappy| ==> 0 <= unhappy[j] < |s|
    requires Members(unhappy) == UnhappySet(s, n, k)
    ensures |unhappy| == 0 <==> Settled(s, n, k)
    ensures |unhappy| > 0 ==> (Advance(s, n, k, draws, it).Some? <==> CanRelocate(s, Members(unhappy), n, k, draws(it)))
    ensures |unhappy| > 0 && CanRelocate(s, Members(unhappy), n, k, draws(it)) ==>
      Advance(s, n, k, draws, it) == Some(Relocated(s, Members(unhappy), n, k, draws(it)))
  {
    if |unhappy| > 0 {
      assert unhappy[0] in Members(unhappy);
    }
  }

  /**
   * The body of the loop of `Simulate`: a deep copy of the last status, the
   * list of its unhappy agents, and, when the list is not empty, their move
   * on this iteration's draws. `settled` says the list was empty; `ok` that
   * the move was made, in which case `cur` holds the kernel's step.
   */
  method Iteration(last: Status, n: int, k: int, draws: int -> nat -> seq<Point>, it: int, ghost repr: set<object>)
    returns (cur: Status, settled: bool, ok: bool)
    requires last.Valid()
    requires Fits(last.ts.Length, n)
    ensures fresh(cur) && fresh(cur.xs) && fresh(cur.ys) && fresh(cur.ts)
    ensures cur.xs !in repr && cur.ys !in repr && cur.ts !in repr
    ensures cur.Valid() && cur.ts.Length == last.ts.Length
    ensures settled <==> Settled(last.State(), n, k)
    ensures !settled ==> (ok <==> Advance(last.State(), n, k, draws, it).Some?)
    ensures !settled && ok ==> Advance(last.State(), n, k, draws, it) == Some(cur.State())
  {
    cur := last.DeepCopy();
    assert cur.xs != last.xs && cur.xs != last.ys && cur.ys != last.xs && cur.ys != last.ys;
    ghost var s := cur.State();
    var unhappy := UnhappyAgents(cur, n, k);
    KernelDecision(s, unhappy, n, k, draws, it);
    if |unhappy| == 0 {
      return cur, true, false;
    }
    settled := false;
    ok := MoveAgents(cur, unhappy, n, k, draws(it));
    assert last.State() == s;
  }

  /** No two recorded statuses share a slice. */
  predicate Separate(ss: seq<Status>)
  {
    forall a, b :: 0 <= a < b < |ss| ==>
      ss[a].xs != ss[b].xs && ss[a].ys != ss[b].ys && ss[a].ts != ss[b].ts &&
      ss[a].xs != ss[b].ys && ss[a].ys != ss[b].xs
  }

  /** The slices of the recorded statuses all lie in `repr`. */
  predicate Within(ss: seq<Status>, repr: set<object>)
  {
    forall a :: 0 <= a < |ss| ==> ss[a].xs in repr && ss[a].ys in repr && ss[a].ts in repr
  }

  /**
   * The log of statuses: their slices lie in `repr`, no two share a slice,
   * and they hold the snapshots `snaps` of `na` agents each, one per status.
   */
  predicate Log(ss: seq<Status>, snaps: seq<Snapshot>, repr: set<object>, na: int)
    reads repr
  {
    Within(ss, repr) && Separate(ss) && |ss| == |snaps| &&
    forall j :: 0 <= j < |ss| ==> ss[j].Valid() && ss[j].ts.Length == na && ss[j].State() == snaps[j]
  }

  /** Appending a status over storage outside `repr` logs its snapshot. */
  lemma LogAppend(ss: seq<Status>, snaps: seq<Snapshot>, repr: set<object>, na: int, cur: Status)
    requires Log(ss, snaps, repr, na)
    requires cur.Valid() && cur.ts.Length == na
    requires cur.xs !in repr && cur.ys !in repr && cur.ts !in repr
    ensures Log(ss + [cur], snaps + [cur.State()], repr + {cur.xs, cur.ys, cur.ts}, na)
  {
    var ss', repr' := ss + [cur], repr + {cur.xs, cur.ys, cur.ts};
    assert Within(ss', repr');
    assert Separate(ss');
  }

  /** What `Log` says, status by status. */
  lemma LogHolds(ss: seq<Status>, snaps: seq<Snapshot>, repr: set<object>, na: int)
    requires Log(ss, snaps, repr, na)
    ensures |ss| == |snaps| && Separate(ss)
    ensures forall j :: 0 <= j < |ss| ==> ss[j].Valid() && ss[j].ts.Length == na && ss[j].State() == snaps[j]
  {
  }

  /** What `Log` says of status `j`. */
  lemma LogAt(ss: seq<Status>, snaps: seq<Snapshot>, repr: set<object>, na: int, j: int)
    requires Log(ss, snaps, repr, na)
    requires 0 <= j < |ss|
    ensures j < |snaps| && ss[j].Valid() && ss[j].ts.Length == na && ss[j].State() == snaps[j]
  {
  }

  /** A prefix one longer is the prefix and the next element. */
  lemma PrefixGrows<T>(s: seq<T>, m: nat)
    requires m < |s|
    ensures s[..m] + [s[m]] == s[..m + 1]
  {
  }

  /**
   * `Simulate`: places the agents at `(x0[i], y0[i])`, of type true when
   * `coins[i]` is 1, records that status, and then, once per iteration, copies
   * the last status, stops when nobody in it is unhappy, and otherwise moves
   * the unhappy agents on that iteration's draws and records the result. The
   * statuses recorded are the snapshots of `Course`, each over storage of its
   * own. `stalled` is set when some unhappy agent's draws ran out; the kernel
   * would still be sampling, and nothing further is recorded.
   */
  method Simulate(agents: int, neighbours: int, sameType: int, iterations: int,
                  x0: seq<real>, y0: seq<real>, coins: seq<int>, draws: int -> nat -> seq<Point>)
    returns (allStatus: seq<Status>, stalled: bool)
    requires agents >= 0 && |x0| == agents && |y0| == agents && |coins| == agents
    requires iterations > 0 ==> Fits(agents, neighbours)
    ensures |allStatus| == |Course(Initial(x0, y0, coins), neighbours, sameType, iterations, draws).snaps|
    ensures forall j :: 0 <= j < |allStatus| ==> allStatus[j].Valid() && allStatus[j].ts.Length == agents
    ensures forall j :: 0 <= j < |allStatus| ==>
      allStatus[j].State() == Course(Initial(x0, y0, coins), neighbours, sameType, iterations, draws).snaps[j]
    ensures stalled == Course(Initial(x0, y0, coins), neighbours, sameType, iterations, draws).stalled
    ensures Separate(allStatus)
  {
    ghost var s0 := Initial(x0, y0, coins);
    ghost var c := Course(s0, neighbours, sameType, iterations, draws);
    var first := Populate(x0, y0, coins);
    allStatus := [first];
    ghost var repr: set<object> := {first.xs, first.ys, first.ts};
    stalled := false;
    var i := 0;
    while i < iterations
      invariant 0 <= i && |allStatus| == i + 1 && i < |c.snaps| && !stalled
      invariant Log(allStatus, c.snaps[..i + 1], repr, agents)
      decreases iterations - i
    {
      CourseNext(c, s0, neighbours, sameType, iterations, draws, i);
      LogAt(allStatus, c.snaps[..i + 1], repr, agents, i);
      var last := allStatus[i];
      assert last.State() == c.snaps[i];
      var cur, settled, ok := Iteration(last, neighbours, sameType, draws, i, repr);
      if settled || !ok {
        assert i + 1 == |c.snaps|;
        stalled := !settled;
        break;
      }
      assert cur.State() == c.snaps[i + 1];
      LogAppend(allStatus, c.snaps[..i + 1], repr, agents, cur);
      PrefixGrows(c.snaps, i + 1);
      repr := repr + {cur.xs, cur.ys, cur.ts};
      allStatus := allStatus + [cur];
      i := i + 1;
    }
    if i >= iterations {
      CourseEnds(c, s0, neighbours, sameType, iterations, draws, i);
    }
    assert i + 1 == |c.snaps| && stalled == c.stalled;
    assert c.snaps[..i + 1] == c.snaps;
    LogHolds(allStatus, c.snaps, repr, agents);
  }
}
