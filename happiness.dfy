/**
 * The happiness rule of the kernel: an agent of type `t` placed at `loc` is
 * happy when at least `k` of its `n` nearest other agents have type `t`.
 */
module Happiness {
  import opened Agents
  import opened Counting

  function NeighbourOf(loc: Point, o: Agent): Neighbour
  {
    Neighbour(SquaredDistance(loc, o.Position()), o.t)
  }

  /** The length of the candidate list: every agent except `idx`, if `idx` is one of them. */
  function CandidateCount(na: nat, idx: int): nat
  {
    if 0 <= idx < na then na - 1 else na
  }

  /**
   * The candidate list built by the first loop of `isAgentHappyAtLocation`:
   * the distance from `loc` and the type of every agent other than `idx`, in
   * index order.
   */
  function Neighbours(s: Snapshot, idx: int, loc: Point): (ns: seq<Neighbour>)
    ensures |ns| == CandidateCount(|s|, idx)
  {
    if s == [] then []
    else
      Neighbours(s[..|s| - 1], idx, loc)
        + (if idx == |s| - 1 then [] else [NeighbourOf(loc, s[|s| - 1])])
  }

  /** The agent that the `j`-th candidate stands for. */
  function Other(idx: int, j: nat): nat
  {
    if 0 <= idx <= j then j + 1 else j
  }

  /** The place of agent `i` in the candidate list of `idx`. */
  function Place(idx: int, i: nat): nat
  {
    if 0 <= idx < i then i - 1 else i
  }

  /**
   * An agent is never its own neighbour: the candidate list holds every other
   * agent exactly once, in index order, and nothing for `idx` itself.
   */
  lemma NeighboursAreTheOthers(s: Snapshot, idx: int, loc: Point)
    ensures forall j :: 0 <= j < |Neighbours(s, idx, loc)| ==>
      Other(idx, j) < |s| && Other(idx, j) != idx
      && Neighbours(s, idx, loc)[j] == NeighbourOf(loc, s[Other(idx, j)])
    ensures forall i :: 0 <= i < |s| && i != idx ==>
      Place(idx, i) < |Neighbours(s, idx, loc)|
      && Neighbours(s, idx, loc)[Place(idx, i)] == NeighbourOf(loc, s[i])
  {
    CandidatesAreOthers(s, idx, loc);
    OthersAreCandidates(s, idx, loc);
  }

  /** The `j`-th candidate is agent `Other(idx, j)`, never `idx` itself. */
  lemma {:induction false} CandidatesAreOthers(s: Snapshot, idx: int, loc: Point)
    ensures forall j :: 0 <= j < |Neighbours(s, idx, loc)| ==>
      Other(idx, j) < |s| && Other(idx, j) != idx
      && Neighbours(s, idx, loc)[j] == NeighbourOf(loc, s[Other(idx, j)])
    decreases |s|
  {
    if s != [] {
      var init := s[..|s| - 1];
      CandidatesAreOthers(init, idx, loc);
      var ns := Neighbours(s, idx, loc);
      var prefix := Neighbours(init, idx, loc);
      forall j | 0 <= j < |ns|
        ensures Other(idx, j) < |s| && Other(idx, j) != idx && ns[j] == NeighbourOf(loc, s[Other(idx, j)])
      {
        if j < |prefix| {
          assert ns[j] == prefix[j];
          assert init[Other(idx, j)] == s[Other(idx, j)];
        }
      }
    }
  }

  /** Every agent other than `idx` is a candidate, at place `Place(idx, i)`. */
  lemma {:induction false} OthersAreCandidates(s: Snapshot, idx: int, loc: Point)
    ensures forall i :: 0 <= i < |s| && i != idx ==>
      Place(idx, i) < |Neighbours(s, idx, loc)|
      && Neighbours(s, idx, loc)[Place(idx, i)] == NeighbourOf(loc, s[i])
    decreases |s|
  {
    if s != [] {
      var init := s[..|s| - 1];
      OthersAreCandidates(init, idx, loc);
      var ns := Neighbours(s, idx, loc);
      var prefix := Neighbours(init, idx, loc);
      forall i | 0 <= i < |s| && i != idx
        ensures Place(idx, i) < |ns| && ns[Place(idx, i)] == NeighbourOf(loc, s[i])
      {
        if i < |s| - 1 {
          assert ns[Place(idx, i)] == prefix[Place(idx, i)];
          assert init[i] == s[i];
        }
      }
    }
  }

  /** The agent's own entry plays no part in judging a location for it. */
  lemma {:induction false} OwnEntryIgnored(s: Snapshot, idx: int, a: Agent, loc: Point)
    requires 0 <= idx < |s|
    ensures Neighbours(s[idx := a], idx, loc) == Neighbours(s, idx, loc)
    decreases |s|
  {
    var s' := s[idx := a];
    if idx < |s| - 1 {
      assert s'[..|s'| - 1] == s[..|s| - 1][idx := a];
      OwnEntryIgnored(s[..|s| - 1], idx, a, loc);
    } else {
      assert s'[..|s'| - 1] == s[..|s| - 1];
    }
  }

  /**
   * The verdict of `isAgentHappyAtLocation`: sort the candidates by ascending
   * distance, keep the first `n`, and count those of type `t`; happy when the
   * count reaches `k`. The model requires `n <= len(ns)`; Go also accepts
   * `n` up to `cap(ns)`, where the slice reads zero-valued entries.
   * A threshold of at most zero always holds, one above `n` never does.
   */
  predicate HappyAt(s: Snapshot, idx: int, loc: Point, t: bool, n: int, k: int)
    requires 0 <= n <= CandidateCount(|s|, idx)
    ensures k <= 0 ==> HappyAt(s, idx, loc, t, n, k)
    ensures k > n ==> !HappyAt(s, idx, loc, t, n, k)
  {
    CountSame(SortByDistance(Neighbours(s, idx, loc))[..n], t) >= k
  }

  /** `isAgentHappy`: the happiness rule at the agent's own position and for its own type. */
  predicate Happy(s: Snapshot, idx: int, n: int, k: int)
    requires 0 <= idx < |s|
    requires 0 <= n < |s|
    ensures k <= 0 ==> Happy(s, idx, n, k)
    ensures k > n ==> !Happy(s, idx, n, k)
  {
    HappyAt(s, idx, s[idx].Position(), s[idx].t, n, k)
  }

  /**
   * Bounds that hold for any arrangement of the candidates, in particular
   * for every order `sort.Slice` may give tied neighbours: with `same`
   * candidates of type `t` among `m`, the first `n` hold at most `same` and
   * at least `same - (m - n)` of them.
   */
  lemma BoundsInAnyOrder(s: Snapshot, idx: int, loc: Point, t: bool, n: int, k: int, q: seq<Neighbour>)
    requires 0 <= n <= CandidateCount(|s|, idx)
    requires multiset(q) == multiset(Neighbours(s, idx, loc))
    ensures n <= |q|
    ensures var same, m := CountSame(Neighbours(s, idx, loc), t), CandidateCount(|s|, idx);
      (k <= same - (m - n) ==> CountSame(q[..n], t) >= k)
      && (k > same ==> CountSame(q[..n], t) < k)
  {
    var ns := Neighbours(s, idx, loc);
    assert |q| == |multiset(q)| == |multiset(ns)| == |ns|;
    CountWherePermutation(q, ns, IsType(t));
    assert q == q[..n] + q[n..];
    CountWhereConcat(q[..n], q[n..], IsType(t));
  }

  /**
   * The same bounds on the model's verdict: a threshold of at most zero
   * always holds, one above `n` never does, and between them the counts
   * `same - (m - n)` and `same` decide the verdict when `k` lies outside them.
   */
  lemma HappyAtBounds(s: Snapshot, idx: int, loc: Point, t: bool, n: int, k: int)
    requires 0 <= n <= CandidateCount(|s|, idx)
    ensures k <= 0 ==> HappyAt(s, idx, loc, t, n, k)
    ensures k > n ==> !HappyAt(s, idx, loc, t, n, k)
    ensures var same, m := CountSame(Neighbours(s, idx, loc), t), CandidateCount(|s|, idx);
      (k <= same - (m - n) ==> HappyAt(s, idx, loc, t, n, k))
      && (k > same ==> !HappyAt(s, idx, loc, t, n, k))
  {
    var ns := Neighbours(s, idx, loc);
    SortByDistanceSorts(ns);
    BoundsInAnyOrder(s, idx, loc, t, n, k, SortByDistance(ns));
  }

  /** When every other agent has type `t`, the location is acceptable exactly when `k <= n`. */
  lemma AmongOwnType(s: Snapshot, idx: int, loc: Point, t: bool, n: int, k: int)
    requires 0 <= n <= CandidateCount(|s|, idx)
    requires forall i :: 0 <= i < |s| && i != idx ==> s[i].t == t
    ensures HappyAt(s, idx, loc, t, n, k) <==> k <= n
  {
    var ns := Neighbours(s, idx, loc);
    CandidatesAreOthers(s, idx, loc);
    HappyAtBounds(s, idx, loc, t, n, k);
    assert forall j :: 0 <= j < |ns| ==> IsType(t)(ns[j]);
    CountWhereAll(ns, IsType(t));
  }

  /** When no other agent has type `t`, the location is acceptable exactly when `k <= 0`. */
  lemma AmongOtherType(s: Snapshot, idx: int, loc: Point, t: bool, n: int, k: int)
    requires 0 <= n <= CandidateCount(|s|, idx)
    requires forall i :: 0 <= i < |s| && i != idx ==> s[i].t != t
    ensures HappyAt(s, idx, loc, t, n, k) <==> k <= 0
  {
    var ns := Neighbours(s, idx, loc);
    CandidatesAreOthers(s, idx, loc);
    HappyAtBounds(s, idx, loc, t, n, k);
    assert forall j :: 0 <= j < |ns| ==> !IsType(t)(ns[j]);
    CountWhereNone(ns, IsType(t));
  }

  /**
   * `sort.Slice` is not stable, so tied distances may come out in any order.
   * Whatever sorted permutation `q` of the candidates it produces, the verdict
   * is the one HappyAt gives, unless the `n`-th and `n+1`-th distances tie.
   */
  lemma HappyIndependentOfTieOrder(s: Snapshot, idx: int, loc: Point, t: bool, n: int, k: int, q: seq<Neighbour>)
    requires 0 <= n <= CandidateCount(|s|, idx)
    requires SortedByDistance(q) && multiset(q) == multiset(Neighbours(s, idx, loc))
    requires 0 < n < |q| ==> q[n - 1].d < q[n].d
    ensures n <= |q| && (HappyAt(s, idx, loc, t, n, k) <==> CountSame(q[..n], t) >= k)
  {
    var p := SortByDistance(Neighbours(s, idx, loc));
    SortByDistanceSorts(Neighbours(s, idx, loc));
    SortedPrefixCountUnique(q, p, n, t);
  }

  /**
   * With `n = 1` only the nearest other agent counts: when agent `i0` is
   * strictly nearer to `loc` than every other candidate, the verdict is
   * whether `k` is at most 1 or 0 according as `i0` has type `t` or not.
   */
  lemma NearestDecides(s: Snapshot, idx: int, loc: Point, t: bool, k: int, i0: nat)
    requires i0 < |s| && i0 != idx
    requires forall i :: 0 <= i < |s| && i != idx && i != i0 ==>
      SquaredDistance(loc, s[i0].Position()) < SquaredDistance(loc, s[i].Position())
    ensures 1 <= CandidateCount(|s|, idx)
    ensures HappyAt(s, idx, loc, t, 1, k) <==> k <= (if s[i0].t == t then 1 else 0)
  {
    var ns := Neighbours(s, idx, loc);
    NeighboursAreTheOthers(s, idx, loc);
    var j0 := Place(idx, i0);
    assert ns[j0] == NeighbourOf(loc, s[i0]);
    var p := SortByDistance(ns);
    SortByDistanceSorts(ns);
    assert p[0] in multiset(ns);
    var j1 :| 0 <= j1 < |ns| && ns[j1] == p[0];
    assert ns[j0] in multiset(p);
    var i1 :| 0 <= i1 < |p| && p[i1] == ns[j0];
    assert p[0].d <= p[i1].d;
    assert p[..1] == [ns[j0]];
    assert CountSame(p[..1], t) == CountWhere([], IsType(t)) + (if ns[j0].t == t then 1 else 0);
  }
}
