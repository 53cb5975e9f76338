/**
 * The values the simulation kernel works on: points of the unit square, agents
 * as the `[x, y, t]` triples a snapshot is made of, and the distance between
 * two points.
 */
module Agents {

  /** A location, as the kernel's `[2]float64`; coordinates are exact reals. */
  datatype Point = Point(x: real, y: real)

  /** One agent of a snapshot: its position and its type (the JSON triple `[x, y, t]`). */
  datatype Agent = Agent(x: real, y: real, t: bool)
  {
    function Position(): Point { Point(x, y) }

    function MovedTo(p: Point): Agent { Agent(p.x, p.y, t) }
  }

  /** The whole population at one iteration boundary, indexed by agent identity. */
  type Snapshot = seq<Agent>

  /** The range of `rand.Float64`: the half-open interval [0, 1). */
  predicate InUnitInterval(v: real) { 0.0 <= v < 1.0 }

  predicate InUnitSquare(p: Point) { InUnitInterval(p.x) && InUnitInterval(p.y) }

  predicate AllInUnitSquare(s: Snapshot)
  {
    forall i :: 0 <= i < |s| ==> InUnitSquare(s[i].Position())
  }

  /** The types of a snapshot, in agent order (the `ts` slice). */
  function Types(s: Snapshot): (ts: seq<bool>)
    ensures |ts| == |s|
    ensures forall i :: 0 <= i < |s| ==> ts[i] == s[i].t
  {
    seq(|s|, i requires 0 <= i < |s| => s[i].t)
  }

  /** The snapshot whose i-th agent is `(xs[i], ys[i], ts[i])`. */
  function Zip(xs: seq<real>, ys: seq<real>, ts: seq<bool>): Snapshot
    requires |xs| == |ys| == |ts|
  {
    seq(|ts|, i requires 0 <= i < |ts| => Agent(xs[i], ys[i], ts[i]))
  }

  /**
   * Squared Euclidean distance. The kernel returns its square root; since the
   * square root is strictly increasing on non-negative reals, both order every
   * pair of distances the same way, which is all the kernel uses them for.
   */
  function SquaredDistance(a: Point, b: Point): (d: real)
    ensures d >= 0.0
    ensures a == b ==> d == 0.0
  {
    SquareNonNegative(a.x - b.x);
    SquareNonNegative(a.y - b.y);
    (a.x - b.x) * (a.x - b.x) + (a.y - b.y) * (a.y - b.y)
  }

  lemma SquareNonNegative(v: real)
    ensures v * v >= 0.0
  {
    if v < 0.0 {
      var w := -v;
      assert v * v == w * w;
    }
  }

  lemma SquaredDistanceSymmetric(a: Point, b: Point)
    ensures SquaredDistance(a, b) == SquaredDistance(b, a)
  {
    assert (a.x - b.x) * (a.x - b.x) == (b.x - a.x) * (b.x - a.x);
    assert (a.y - b.y) * (a.y - b.y) == (b.y - a.y) * (b.y - a.y);
  }
}
