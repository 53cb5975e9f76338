/**
 * The browser side's reshaping of the snapshots a run returns: the parallel
 * columns Plotly animates, the flat records Observable facets by iteration,
 * and the frames and marker colours of the Plotly animation. The input is
 * what the kernel hands over: one list of `[x, y, t]` triples per snapshot.
 */
module Plotting {
  import opened Agents

  /** One `{x, y, t}` record of `data_for_plotly`: a snapshot as three parallel columns. */
  datatype Columns = Columns(x: seq<real>, y: seq<real>, t: seq<bool>)

  /** The columns hold one entry per agent of the snapshot, position `i` holding agent `i`'s fields. */
  predicate Transposes(c: Columns, a: Snapshot)
  {
    |c.x| == |a| && |c.y| == |a| && |c.t| == |a|
    && forall i :: 0 <= i < |a| ==> c.x[i] == a[i].x && c.y[i] == a[i].y && c.t[i] == a[i].t
  }

  /** Reading the columns back row by row gives the snapshot again. */
  lemma TransposesBack(c: Columns, a: Snapshot)
    requires Transposes(c, a)
    ensures Zip(c.x, c.y, c.t) == a
  {
    var z := Zip(c.x, c.y, c.t);
    assert forall i :: 0 <= i < |a| ==> z[i] == a[i];
  }

  /** The columns of a snapshot are determined by it. */
  lemma TransposesUnique(c: Columns, d: Columns, a: Snapshot)
    requires Transposes(c, a) && Transposes(d, a)
    ensures c == d
  {
    assert c.x == d.x && c.y == d.y && c.t == d.t;
  }

  /**
   * `data_for_plotly`: for every snapshot, in order, push each triple's
   * fields onto three arrays and record them as one `{x, y, t}` entry.
   */
  method DataForPlotly(data: seq<Snapshot>) returns (res: seq<Columns>)
    ensures |res| == |data|
    ensures forall j :: 0 <= j < |data| ==> Transposes(res[j], data[j])
  {
    res := [];
    for j := 0 to |data|
      invariant |res| == j
      invariant forall jj :: 0 <= jj < j ==> Transposes(res[jj], data[jj])
    {
      var iter := data[j];
      var xs: seq<real>, ys: seq<real>, ts: seq<bool> := [], [], [];
      for i := 0 to |iter|
        invariant |xs| == i && |ys| == i && |ts| == i
        invariant forall p :: 0 <= p < i ==> xs[p] == iter[p].x && ys[p] == iter[p].y && ts[p] == iter[p].t
      {
        xs := xs + [iter[i].x];
        ys := ys + [iter[i].y];
        ts := ts + [iter[i].t];
      }
      res := res + [Columns(xs, ys, ts)];
    }
  }

  /** One record of `data_for_observable`; the field the page calls `type` is `kind` here. */
  datatype Record = Record(x: real, y: real, kind: bool, iteration: nat)

  /** The record of agent `a` in the snapshot of iteration `idx`. */
  function Tag(a: Agent, idx: nat): Record
  {
    Record(a.x, a.y, a.t, idx)
  }

  /** The records of one snapshot, in agent order. */
  function TagSnapshot(a: Snapshot, idx: nat): (r: seq<Record>)
    ensures |r| == |a|
  {
    seq(|a|, i requires 0 <= i < |a| => Tag(a[i], idx))
  }

  /** The records of all snapshots, iteration by iteration. */
  function Tagged(res: seq<Snapshot>): seq<Record>
  {
    if res == [] then [] else Tagged(res[..|res| - 1]) + TagSnapshot(res[|res| - 1], |res| - 1)
  }

  /** The number of agents summed over all snapshots. */
  function TotalSize(res: seq<Snapshot>): nat
  {
    if res == [] then 0 else TotalSize(res[..|res| - 1]) + |res[|res| - 1]|
  }

  /** One record per agent of every snapshot. */
  lemma {:induction false} TaggedLength(res: seq<Snapshot>)
    ensures |Tagged(res)| == TotalSize(res)
  {
    if res != [] {
      TaggedLength(res[..|res| - 1]);
    }
  }

  /** The sizes of the snapshots before `j` add up to at most the total. */
  lemma {:induction false} PrefixSize(res: seq<Snapshot>, j: nat)
    requires j < |res|
    ensures TotalSize(res[..j]) + |res[j]| <= TotalSize(res)
  {
    if j < |res| - 1 {
      PrefixSize(res[..|res| - 1], j);
      assert res[..|res| - 1][..j] == res[..j];
    } else {
      assert res[..|res| - 1] == res[..j];
    }
  }

  /**
   * Iteration-major order: agent `i` of snapshot `j` comes right after the
   * agents of the earlier snapshots and the earlier agents of snapshot `j`,
   * tagged with iteration `j`.
   */
  lemma {:induction false} TaggedAt(res: seq<Snapshot>, j: nat, i: nat)
    requires j < |res| && i < |res[j]|
    ensures TotalSize(res[..j]) + i < |Tagged(res)|
    ensures Tagged(res)[TotalSize(res[..j]) + i] == Tag(res[j][i], j)
  {
    var init := res[..|res| - 1];
    TaggedLength(init);
    TaggedLength(res);
    PrefixSize(res, j);
    if j < |res| - 1 {
      TaggedAt(init, j, i);
      assert init[..j] == res[..j];
      PrefixSize(init, j);
    } else {
      assert init == res[..j];
    }
  }

  /** Every record is tagged with the index of an existing snapshot, and the tags never decrease. */
  lemma {:induction false} TaggedOrdered(res: seq<Snapshot>)
    ensures forall p :: 0 <= p < |Tagged(res)| ==> Tagged(res)[p].iteration < |res|
    ensures forall p, q :: 0 <= p <= q < |Tagged(res)| ==> Tagged(res)[p].iteration <= Tagged(res)[q].iteration
  {
    if res != [] {
      var init := res[..|res| - 1];
      TaggedOrdered(init);
      var a, b := Tagged(init), TagSnapshot(res[|res| - 1], |res| - 1);
      assert Tagged(res) == a + b;
      assert forall p :: 0 <= p < |b| ==> b[p].iteration == |res| - 1;
    }
  }

  /**
   * `data_for_observable`: for every snapshot, in order, push one record per
   * triple, tagged with the snapshot's index.
   */
  method DataForObservable(res: seq<Snapshot>) returns (data: seq<Record>)
    ensures data == Tagged(res)
  {
    data := [];
    for idx := 0 to |res|
      invariant data == Tagged(res[..idx])
    {
      var iter := res[idx];
      ghost var before := data;
      for i := 0 to |iter|
        invariant data == before + TagSnapshot(iter, idx)[..i]
      {
        assert TagSnapshot(iter, idx)[..i + 1] == TagSnapshot(iter, idx)[..i] + [Tag(iter[i], idx)];
        data := data + [Tag(iter[i], idx)];
      }
      assert TagSnapshot(iter, idx)[..|iter|] == TagSnapshot(iter, idx);
      assert res[..idx + 1][..idx] == res[..idx];
    }
    assert res[..|res|] == res;
  }

  /** The marker colour of a type. */
  function Colour(t: bool): string
  {
    if t then "green" else "orange"
  }

  /** `ts.map(...)` over the colour of each type. */
  function Colours(ts: seq<bool>): (cs: seq<string>)
    ensures |cs| == |ts|
  {
    seq(|ts|, i requires 0 <= i < |ts| => Colour(ts[i]))
  }

  /** Every marker is green or orange, green exactly for the agents of type true. */
  lemma ColoursShowTypes(ts: seq<bool>)
    ensures forall i :: 0 <= i < |ts| ==> (Colours(ts)[i] == "green" <==> ts[i])
    ensures forall i :: 0 <= i < |ts| ==> (Colours(ts)[i] == "orange" <==> !ts[i])
  {
    assert "green" != "orange" by {
      assert "green"[0] != "orange"[0];
    }
  }

  /** The colours give the types back. */
  lemma ColoursInjective(ts: seq<bool>, us: seq<bool>)
    requires Colours(ts) == Colours(us)
    ensures ts == us
  {
    ColoursShowTypes(ts);
    ColoursShowTypes(us);
    assert forall i :: 0 <= i < |ts| ==> (ts[i] <==> Colours(ts)[i] == "green");
  }

  /** `ids`: the marker identities `0, 1, ..., m - 1` that tie a marker to the same agent across frames. */
  function Ids(m: nat): (ids: seq<nat>)
    ensures |ids| == m
  {
    seq(m, i requires 0 <= i < m => i)
  }

  /** The single trace the plot starts from. */
  datatype Trace = Trace(x: seq<real>, y: seq<real>, ids: seq<nat>, color: seq<string>)

  /** One animation frame: its name, the marker identities, positions and colours. */
  datatype Frame = Frame(name: nat, ids: seq<nat>, x: seq<real>, y: seq<real>, color: seq<string>)

  /**
   * Frame `f` shows snapshot `a` as frame number `i`: one marker per agent,
   * at the agent's position and in the colour of its type, with the
   * identities `0 .. m - 1` taken from the first snapshot's size `m`.
   */
  predicate Shows(f: Frame, i: nat, a: Snapshot, m: nat)
  {
    f.name == i && f.ids == Ids(m)
    && |f.x| == |a| && |f.y| == |a| && |f.color| == |a|
    && forall p :: 0 <= p < |a| ==> f.x[p] == a[p].x && f.y[p] == a[p].y && f.color[p] == Colour(a[p].t)
  }

  /**
   * The data of `plotly_animated`: the starting trace, which shows the
   * first snapshot, and one frame per snapshot, named by its index. The page
   * reads the first snapshot, so there must be one.
   */
  method PlotlyAnimated(res: seq<Snapshot>) returns (trace: Trace, frames: seq<Frame>)
    requires |res| > 0
    ensures |frames| == |res|
    ensures forall i :: 0 <= i < |res| ==> Shows(frames[i], i, res[i], |res[0]|)
    ensures trace == Trace(frames[0].x, frames[0].y, frames[0].ids, frames[0].color)
  {
    var data := DataForPlotly(res);
    var ids := Ids(|data[0].x|);
    trace := Trace(data[0].x, data[0].y, ids, Colours(data[0].t));
    frames := [];
    for i := 0 to |data|
      invariant |frames| == i
      invariant forall j :: 0 <= j < i ==> Shows(frames[j], j, res[j], |res[0]|)
      invariant i > 0 ==> trace == Trace(frames[0].x, frames[0].y, frames[0].ids, frames[0].color)
    {
      frames := frames + [Frame(i, ids, data[i].x, data[i].y, Colours(data[i].t))];
    }
  }

  /**
   * When every snapshot has the first one's size, as the snapshots of one
   * run do, every frame carries exactly one identity per marker, and marker
   * `p` in any two frames is the same agent.
   */
  lemma FramesKeepIdentities(res: seq<Snapshot>, frames: seq<Frame>)
    requires |res| > 0 && |frames| == |res|
    requires forall i :: 0 <= i < |res| ==> Shows(frames[i], i, res[i], |res[0]|)
    requires forall i :: 0 <= i < |res| ==> |res[i]| == |res[0]|
    ensures forall i :: 0 <= i < |frames| ==> |frames[i].ids| == |frames[i].x|
    ensures forall i, j, p :: 0 <= i < |frames| && 0 <= j < |frames| && 0 <= p < |frames[i].ids| ==>
      p < |frames[j].ids| && frames[i].ids[p] == frames[j].ids[p] == p
  {
  }
}
