/**
 * Neighbour lists of the happiness rule: each entry is a distance and a type
 * (the kernel's `neighbour` record). Counting entries that satisfy a condition,
 * sorting by ascending distance, and the fact that the count over the first
 * `n` entries of a sorted list does not depend on how ties were ordered,
 * unless a tie straddles the `n`-th place.
 */
module Counting {

  /** One candidate neighbour: its (squared) distance to the query point and its type. */
  datatype Neighbour = Neighbour(d: real, t: bool)

  /** The number of entries of `s` for which `f` holds. */
  function CountWhere(s: seq<Neighbour>, f: Neighbour -> bool): (c: nat)
    ensures c <= |s|
  {
    if s == [] then 0
    else CountWhere(s[..|s| - 1], f) + (if f(s[|s| - 1]) then 1 else 0)
  }

  function IsType(t: bool): Neighbour -> bool { (o: Neighbour) => o.t == t }

  function Nearer(c: real): Neighbour -> bool { (o: Neighbour) => o.d < c }

  function NearerOfType(c: real, t: bool): Neighbour -> bool { (o: Neighbour) => o.d < c && o.t == t }

  /** The number of entries of type `t` (the `st` counter of the kernel). */
  function CountSame(s: seq<Neighbour>, t: bool): (c: nat)
    ensures c <= |s|
  {
    CountWhere(s, IsType(t))
  }

  lemma {:induction false} CountWhereConcat(a: seq<Neighbour>, b: seq<Neighbour>, f: Neighbour -> bool)
    ensures CountWhere(a + b, f) == CountWhere(a, f) + CountWhere(b, f)
    decreases |b|
  {
    if b == [] {
      assert a + b == a;
    } else {
      assert (a + b)[..|a + b| - 1] == a + b[..|b| - 1];
      CountWhereConcat(a, b[..|b| - 1], f);
    }
  }

  /** A count depends only on the multiset of entries, not on their order. */
  lemma {:induction false} CountWherePermutation(a: seq<Neighbour>, b: seq<Neighbour>, f: Neighbour -> bool)
    requires multiset(a) == multiset(b)
    ensures CountWhere(a, f) == CountWhere(b, f)
    decreases |a|
  {
    if a != [] {
      var x := a[|a| - 1];
      assert x in multiset(b);
      var k :| 0 <= k < |b| && b[k] == x;
      var rest := b[..k] + b[k + 1..];
      assert b == b[..k] + [x] + b[k + 1..];
      assert multiset(b) == multiset(rest) + multiset{x};
      assert a == a[..|a| - 1] + [x];
      assert multiset(a) == multiset(a[..|a| - 1]) + multiset{x};
      assert multiset(a[..|a| - 1]) == multiset(a) - multiset{x};
      assert multiset(rest) == multiset(b) - multiset{x};
      CountWherePermutation(a[..|a| - 1], rest, f);
      CountWhereConcat(b[..k] + [x], b[k + 1..], f);
      CountWhereConcat(b[..k], [x], f);
      CountWhereConcat(b[..k], b[k + 1..], f);
      assert [x][..0] == [];
    }
  }

  /** Two conditions that agree on every entry give the same count. */
  lemma {:induction false} CountWhereAgree(s: seq<Neighbour>, f: Neighbour -> bool, g: Neighbour -> bool)
    requires forall i :: 0 <= i < |s| ==> f(s[i]) == g(s[i])
    ensures CountWhere(s, f) == CountWhere(s, g)
    decreases |s|
  {
    if s != [] {
      CountWhereAgree(s[..|s| - 1], f, g);
    }
  }

  lemma {:induction false} CountWhereNone(s: seq<Neighbour>, f: Neighbour -> bool)
    requires forall i :: 0 <= i < |s| ==> !f(s[i])
    ensures CountWhere(s, f) == 0
    decreases |s|
  {
    if s != [] {
      CountWhereNone(s[..|s| - 1], f);
    }
  }

  lemma {:induction false} CountWhereAll(s: seq<Neighbour>, f: Neighbour -> bool)
    requires forall i :: 0 <= i < |s| ==> f(s[i])
    ensures CountWhere(s, f) == |s|
    decreases |s|
  {
    if s != [] {
      CountWhereAll(s[..|s| - 1], f);
    }
  }

  predicate SortedByDistance(s: seq<Neighbour>)
  {
    forall i, j :: 0 <= i < j < |s| ==> s[i].d <= s[j].d
  }

  /** Inserts `o` before the first entry that is not nearer. */
  function Insert(o: Neighbour, s: seq<Neighbour>): (r: seq<Neighbour>)
    ensures |r| == |s| + 1
  {
    if s == [] || o.d <= s[0].d then [o] + s
    else [s[0]] + Insert(o, s[1..])
  }

  /** Inserting adds exactly `o`. */
  lemma {:induction false} InsertPermutes(o: Neighbour, s: seq<Neighbour>)
    ensures multiset(Insert(o, s)) == multiset(s) + multiset{o}
  {
    if s != [] && o.d > s[0].d {
      InsertPermutes(o, s[1..]);
      assert s == [s[0]] + s[1..];
    }
  }

  /** Inserting into a sorted list keeps it sorted. */
  lemma {:induction false} InsertSorts(o: Neighbour, s: seq<Neighbour>)
    requires SortedByDistance(s)
    ensures SortedByDistance(Insert(o, s))
  {
    if s != [] && o.d > s[0].d {
      var tail := Insert(o, s[1..]);
      InsertSorts(o, s[1..]);
      InsertPermutes(o, s[1..]);
      HeadStaysFirst(s[0], s[1..], o, tail);
      ConsSorted(s[0], tail);
    }
  }

  /** An entry no farther than any of a sorted list can go in front of it. */
  lemma ConsSorted(h: Neighbour, tail: seq<Neighbour>)
    requires SortedByDistance(tail)
    requires forall i :: 0 <= i < |tail| ==> h.d <= tail[i].d
    ensures SortedByDistance([h] + tail)
  {
    var r := [h] + tail;
    forall i, j | 0 <= i < j < |r|
      ensures r[i].d <= r[j].d
    {
      if i > 0 {
        assert r[i] == tail[i - 1] && r[j] == tail[j - 1];
      } else {
        assert r[j] == tail[j - 1];
      }
    }
  }

  /** An entry no farther than `rest` and `o` is no farther than any rearrangement of them. */
  lemma HeadStaysFirst(h: Neighbour, rest: seq<Neighbour>, o: Neighbour, tail: seq<Neighbour>)
    requires forall i :: 0 <= i < |rest| ==> h.d <= rest[i].d
    requires h.d <= o.d
    requires multiset(tail) == multiset(rest) + multiset{o}
    ensures forall i :: 0 <= i < |tail| ==> h.d <= tail[i].d
  {
    forall i | 0 <= i < |tail|
      ensures h.d <= tail[i].d
    {
      assert tail[i] in multiset(tail);
      if tail[i] != o {
        assert tail[i] in multiset(rest);
        var j :| 0 <= j < |rest| && rest[j] == tail[i];
      }
    }
  }

  /** `sort.Slice` by ascending distance, as an insertion sort. */
  function SortByDistance(s: seq<Neighbour>): (r: seq<Neighbour>)
    ensures |r| == |s|
  {
    if s == [] then [] else Insert(s[0], SortByDistance(s[1..]))
  }

  /**
   * The sort's result is ordered and is a permutation of its input. How ties
   * come out is the one thing two such sorts need not agree on; see
   * SortedPrefixCountUnique.
   */
  lemma {:induction false} SortByDistanceSorts(s: seq<Neighbour>)
    ensures SortedByDistance(SortByDistance(s))
    ensures multiset(SortByDistance(s)) == multiset(s)
  {
    if s != [] {
      SortByDistanceSorts(s[1..]);
      InsertSorts(s[0], SortByDistance(s[1..]));
      InsertPermutes(s[0], SortByDistance(s[1..]));
      assert s == [s[0]] + s[1..];
    }
  }

  /** In a list split at `m` into entries nearer than `c` and the rest, the prefix counts what is nearer. */
  lemma {:induction false} SplitAtThreshold(s: seq<Neighbour>, m: nat, c: real, t: bool)
    requires m <= |s|
    requires forall i :: 0 <= i < m ==> s[i].d < c
    requires forall i :: m <= i < |s| ==> s[i].d >= c
    ensures m == CountWhere(s, Nearer(c))
    ensures CountSame(s[..m], t) == CountWhere(s, NearerOfType(c, t))
  {
    assert s == s[..m] + s[m..];
    CountWhereConcat(s[..m], s[m..], Nearer(c));
    CountWhereConcat(s[..m], s[m..], NearerOfType(c, t));
    CountWhereAll(s[..m], Nearer(c));
    CountWhereNone(s[m..], Nearer(c));
    CountWhereNone(s[m..], NearerOfType(c, t));
    CountWhereAgree(s[..m], IsType(t), NearerOfType(c, t));
  }

  /** In a sorted list the entries nearer than `c` are exactly a prefix. */
  lemma {:induction false} SortedThreshold(s: seq<Neighbour>, c: real)
    requires SortedByDistance(s)
    ensures CountWhere(s, Nearer(c)) <= |s|
    ensures forall i :: 0 <= i < CountWhere(s, Nearer(c)) ==> s[i].d < c
    ensures forall i :: CountWhere(s, Nearer(c)) <= i < |s| ==> s[i].d >= c
    decreases |s|
  {
    if s != [] {
      var last := s[|s| - 1];
      if last.d < c {
        CountWhereAll(s, Nearer(c));
      } else {
        SortedThreshold(s[..|s| - 1], c);
      }
    }
  }

  /**
   * Any two sorted permutations of one list have the same number of entries
   * of type `t` among their first `n`, provided the `n`-th and `n+1`-th
   * distances differ: which of several tied neighbours lands inside the prefix
   * can change the count only when the tie straddles the cut.
   */
  lemma {:induction false} SortedPrefixCountUnique(p: seq<Neighbour>, q: seq<Neighbour>, n: nat, t: bool)
    requires SortedByDistance(p) && SortedByDistance(q)
    requires multiset(p) == multiset(q)
    requires n <= |p|
    requires 0 < n < |p| ==> p[n - 1].d < p[n].d
    ensures n <= |q| && CountSame(p[..n], t) == CountSame(q[..n], t)
  {
    assert |p| == |multiset(p)| == |multiset(q)| == |q|;
    if n == |p| {
      assert p[..n] == p && q[..n] == q;
      CountWherePermutation(p, q, IsType(t));
    } else if n == 0 {
      assert p[..n] == [] == q[..n];
    } else {
      var c := p[n].d;
      SplitAtThreshold(p, n, c, t);
      CountWherePermutation(p, q, Nearer(c));
      CountWherePermutation(p, q, NearerOfType(c, t));
      SortedThreshold(q, c);
      SplitAtThreshold(q, n, c, t);
    }
  }
}
