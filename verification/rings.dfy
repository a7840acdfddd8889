/** Parity of marked edges around a ring of vertices.

The containment test flips a flag at every edge its ray crosses.  Nothing in how those
flips add up depends on geometry: it is the same for any symmetric way of marking edges.
 */
module Rings {
  import opened Collections

  ghost predicate Symmetric<T(!new)>(marked: (T, T) -> bool) {
    forall a, b :: marked(a, b) == marked(b, a)
  }

  /** Parity of the marked edges along an open path. */
  predicate PathParity<T>(marked: (T, T) -> bool, path: seq<T>) {
    if |path| < 2 then false
    else marked(path[0], path[1]) != PathParity(marked, path[1..])
  }

  /** Parity of the marked edges around a ring, whose last vertex is joined to its first. */
  predicate RingParity<T>(marked: (T, T) -> bool, ring: seq<T>) {
    ring != [] && PathParity(marked, ring + [ring[0]])
  }

  // ----- paths

  lemma EdgeParity<T>(marked: (T, T) -> bool, a: T, b: T)
    ensures PathParity(marked, [a, b]) == marked(a, b)
  {
    assert [a, b][1..] == [b];
  }

  /** Parity adds along paths that share an end point. */
  lemma {:induction false} PathJoin<T>(marked: (T, T) -> bool, s: seq<T>, t: seq<T>)
    requires s != [] && t != [] && s[|s| - 1] == t[0]
    ensures PathParity(marked, s + t[1..]) == (PathParity(marked, s) != PathParity(marked, t))
    decreases |s|
  {
    if |s| == 1 {
      assert s + t[1..] == t;
    } else {
      PathJoin(marked, s[1..], t);
      assert (s + t[1..])[1..] == s[1..] + t[1..];
    }
  }

  /** Parity after one more edge. */
  lemma PathExtend<T>(marked: (T, T) -> bool, s: seq<T>, b: T)
    requires s != []
    ensures PathParity(marked, s + [b]) == (PathParity(marked, s) != marked(s[|s| - 1], b))
  {
    var a := s[|s| - 1];
    PathJoin(marked, s, [a, b]);
    EdgeParity(marked, a, b);
    assert [a, b][1..] == [b];
  }

  lemma ReversedFirst<T>(s: seq<T>)
    requires s != []
    ensures Reversed(s) == Reversed(s[1..]) + [s[0]]
  {
  }

  lemma {:induction false} PathReversed<T(!new)>(marked: (T, T) -> bool, s: seq<T>)
    requires Symmetric(marked)
    ensures PathParity(marked, Reversed(s)) == PathParity(marked, s)
    decreases |s|
  {
    if |s| >= 2 {
      ReversedFirst(s);
      PathReversed(marked, s[1..]);
      PathExtend(marked, Reversed(s[1..]), s[0]);
    }
  }

  // ----- rings

  /** One or two vertices have even parity, so a length guard at three decides nothing. */
  lemma ShortRing<T(!new)>(marked: (T, T) -> bool, ring: seq<T>)
    requires Symmetric(marked) && |ring| < 3
    requires forall a :: !marked(a, a)
    ensures !RingParity(marked, ring)
  {
    if ring != [] {
      PathExtend(marked, ring, ring[0]);
      if |ring| == 2 {
        assert ring == [ring[0], ring[1]];
        EdgeParity(marked, ring[0], ring[1]);
      }
    }
  }

  /** The arcs of a ring on either side of a vertex, joined one way and the other. */
  lemma TwoArcs<T>(ring: seq<T>, k: nat)
    requires 0 < k < |ring|
    ensures
      var head, tail, turned := ring[..k + 1], ring[k..] + [ring[0]], ring[k..] + ring[..k];
      head + tail[1..] == ring + [ring[0]] && tail + head[1..] == turned + [turned[0]]
  {
    var head, tail, turned := ring[..k + 1], ring[k..] + [ring[0]], ring[k..] + ring[..k];
    assert tail[1..] == ring[k + 1..] + [ring[0]];
    assert head + ring[k + 1..] == ring;
    assert [ring[0]] + head[1..] == ring[..k] + [turned[0]];
    Associative(ring[k..], [ring[0]], head[1..]);
    Associative(ring[k..], ring[..k], [turned[0]]);
  }

  /** Which vertex the ring starts at makes no difference. */
  lemma Rotation<T>(marked: (T, T) -> bool, ring: seq<T>, k: nat)
    requires k <= |ring|
    ensures RingParity(marked, ring[k..] + ring[..k]) == RingParity(marked, ring)
  {
    var turned := ring[k..] + ring[..k];
    if 0 < k < |ring| {
      var head, tail := ring[..k + 1], ring[k..] + [ring[0]];
      PathJoin(marked, head, tail);
      PathJoin(marked, tail, head);
      TwoArcs(ring, k);
    } else {
      assert turned == ring;
    }
  }

  /** Which way round the ring runs makes no difference. */
  lemma Reversal<T(!new)>(marked: (T, T) -> bool, ring: seq<T>)
    requires Symmetric(marked)
    ensures RingParity(marked, Reversed(ring)) == RingParity(marked, ring)
  {
    if ring != [] {
      var n, back := |ring|, Reversed(ring);
      PathReversed(marked, ring + [ring[0]]);
      // Backwards, the closed path starts from the ring's first vertex again.
      var turned := back[n - 1..] + back[..n - 1];
      assert Reversed(ring + [ring[0]]) == turned + [turned[0]];
      Rotation(marked, back, n - 1);
    }
  }

  /** Repeating the first vertex at the end makes no difference. */
  lemma RepeatedVertex<T>(marked: (T, T) -> bool, ring: seq<T>)
    requires ring != [] && !marked(ring[0], ring[0])
    ensures RingParity(marked, ring + [ring[0]]) == RingParity(marked, ring)
  {
    PathExtend(marked, ring + [ring[0]], ring[0]);
  }

  /** A chord cuts a ring in two, and the halves add up to the whole. */
  lemma ChordCut<T(!new)>(marked: (T, T) -> bool, ring: seq<T>, i: nat, j: nat)
    requires Symmetric(marked) && i < j < |ring|
    ensures RingParity(marked, ring) ==
            (RingParity(marked, ring[i..j + 1]) != RingParity(marked, ring[j..] + ring[..i + 1]))
  {
    var near, far := ring[i..j + 1], ring[j..] + ring[..i + 1];
    PathExtend(marked, near, ring[i]);
    PathExtend(marked, far, ring[j]);
    // The two open halves, end to end, are the ring turned to start at vertex i.
    PathJoin(marked, near, far);
    TwoHalves(ring, i, j);
    Rotation(marked, ring, i);
  }

  lemma TwoHalves<T>(ring: seq<T>, i: nat, j: nat)
    requires i < j < |ring|
    ensures
      var far, turned := ring[j..] + ring[..i + 1], ring[i..] + ring[..i];
      ring[i..j + 1] + far[1..] == turned + [turned[0]]
  {
    var near, far, turned := ring[i..j + 1], ring[j..] + ring[..i + 1], ring[i..] + ring[..i];
    var rest, home := ring[j + 1..], ring[..i + 1];
    assert far[1..] == rest + home;
    assert near + rest == ring[i..];
    assert home == ring[..i] + [turned[0]];
    Associative(near, rest, home);
    Associative(ring[i..], ring[..i], [turned[0]]);
  }

  // ----- fans

  /** What is left of a fan after its first triangle. */
  function FanRest<T>(ring: seq<T>): (rest: seq<T>)
    requires |ring| >= 3
    ensures |rest| == |ring| - 1
  {
    [ring[0]] + ring[2..]
  }

  /** A ring as the sum of the triangles that fan out from its first vertex. */
  predicate FanParity<T>(marked: (T, T) -> bool, ring: seq<T>)
    decreases |ring|
  {
    |ring| >= 3 &&
    RingParity(marked, [ring[0], ring[1], ring[2]]) != FanParity(marked, FanRest(ring))
  }

  lemma {:induction false} FanOfTriangles<T(!new)>(marked: (T, T) -> bool, ring: seq<T>)
    requires Symmetric(marked) && forall a :: !marked(a, a)
    ensures RingParity(marked, ring) == FanParity(marked, ring)
    decreases |ring|
  {
    if |ring| < 3 {
      ShortRing(marked, ring);
    } else {
      var rest := FanRest(ring);
      FanOfTriangles(marked, rest);
      ChordCut(marked, ring, 0, 2);
      assert ring[0..3] == [ring[0], ring[1], ring[2]];
      assert ring[2..] + ring[..1] == rest[1..] + rest[..1];
      Rotation(marked, rest, 1);
    }
  }

  /** How many triangles of the fan `holds` is true of. */
  function Covering<T>(holds: (T, T, T) -> bool, ring: seq<T>): nat
    decreases |ring|
  {
    if |ring| < 3 then 0
    else (if holds(ring[0], ring[1], ring[2]) then 1 else 0) + Covering(holds, FanRest(ring))
  }

  /** Where `holds` decides each triangle, the ring is the even-odd rule. */
  lemma {:induction false} EvenOdd<T(!new)>(marked: (T, T) -> bool, holds: (T, T, T) -> bool, ring: seq<T>)
    requires forall a, b, c :: RingParity(marked, [a, b, c]) == holds(a, b, c)
    ensures FanParity(marked, ring) <==> Covering(holds, ring) % 2 == 1
    decreases |ring|
  {
    if |ring| >= 3 {
      EvenOdd(marked, holds, FanRest(ring));
    }
  }

  /** Markings that agree on a path's edges give it the same parity. */
  lemma {:induction false} PathSame<T>(marked: (T, T) -> bool, other: (T, T) -> bool, path: seq<T>)
    requires forall i :: 0 <= i < |path| - 1 ==> marked(path[i], path[i + 1]) == other(path[i], path[i + 1])
    ensures PathParity(marked, path) == PathParity(other, path)
  {
    if |path| >= 2 {
      var rest := path[1..];
      forall i | 0 <= i < |rest| - 1 ensures marked(rest[i], rest[i + 1]) == other(rest[i], rest[i + 1]) {
        assert marked(path[i + 1], path[i + 1 + 1]) == other(path[i + 1], path[i + 1 + 1]);
      }
      PathSame(marked, other, rest);
      assert marked(path[0], path[0 + 1]) == other(path[0], path[0 + 1]);
    }
  }
}
