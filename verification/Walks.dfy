/** Walks along the edges of a graph: what can be reached, and which walks come back. */
module Walks {
  import opened Ordering

  /** Whether there is an edge from the first to the second. */
  type Edges<!T> = (T, T) -> bool

  ghost predicate StepAt<T(!new)>(edges: Edges<T>, w: seq<T>, k: nat)
    requires k + 1 < |w|
  {
    edges(w[k], w[k + 1])
  }

  ghost predicate Walk<T(!new)>(edges: Edges<T>, w: seq<T>)
  {
    w != [] && forall k: nat :: k + 1 < |w| ==> StepAt(edges, w, k)
  }

  /** The walk ends where it has been before. */
  ghost predicate Closes<T(!new)>(w: seq<T>)
  {
    w != [] && w[|w| - 1] in w[..|w| - 1]
  }

  ghost predicate WalkBetween<T(!new)>(edges: Edges<T>, w: seq<T>, a: T, b: T)
  {
    Walk(edges, w) && w[0] == a && w[|w| - 1] == b
  }

  ghost predicate Reaches<T(!new)>(edges: Edges<T>, a: T, b: T)
  {
    exists w :: WalkBetween(edges, w, a, b)
  }

  /** There is a cycle to be reached from `a`. */
  ghost predicate CycleFrom<T(!new)>(edges: Edges<T>, a: T)
  {
    exists w :: Walk(edges, w) && w[0] == a && Closes(w)
  }

  lemma ReachesSelf<T(!new)>(edges: Edges<T>, a: T)
    ensures Reaches(edges, a, a)
  {
    assert WalkBetween(edges, [a], a, a);
  }

  lemma WalkOn<T(!new)>(edges: Edges<T>, w: seq<T>, b: T)
    requires Walk(edges, w) && edges(w[|w| - 1], b)
    ensures Walk(edges, w + [b])
  {
    var longer := w + [b];
    forall k: nat | k + 1 < |longer| ensures StepAt(edges, longer, k) {
      assert k + 1 < |w| ==> StepAt(edges, w, k);
    }
  }

  /** The part of a walk from `i` to `j`. */
  lemma WalkPart<T(!new)>(edges: Edges<T>, w: seq<T>, i: nat, j: nat)
    requires Walk(edges, w) && i <= j < |w|
    ensures WalkBetween(edges, w[i..j + 1], w[i], w[j])
  {
    var part := w[i..j + 1];
    forall k: nat | k + 1 < |part| ensures StepAt(edges, part, k) {
      assert StepAt(edges, w, i + k);
    }
  }

  lemma ReachesOn<T(!new)>(edges: Edges<T>, a: T, b: T, c: T)
    requires Reaches(edges, a, b) && edges(b, c)
    ensures Reaches(edges, a, c)
  {
    var w :| WalkBetween(edges, w, a, b);
    WalkOn(edges, w, c);
    assert WalkBetween(edges, w + [c], a, c);
  }

  lemma {:induction false} ReachesThrough<T(!new)>(edges: Edges<T>, a: T, w: seq<T>)
    requires Walk(edges, w) && Reaches(edges, a, w[0])
    ensures Reaches(edges, a, w[|w| - 1])
    decreases |w|
  {
    if |w| > 1 {
      WalkPart(edges, w, 0, |w| - 2);
      var init := w[..|w| - 1];
      assert w[0..|w| - 2 + 1] == init;
      ReachesThrough(edges, a, init);
      assert StepAt(edges, w, |w| - 2);
      ReachesOn(edges, a, w[|w| - 2], w[|w| - 1]);
    }
  }

  lemma ReachesTransitive<T(!new)>(edges: Edges<T>, a: T, b: T, c: T)
    requires Reaches(edges, a, b) && Reaches(edges, b, c)
    ensures Reaches(edges, a, c)
  {
    var w :| WalkBetween(edges, w, b, c);
    ReachesThrough(edges, a, w);
  }

  /** A node with an edge back to where it was reached from is on a cycle. */
  lemma BackEdgeCloses<T(!new)>(edges: Edges<T>, a: T, b: T)
    requires Reaches(edges, a, b) && edges(b, a)
    ensures CycleFrom(edges, a)
  {
    var w :| WalkBetween(edges, w, a, b);
    WalkOn(edges, w, a);
    var longer := w + [a];
    assert longer[..|w|] == w;
    assert Closes(longer);
  }

  lemma ReturnCloses<T(!new)>(edges: Edges<T>, w: seq<T>, i: nat, j: nat)
    requires Walk(edges, w) && i < j < |w| && w[i] == w[j]
    ensures CycleFrom(edges, w[0])
  {
    WalkPart(edges, w, 0, j);
    var part := w[0..j + 1];
    assert part[..|part| - 1][i] == part[|part| - 1];
    assert Closes(part);
  }

  /** A cycle that can be reached from behind an edge can be reached from in front of it. */
  lemma CycleBefore<T(!new)>(edges: Edges<T>, a: T, b: T)
    requires edges(a, b) && CycleFrom(edges, b)
    ensures CycleFrom(edges, a)
  {
    var w :| Walk(edges, w) && w[0] == b && Closes(w);
    var longer := [a] + w;
    forall k: nat | k + 1 < |longer| ensures StepAt(edges, longer, k) {
      assert k > 0 ==> StepAt(edges, w, k - 1);
    }
    assert longer[..|w|] == [a] + w[..|w| - 1];
    assert Closes(longer);
  }

  lemma CycleAfterReach<T(!new)>(edges: Edges<T>, a: T, b: T)
    requires Reaches(edges, a, b) && CycleFrom(edges, b)
    ensures CycleFrom(edges, a)
  {
    var w :| WalkBetween(edges, w, a, b);
    CycleFromStart(edges, w);
  }

  lemma {:induction false} CycleFromStart<T(!new)>(edges: Edges<T>, w: seq<T>)
    requires Walk(edges, w) && CycleFrom(edges, w[|w| - 1])
    ensures CycleFrom(edges, w[0])
    decreases |w|
  {
    if |w| > 1 {
      assert StepAt(edges, w, 0);
      WalkPart(edges, w, 1, |w| - 1);
      assert w[1..|w| - 1 + 1] == w[1..];
      CycleFromStart(edges, w[1..]);
      CycleBefore(edges, w[0], w[1]);
    }
  }

  /** From where a cycle can be reached some edge leads to where it can be reached. */
  lemma CycleNext<T(!new)>(edges: Edges<T>, a: T) returns (b: T)
    requires CycleFrom(edges, a)
    ensures edges(a, b) && CycleFrom(edges, b)
  {
    var w :| Walk(edges, w) && w[0] == a && Closes(w);
    var n := |w| - 1;
    b := w[1];
    assert StepAt(edges, w, 0);
    var i: nat :| i < n && w[i] == w[n];
    WalkPart(edges, w, 1, n);
    var rest := w[1..n + 1];
    if i > 0 {
      assert rest[..|rest| - 1][i - 1] == rest[|rest| - 1];
      assert Closes(rest);
    } else {
      assert WalkBetween(edges, rest, b, a);
      BackEdgeCloses(edges, b, a);
    }
  }

  /** The first place where a walk comes back. */
  lemma {:induction false} FirstReturn<T(!new)>(w: seq<T>, m: nat) returns (n: nat)
    requires m < |w| && w[m] in w[..m]
    ensures n <= m && w[n] in w[..n] && forall x, y :: 0 <= x < y < n ==> w[x] != w[y]
  {
    if x: nat, y: nat :| x < y < m && w[x] == w[y] {
      assert w[y] in w[..y] by {
        assert w[..y][x] == w[y];
      }
      n := FirstReturn(w, y);
    } else {
      n := m;
    }
  }

  // ---------- a rank on what has no cycle ----------

  /** What can be reached from `a` by at least one edge. */
  ghost predicate Beyond<T(!new)>(edges: Edges<T>, a: T, b: T)
  {
    exists m :: edges(a, m) && Reaches(edges, m, b)
  }

  /** How many of the nodes lie beyond `a`. */
  ghost function Height<T(!new)>(edges: Edges<T>, nodes: set<T>, a: T): nat
  {
    |set b | b in nodes && Beyond(edges, a, b)|
  }

  /** Where no cycle can be reached, every edge leads to a node with less beyond it. */
  lemma HeightFalls<T(!new)>(edges: Edges<T>, nodes: set<T>, a: T, b: T)
    requires edges(a, b) && b in nodes && !CycleFrom(edges, a)
    ensures Height(edges, nodes, b) < Height(edges, nodes, a)
  {
    var fromA := set x | x in nodes && Beyond(edges, a, x);
    var fromB := set x | x in nodes && Beyond(edges, b, x);
    ReachesSelf(edges, b);
    assert b in fromA;
    if Beyond(edges, b, b) {
      var m :| edges(b, m) && Reaches(edges, m, b);
      BackEdgeCloses(edges, m, b);
      CycleBefore(edges, b, m);
      CycleBefore(edges, a, b);
    }
    forall x | x in fromB ensures x in fromA {
      var m :| edges(b, m) && Reaches(edges, m, x);
      ReachesSelf(edges, b);
      ReachesOn(edges, b, b, m);
      ReachesTransitive(edges, b, m, x);
    }
    SmallerSet(fromB, fromA - {b});
  }
}
