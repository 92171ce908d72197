/** Inserting nodes: `append_child` and `insert_before` with their guard against cycles, and which
    cycles of the serializer's visits it lets through. */
module HtmlInsertion {
  import opened Wrappers
  import opened Ordering
  import opened HtmlSerializer
  import opened HtmlWorklist
  import opened HtmlCycles
  import opened Walks

  /** The arena, the host of every shadow root, and the document node. */
  datatype Tree = Tree(nodes: Arena, hosts: map<NodeId, NodeId>, document: NodeId)

  predicate Exists(t: Tree, id: NodeId)
  {
    GetNode(t.nodes, id).Some?
  }

  function ParentOf(arena: Arena, id: NodeId): Option<NodeId>
  {
    match GetNode(arena, id)
    case Some(node) => node.parent
    case None => None
  }

  // ---------- the guard ----------

  function HostIncludingParent(t: Tree, id: NodeId): Option<NodeId>
  {
    var parent := ParentOf(t.nodes, id);
    if parent.Some? then parent else if id in t.hosts then Some(t.hosts[id]) else None
  }

  /** Climbing from `current` comes to `child` within `steps`, or does not end within them. */
  predicate ClimbsTo(t: Tree, current: Option<NodeId>, child: NodeId, steps: nat)
    decreases steps
  {
    steps == 0 ||
    (current.Some? &&
     (current.value == child || ClimbsTo(t, HostIncludingParent(t, current.value), child, steps - 1)))
  }

  predicate CanBeAncestor(t: Tree, id: NodeId)
  {
    Children(t.nodes, id) != [] || id in t.hosts.Values
  }

  /** `would_create_host_including_cycle`. */
  predicate Refused(t: Tree, parent: NodeId, child: NodeId)
  {
    CanBeAncestor(t, child) && ClimbsTo(t, Some(parent), child, |t.nodes| + 1)
  }

  // ---------- the insertion ----------

  function Without(ids: seq<NodeId>, id: NodeId): (r: seq<NodeId>)
    ensures forall k :: k in r <==> k in ids && k != id
    ensures Distinct(ids) ==> Distinct(r)
  {
    if ids == [] then []
    else
      var last := ids[|ids| - 1];
      var init := ids[..|ids| - 1];
      assert ids == init + [last];
      DistinctSnoc(init, last);
      DistinctSnoc(Without(init, id), last);
      if last == id then Without(init, id) else Without(init, id) + [last]
  }

  function WithChildren(arena: Arena, id: NodeId, children: seq<NodeId>): (r: Arena)
    ensures |r| == |arena|
  {
    match GetNode(arena, id)
    case Some(node) => arena[id := Some(node.(children := children))]
    case None => arena
  }

  function WithParent(arena: Arena, id: NodeId, parent: Option<NodeId>): (r: Arena)
    ensures |r| == |arena|
  {
    match GetNode(arena, id)
    case Some(node) => arena[id := Some(node.(parent := parent))]
    case None => arena
  }

  /** `detach_for_reparent`: the document and shadow roots stay where they are. */
  function Detached(t: Tree, id: NodeId): Arena
  {
    if id == t.document || id in t.hosts then t.nodes
    else
      var parent := ParentOf(t.nodes, id);
      var left := if parent.Some? then WithChildren(t.nodes, parent.value, Without(Children(t.nodes, parent.value), id))
                  else t.nodes;
      WithParent(left, id, None)
  }

  function Placed(arena: Arena, parent: NodeId, child: NodeId, i: nat): Arena
    requires i <= |Children(arena, parent)|
  {
    var ids := Children(arena, parent);
    WithParent(WithChildren(arena, parent, ids[..i] + [child] + ids[i..]), child, Some(parent))
  }

  function Place(arena: Arena, parent: NodeId, before: Option<NodeId>): (i: nat)
    ensures i <= |Children(arena, parent)|
  {
    if before.Some? then FirstIndex(Children(arena, parent), before.value) else |Children(arena, parent)|
  }

  function FirstIndex(ids: seq<NodeId>, id: NodeId): (i: nat)
    ensures i <= |ids|
  {
    if ids == [] || ids[0] == id then 0 else 1 + FirstIndex(ids[1..], id)
  }

  /** `child` among the children of `parent`, in front of `before` or last. */
  function Inserted(t: Tree, parent: NodeId, child: NodeId, before: Option<NodeId>): Tree
  {
    var apart := Detached(t, child);
    t.(nodes := Placed(apart, parent, child, Place(apart, parent, before)))
  }

  predicate MayAppend(t: Tree, parent: NodeId, child: NodeId)
  {
    && parent != child && Exists(t, parent) && Exists(t, child) && child !in t.hosts
    && !Refused(t, parent, child)
  }

  function AfterAppend(t: Tree, parent: NodeId, child: NodeId): Tree
  {
    if MayAppend(t, parent, child) then Inserted(t, parent, child, None) else t
  }

  predicate MayInsertBefore(t: Tree, existing: NodeId, child: NodeId)
  {
    && existing != child && ParentOf(t.nodes, existing).Some? && Exists(t, child) && child !in t.hosts
    && !Refused(t, ParentOf(t.nodes, existing).value, child)
  }

  function AfterInsertBefore(t: Tree, existing: NodeId, child: NodeId): Tree
  {
    if MayInsertBefore(t, existing, child)
    then Inserted(t, ParentOf(t.nodes, existing).value, child, Some(existing)) else t
  }

  // ---------- the tree object ----------

  class DomTree {
    var nodes: Arena
    const hosts: map<NodeId, NodeId>
    const document: NodeId

    ghost function State(): Tree
      reads this
    {
      Tree(nodes, hosts, document)
    }

    constructor (nodes: Arena, hosts: map<NodeId, NodeId>, document: NodeId)
      ensures State() == Tree(nodes, hosts, document)
    {
      this.nodes, this.hosts, this.document := nodes, hosts, document;
    }

    /** The walk from the destination to its root, over at most as many nodes as there are slots. */
    method WouldCreateCycle(parent: NodeId, child: NodeId) returns (refused: bool)
      ensures refused == Refused(State(), parent, child)
    {
      if !CanBeAncestor(Tree(nodes, hosts, document), child) {
        return false;
      }
      var current := Some(parent);
      for i := 0 to |nodes| + 1
        invariant ClimbsTo(State(), Some(parent), child, |nodes| + 1)
              <==> ClimbsTo(State(), current, child, |nodes| + 1 - i)
      {
        if current.None? {
          return false;
        }
        if current.value == child {
          return true;
        }
        current := HostIncludingParent(Tree(nodes, hosts, document), current.value);
      }
      return true;
    }

    method AppendChild(parent: NodeId, child: NodeId)
      modifies `nodes
      ensures State() == AfterAppend(old(State()), parent, child)
    {
      if parent == child {
        return;
      }
      var refused := WouldCreateCycle(parent, child);
      if GetNode(nodes, parent).None? || GetNode(nodes, child).None? || child in hosts || refused {
        return;
      }
      Detach(child);
      Put(parent, child, |Children(nodes, parent)|);
    }

    method InsertBefore(existing: NodeId, child: NodeId)
      modifies `nodes
      ensures State() == AfterInsertBefore(old(State()), existing, child)
    {
      if existing == child {
        return;
      }
      var parent := ParentOf(nodes, existing);
      if parent.None? {
        return;
      }
      var refused := WouldCreateCycle(parent.value, child);
      if GetNode(nodes, child).None? || child in hosts || refused {
        return;
      }
      Detach(child);
      Put(parent.value, child, FirstIndex(Children(nodes, parent.value), existing));
    }

    method Detach(id: NodeId)
      modifies `nodes
      ensures nodes == Detached(old(State()), id)
    {
      if id == document || id in hosts {
        return;
      }
      var parent := ParentOf(nodes, id);
      if parent.Some? {
        nodes := WithChildren(nodes, parent.value, Without(Children(nodes, parent.value), id));
      }
      nodes := WithParent(nodes, id, None);
    }

    method Put(parent: NodeId, child: NodeId, i: nat)
      requires i <= |Children(nodes, parent)|
      modifies `nodes
      ensures nodes == Placed(old(nodes), parent, child, i)
    {
      var ids := Children(nodes, parent);
      nodes := WithChildren(nodes, parent, ids[..i] + [child] + ids[i..]);
      nodes := WithParent(nodes, child, Some(parent));
    }
  }

  // ---------- what an insertion changes ----------

  ghost predicate IsContents(arena: Arena, k: NodeId)
  {
    exists a: NodeId :: HasContents(arena, a) && ContentSource(arena, a) == k
  }

  /** Nodes are owned once, parent links and child lists agree, template contents are no shadow
      roots, and the document has no parent. */
  ghost predicate Sound(t: Tree)
  {
    && OwnedOnce(t.nodes)
    && (forall p: NodeId, k: NodeId :: k in Children(t.nodes, p) <==> ParentOf(t.nodes, k) == Some(p))
    && (forall r :: r in t.hosts ==> !IsContents(t.nodes, r))
    && ParentOf(t.nodes, t.document).None?
  }

  /** Slot `x` holds the same node but for its links. */
  predicate SameData(arena: Arena, after: Arena, x: NodeId)
  {
    var node, now := GetNode(arena, x), GetNode(after, x);
    (node.Some? <==> now.Some?) && (node.Some? ==> now.value.data == node.value.data)
  }

  lemma WithChildrenAt(arena: Arena, id: NodeId, children: seq<NodeId>, x: NodeId)
    ensures var r := WithChildren(arena, id, children);
      && SameData(arena, r, x) && ParentOf(r, x) == ParentOf(arena, x)
      && Children(r, x) == if x == id && GetNode(arena, id).Some? then children else Children(arena, x)
  {
  }

  lemma WithParentAt(arena: Arena, id: NodeId, parent: Option<NodeId>, x: NodeId)
    ensures var r := WithParent(arena, id, parent);
      && SameData(arena, r, x) && Children(r, x) == Children(arena, x)
      && ParentOf(r, x) == if x == id && GetNode(arena, id).Some? then parent else ParentOf(arena, x)
  {
  }

  lemma DetachedAt(t: Tree, c: NodeId, x: NodeId)
    requires Sound(t) && Exists(t, c) && c !in t.hosts
    ensures var r := Detached(t, c);
      && SameData(t.nodes, r, x)
      && (forall k :: k in Children(r, x) <==> k in Children(t.nodes, x) && k != c)
      && Distinct(Children(r, x))
      && ParentOf(r, x) == if x == c then None else ParentOf(t.nodes, x)
  {
    ChildrenDistinct(t.nodes, x);
    var parent := ParentOf(t.nodes, c);
    if c != t.document {
      if parent.Some? {
        var ids := Without(Children(t.nodes, parent.value), c);
        WithChildrenAt(t.nodes, parent.value, ids, x);
        WithChildrenAt(t.nodes, parent.value, ids, c);
        WithParentAt(WithChildren(t.nodes, parent.value, ids), c, None, x);
      } else {
        WithParentAt(t.nodes, c, None, x);
      }
    }
  }

  lemma PutIn(ids: seq<NodeId>, i: nat, c: NodeId)
    requires i <= |ids| && Distinct(ids) && c !in ids
    ensures var r := ids[..i] + [c] + ids[i..];
      Distinct(r) && forall k :: k in r <==> k in ids || k == c
  {
    var r := ids[..i] + [c] + ids[i..];
    assert ids == ids[..i] + ids[i..];
    forall x, y | 0 <= x < y < |r| ensures r[x] != r[y] {
      assert r[x] == if x < i then ids[x] else if x == i then c else ids[x - 1];
      assert r[y] == if y < i then ids[y] else if y == i then c else ids[y - 1];
    }
  }

  /** An insertion changes the lists of the old and the new parent and the node's own link. */
  lemma InsertedAt(t: Tree, p: NodeId, c: NodeId, before: Option<NodeId>, x: NodeId)
    requires Sound(t) && p != c && Exists(t, p) && Exists(t, c) && c !in t.hosts
    ensures var r := Inserted(t, p, c, before).nodes;
      && SameData(t.nodes, r, x)
      && (forall k :: k in Children(r, x) <==> (k != c && k in Children(t.nodes, x)) || (k == c && x == p))
      && Distinct(Children(r, x))
      && ParentOf(r, x) == if x == c then Some(p) else ParentOf(t.nodes, x)
  {
    var apart := Detached(t, c);
    DetachedAt(t, c, x);
    DetachedAt(t, c, p);
    DetachedAt(t, c, c);
    var i := Place(apart, p, before);
    var ids := Children(apart, p);
    PutIn(ids, i, c);
    var put := ids[..i] + [c] + ids[i..];
    WithChildrenAt(apart, p, put, x);
    WithChildrenAt(apart, p, put, c);
    WithParentAt(WithChildren(apart, p, put), c, Some(p), x);
  }

  /** The children of the new parent are the others in their order, with the node in front of the one
      it was inserted before, or last. */
  lemma InsertedInPlace(t: Tree, p: NodeId, c: NodeId, before: Option<NodeId>)
    returns (front: seq<NodeId>, back: seq<NodeId>)
    requires Sound(t) && p != c && Exists(t, p) && Exists(t, c) && c !in t.hosts && before != Some(c)
    ensures Children(Inserted(t, p, c, before).nodes, p) == front + [c] + back
    ensures front + back == Without(Children(t.nodes, p), c)
    ensures if before.Some? && before.value in Children(t.nodes, p) then back != [] && back[0] == before.value
            else back == []
  {
    var apart := Detached(t, c);
    var i, ids := Place(apart, p, before), Children(apart, p);
    front, back := ids[..i], ids[i..];
    DetachedChildren(t, c, p);
    DetachedAt(t, c, p);
    PlacedChildren(apart, p, c, i);
    assert front + back == ids;
    if before.Some? {
      FirstIndexIs(ids, before.value);
    }
  }

  lemma PlacedChildren(arena: Arena, p: NodeId, c: NodeId, i: nat)
    requires GetNode(arena, p).Some? && i <= |Children(arena, p)|
    ensures Children(Placed(arena, p, c, i), p) == Children(arena, p)[..i] + [c] + Children(arena, p)[i..]
  {
    var put := Children(arena, p)[..i] + [c] + Children(arena, p)[i..];
    WithChildrenAt(arena, p, put, p);
    WithParentAt(WithChildren(arena, p, put), c, Some(p), p);
  }

  lemma {:induction false} FirstIndexIs(ids: seq<NodeId>, id: NodeId)
    ensures if id in ids then FirstIndex(ids, id) < |ids| && ids[FirstIndex(ids, id)] == id
            else FirstIndex(ids, id) == |ids|
  {
    if ids != [] && ids[0] != id {
      FirstIndexIs(ids[1..], id);
    }
  }

  lemma DetachedChildren(t: Tree, c: NodeId, x: NodeId)
    requires Sound(t) && Exists(t, c) && c !in t.hosts
    ensures Children(Detached(t, c), x) == Without(Children(t.nodes, x), c)
  {
    var parent := ParentOf(t.nodes, c);
    assert c in Children(t.nodes, x) <==> parent == Some(x);
    if parent != Some(x) {
      NoneWithout(Children(t.nodes, x), c);
    }
    if c != t.document && parent.Some? {
      var ids := Without(Children(t.nodes, parent.value), c);
      WithChildrenAt(t.nodes, parent.value, ids, x);
      WithParentAt(WithChildren(t.nodes, parent.value, ids), c, None, x);
    } else if c != t.document {
      WithParentAt(t.nodes, c, None, x);
    }
  }

  lemma WithoutSnoc(ids: seq<NodeId>, last: NodeId, id: NodeId)
    ensures Without(ids + [last], id) == Without(ids, id) + if last == id then [] else [last]
  {
    assert (ids + [last])[..|ids|] == ids;
    assert Without(ids, id) + [] == Without(ids, id);
  }

  lemma {:induction false} NoneWithout(ids: seq<NodeId>, id: NodeId)
    requires id !in ids
    ensures Without(ids, id) == ids
  {
    if ids != [] {
      var init, last := ids[..|ids| - 1], ids[|ids| - 1];
      NoneWithout(init, id);
      WithoutSnoc(init, last, id);
      assert ids == init + [last];
    }
  }

  /** Taking a node out of a list leaves the others in their order. */
  lemma {:induction false} WithoutInOrder(a: seq<NodeId>, id: NodeId, b: seq<NodeId>)
    requires id !in a && id !in b
    ensures Without(a + [id] + b, id) == a + b
    decreases |b|
  {
    if b == [] {
      NoneWithout(a, id);
      WithoutSnoc(a, id, id);
      assert a + [id] + b == a + [id] && a + b == a + [];
    } else {
      var init, last := b[..|b| - 1], b[|b| - 1];
      WithoutInOrder(a, id, init);
      WithoutSnoc(a + [id] + init, last, id);
      assert b == init + [last];
      assert a + [id] + b == a + [id] + init + [last];
      assert a + b == a + init + [last];
    }
  }

  lemma SizeStays(t: Tree, p: NodeId, c: NodeId, before: Option<NodeId>)
    ensures |Inserted(t, p, c, before).nodes| == |t.nodes|
  {
  }

  /** A visit of `a` goes on to the children of `p`. */
  predicate Fills(arena: Arena, a: NodeId, p: NodeId)
  {
    var node := GetNode(arena, a);
    node.Some? && Opens(node.value.data) && ContentSource(arena, a) == p
  }

  lemma EdgesAfter(t: Tree, p: NodeId, c: NodeId, before: Option<NodeId>, a: NodeId, b: NodeId)
    requires Sound(t) && p != c && Exists(t, p) && Exists(t, c) && c !in t.hosts
    ensures VisitEdges(Inserted(t, p, c, before).nodes)(a, b)
       <==> (b != c && VisitEdges(t.nodes)(a, b)) || (b == c && Fills(t.nodes, a, p))
  {
    InsertedAt(t, p, c, before, a);
    InsertedAt(t, p, c, before, ContentSource(t.nodes, a));
  }

  // ---------- ownership after an insertion ----------

  lemma OwnsCases(arena: Arena, a: NodeId, k: NodeId)
    ensures Owns(arena, a, k)
       <==> k in Children(arena, a) || (HasContents(arena, a) && ContentSource(arena, a) == k)
  {
  }

  lemma OwnsAfter(t: Tree, p: NodeId, c: NodeId, before: Option<NodeId>, a: NodeId, k: NodeId)
    requires Sound(t) && p != c && Exists(t, p) && Exists(t, c) && c !in t.hosts
    ensures var r := Inserted(t, p, c, before).nodes;
      && HasContents(r, a) == HasContents(t.nodes, a) && ContentSource(r, a) == ContentSource(t.nodes, a)
      && (!IsContents(t.nodes, c) ==>
            (Owns(r, a, k) <==> (k != c && Owns(t.nodes, a, k)) || (k == c && a == p)))
  {
    var r := Inserted(t, p, c, before).nodes;
    InsertedAt(t, p, c, before, a);
    OwnsCases(t.nodes, a, k);
    OwnsCases(r, a, k);
  }

  lemma OwnsDistinctAfter(t: Tree, p: NodeId, c: NodeId, before: Option<NodeId>, a: NodeId)
    requires Sound(t) && p != c && Exists(t, p) && Exists(t, c) && c !in t.hosts && !IsContents(t.nodes, c)
    ensures OwnsDistinct(Inserted(t, p, c, before).nodes, a)
  {
    var r := Inserted(t, p, c, before).nodes;
    InsertedAt(t, p, c, before, a);
    if HasContents(t.nodes, a) {
      ContentsNoChild(t.nodes, a, a);
      DistinctSnoc(Children(r, a), ContentSource(r, a));
    }
  }

  /** Template contents are the one kind of node whose insertion gives a node a second owner. */
  lemma OwnedOnceKept(t: Tree, p: NodeId, c: NodeId, before: Option<NodeId>)
    requires Sound(t) && p != c && Exists(t, p) && Exists(t, c) && c !in t.hosts
    ensures OwnedOnce(Inserted(t, p, c, before).nodes) <==> !IsContents(t.nodes, c)
  {
    var r := Inserted(t, p, c, before).nodes;
    if a: NodeId :| HasContents(t.nodes, a) && ContentSource(t.nodes, a) == c {
      OwnsAfter(t, p, c, before, a, c);
      InsertedAt(t, p, c, before, p);
      if OwnedOnce(r) {
        ContentsNoChild(r, a, p);
      }
    } else {
      forall a: NodeId, k: NodeId
        ensures Owns(r, a, k) <==> (k != c && Owns(t.nodes, a, k)) || (k == c && a == p)
      {
        OwnsAfter(t, p, c, before, a, k);
      }
      forall a: NodeId ensures OwnsDistinct(r, a) {
        OwnsDistinctAfter(t, p, c, before, a);
      }
      SizeStays(t, p, c, before);
    }
  }

  /** The tree stays sound exactly when neither template contents nor the document is inserted. */
  lemma SoundKeptExactly(t: Tree, p: NodeId, c: NodeId, before: Option<NodeId>)
    requires Sound(t) && p != c && Exists(t, p) && Exists(t, c) && c !in t.hosts
    ensures Sound(Inserted(t, p, c, before)) <==> !IsContents(t.nodes, c) && c != t.document
  {
    var u := Inserted(t, p, c, before);
    OwnedOnceKept(t, p, c, before);
    forall x: NodeId
      ensures ParentOf(u.nodes, x) == if x == c then Some(p) else ParentOf(t.nodes, x)
      ensures HasContents(u.nodes, x) == HasContents(t.nodes, x)
      ensures ContentSource(u.nodes, x) == ContentSource(t.nodes, x)
      ensures forall k :: k in Children(u.nodes, x)
                     <==> (k != c && k in Children(t.nodes, x)) || (k == c && x == p)
    {
      InsertedAt(t, p, c, before, x);
    }
  }

  // ---------- which insertions close a cycle ----------

  /** Visits lead from `c` along `w` to the children of `p`. */
  ghost predicate Leads(arena: Arena, w: seq<NodeId>, c: NodeId, p: NodeId)
  {
    Walk(VisitEdges(arena), w) && w[0] == c && Fills(arena, w[|w| - 1], p)
  }

  lemma NoReturn(edges: Edges<NodeId>, w: seq<NodeId>, i: nat, j: nat)
    requires Walk(edges, w) && !CycleFrom(edges, w[0]) && i < j < |w|
    ensures w[i] != w[j]
  {
    if w[i] == w[j] {
      ReturnCloses(edges, w, i, j);
    }
  }

  lemma {:induction false} LeastAgain(w: seq<NodeId>, c: NodeId, n: nat) returns (j: nat)
    requires 0 < n < |w| && w[n] == c
    ensures 0 < j <= n && w[j] == c && forall k :: 0 < k < j ==> w[k] != c
  {
    if k :| 0 < k < n && w[k] == c {
      j := LeastAgain(w, c, k);
    } else {
      j := n;
    }
  }

  /** `after` are the edges once `c` is a child of `p` and of no other node. */
  ghost predicate Moved(arena: Arena, after: Edges<NodeId>, p: NodeId, c: NodeId)
  {
    forall a: NodeId, b: NodeId :: EdgeMoved(arena, after, p, c, a, b)
  }

  predicate EdgeMoved(arena: Arena, after: Edges<NodeId>, p: NodeId, c: NodeId, a: NodeId, b: NodeId)
  {
    after(a, b) <==> (b != c && VisitEdges(arena)(a, b)) || (b == c && Fills(arena, a, p))
  }

  lemma LeadingCloses(arena: Arena, after: Edges<NodeId>, p: NodeId, c: NodeId, w: seq<NodeId>)
    requires Moved(arena, after, p, c)
    requires !CycleFrom(VisitEdges(arena), c) && Leads(arena, w, c, p)
    ensures CycleFrom(after, c)
  {
    forall k: nat | k + 1 < |w| ensures StepAt(after, w, k) {
      assert StepAt(VisitEdges(arena), w, k);
      NoReturn(VisitEdges(arena), w, 0, k + 1);
      assert EdgeMoved(arena, after, p, c, w[k], w[k + 1]);
    }
    assert WalkBetween(after, w, c, w[|w| - 1]);
    assert EdgeMoved(arena, after, p, c, w[|w| - 1], c);
    BackEdgeCloses(after, c, w[|w| - 1]);
  }

  /** Up to where it comes to `c` again, a walk after the insertion is one from before. */
  lemma WalkBefore(arena: Arena, after: Edges<NodeId>, p: NodeId, c: NodeId, w: seq<NodeId>)
    requires Moved(arena, after, p, c)
    requires Walk(after, w) && forall k :: 0 < k < |w| ==> w[k] != c
    ensures Walk(VisitEdges(arena), w)
  {
    forall k: nat | k + 1 < |w| ensures StepAt(VisitEdges(arena), w, k) {
      assert StepAt(after, w, k);
      assert EdgeMoved(arena, after, p, c, w[k], w[k + 1]);
    }
  }

  lemma ClosingLeads(arena: Arena, after: Edges<NodeId>, p: NodeId, c: NodeId, w: seq<NodeId>) returns (j: nat)
    requires Moved(arena, after, p, c) && !CycleFrom(VisitEdges(arena), c)
    requires Walk(after, w) && w[0] == c && Closes(w)
    ensures j <= |w| && Leads(arena, w[..j], c, p)
  {
    var n := |w| - 1;
    if forall k :: 0 < k <= n ==> w[k] != c {
      WalkBefore(arena, after, p, c, w);
      assert false;
    }
    var k :| 0 < k <= n && w[k] == c;
    j := LeastAgain(w, c, k);
    WalkPart(after, w, 0, j - 1);
    assert w[0..j - 1 + 1] == w[..j];
    WalkBefore(arena, after, p, c, w[..j]);
    assert StepAt(after, w, j - 1);
    assert EdgeMoved(arena, after, p, c, w[j - 1], c);
  }

  /** An insertion closes a cycle of visits exactly when visits lead from the node to the children
      of its new parent. */
  lemma InsertionClosesExactly(t: Tree, p: NodeId, c: NodeId, before: Option<NodeId>)
    requires Sound(t) && p != c && Exists(t, p) && Exists(t, c) && c !in t.hosts
    requires !CycleFrom(VisitEdges(t.nodes), c)
    ensures CycleFrom(VisitEdges(Inserted(t, p, c, before).nodes), c) <==> exists w :: Leads(t.nodes, w, c, p)
  {
    var after := VisitEdges(Inserted(t, p, c, before).nodes);
    forall a: NodeId, b: NodeId ensures EdgeMoved(t.nodes, after, p, c, a, b) {
      EdgesAfter(t, p, c, before, a, b);
    }
    if w :| Leads(t.nodes, w, c, p) {
      LeadingCloses(t.nodes, after, p, c, w);
    }
    if CycleFrom(after, c) {
      var w: seq<NodeId> :| Walk(after, w) && w[0] == c && Closes(w);
      var j := ClosingLeads(t.nodes, after, p, c, w);
    }
  }

  // ---------- what the guard sees ----------

  /** The walk goes through the contents of a template. */
  ghost predicate Crosses(arena: Arena, w: seq<NodeId>)
  {
    exists k :: 0 <= k < |w| && HasContents(arena, w[k])
  }

  lemma StepUp(t: Tree, w: seq<NodeId>, j: nat)
    requires Sound(t) && Walk(VisitEdges(t.nodes), w) && 0 < j < |w|
    ensures ParentOf(t.nodes, w[j]) == Some(ContentSource(t.nodes, w[j - 1]))
  {
    assert StepAt(VisitEdges(t.nodes), w, j - 1);
  }

  /** Without template contents in between, the climb comes to the node. */
  lemma {:induction false} ClimbsAlong(t: Tree, w: seq<NodeId>, j: nat, steps: nat)
    requires Sound(t) && Walk(VisitEdges(t.nodes), w) && j < |w|
    requires !Crosses(t.nodes, w)
    ensures ClimbsTo(t, Some(ContentSource(t.nodes, w[j])), w[0], steps)
    decreases j
  {
    assert !HasContents(t.nodes, w[j]);
    if j > 0 && steps > 0 {
      StepUp(t, w, j);
      ClimbsAlong(t, w, j - 1, steps - 1);
    }
  }

  /** Template contents have no parent, so the climb ends at the last of them on the way. */
  lemma {:induction false} ClimbStops(t: Tree, w: seq<NodeId>, k: nat, j: nat, steps: nat)
    requires Sound(t) && Walk(VisitEdges(t.nodes), w) && k <= j < |w|
    requires HasContents(t.nodes, w[k]) && forall i :: k < i <= j ==> !HasContents(t.nodes, w[i])
    requires !IsContents(t.nodes, w[0]) && !CycleFrom(VisitEdges(t.nodes), w[0])
    requires steps >= j - k + 2
    ensures !ClimbsTo(t, Some(ContentSource(t.nodes, w[j])), w[0], steps)
    decreases j
  {
    if j == k {
      var contents := ContentSource(t.nodes, w[k]);
      assert IsContents(t.nodes, contents);
      if ParentOf(t.nodes, contents).Some? {
        ContentsNoChild(t.nodes, w[k], ParentOf(t.nodes, contents).value);
      }
      assert HostIncludingParent(t, contents).None?;
    } else {
      NoReturn(VisitEdges(t.nodes), w, 0, j);
      StepUp(t, w, j);
      ClimbStops(t, w, k, j - 1, steps - 1);
    }
  }

  lemma {:induction false} LastCrossing(arena: Arena, w: seq<NodeId>, n: nat) returns (k: nat)
    requires n <= |w| && exists i :: 0 <= i < n && HasContents(arena, w[i])
    ensures k < n && HasContents(arena, w[k]) && forall i :: k < i < n ==> !HasContents(arena, w[i])
    decreases n
  {
    if HasContents(arena, w[n - 1]) {
      k := n - 1;
    } else {
      k := LastCrossing(arena, w, n - 1);
    }
  }

  lemma {:induction false} DistinctFit(w: seq<NodeId>, n: nat) returns (ids: set<NodeId>)
    requires Distinct(w) && forall i :: 0 <= i < |w| ==> w[i] < n
    ensures |ids| == |w| <= n && forall x :: x in ids <==> x in w
    decreases |w|
  {
    if w == [] {
      ids := {};
    } else {
      var init, last := w[..|w| - 1], w[|w| - 1];
      assert w == init + [last];
      DistinctSnoc(init, last);
      ids := DistinctFit(init, n);
      ids := ids + {last};
    }
    SmallerSlots(ids, n);
  }

  lemma WalkFits(t: Tree, w: seq<NodeId>)
    requires OwnedOnce(t.nodes) && Walk(VisitEdges(t.nodes), w) && Exists(t, w[0])
    requires !CycleFrom(VisitEdges(t.nodes), w[0])
    ensures |w| <= |t.nodes|
  {
    forall i, j | 0 <= i < j < |w| ensures w[i] != w[j] {
      NoReturn(VisitEdges(t.nodes), w, i, j);
    }
    forall i | 0 <= i < |w| ensures w[i] < |t.nodes| {
      if i > 0 {
        assert StepAt(VisitEdges(t.nodes), w, i - 1);
        NextIsDistinct(t.nodes, w[i - 1]);
      }
    }
    var ids := DistinctFit(w, |t.nodes|);
  }

  /** Of the insertions that close a cycle the guard refuses exactly those that do so without
      template contents on the way. */
  lemma GuardSeesExactly(t: Tree, p: NodeId, c: NodeId, w: seq<NodeId>)
    requires Sound(t) && p != c && Exists(t, c) && !IsContents(t.nodes, c)
    requires !CycleFrom(VisitEdges(t.nodes), c) && Leads(t.nodes, w, c, p)
    ensures Refused(t, p, c) <==> !Crosses(t.nodes, w)
  {
    var n := |w| - 1;
    if Crosses(t.nodes, w) {
      var k := LastCrossing(t.nodes, w, |w|);
      WalkFits(t, w);
      ClimbStops(t, w, k, n, |t.nodes| + 1);
    } else {
      ClimbsAlong(t, w, n, |t.nodes| + 1);
      assert !HasContents(t.nodes, w[0]) && !HasContents(t.nodes, w[n]);
      assert n > 0;
      assert StepAt(VisitEdges(t.nodes), w, 0);
    }
  }

  // ---------- which insertions cut the markup off ----------

  /** Visits lead from `c` to the children of `p` through the contents of a template. */
  ghost predicate LeadsThroughContents(arena: Arena, c: NodeId, p: NodeId)
  {
    exists w :: Leads(arena, w, c, p) && Crosses(arena, w)
  }

  /** An insertion that the guard lets through closes a cycle exactly when visits led from the node
      to the children of its new parent through template contents. */
  lemma AllowedClosesExactly(t: Tree, p: NodeId, c: NodeId, before: Option<NodeId>)
    requires Sound(t) && p != c && Exists(t, p) && Exists(t, c) && c !in t.hosts && !IsContents(t.nodes, c)
    requires !CycleFrom(VisitEdges(t.nodes), c) && !Refused(t, p, c)
    ensures CycleFrom(VisitEdges(Inserted(t, p, c, before).nodes), c) <==> LeadsThroughContents(t.nodes, c, p)
  {
    InsertionClosesExactly(t, p, c, before);
    if w :| Leads(t.nodes, w, c, p) {
      GuardSeesExactly(t, p, c, w);
    }
  }

  lemma RefusedLeads(t: Tree, p: NodeId, c: NodeId)
    requires Sound(t) && p != c && Exists(t, c) && !IsContents(t.nodes, c)
    requires !CycleFrom(VisitEdges(t.nodes), c) && Refused(t, p, c)
    ensures !LeadsThroughContents(t.nodes, c, p)
  {
    if w :| Leads(t.nodes, w, c, p) && Crosses(t.nodes, w) {
      GuardSeesExactly(t, p, c, w);
    }
  }

  /** After `append_child` the child's markup is cut off exactly when, before it, visits led from
      the child to the children of the parent through the contents of a template: the walk of the
      guard never steps from template contents to their template. */
  lemma AppendCutsExactly(t: Tree, p: NodeId, c: NodeId)
    requires Sound(t) && !CycleFrom(VisitEdges(t.nodes), c) && !IsContents(t.nodes, c)
    ensures var after := AfterAppend(t, p, c).nodes;
      StackAfter(after, OuterWork(c), StepCap(after)) != []
      <==> p != c && Exists(t, p) && Exists(t, c) && c !in t.hosts && LeadsThroughContents(t.nodes, c, p)
  {
    var after := AfterAppend(t, p, c).nodes;
    if p != c && Exists(t, p) && Exists(t, c) && c !in t.hosts {
      if Refused(t, p, c) {
        RefusedLeads(t, p, c);
      } else {
        OwnedOnceKept(t, p, c, None);
        AllowedClosesExactly(t, p, c, None);
      }
    }
    OuterCapExactly(after, c);
  }

  /** The same of `insert_before`, whose parent is that of the node inserted in front of. */
  lemma InsertBeforeCutsExactly(t: Tree, existing: NodeId, c: NodeId)
    requires Sound(t) && !CycleFrom(VisitEdges(t.nodes), c) && !IsContents(t.nodes, c)
    ensures var after, parent := AfterInsertBefore(t, existing, c).nodes, ParentOf(t.nodes, existing);
      StackAfter(after, OuterWork(c), StepCap(after)) != []
      <==> && existing != c && Exists(t, c) && c !in t.hosts
           && parent.Some? && parent.value != c && LeadsThroughContents(t.nodes, c, parent.value)
  {
    var after, parent := AfterInsertBefore(t, existing, c).nodes, ParentOf(t.nodes, existing);
    if existing != c && Exists(t, c) && c !in t.hosts && parent.Some? {
      var p := parent.value;
      assert existing in Children(t.nodes, p);
      if p == c {
        assert Refused(t, p, c);
      } else if Refused(t, p, c) {
        RefusedLeads(t, p, c);
      } else {
        OwnedOnceKept(t, p, c, Some(existing));
        AllowedClosesExactly(t, p, c, Some(existing));
      }
    }
    OuterCapExactly(after, c);
  }

  /** In particular a template appended to its own contents, with or without ordinary children. */
  lemma OwnContentsCut(t: Tree, c: NodeId)
    requires Sound(t) && !CycleFrom(VisitEdges(t.nodes), c) && !IsContents(t.nodes, c) && c !in t.hosts
    requires HasContents(t.nodes, c) && Opens(GetNode(t.nodes, c).value.data)
    requires Exists(t, ContentSource(t.nodes, c))
    ensures var after := AfterAppend(t, ContentSource(t.nodes, c), c).nodes;
      forall n: nat :: StackAfter(after, OuterWork(c), n) != []
  {
    var p := ContentSource(t.nodes, c);
    assert IsContents(t.nodes, p);
    assert Leads(t.nodes, [c], c, p) && Crosses(t.nodes, [c]);
    AppendCutsExactly(t, p, c);
    GuardSeesExactly(t, p, c, [c]);
    OwnedOnceKept(t, p, c, None);
    OuterCapExactly(AfterAppend(t, p, c).nodes, c);
  }

  // Two such trees: an empty template, and one with a text node among its ordinary children.
  const EMPTY_TEMPLATE := Tree([
    Some(Node(None, [], Element("template", [], Some(1)))),
    Some(Node(None, [], Document)),
    Some(Node(None, [], Document))], map[], 2)
  const FILLED_TEMPLATE := Tree([
    Some(Node(None, [3], Element("template", [], Some(1)))),
    Some(Node(None, [], Document)),
    Some(Node(None, [], Document)),
    Some(Node(Some(0), [], TextNode("x")))], map[], 2)

  /** Neither is refused, though the second template can be an ancestor, and both are cut off
      wherever the cap is. */
  lemma TemplatesCut()
    ensures forall t :: t == EMPTY_TEMPLATE || t == FILLED_TEMPLATE ==>
      && Sound(t) && !CycleFrom(VisitEdges(t.nodes), 0)
      && var after := AfterAppend(t, 1, 0).nodes;
         forall n: nat :: StackAfter(after, OuterWork(0), n) != []
    ensures CanBeAncestor(FILLED_TEMPLATE, 0) && !CanBeAncestor(EMPTY_TEMPLATE, 0)
  {
    forall t | t == EMPTY_TEMPLATE || t == FILLED_TEMPLATE
      ensures Sound(t) && !CycleFrom(VisitEdges(t.nodes), 0)
      ensures forall n: nat :: StackAfter(AfterAppend(t, 1, 0).nodes, OuterWork(0), n) != []
    {
      TemplateSound(t);
      OwnContentsCut(t, 0);
    }
  }

  /** One element, node 0, with contents 1 and perhaps one child, node 3; and no other links. */
  ghost predicate OneTemplate(t: Tree, kids: seq<NodeId>)
  {
    && t.hosts == map[] && |t.nodes| >= 3 && (kids == [] || (kids == [3] && |t.nodes| > 3)) && t.document == 2
    && forall x: NodeId :: TemplateSlot(t.nodes, kids, x)
  }

  predicate TemplateSlot(arena: Arena, kids: seq<NodeId>, x: NodeId)
  {
    && Children(arena, x) == (if x == 0 then kids else [])
    && HasContents(arena, x) == (x == 0)
    && ContentSource(arena, x) == (if x == 0 then 1 else x)
    && ParentOf(arena, x) == if x in kids then Some(0) else None
  }

  lemma TemplateSound(t: Tree)
    requires t == EMPTY_TEMPLATE || t == FILLED_TEMPLATE
    ensures Sound(t) && !CycleFrom(VisitEdges(t.nodes), 0) && !IsContents(t.nodes, 0)
    ensures ContentSource(t.nodes, 0) == 1
  {
    var kids := if t == FILLED_TEMPLATE then [3] else [];
    assert OneTemplate(t, kids);
    OneTemplateSound(t, kids);
  }

  lemma OneTemplateSound(t: Tree, kids: seq<NodeId>)
    requires OneTemplate(t, kids)
    ensures Sound(t) && !CycleFrom(VisitEdges(t.nodes), 0) && !IsContents(t.nodes, 0)
    ensures ContentSource(t.nodes, 0) == 1
  {
    assert TemplateSlot(t.nodes, kids, 0) && TemplateSlot(t.nodes, kids, 1);
    OneTemplateOwns(t, kids);
    forall p: NodeId, k: NodeId ensures k in Children(t.nodes, p) <==> ParentOf(t.nodes, k) == Some(p) {
      assert TemplateSlot(t.nodes, kids, p) && TemplateSlot(t.nodes, kids, k);
    }
    assert TemplateSlot(t.nodes, kids, t.document);
    assert !IsContents(t.nodes, 0) by {
      forall a: NodeId ensures HasContents(t.nodes, a) ==> ContentSource(t.nodes, a) != 0 {
        assert TemplateSlot(t.nodes, kids, a);
      }
    }
    if CycleFrom(VisitEdges(t.nodes), 0) {
      var b := CycleNext(VisitEdges(t.nodes), 0);
      assert false;
    }
  }

  lemma OneTemplateOwns(t: Tree, kids: seq<NodeId>)
    requires OneTemplate(t, kids)
    ensures OwnedOnce(t.nodes)
  {
    forall a: NodeId, k: NodeId ensures Owns(t.nodes, a, k) <==> a == 0 && (k == 1 || k in kids) {
      assert TemplateSlot(t.nodes, kids, a);
      OwnsCases(t.nodes, a, k);
    }
    forall a: NodeId ensures OwnsDistinct(t.nodes, a) {
      assert TemplateSlot(t.nodes, kids, a);
    }
  }
}
