/** The explicit-stack serializer against the recursive printer, and its step cap. */
module HtmlWorklist {
  import opened Wrappers
  import opened Text
  import opened Ordering
  import opened HtmlSerializer

  datatype Work = Visit(id: NodeId, includeSelf: bool) | Close(tag: string)

  // ---------- what a stack still prints and costs ----------

  ghost function RenderWork(arena: Arena, shape: Shape, work: Work): string
    requires WellFormed(arena, shape)
  {
    match work
    case Close(tag) => CloseTag(tag)
    case Visit(id, includeSelf) =>
      var node := GetNode(arena, id);
      if includeSelf || node.None? || !node.value.data.Element? then Render(arena, shape, id)
      else if IsVoid(node.value.data.tag) then "" else RenderContents(arena, shape, id)
  }

  /** The top of the stack is its last item. */
  ghost function RenderStack(arena: Arena, shape: Shape, stack: seq<Work>): string
    requires WellFormed(arena, shape)
  {
    if stack == [] then ""
    else RenderWork(arena, shape, stack[|stack| - 1]) + RenderStack(arena, shape, stack[..|stack| - 1])
  }

  /** Work items popped for a node and everything its visit pushes. */
  ghost function Cost(arena: Arena, shape: Shape, id: NodeId): nat
    requires WellFormed(arena, shape)
    decreases shape.rank(id), 2, 0
  {
    match GetNode(arena, id)
    case None => 1
    case Some(node) =>
      match node.data
      case Document => 1 + CostContents(arena, shape, id)
      case Element(tag, _, _) => if IsVoid(tag) then 1 else 2 + CostContents(arena, shape, id)
      case _ => 1
  }

  ghost function CostContents(arena: Arena, shape: Shape, id: NodeId): nat
    requires WellFormed(arena, shape)
    decreases shape.rank(id), 1, 0
  {
    var ids := Children(arena, ContentSource(arena, id));
    assert Below(shape, ids, shape.rank(id)) by { ContentsBelow(arena, shape, id); }
    CostList(arena, shape, ids, shape.rank(id))
  }

  ghost function CostList(arena: Arena, shape: Shape, ids: seq<NodeId>, bound: nat): nat
    requires WellFormed(arena, shape) && Below(shape, ids, bound)
    decreases bound, 0, |ids|
  {
    if ids == [] then 0 else Cost(arena, shape, ids[0]) + CostList(arena, shape, ids[1..], bound)
  }

  lemma ContentsBelow(arena: Arena, shape: Shape, id: NodeId)
    requires WellFormed(arena, shape)
    ensures Below(shape, Children(arena, ContentSource(arena, id)), shape.rank(id))
  {
    var ids := Children(arena, ContentSource(arena, id));
    forall i | 0 <= i < |ids| ensures shape.rank(ids[i]) < shape.rank(id) {
      SourceChildrenBelow(arena, shape, id, ids[i]);
    }
  }

  ghost function CostWork(arena: Arena, shape: Shape, work: Work): (n: nat)
    requires WellFormed(arena, shape)
    ensures n >= 1
  {
    match work
    case Close(_) => 1
    case Visit(id, includeSelf) =>
      var node := GetNode(arena, id);
      if includeSelf || node.None? || !node.value.data.Element? then Cost(arena, shape, id)
      else if IsVoid(node.value.data.tag) then 1 else 1 + CostContents(arena, shape, id)
  }

  ghost function CostStack(arena: Arena, shape: Shape, stack: seq<Work>): nat
    requires WellFormed(arena, shape)
  {
    if stack == [] then 0
    else CostWork(arena, shape, stack[|stack| - 1]) + CostStack(arena, shape, stack[..|stack| - 1])
  }

  // ---------- pushing the children ----------

  /** `child_work`: the children as visits, first child last, so that it is on top. */
  function ChildWork(ids: seq<NodeId>): (work: seq<Work>)
    ensures |work| == |ids|
    ensures forall i :: 0 <= i < |ids| ==> work[i] == Visit(ids[|ids| - 1 - i], true)
  {
    if ids == [] then [] else ChildWork(ids[1..]) + [Visit(ids[0], true)]
  }

  lemma PoppedStack(arena: Arena, shape: Shape, rest: seq<Work>, work: Work)
    requires WellFormed(arena, shape)
    ensures RenderStack(arena, shape, rest + [work]) == RenderWork(arena, shape, work) + RenderStack(arena, shape, rest)
    ensures CostStack(arena, shape, rest + [work]) == CostWork(arena, shape, work) + CostStack(arena, shape, rest)
  {
    var stack := rest + [work];
    assert stack[|stack| - 1] == work && stack[..|stack| - 1] == rest;
  }

  lemma {:induction false} PushedChildren(arena: Arena, shape: Shape, stack: seq<Work>, ids: seq<NodeId>, bound: nat)
    requires WellFormed(arena, shape) && Below(shape, ids, bound)
    ensures RenderStack(arena, shape, stack + ChildWork(ids))
      == RenderList(arena, shape, ids, bound) + RenderStack(arena, shape, stack)
    ensures CostStack(arena, shape, stack + ChildWork(ids))
      == CostList(arena, shape, ids, bound) + CostStack(arena, shape, stack)
  {
    if ids == [] {
      assert stack + ChildWork(ids) == stack;
      assert "" + RenderStack(arena, shape, stack) == RenderStack(arena, shape, stack);
    } else {
      var below := stack + ChildWork(ids[1..]);
      PushedChildren(arena, shape, stack, ids[1..], bound);
      assert stack + ChildWork(ids) == below + [Visit(ids[0], true)];
      PoppedStack(arena, shape, below, Visit(ids[0], true));
      Regroup(Render(arena, shape, ids[0]), RenderList(arena, shape, ids[1..], bound),
        RenderStack(arena, shape, stack));
    }
  }

  /** What one pop writes and pushes. */
  function Written(arena: Arena, work: Work): string
  {
    match work
    case Close(tag) => CloseTag(tag)
    case Visit(id, includeSelf) =>
      match GetNode(arena, id)
      case None => ""
      case Some(node) =>
        match node.data
        case Document => ""
        case Element(tag, attrs, _) => if includeSelf then OpenTag(tag, attrs) else ""
        case _ => PrintLeaf(arena, node)
  }

  function Pushed(arena: Arena, work: Work): seq<Work>
  {
    if work.Close? then []
    else
      match GetNode(arena, work.id)
      case None => []
      case Some(node) =>
        match node.data
        case Document => ChildWork(node.children)
        case Element(tag, _, _) =>
          if IsVoid(tag) then []
          else (if work.includeSelf then [Close(tag)] else []) + ChildWork(Children(arena, Source(node.data, work.id)))
        case _ => []
  }

  ghost predicate Conserves(arena: Arena, shape: Shape, rest: seq<Work>, work: Work)
    requires WellFormed(arena, shape)
  {
    && RenderWork(arena, shape, work) + RenderStack(arena, shape, rest)
       == Written(arena, work) + RenderStack(arena, shape, rest + Pushed(arena, work))
    && CostWork(arena, shape, work) + CostStack(arena, shape, rest)
       == 1 + CostStack(arena, shape, rest + Pushed(arena, work))
  }

  /** A pop conserves what is printed in all, and uses up exactly one unit of cost. */
  lemma PopConserves(arena: Arena, shape: Shape, rest: seq<Work>, work: Work)
    requires WellFormed(arena, shape)
    ensures RenderStack(arena, shape, rest + [work])
      == Written(arena, work) + RenderStack(arena, shape, rest + Pushed(arena, work))
    ensures CostStack(arena, shape, rest + [work]) == 1 + CostStack(arena, shape, rest + Pushed(arena, work))
  {
    PoppedStack(arena, shape, rest, work);
    if work.Visit? && GetNode(arena, work.id).Some? {
      VisitConserves(arena, shape, rest, work);
    } else {
      assert rest + [] == rest;
    }
  }

  lemma VisitConserves(arena: Arena, shape: Shape, rest: seq<Work>, work: Work)
    requires WellFormed(arena, shape) && work.Visit? && GetNode(arena, work.id).Some?
    ensures Conserves(arena, shape, rest, work)
  {
    var data := GetNode(arena, work.id).value.data;
    if data.Element? && !IsVoid(data.tag) && work.includeSelf {
      TaggedConserves(arena, shape, rest, work);
    } else if data.Document? || (data.Element? && !IsVoid(data.tag)) {
      BareConserves(arena, shape, rest, work);
    } else {
      LeafConserves(arena, shape, rest, work);
    }
  }

  lemma TaggedConserves(arena: Arena, shape: Shape, rest: seq<Work>, work: Work)
    requires WellFormed(arena, shape) && work.Visit? && GetNode(arena, work.id).Some?
    requires var data := GetNode(arena, work.id).value.data;
      data.Element? && !IsVoid(data.tag) && work.includeSelf
    ensures Conserves(arena, shape, rest, work)
  {
    var data := GetNode(arena, work.id).value.data;
    ElementConserves(arena, shape, rest, work.id, data.tag, data.attrs);
    assert Pushed(arena, work) == [Close(data.tag)] + ChildWork(Children(arena, ContentSource(arena, work.id)));
  }

  lemma BareConserves(arena: Arena, shape: Shape, rest: seq<Work>, work: Work)
    requires WellFormed(arena, shape) && work.Visit? && GetNode(arena, work.id).Some?
    requires var data := GetNode(arena, work.id).value.data;
      data.Document? || (data.Element? && !IsVoid(data.tag) && !work.includeSelf)
    ensures Conserves(arena, shape, rest, work)
  {
    ContentsConserve(arena, shape, rest, work.id);
    assert Pushed(arena, work) == ChildWork(Children(arena, ContentSource(arena, work.id)));
    assert "" + RenderStack(arena, shape, rest + Pushed(arena, work))
      == RenderStack(arena, shape, rest + Pushed(arena, work));
  }

  /** Nodes that push nothing: void elements and everything without children. */
  lemma LeafConserves(arena: Arena, shape: Shape, rest: seq<Work>, work: Work)
    requires WellFormed(arena, shape) && work.Visit? && GetNode(arena, work.id).Some?
    requires var data := GetNode(arena, work.id).value.data;
      !data.Document? && (data.Element? ==> IsVoid(data.tag))
    ensures Conserves(arena, shape, rest, work)
  {
    assert rest + Pushed(arena, work) == rest;
    var data := GetNode(arena, work.id).value.data;
    if data.Element? {
      assert OpenTag(data.tag, data.attrs) + "" == OpenTag(data.tag, data.attrs);
    }
  }

  lemma ContentsConserve(arena: Arena, shape: Shape, rest: seq<Work>, id: NodeId)
    requires WellFormed(arena, shape)
    ensures var ids := Children(arena, ContentSource(arena, id));
      && RenderContents(arena, shape, id) + RenderStack(arena, shape, rest)
        == RenderStack(arena, shape, rest + ChildWork(ids))
      && CostContents(arena, shape, id) + CostStack(arena, shape, rest)
        == CostStack(arena, shape, rest + ChildWork(ids))
      && [] + ChildWork(ids) == ChildWork(ids)
  {
    ContentsBelow(arena, shape, id);
    PushedChildren(arena, shape, rest, Children(arena, ContentSource(arena, id)), shape.rank(id));
  }

  lemma ElementConserves(arena: Arena, shape: Shape, rest: seq<Work>, id: NodeId, tag: string, attrs: seq<Attribute>)
    requires WellFormed(arena, shape)
    ensures var ids := Children(arena, ContentSource(arena, id));
      && OpenTag(tag, attrs) + (RenderContents(arena, shape, id) + CloseTag(tag)) + RenderStack(arena, shape, rest)
         == OpenTag(tag, attrs) + RenderStack(arena, shape, rest + ([Close(tag)] + ChildWork(ids)))
      && 1 + CostContents(arena, shape, id) + CostStack(arena, shape, rest)
         == CostStack(arena, shape, rest + ([Close(tag)] + ChildWork(ids)))
  {
    var ids := Children(arena, ContentSource(arena, id));
    var under := rest + [Close(tag)];
    ContentsBelow(arena, shape, id);
    PushedChildren(arena, shape, under, ids, shape.rank(id));
    assert under[|under| - 1] == Close(tag) && under[..|under| - 1] == rest;
    assert rest + ([Close(tag)] + ChildWork(ids)) == under + ChildWork(ids);
    Regroup(RenderContents(arena, shape, id), CloseTag(tag), RenderStack(arena, shape, rest));
    Regroup(OpenTag(tag, attrs), RenderContents(arena, shape, id) + CloseTag(tag), RenderStack(arena, shape, rest));
  }

  // ---------- counting the nodes of a subtree ----------

  ghost function Subtree(arena: Arena, shape: Shape, id: NodeId): set<NodeId>
    requires WellFormed(arena, shape)
    decreases shape.rank(id), 1, 0
  {
    match GetNode(arena, id)
    case None => {}
    case Some(node) =>
      assert Below(shape, Owned(node), shape.rank(id)) by { assert OwnsProperly(arena, shape, id); }
      {id} + Forest(arena, shape, Owned(node), shape.rank(id))
  }

  ghost function Forest(arena: Arena, shape: Shape, ids: seq<NodeId>, bound: nat): set<NodeId>
    requires WellFormed(arena, shape) && Below(shape, ids, bound)
    decreases bound, 0, |ids|
  {
    if ids == [] then {} else Subtree(arena, shape, ids[0]) + Forest(arena, shape, ids[1..], bound)
  }

  lemma {:induction false} ForestMember(arena: Arena, shape: Shape, ids: seq<NodeId>, bound: nat, x: NodeId)
    requires WellFormed(arena, shape) && Below(shape, ids, bound)
    ensures x in Forest(arena, shape, ids, bound) <==> exists i :: 0 <= i < |ids| && x in Subtree(arena, shape, ids[i])
    decreases |ids|
  {
    if ids != [] {
      ForestMember(arena, shape, ids[1..], bound, x);
      if x in Forest(arena, shape, ids[1..], bound) {
        var i :| 0 <= i < |ids[1..]| && x in Subtree(arena, shape, ids[1..][i]);
        assert ids[i + 1] == ids[1..][i];
      }
      if i :| 0 < i < |ids| && x in Subtree(arena, shape, ids[i]) {
        assert ids[1..][i - 1] == ids[i];
      }
    }
  }

  /** A subtree member other than its root has its owner in the subtree, and ranks below the root. */
  lemma {:induction false} OwnerInside(arena: Arena, shape: Shape, id: NodeId, x: NodeId)
    requires WellFormed(arena, shape) && x in Subtree(arena, shape, id)
    ensures x < |arena| && shape.rank(x) <= shape.rank(id)
    ensures x != id ==>
      && shape.rank(x) < shape.rank(id)
      && shape.owner(x).Some? && shape.owner(x).value in Subtree(arena, shape, id)
      && shape.rank(x) < shape.rank(shape.owner(x).value)
    decreases shape.rank(id)
  {
    var node := GetNode(arena, id).value;
    var ids := Owned(node);
    assert Below(shape, ids, shape.rank(id)) by { assert OwnsProperly(arena, shape, id); }
    if x != id {
      ForestMember(arena, shape, ids, shape.rank(id), x);
      var i :| 0 <= i < |ids| && x in Subtree(arena, shape, ids[i]);
      OwnedIsBelow(arena, shape, id, ids[i]);
      OwnerInside(arena, shape, ids[i], x);
      if x != ids[i] {
        ForestMember(arena, shape, ids, shape.rank(id), shape.owner(x).value);
      }
    }
  }

  /** Two subtrees with a common member are nested. */
  lemma {:induction false} Nested(arena: Arena, shape: Shape, a: NodeId, b: NodeId, x: NodeId)
    requires WellFormed(arena, shape) && x in Subtree(arena, shape, a) && x in Subtree(arena, shape, b)
    ensures a in Subtree(arena, shape, b) || b in Subtree(arena, shape, a)
    decreases shape.rank(a) - shape.rank(x)
  {
    OwnerInside(arena, shape, a, x);
    OwnerInside(arena, shape, b, x);
    if x != a && x != b {
      OwnerInside(arena, shape, a, shape.owner(x).value);
      Nested(arena, shape, a, b, shape.owner(x).value);
    }
  }

  lemma SiblingOutside(arena: Arena, shape: Shape, a: NodeId, b: NodeId)
    requires WellFormed(arena, shape) && a != b
    requires shape.owner(a).Some? && shape.owner(a) == shape.owner(b)
    requires shape.rank(b) < shape.rank(shape.owner(a).value)
    ensures a !in Subtree(arena, shape, b)
  {
    if a in Subtree(arena, shape, b) {
      OwnerInside(arena, shape, b, a);
      OwnerInside(arena, shape, b, shape.owner(a).value);
    }
  }

  /** Siblings have disjoint subtrees. */
  lemma SiblingsDisjoint(arena: Arena, shape: Shape, a: NodeId, b: NodeId)
    requires WellFormed(arena, shape) && a != b
    requires shape.owner(a).Some? && shape.owner(a) == shape.owner(b)
    requires shape.rank(a) < shape.rank(shape.owner(a).value) && shape.rank(b) < shape.rank(shape.owner(a).value)
    ensures Subtree(arena, shape, a) !! Subtree(arena, shape, b)
  {
    SiblingOutside(arena, shape, a, b);
    SiblingOutside(arena, shape, b, a);
    forall x | x in Subtree(arena, shape, a) ensures x !in Subtree(arena, shape, b) {
      if x in Subtree(arena, shape, b) {
        Nested(arena, shape, a, b, x);
      }
    }
  }

  ghost predicate Siblings(arena: Arena, shape: Shape, ids: seq<NodeId>, owner: NodeId)
  {
    && Distinct(ids)
    && forall i :: 0 <= i < |ids| ==>
         GetNode(arena, ids[i]).Some? && shape.owner(ids[i]) == Some(owner) && shape.rank(ids[i]) < shape.rank(owner)
  }

  lemma ChildrenAreSiblings(arena: Arena, shape: Shape, id: NodeId)
    requires WellFormed(arena, shape)
    ensures Siblings(arena, shape, Children(arena, id), id)
  {
    if GetNode(arena, id).Some? {
      var node := GetNode(arena, id).value;
      assert OwnsProperly(arena, shape, id);
      assert forall i :: 0 <= i < |node.children| ==> Owned(node)[i] == node.children[i];
    }
  }

  lemma ContentsInSubtree(arena: Arena, shape: Shape, id: NodeId)
    requires WellFormed(arena, shape) && GetNode(arena, id).Some?
    ensures var ids := Children(arena, ContentSource(arena, id));
      && Below(shape, ids, shape.rank(id))
      && Forest(arena, shape, ids, shape.rank(id)) <= Subtree(arena, shape, id) - {id}
  {
    var ids := Children(arena, ContentSource(arena, id));
    ContentsBelow(arena, shape, id);
    forall x | x in Forest(arena, shape, ids, shape.rank(id)) ensures x in Subtree(arena, shape, id) && x != id {
      ForestMember(arena, shape, ids, shape.rank(id), x);
      var i :| 0 <= i < |ids| && x in Subtree(arena, shape, ids[i]);
      OwnerInside(arena, shape, ids[i], x);
      SourceChildrenBelow(arena, shape, id, ids[i]);
      var source := ContentSource(arena, id);
      ChildInSubtree(arena, shape, source, ids[i], x);
      if source != id {
        ChildInSubtree(arena, shape, id, source, x);
      }
    }
  }

  lemma ChildInSubtree(arena: Arena, shape: Shape, id: NodeId, k: NodeId, x: NodeId)
    requires WellFormed(arena, shape) && GetNode(arena, id).Some? && k in Owned(GetNode(arena, id).value)
    requires x in Subtree(arena, shape, k)
    ensures x in Subtree(arena, shape, id)
  {
    var ids := Owned(GetNode(arena, id).value);
    assert Below(shape, ids, shape.rank(id)) by { assert OwnsProperly(arena, shape, id); }
    ForestMember(arena, shape, ids, shape.rank(id), x);
  }

  /** The cost of a node is at most two items for every node of its subtree. */
  lemma {:induction false} CostBound(arena: Arena, shape: Shape, id: NodeId)
    requires WellFormed(arena, shape) && GetNode(arena, id).Some?
    ensures Cost(arena, shape, id) <= 2 * |Subtree(arena, shape, id)|
    decreases shape.rank(id), 2, 0
  {
    var sub := Subtree(arena, shape, id);
    assert id in sub && |sub| == 1 + |sub - {id}|;
    ContentsCostBound(arena, shape, id);
  }

  lemma {:induction false} ContentsCostBound(arena: Arena, shape: Shape, id: NodeId)
    requires WellFormed(arena, shape) && GetNode(arena, id).Some?
    ensures CostContents(arena, shape, id) <= 2 * |Subtree(arena, shape, id) - {id}|
    decreases shape.rank(id), 1, 0
  {
    var source := ContentSource(arena, id);
    var ids := Children(arena, source);
    ContentsInSubtree(arena, shape, id);
    ChildrenAreSiblings(arena, shape, source);
    ListCostBound(arena, shape, ids, shape.rank(id), source);
    SmallerSet(Forest(arena, shape, ids, shape.rank(id)), Subtree(arena, shape, id) - {id});
  }

  lemma {:induction false} ListCostBound(arena: Arena, shape: Shape, ids: seq<NodeId>, bound: nat, owner: NodeId)
    requires WellFormed(arena, shape) && Below(shape, ids, bound) && Siblings(arena, shape, ids, owner)
    ensures CostList(arena, shape, ids, bound) <= 2 * |Forest(arena, shape, ids, bound)|
    decreases bound, 0, |ids|
  {
    if ids != [] {
      var first, rest := Subtree(arena, shape, ids[0]), Forest(arena, shape, ids[1..], bound);
      CostBound(arena, shape, ids[0]);
      ListCostBound(arena, shape, ids[1..], bound, owner);
      FirstDisjoint(arena, shape, ids, bound, owner);
      assert |first + rest| == |first| + |rest|;
    }
  }

  lemma FirstDisjoint(arena: Arena, shape: Shape, ids: seq<NodeId>, bound: nat, owner: NodeId)
    requires WellFormed(arena, shape) && Below(shape, ids, bound) && Siblings(arena, shape, ids, owner) && ids != []
    ensures Subtree(arena, shape, ids[0]) !! Forest(arena, shape, ids[1..], bound)
  {
    forall x | x in Forest(arena, shape, ids[1..], bound) ensures x !in Subtree(arena, shape, ids[0]) {
      ForestMember(arena, shape, ids[1..], bound, x);
      var i :| 0 <= i < |ids[1..]| && x in Subtree(arena, shape, ids[1..][i]);
      assert ids[1..][i] == ids[i + 1];
      SiblingsDisjoint(arena, shape, ids[0], ids[i + 1]);
    }
  }

  ghost function Slots(n: nat): (slots: set<NodeId>)
    ensures |slots| == n
    ensures forall i: nat :: i in slots <==> i < n
  {
    if n == 0 then {} else Slots(n - 1) + {n - 1}
  }

  lemma SubtreeFits(arena: Arena, shape: Shape, id: NodeId)
    requires WellFormed(arena, shape)
    ensures |Subtree(arena, shape, id)| <= |arena|
  {
    forall x | x in Subtree(arena, shape, id) ensures x in Slots(|arena|) {
      OwnerInside(arena, shape, id, x);
    }
    SmallerSet(Subtree(arena, shape, id), Slots(|arena|));
  }

  /** Neither entry point's work ever exceeds two items for every slot. */
  lemma CostWithinCap(arena: Arena, shape: Shape, id: NodeId)
    requires WellFormed(arena, shape)
    ensures Cost(arena, shape, id) <= 2 * |arena| + 16
    ensures CostContents(arena, shape, id) <= 2 * |arena| + 16
  {
    SubtreeFits(arena, shape, id);
    if GetNode(arena, id).Some? {
      CostBound(arena, shape, id);
      ContentsCostBound(arena, shape, id);
      SmallerSet(Subtree(arena, shape, id) - {id}, Subtree(arena, shape, id));
    }
  }

  // ---------- the serializer ----------

  function StepCap(arena: Arena): nat
  {
    2 * |arena| + 16
  }

  /** The stack after one pop and its pushes. */
  function AfterPop(arena: Arena, stack: seq<Work>): seq<Work>
  {
    if stack == [] then [] else stack[..|stack| - 1] + Pushed(arena, stack[|stack| - 1])
  }

  function WrittenTop(arena: Arena, stack: seq<Work>): string
  {
    if stack == [] then "" else Written(arena, stack[|stack| - 1])
  }

  type Stepper = seq<Work> -> seq<Work>

  /** What `n` steps leave of a stack, fewer if it is empty sooner. */
  function Drained(step: Stepper, stack: seq<Work>, n: nat): seq<Work>
    decreases n
  {
    if n == 0 || stack == [] then stack else Drained(step, step(stack), n - 1)
  }

  /** What those steps write. */
  function DrainedText(step: Stepper, write: seq<Work> -> string, stack: seq<Work>, n: nat): string
    decreases n
  {
    if n == 0 || stack == [] then "" else write(stack) + DrainedText(step, write, step(stack), n - 1)
  }

  function Pop(arena: Arena): Stepper
  {
    stack => AfterPop(arena, stack)
  }

  function Write(arena: Arena): seq<Work> -> string
  {
    stack => WrittenTop(arena, stack)
  }

  function StackAfter(arena: Arena, stack: seq<Work>, n: nat): seq<Work>
  {
    Drained(Pop(arena), stack, n)
  }

  function TextWithin(arena: Arena, stack: seq<Work>, n: nat): string
  {
    DrainedText(Pop(arena), Write(arena), stack, n)
  }

  /** `serialize_worklist`, on any arena: it writes what the first `2 * slots + 16` pops write, and
      hits its cap exactly when work is left then. */
  method SerializeWorklist(arena: Arena, initial: seq<Work>) returns (buf: string, capHit: bool)
    ensures buf == TextWithin(arena, initial, StepCap(arena))
    ensures capHit <==> StackAfter(arena, initial, StepCap(arena)) != []
  {
    buf, capHit := "", false;
    var stack := initial;
    var maxSteps, steps := 2 * |arena| + 16, 0;
    assert buf + TextWithin(arena, initial, maxSteps) == TextWithin(arena, initial, maxSteps);
    while stack != []
      invariant steps <= maxSteps && Progress(arena, initial, buf, stack, steps)
      decreases maxSteps - steps
    {
      ProgressTurn(arena, initial, buf, stack, steps);
      steps := steps + 1;
      if steps > maxSteps {
        capHit := true;
        return;
      }
      var written, pushed := Perform(arena, stack[|stack| - 1]);
      buf := buf + written;
      stack := stack[..|stack| - 1] + pushed;
    }
    ProgressTurn(arena, initial, buf, stack, steps);
  }

  /** After `steps` pops `buf` is written and `stack` is left. */
  ghost predicate Progress(arena: Arena, initial: seq<Work>, buf: string, stack: seq<Work>, steps: nat)
  {
    && steps <= StepCap(arena)
    && StackAfter(arena, initial, StepCap(arena)) == StackAfter(arena, stack, StepCap(arena) - steps)
    && TextWithin(arena, initial, StepCap(arena)) == buf + TextWithin(arena, stack, StepCap(arena) - steps)
  }

  lemma ProgressTurn(arena: Arena, initial: seq<Work>, buf: string, stack: seq<Work>, steps: nat)
    requires Progress(arena, initial, buf, stack, steps)
    ensures stack == [] || steps == StepCap(arena) ==>
      TextWithin(arena, initial, StepCap(arena)) == buf && StackAfter(arena, initial, StepCap(arena)) == stack
    ensures stack != [] && steps < StepCap(arena) ==>
      Progress(arena, initial, buf + WrittenTop(arena, stack), AfterPop(arena, stack), steps + 1)
  {
    assert buf + "" == buf;
    if stack != [] && steps < StepCap(arena) {
      Regroup(buf, WrittenTop(arena, stack), TextWithin(arena, AfterPop(arena, stack), StepCap(arena) - steps - 1));
    }
  }

  ghost predicate Lowers(step: Stepper, cost: seq<Work> -> nat, stack: seq<Work>)
  {
    stack != [] ==> cost(stack) == 1 + cost(step(stack))
  }

  ghost predicate Keeps(step: Stepper, write: seq<Work> -> string, render: seq<Work> -> string, stack: seq<Work>)
  {
    render(stack) == if stack == [] then "" else write(stack) + render(step(stack))
  }

  /** Steps that lower a cost by one each empty a stack in as many steps as it costs. */
  lemma {:induction false} DrainedOut(step: Stepper, cost: seq<Work> -> nat, stack: seq<Work>, n: nat)
    requires forall s :: Lowers(step, cost, s)
    requires cost(stack) <= n
    ensures Drained(step, stack, n) == []
    decreases n
  {
    if stack != [] {
      assert Lowers(step, cost, stack);
      DrainedOut(step, cost, step(stack), n - 1);
    }
  }

  /** And steps that keep the sum of what is written and what is still to print write it all. */
  lemma {:induction false} DrainedPrints(step: Stepper, write: seq<Work> -> string, render: seq<Work> -> string,
                                         cost: seq<Work> -> nat, stack: seq<Work>, n: nat)
    requires forall s :: Lowers(step, cost, s)
    requires forall s :: Keeps(step, write, render, s)
    requires cost(stack) <= n
    ensures DrainedText(step, write, stack, n) == render(stack)
    decreases n
  {
    assert Keeps(step, write, render, stack);
    if stack != [] {
      assert Lowers(step, cost, stack);
      DrainedPrints(step, write, render, cost, step(stack), n - 1);
    }
  }

  /** On a well-formed arena as many pops as the stack costs empty it, and write its rendering. */
  lemma RunsOut(arena: Arena, shape: Shape, stack: seq<Work>, n: nat)
    requires WellFormed(arena, shape) && CostStack(arena, shape, stack) <= n
    ensures StackAfter(arena, stack, n) == [] && TextWithin(arena, stack, n) == RenderStack(arena, shape, stack)
  {
    ghost var cost := (s: seq<Work>) => if WellFormed(arena, shape) then CostStack(arena, shape, s) else 0;
    ghost var render := (s: seq<Work>) => if WellFormed(arena, shape) then RenderStack(arena, shape, s) else "";
    forall s ensures Lowers(Pop(arena), cost, s) && Keeps(Pop(arena), Write(arena), render, s) {
      if s != [] {
        PopsOne(arena, shape, s);
      }
    }
    DrainedOut(Pop(arena), cost, stack, n);
    DrainedPrints(Pop(arena), Write(arena), render, cost, stack, n);
  }

  lemma PopsOne(arena: Arena, shape: Shape, stack: seq<Work>)
    requires WellFormed(arena, shape) && stack != []
    ensures var next := AfterPop(arena, stack);
      && RenderStack(arena, shape, stack) == Written(arena, stack[|stack| - 1]) + RenderStack(arena, shape, next)
      && CostStack(arena, shape, stack) == 1 + CostStack(arena, shape, next)
  {
    var rest, work := stack[..|stack| - 1], stack[|stack| - 1];
    assert stack == rest + [work];
    PopConserves(arena, shape, rest, work);
  }

  /** The body of the loop for one work item. */
  method Perform(arena: Arena, work: Work) returns (written: string, pushed: seq<Work>)
    ensures written == Written(arena, work) && pushed == Pushed(arena, work)
  {
    written, pushed := "", [];
    if work.Close? {
      return "</" + work.tag + ">", [];
    }
    var found := GetNode(arena, work.id);
    if found.None? {
      return;
    }
    var node := found.value;
    match node.data {
      case Document =>
        pushed := ChildWork(Children(arena, work.id));
      case Doctype(name) =>
        written := "<!DOCTYPE " + name + ">";
      case Element(tag, attrs, contents) =>
        if work.includeSelf {
          written := WriteOpenTag(tag, attrs);
        }
        if !IsVoid(tag) {
          if work.includeSelf {
            pushed := [Close(tag)];
          }
          var source := if contents.Some? then contents.value else work.id;
          pushed := pushed + ChildWork(Children(arena, source));
        }
      case TextNode(text) =>
        if ParentIsRaw(arena, node) {
          written := text;
        } else {
          written := AppendEscapedText(text, "");
          assert "" + EscapeText(text) == EscapeText(text);
        }
      case Comment(text) =>
        written := "<!--" + EscapeComment(text) + "-->";
      case ProcessingInstruction(target, data) =>
        written := "<?" + target + " " + data + ">";
    }
  }

  method WriteOpenTag(tag: string, attrs: seq<Attribute>) returns (buf: string)
    ensures buf == OpenTag(tag, attrs)
  {
    buf := "<" + tag;
    var rest := attrs;
    while rest != []
      invariant buf + PrintAttrs(rest) == "<" + tag + PrintAttrs(attrs)
      decreases |rest|
    {
      var attr := rest[0];
      var escaped := AppendEscapedAttr(attr.value, "");
      assert "" + EscapeAttr(attr.value) == EscapeAttr(attr.value);
      var prefix := if attr.prefix.Some? then attr.prefix.value + ":" else "";
      var printed := " " + prefix + attr.local + "=\"" + escaped + "\"";
      Regroup(buf, printed, PrintAttrs(rest[1..]));
      buf := buf + printed;
      rest := rest[1..];
    }
    buf := buf + ">";
  }

  function OuterWork(id: NodeId): seq<Work>
  {
    [Visit(id, true)]
  }

  function InnerWork(arena: Arena, id: NodeId): seq<Work>
  {
    ChildWork(Children(arena, ContentSource(arena, id)))
  }

  function OuterMarkup(arena: Arena, id: NodeId): string
  {
    TextWithin(arena, OuterWork(id), StepCap(arena))
  }

  function InnerMarkup(arena: Arena, id: NodeId): string
  {
    TextWithin(arena, InnerWork(arena, id), StepCap(arena))
  }

  method OuterHtml(arena: Arena, id: NodeId) returns (html: string)
    ensures html == OuterMarkup(arena, id)
  {
    var capHit;
    html, capHit := SerializeWorklist(arena, [Visit(id, true)]);
  }

  method InnerHtml(arena: Arena, id: NodeId) returns (html: string)
    ensures html == InnerMarkup(arena, id)
  {
    var capHit;
    html, capHit := SerializeWorklist(arena, ChildWork(Children(arena, ContentSource(arena, id))));
  }

  /** On every well-formed arena the serializer is the recursive printer, and ends within its cap. */
  lemma SerializerIsPrinter(arena: Arena, shape: Shape, id: NodeId)
    requires WellFormed(arena, shape)
    ensures OuterMarkup(arena, id) == Render(arena, shape, id)
    ensures InnerMarkup(arena, id) == RenderContents(arena, shape, id)
    ensures StackAfter(arena, OuterWork(id), StepCap(arena)) == []
    ensures StackAfter(arena, InnerWork(arena, id), StepCap(arena)) == []
  {
    CostWithinCap(arena, shape, id);
    OneVisit(arena, shape, id);
    RunsOut(arena, shape, OuterWork(id), StepCap(arena));
    ContentsWork(arena, shape, id);
    RunsOut(arena, shape, InnerWork(arena, id), StepCap(arena));
  }

  lemma OneVisit(arena: Arena, shape: Shape, id: NodeId)
    requires WellFormed(arena, shape)
    ensures RenderStack(arena, shape, [Visit(id, true)]) == Render(arena, shape, id)
    ensures CostStack(arena, shape, [Visit(id, true)]) == Cost(arena, shape, id)
  {
    var stack := [Visit(id, true)];
    assert stack[..0] == [];
  }

  lemma ContentsWork(arena: Arena, shape: Shape, id: NodeId)
    requires WellFormed(arena, shape)
    ensures var work := ChildWork(Children(arena, ContentSource(arena, id)));
      && RenderStack(arena, shape, work) == RenderContents(arena, shape, id)
      && CostStack(arena, shape, work) == CostContents(arena, shape, id)
  {
    var ids := Children(arena, ContentSource(arena, id));
    ContentsBelow(arena, shape, id);
    PushedChildren(arena, shape, [], ids, shape.rank(id));
    assert [] + ChildWork(ids) == ChildWork(ids);
  }

  /** What the serializer gives for a non-void element is its open tag, what it gives for the inside
      (a template's contents for a template), and its close tag. */
  lemma OuterWrapsInner(arena: Arena, shape: Shape, id: NodeId)
    requires WellFormed(arena, shape) && GetNode(arena, id).Some?
    requires GetNode(arena, id).value.data.Element? && !IsVoid(GetNode(arena, id).value.data.tag)
    ensures var data := GetNode(arena, id).value.data;
      OuterMarkup(arena, id) == OpenTag(data.tag, data.attrs) + InnerMarkup(arena, id) + CloseTag(data.tag)
  {
    var data := GetNode(arena, id).value.data;
    SerializerIsPrinter(arena, shape, id);
    Regroup(OpenTag(data.tag, data.attrs), RenderContents(arena, shape, id), CloseTag(data.tag));
  }
}
