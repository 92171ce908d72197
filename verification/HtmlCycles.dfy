/** When the serializer hits its cap: exactly when the nodes it visits come back. */
module HtmlCycles {
  import opened Wrappers
  import opened Text
  import opened Ordering
  import opened HtmlSerializer
  import opened HtmlWorklist
  import opened Walks

  // ---------- ownership ----------

  /** `k` is a child of node `a` or its template contents. */
  predicate Owns(arena: Arena, a: NodeId, k: NodeId)
  {
    var node := GetNode(arena, a);
    node.Some? && k in Owned(node.value)
  }

  ghost predicate OwnsDistinct(arena: Arena, a: NodeId)
  {
    var node := GetNode(arena, a);
    node.Some? ==> Distinct(Owned(node.value))
  }

  /** Owned nodes are in the arena, and none is owned twice. */
  ghost predicate OwnedOnce(arena: Arena)
  {
    && (forall a: NodeId, k: NodeId :: Owns(arena, a, k) ==> k < |arena|)
    && (forall a: NodeId, b: NodeId, k: NodeId :: Owns(arena, a, k) && Owns(arena, b, k) ==> a == b)
    && (forall a: NodeId :: OwnsDistinct(arena, a))
  }

  lemma ChildOwned(arena: Arena, a: NodeId, k: NodeId)
    requires k in Children(arena, a)
    ensures Owns(arena, a, k)
  {
  }

  lemma ChildrenDistinct(arena: Arena, a: NodeId)
    requires OwnedOnce(arena)
    ensures Distinct(Children(arena, a)) && forall k :: k in Children(arena, a) ==> k < |arena|
  {
    assert OwnsDistinct(arena, a);
    var ids := Children(arena, a);
    if GetNode(arena, a).Some? {
      assert forall i :: 0 <= i < |ids| ==> Owned(GetNode(arena, a).value)[i] == ids[i];
    }
    forall k | k in ids ensures k < |arena| {
      ChildOwned(arena, a, k);
    }
  }

  lemma OneParent(arena: Arena, a: NodeId, b: NodeId, k: NodeId)
    requires OwnedOnce(arena) && k in Children(arena, a) && k in Children(arena, b)
    ensures a == b
  {
    ChildOwned(arena, a, k);
    ChildOwned(arena, b, k);
  }

  predicate HasContents(arena: Arena, a: NodeId)
  {
    var node := GetNode(arena, a);
    node.Some? && node.value.data.Element? && node.value.data.contents.Some?
  }

  lemma ContentsOwned(arena: Arena, a: NodeId)
    requires HasContents(arena, a)
    ensures Owns(arena, a, ContentSource(arena, a))
  {
  }

  lemma ContentsNoChild(arena: Arena, a: NodeId, b: NodeId)
    requires OwnedOnce(arena) && HasContents(arena, a)
    ensures ContentSource(arena, a) !in Children(arena, b)
  {
    assert OwnsDistinct(arena, a);
    DistinctSnoc(Children(arena, a), ContentSource(arena, a));
    if ContentSource(arena, a) in Children(arena, b) {
      ContentsOwned(arena, a);
      ChildOwned(arena, b, ContentSource(arena, a));
    }
  }

  lemma OneContents(arena: Arena, a: NodeId, b: NodeId)
    requires OwnedOnce(arena) && ContentSource(arena, a) == ContentSource(arena, b)
    requires HasContents(arena, a) && HasContents(arena, b)
    ensures a == b
  {
    ContentsOwned(arena, a);
    ContentsOwned(arena, b);
  }

  // ---------- which nodes a visit leads to ----------

  predicate Opens(data: NodeData)
  {
    data.Document? || (data.Element? && !IsVoid(data.tag))
  }

  /** The nodes whose visits are pushed when `a` is visited. */
  function VisitedNext(arena: Arena, a: NodeId): seq<NodeId>
  {
    var node := GetNode(arena, a);
    if node.Some? && Opens(node.value.data) then Children(arena, ContentSource(arena, a)) else []
  }

  function VisitEdges(arena: Arena): Edges<NodeId>
  {
    (a: NodeId, b: NodeId) => b in VisitedNext(arena, a)
  }

  /** What a visit pushes: at most one closing tag, then its next nodes. */
  lemma PushedOfVisit(arena: Arena, a: NodeId, includeSelf: bool)
    ensures var pushed, visits := Pushed(arena, Visit(a, includeSelf)), ChildWork(VisitedNext(arena, a));
      pushed == visits || exists tag :: pushed == [Close(tag)] + visits
  {
    var node := GetNode(arena, a);
    if node.Some? && node.value.data.Element? && !IsVoid(node.value.data.tag) {
      var visits := ChildWork(VisitedNext(arena, a));
      assert [] + visits == visits;
      assert Pushed(arena, Visit(a, includeSelf))
        == (if includeSelf then [Close(node.value.data.tag)] else []) + visits;
    }
  }

  /** Visiting `a` pushes a visit of `b` exactly when there is an edge from `a` to `b`. */
  lemma EdgesAreVisits(arena: Arena, a: NodeId, b: NodeId)
    ensures VisitEdges(arena)(a, b) <==> Visit(b, true) in Pushed(arena, Visit(a, true))
  {
    PushedOfVisit(arena, a, true);
    ChildWorkVisits(VisitedNext(arena, a), b);
  }

  lemma ChildWorkVisits(ids: seq<NodeId>, b: NodeId)
    ensures Visit(b, true) in ChildWork(ids) <==> b in ids
  {
    var work := ChildWork(ids);
    if b in ids {
      var i :| 0 <= i < |ids| && ids[i] == b;
      assert work[|ids| - 1 - i] == Visit(b, true);
    }
  }

  // ---------- one turn of the loop ----------

  /** A visit is exchanged for the visits it leads to, perhaps above a closing tag. */
  lemma VisitTurn(arena: Arena, rest: seq<Work>, work: Work) returns (under: seq<Work>)
    requires work.Visit?
    ensures under == rest || exists tag :: under == rest + [Close(tag)]
    ensures AfterPop(arena, rest + [work]) == under + ChildWork(VisitedNext(arena, work.id))
  {
    var visits := ChildWork(VisitedNext(arena, work.id));
    PushedOfVisit(arena, work.id, work.includeSelf);
    var pushed := Pushed(arena, work);
    PopParts(arena, rest, work);
    under := rest;
    if pushed != visits {
      var tag :| pushed == [Close(tag)] + visits;
      under := rest + [Close(tag)];
      assert rest + pushed == under + visits;
    }
  }

  lemma PopParts(arena: Arena, rest: seq<Work>, work: Work)
    ensures AfterPop(arena, rest + [work]) == rest + Pushed(arena, work)
  {
    assert (rest + [work])[..|rest|] == rest;
  }

  lemma CloseTurn(arena: Arena, rest: seq<Work>, tag: string)
    ensures AfterPop(arena, rest + [Close(tag)]) == rest
  {
    PopParts(arena, rest, Close(tag));
    assert rest + [] == rest;
  }

  lemma TurnFirst(arena: Arena, stack: seq<Work>, n: nat)
    requires stack != [] && n > 0
    ensures StackAfter(arena, stack, n) == StackAfter(arena, AfterPop(arena, stack), n - 1)
  {
  }

  /** The nodes whose visits wait on a stack. */
  function Waiting(stack: seq<Work>): (ids: set<NodeId>)
    ensures forall x :: x in ids <==> exists i :: 0 <= i < |stack| && stack[i].Visit? && stack[i].id == x
  {
    set i | 0 <= i < |stack| && stack[i].Visit? :: stack[i].id
  }

  lemma WaitingPushed(rest: seq<Work>, ids: seq<NodeId>)
    ensures forall x :: x in Waiting(rest + ChildWork(ids)) <==> x in Waiting(rest) || x in ids
  {
    var stack := rest + ChildWork(ids);
    forall x | x in Waiting(rest) ensures x in Waiting(stack) {
      var i :| 0 <= i < |rest| && rest[i].Visit? && rest[i].id == x;
      assert stack[i] == rest[i];
    }
    forall x | x in ids ensures x in Waiting(stack) {
      var i :| 0 <= i < |ids| && ids[i] == x;
      assert stack[|rest| + (|ids| - 1 - i)] == Visit(x, true);
    }
  }

  lemma WaitingSnoc(rest: seq<Work>, work: Work)
    ensures Waiting(rest + [work]) == Waiting(rest) + if work.Visit? then {work.id} else {}
  {
    var stack := rest + [work];
    forall x | x in Waiting(rest) ensures x in Waiting(stack) {
      var i :| 0 <= i < |rest| && rest[i].Visit? && rest[i].id == x;
      assert stack[i] == rest[i];
    }
    if work.Visit? {
      assert stack[|rest|] == work;
    }
  }

  // ---------- a cycle never ends ----------

  /** A node from which a cycle can be reached waits on the stack. */
  ghost predicate CycleWaits(arena: Arena, stack: seq<Work>)
  {
    exists x :: x in Waiting(stack) && CycleFrom(VisitEdges(arena), x)
  }

  lemma CycleStillWaits(arena: Arena, rest: seq<Work>, work: Work)
    requires CycleWaits(arena, rest + [work])
    ensures CycleWaits(arena, AfterPop(arena, rest + [work]))
  {
    WaitingSnoc(rest, work);
    if work.Visit? {
      var under := VisitTurn(arena, rest, work);
      WaitingPushed(under, VisitedNext(arena, work.id));
      if under != rest {
        WaitingSnoc(rest, under[|rest|]);
      }
      if CycleFrom(VisitEdges(arena), work.id) {
        var b := CycleNext(VisitEdges(arena), work.id);
        assert b in VisitedNext(arena, work.id);
      }
    } else {
      CloseTurn(arena, rest, work.tag);
    }
  }

  ghost predicate StaysAlive(step: Stepper, alive: seq<Work> -> bool, stack: seq<Work>)
  {
    alive(stack) ==> stack != [] && alive(step(stack))
  }

  lemma {:induction false} NeverDrained(step: Stepper, alive: seq<Work> -> bool, stack: seq<Work>, n: nat)
    requires forall s :: StaysAlive(step, alive, s)
    requires alive(stack)
    ensures Drained(step, stack, n) != []
    decreases n
  {
    assert StaysAlive(step, alive, stack);
    if n > 0 {
      NeverDrained(step, alive, step(stack), n - 1);
    }
  }

  /** However many items are popped, work is left. */
  lemma CycleNeverEnds(arena: Arena, stack: seq<Work>, n: nat)
    requires CycleWaits(arena, stack)
    ensures StackAfter(arena, stack, n) != []
  {
    ghost var alive := (s: seq<Work>) => CycleWaits(arena, s);
    forall s ensures StaysAlive(Pop(arena), alive, s) {
      if CycleWaits(arena, s) {
        var rest, work := s[..|s| - 1], s[|s| - 1];
        assert s == rest + [work];
        CycleStillWaits(arena, rest, work);
      }
    }
    NeverDrained(Pop(arena), alive, stack, n);
  }

  // ---------- without a cycle every node is visited once ----------

  function Closings(stack: seq<Work>): nat
  {
    if stack == [] then 0 else Closings(stack[..|stack| - 1]) + if stack[|stack| - 1].Close? then 1 else 0
  }

  /** No cycle can be reached from the children of `top`. */
  ghost predicate NoCycleUnder(arena: Arena, top: NodeId)
  {
    forall c :: c in Children(arena, top) ==> !CycleFrom(VisitEdges(arena), c)
  }

  ghost predicate ReachedFrom(arena: Arena, top: NodeId, b: NodeId)
  {
    exists c :: c in Children(arena, top) && Reaches(VisitEdges(arena), c, b)
  }

  /** `b` is a child of `top` or a seen node leads to it. */
  ghost predicate Entered(arena: Arena, top: NodeId, seen: set<NodeId>, b: NodeId)
  {
    b in Children(arena, top) || exists p :: p in seen && b in VisitedNext(arena, p)
  }

  /** A node under `top` that has been seen or waits to be. */
  ghost predicate Known(arena: Arena, top: NodeId, seen: set<NodeId>, b: NodeId)
  {
    b < |arena| && ReachedFrom(arena, top, b) && Entered(arena, top, seen, b)
  }

  /** No visit of a seen node waits, and no node waits twice. */
  ghost predicate VisitsOnce(stack: seq<Work>, seen: set<NodeId>)
  {
    && Waiting(stack) !! seen
    && forall i, j :: 0 <= i < j < |stack| && stack[i].Visit? && stack[j].Visit? ==> stack[i].id != stack[j].id
  }

  ghost predicate Fresh(arena: Arena, top: NodeId, stack: seq<Work>, seen: set<NodeId>)
  {
    && VisitsOnce(stack, seen)
    && forall b :: b in seen + Waiting(stack) ==> Known(arena, top, seen, b)
  }

  /** A node whose children were entered under `top`, or that is entered from one, has one way in. */
  lemma SourceEntered(arena: Arena, top: NodeId, seen: set<NodeId>, a: NodeId, b: NodeId)
    requires OwnedOnce(arena) && Entered(arena, top, seen, b) && ContentSource(arena, a) == b
    ensures a == b
  {
    if a != b {
      ContentsNoChild(arena, a, top);
      forall p | p in seen ensures b !in VisitedNext(arena, p) {
        ContentsNoChild(arena, a, ContentSource(arena, p));
      }
    }
  }

  /** What a waiting node leads to has not been seen and does not wait. */
  lemma NextIsNew(arena: Arena, top: NodeId, stack: seq<Work>, seen: set<NodeId>, a: NodeId, b: NodeId)
    requires OwnedOnce(arena) && NoCycleUnder(arena, top) && Fresh(arena, top, stack, seen)
    requires a in Waiting(stack) && b in VisitedNext(arena, a)
    ensures b !in seen + Waiting(stack)
  {
    if b in seen + Waiting(stack) {
      assert Known(arena, top, seen, a) && Known(arena, top, seen, b);
      var c :| c in Children(arena, top) && Reaches(VisitEdges(arena), c, a);
      var source := ContentSource(arena, a);
      if b in Children(arena, top) {
        OneParent(arena, top, source, b);
        BackEdgeCloses(VisitEdges(arena), c, a);
        assert false;
      } else {
        var p :| p in seen && b in VisitedNext(arena, p);
        assert Known(arena, top, seen, p);
        OneParent(arena, source, ContentSource(arena, p), b);
        if source == a {
          SourceEntered(arena, top, seen, p, a);
        } else if source == p {
          SourceEntered(arena, top, seen, a, p);
        } else {
          OneContents(arena, a, p);
        }
        assert false;
      }
    }
  }

  lemma NextIsDistinct(arena: Arena, a: NodeId)
    requires OwnedOnce(arena)
    ensures Distinct(VisitedNext(arena, a)) && forall b :: b in VisitedNext(arena, a) ==> b < |arena|
  {
    ChildrenDistinct(arena, ContentSource(arena, a));
  }

  lemma VisitsOncePushed(rest: seq<Work>, seen: set<NodeId>, ids: seq<NodeId>)
    requires VisitsOnce(rest, seen) && Distinct(ids)
    requires forall b :: b in ids ==> b !in seen + Waiting(rest)
    ensures VisitsOnce(rest + ChildWork(ids), seen)
  {
    WaitingPushed(rest, ids);
    var stack := rest + ChildWork(ids);
    forall i, j | 0 <= i < j < |stack| && stack[i].Visit? && stack[j].Visit? ensures stack[i].id != stack[j].id {
      if j >= |rest| {
        assert stack[j].id in ids;
        if i < |rest| {
          assert stack[i].id in Waiting(rest);
        }
      }
    }
  }

  lemma KnownStays(arena: Arena, top: NodeId, seen: set<NodeId>, a: NodeId, b: NodeId)
    requires Known(arena, top, seen, b)
    ensures Known(arena, top, seen + {a}, b)
  {
    if p :| p in seen && b in VisitedNext(arena, p) {
      assert p in seen + {a};
    }
  }

  lemma NextIsKnown(arena: Arena, top: NodeId, seen: set<NodeId>, a: NodeId, b: NodeId)
    requires OwnedOnce(arena) && Known(arena, top, seen, a) && b in VisitedNext(arena, a)
    ensures Known(arena, top, seen + {a}, b)
  {
    var c :| c in Children(arena, top) && Reaches(VisitEdges(arena), c, a);
    ReachesOn(VisitEdges(arena), c, a, b);
    NextIsDistinct(arena, a);
    assert a in seen + {a};
  }

  /** The visit at the end of `stack` is exchanged for those it leads to, perhaps above a closing tag. */
  lemma VisitStaysFresh(arena: Arena, top: NodeId, rest: seq<Work>, under: seq<Work>, seen: set<NodeId>, work: Work)
    requires OwnedOnce(arena) && NoCycleUnder(arena, top) && work.Visit?
    requires Fresh(arena, top, rest + [work], seen)
    requires under == rest || exists tag :: under == rest + [Close(tag)]
    ensures Fresh(arena, top, under + ChildWork(VisitedNext(arena, work.id)), seen + {work.id})
  {
    var ids := VisitedNext(arena, work.id);
    WaitingSnoc(rest, work);
    if under != rest {
      WaitingSnoc(rest, under[|rest|]);
    }
    assert VisitsOnce(under, seen + {work.id}) by {
      LastApart(rest, work, seen);
    }
    forall b | b in ids ensures b !in seen + {work.id} + Waiting(under) {
      NextIsNew(arena, top, rest + [work], seen, work.id, b);
    }
    NextIsDistinct(arena, work.id);
    VisitsOncePushed(under, seen + {work.id}, ids);
    WaitingPushed(under, ids);
    forall b | b in seen + {work.id} + Waiting(under + ChildWork(ids))
      ensures Known(arena, top, seen + {work.id}, b)
    {
      if b in ids {
        NextIsKnown(arena, top, seen, work.id, b);
      } else {
        KnownStays(arena, top, seen, work.id, b);
      }
    }
  }

  lemma LastApart(rest: seq<Work>, work: Work, seen: set<NodeId>)
    requires work.Visit? && VisitsOnce(rest + [work], seen)
    ensures VisitsOnce(rest, seen + {work.id})
  {
    var stack := rest + [work];
    WaitingSnoc(rest, work);
    assert forall i :: 0 <= i < |rest| ==> stack[i] == rest[i];
    assert stack[|rest|] == work;
  }

  lemma ClosingsConcat(under: seq<Work>, ids: seq<NodeId>)
    ensures Closings(under + ChildWork(ids)) == Closings(under)
  {
    if ids == [] {
      assert under + ChildWork(ids) == under;
    } else {
      var stack := under + ChildWork(ids);
      assert stack == (under + ChildWork(ids[1..])) + [Visit(ids[0], true)];
      assert stack[..|stack| - 1] == under + ChildWork(ids[1..]);
      ClosingsConcat(under, ids[1..]);
    }
  }

  lemma ClosingsSnoc(rest: seq<Work>, work: Work)
    ensures Closings(rest + [work]) == Closings(rest) + if work.Close? then 1 else 0
  {
    assert (rest + [work])[..|rest|] == rest;
  }

  // ---------- running out ----------

  lemma {:induction false} SmallerSlots(s: set<NodeId>, n: nat)
    requires forall x :: x in s ==> x < n
    ensures |s| <= n
    ensures |s| == n ==> forall x: nat :: x < n ==> x in s
    decreases n
  {
    if n > 0 {
      var rest := s - {n - 1};
      SmallerSlots(rest, n - 1);
      assert n - 1 !in s ==> rest == s;
      assert forall x :: x in rest ==> x in s;
    }
  }

  /** A bound on the pops still to come: two for every unseen slot, one for every closing tag. */
  ghost predicate Enough(arena: Arena, stack: seq<Work>, seen: set<NodeId>, n: nat)
  {
    2 * |arena| + Closings(stack) <= n + 2 * |seen|
  }

  lemma SeenFits(arena: Arena, top: NodeId, stack: seq<Work>, seen: set<NodeId>)
    requires Fresh(arena, top, stack, seen)
    ensures |seen| <= |arena|
    ensures Waiting(stack) != {} ==> |seen| < |arena|
  {
    assert forall b :: b in seen ==> Known(arena, top, seen, b);
    SmallerSlots(seen, |arena|);
    if x :| x in Waiting(stack) {
      assert Known(arena, top, seen, x);
      SmallerSlots(seen, |arena|);
    }
  }

  /** The run has reached `stack`, and `n` more pops are enough. */
  ghost predicate RunningOut(arena: Arena, top: NodeId, stack: seq<Work>, n: nat)
  {
    exists seen :: Fresh(arena, top, stack, seen) && Enough(arena, stack, seen, n)
  }

  lemma PopRunsOut(arena: Arena, top: NodeId, rest: seq<Work>, work: Work, n: nat)
    requires OwnedOnce(arena) && NoCycleUnder(arena, top) && RunningOut(arena, top, rest + [work], n)
    ensures n > 0 && RunningOut(arena, top, AfterPop(arena, rest + [work]), n - 1)
  {
    var seen :| Fresh(arena, top, rest + [work], seen) && Enough(arena, rest + [work], seen, n);
    SeenFits(arena, top, rest + [work], seen);
    WaitingSnoc(rest, work);
    ClosingsSnoc(rest, work);
    if work.Visit? {
      VisitRunsOut(arena, top, rest, work, seen, n);
    } else {
      CloseTurn(arena, rest, work.tag);
      CloseStaysFresh(arena, top, rest, work, seen);
      assert Enough(arena, rest, seen, n - 1);
    }
  }

  lemma VisitRunsOut(arena: Arena, top: NodeId, rest: seq<Work>, work: Work, seen: set<NodeId>, n: nat)
    requires OwnedOnce(arena) && NoCycleUnder(arena, top) && work.Visit? && n > 0
    requires Fresh(arena, top, rest + [work], seen) && Enough(arena, rest, seen, n) && work.id !in seen
    ensures RunningOut(arena, top, AfterPop(arena, rest + [work]), n - 1)
  {
    var under := VisitTurn(arena, rest, work);
    VisitStaysFresh(arena, top, rest, under, seen, work);
    ClosingsConcat(under, VisitedNext(arena, work.id));
    if under != rest {
      ClosingsSnoc(rest, under[|rest|]);
    }
    assert |seen + {work.id}| == |seen| + 1;
    assert Enough(arena, under + ChildWork(VisitedNext(arena, work.id)), seen + {work.id}, n - 1);
  }

  type Budget = (seq<Work>, nat) -> bool

  ghost predicate StaysWithin(step: Stepper, budget: Budget, stack: seq<Work>, n: nat)
  {
    budget(stack, n) && stack != [] ==> n > 0 && budget(step(stack), n - 1)
  }

  lemma {:induction false} DrainedWithin(step: Stepper, budget: Budget, stack: seq<Work>, n: nat)
    requires forall s, m :: StaysWithin(step, budget, s, m)
    requires budget(stack, n)
    ensures Drained(step, stack, n) == []
    decreases n
  {
    assert StaysWithin(step, budget, stack, n);
    if stack != [] {
      DrainedWithin(step, budget, step(stack), n - 1);
    }
  }

  lemma RunsDry(arena: Arena, top: NodeId, stack: seq<Work>, n: nat)
    requires OwnedOnce(arena) && NoCycleUnder(arena, top)
    requires Fresh(arena, top, stack, {}) && Enough(arena, stack, {}, n)
    ensures StackAfter(arena, stack, n) == []
  {
    ghost var budget: Budget := (s: seq<Work>, m: nat) => RunningOut(arena, top, s, m);
    forall s, m: nat ensures StaysWithin(Pop(arena), budget, s, m) {
      if s != [] && RunningOut(arena, top, s, m) {
        var rest, work := s[..|s| - 1], s[|s| - 1];
        assert s == rest + [work];
        PopRunsOut(arena, top, rest, work, m);
      }
    }
    DrainedWithin(Pop(arena), budget, stack, n);
  }

  lemma CloseStaysFresh(arena: Arena, top: NodeId, rest: seq<Work>, work: Work, seen: set<NodeId>)
    requires work.Close? && Fresh(arena, top, rest + [work], seen)
    ensures Fresh(arena, top, rest, seen)
  {
    WaitingSnoc(rest, work);
    assert forall i :: 0 <= i < |rest| ==> (rest + [work])[i] == rest[i];
  }

  lemma StartsFresh(arena: Arena, top: NodeId, under: seq<Work>)
    requires OwnedOnce(arena) && forall i :: 0 <= i < |under| ==> under[i].Close?
    ensures Fresh(arena, top, under + ChildWork(Children(arena, top)), {})
  {
    var ids := Children(arena, top);
    WaitingPushed(under, ids);
    ChildrenDistinct(arena, top);
    VisitsOncePushed(under, {}, ids);
    forall b | b in ids ensures Known(arena, top, {}, b) {
      ReachesSelf(VisitEdges(arena), b);
    }
  }

  // ---------- the cap ----------

  /** The inner markup of a node is cut off exactly when a cycle of visits can be reached from
      its content. */
  lemma InnerCapExactly(arena: Arena, id: NodeId)
    requires OwnedOnce(arena)
    ensures StackAfter(arena, InnerWork(arena, id), StepCap(arena)) != []
       <==> exists c :: c in Children(arena, ContentSource(arena, id)) && CycleFrom(VisitEdges(arena), c)
  {
    var top := ContentSource(arena, id);
    var work := InnerWork(arena, id);
    assert [] + work == work;
    WaitingPushed([], Children(arena, top));
    if c :| c in Children(arena, top) && CycleFrom(VisitEdges(arena), c) {
      assert c in Waiting(work);
      CycleNeverEnds(arena, work, StepCap(arena));
    } else {
      StartsFresh(arena, top, []);
      ClosingsConcat([], Children(arena, top));
      RunsDry(arena, top, work, StepCap(arena));
    }
  }

  /** The outer markup of a node is cut off exactly when a cycle of visits can be reached from it,
      and then it would be at any cap. */
  lemma OuterCapExactly(arena: Arena, id: NodeId)
    requires OwnedOnce(arena)
    ensures StackAfter(arena, OuterWork(id), StepCap(arena)) != [] <==> CycleFrom(VisitEdges(arena), id)
    ensures forall n: nat :: CycleFrom(VisitEdges(arena), id) ==> StackAfter(arena, OuterWork(id), n) != []
  {
    var work := Visit(id, true);
    assert [] + [work] == OuterWork(id);
    WaitingSnoc([], work);
    if CycleFrom(VisitEdges(arena), id) {
      assert id in Waiting(OuterWork(id));
      forall n: nat ensures StackAfter(arena, OuterWork(id), n) != [] {
        CycleNeverEnds(arena, OuterWork(id), n);
      }
    } else {
      var under := VisitTurn(arena, [], work);
      TurnFirst(arena, OuterWork(id), StepCap(arena));
      OuterRunsDry(arena, id, under);
    }
  }

  lemma OuterRunsDry(arena: Arena, id: NodeId, under: seq<Work>)
    requires OwnedOnce(arena) && !CycleFrom(VisitEdges(arena), id)
    requires under == [] || exists tag :: under == [] + [Close(tag)]
    ensures StackAfter(arena, under + ChildWork(VisitedNext(arena, id)), StepCap(arena) - 1) == []
  {
    var next := VisitedNext(arena, id);
    var top := if next == [] then |arena| else ContentSource(arena, id);
    assert next == Children(arena, top);
    forall c | c in next ensures !CycleFrom(VisitEdges(arena), c) {
      if CycleFrom(VisitEdges(arena), c) {
        CycleBefore(VisitEdges(arena), id, c);
      }
    }
    if under != [] {
      ClosingsSnoc([], under[0]);
    }
    StartsFresh(arena, top, under);
    ClosingsConcat(under, next);
    RunsDry(arena, top, under + ChildWork(next), StepCap(arena) - 1);
  }

  /** Well-formed arenas own every node once and have no cycle anywhere. */
  lemma WellFormedHasNoCycle(arena: Arena, shape: Shape, id: NodeId)
    requires WellFormed(arena, shape)
    ensures OwnedOnce(arena) && !CycleFrom(VisitEdges(arena), id)
  {
    forall a: NodeId, k: NodeId ensures Owns(arena, a, k) ==> k < |arena| && shape.owner(k) == Some(a) {
      if Owns(arena, a, k) {
        OwnedIsBelow(arena, shape, a, k);
      }
    }
    forall a: NodeId ensures OwnsDistinct(arena, a) {
      assert a < |arena| ==> OwnsProperly(arena, shape, a);
    }
    SerializerIsPrinter(arena, shape, id);
    OuterCapExactly(arena, id);
  }
}
