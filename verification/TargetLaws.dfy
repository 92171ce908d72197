/** What the target commands do to pages, sessions and contexts, and which page gets the runtime. */
module TargetLaws {
  import opened Wrappers
  import opened Text
  import opened Pages
  import opened CdpContexts
  import opened Dispatch

  // ---------- which page is live ----------

  /** The first page with `id`, at `i`. */
  predicate IsFirst(pages: seq<PageState>, id: string, i: nat)
  {
    i < |pages| && pages[i].id == id && forall j :: 0 <= j < i ==> pages[j].id != id
  }

  /** The first live page with another id, at `i`. */
  predicate IsFirstOther(pages: seq<PageState>, id: string, i: nat)
  {
    && i < |pages| && pages[i].id != id && pages[i].js.Some?
    && forall j :: 0 <= j < i ==> !(pages[j].id != id && pages[j].js.Some?)
  }

  /** When no page with the session's id is live, the first other live page is suspended and the first
      with the id resumed; every other page stays as it is, as they all do when one is live. */
  lemma ActivationAt(c: Ctx, session: string, i: nat)
    requires session in c.sessions && i < |c.pages|
    ensures var id, after := c.sessions[session], Activated(c, Some(session));
      && |after.pages| == |c.pages| && after == c.(pages := after.pages)
      && after.pages[i] ==
           if exists j :: 0 <= j < |c.pages| && c.pages[j].id == id && c.pages[j].js.Some? then c.pages[i]
           else if IsFirstOther(c.pages, id, i) then Suspended(c.pages[i])
           else if IsFirst(c.pages, id, i) then Resumed(c.pages[i])
           else c.pages[i]
  {
    var id := c.sessions[session];
    if !HasLive(c.pages, id) {
      SuspendedAt(c.pages, id, i);
      ResumedAt(SuspendFirstOther(c.pages, id), id, i);
      forall j | 0 <= j < |c.pages| ensures SuspendFirstOther(c.pages, id)[j].id == c.pages[j].id {
        SuspendedAt(c.pages, id, j);
      }
    }
  }

  lemma {:induction false} SuspendedAt(pages: seq<PageState>, id: string, i: nat)
    requires i < |pages|
    ensures SuspendFirstOther(pages, id)[i] == if IsFirstOther(pages, id, i) then Suspended(pages[i]) else pages[i]
  {
    if !(pages[0].id != id && Live(pages[0])) && i > 0 {
      SuspendedAt(pages[1..], id, i - 1);
      OtherInTail(pages, id, i);
    }
  }

  lemma OtherInTail(pages: seq<PageState>, id: string, i: nat)
    requires 0 < i < |pages| && !(pages[0].id != id && pages[0].js.Some?)
    ensures IsFirstOther(pages, id, i) <==> IsFirstOther(pages[1..], id, i - 1)
  {
    assert forall j :: 0 < j < |pages| ==> pages[1..][j - 1] == pages[j];
  }

  lemma {:induction false} ResumedAt(pages: seq<PageState>, id: string, i: nat)
    requires i < |pages|
    ensures ResumeFirst(pages, id)[i] == if IsFirst(pages, id, i) then Resumed(pages[i]) else pages[i]
  {
    if pages[0].id != id && i > 0 {
      ResumedAt(pages[1..], id, i - 1);
      assert forall j :: 0 < j < |pages| ==> pages[1..][j - 1] == pages[j];
    }
  }

  /** Without a session nothing is switched. */
  lemma NoActivation(c: Ctx, session: Option<string>)
    requires session == None || session.value !in c.sessions
    ensures Activated(c, session) == c
  {
  }

  /** Suspending moves the runtime's document and started ids into the page; without a document the page
      keeps what it stored and forgets the ids. A page without a runtime stays as it is. */
  lemma SuspendedPage(p: PageState)
    ensures var t := Suspended(p);
      && t.id == p.id && t.context == p.context && t.js.None?
      && t.dom == (if p.js.Some? && p.js.value.dom.Some? then p.js.value.dom else p.dom)
      && t.saved == if p.js.None? then p.saved else if p.js.value.dom.Some? then p.js.value.started else {}
  {
  }

  /** Resuming gives a page without a runtime one with its document and those saved ids that are scripts
      of it. */
  lemma ResumedPage(p: PageState)
    ensures var t := Resumed(p);
      if p.js.Some? then t == p
      else
        && t.id == p.id && t.context == p.context && t.saved == {} && t.dom.None?
        && t.js.Some? && t.js.value.dom == p.dom
        && t.js.value.started == if p.dom.Some? then p.saved * p.dom.value.scripts else {}
  {
    if p.js.None? && p.dom.Some? {
      assert {} + p.saved * p.dom.value.scripts == p.saved * p.dom.value.scripts;
    }
  }

  /** A use of the session's page leaves in its place what foreign code made of it, under its own id and
      context; no other page differs but the one that was suspended for it. */
  lemma TouchedAt(c: Ctx, session: string, q: PageState, i: nat)
    requires session in c.sessions && i < |c.pages|
    ensures var id, after := c.sessions[session], Touched(c, Some(session), q);
      && |after.pages| == |c.pages| && after == c.(pages := after.pages)
      && after.pages[i] ==
           if IsFirst(c.pages, id, i) then q.(id := id, context := c.pages[i].context)
           else Activated(c, Some(session)).pages[i]
  {
    var id, active := c.sessions[session], Activated(c, Some(session)).pages;
    forall j | 0 <= j < |c.pages| ensures |active| == |c.pages| && active[j].id == c.pages[j].id {
      ActivationAt(c, session, j);
    }
    ActivationAt(c, session, i);
    ReplacedAt(active, id, q, i);
    assert IsFirst(active, id, i) <==> IsFirst(c.pages, id, i);
  }

  lemma {:induction false} ReplacedAt(pages: seq<PageState>, id: string, q: PageState, i: nat)
    requires i < |pages|
    ensures ReplaceFirst(pages, id, q)[i] ==
      if IsFirst(pages, id, i) then q.(id := id, context := pages[i].context) else pages[i]
  {
    if pages[0].id != id && i > 0 {
      ReplacedAt(pages[1..], id, q, i - 1);
      assert forall j :: 0 < j < |pages| ==> pages[1..][j - 1] == pages[j];
    }
  }

  // ---------- routing ----------

  /** A wrapper hands what it carries to the session it names, or else to the one that names itself; a
      command acts, and then its session's page is used. */
  lemma WrapperRoutes(c: Ctx, req: Request, session: Option<string>, loaded: PageState, touches: seq<PageState>)
    ensures DispatchedFor(c, req, session, loaded, touches) ==
      match req
      case Request(_, _, _, command) => TouchedAll(Effect(c, command, loaded), session, touches)
      case Wrapper(_, _, _, route, inner) =>
        DispatchedFor(c, inner, match route case Some(id) => Some(id) case None => inner.session, loaded, touches)
  {
  }

  /** What a request leaves: what its dispatch to its own session leaves, with the further uses of the
      page of that session, in order. */
  lemma UsesFollow(c: Ctx, req: Request, o: Outcome, last: PageState)
    ensures Dispatched(c, req, o.(after := [])) == DispatchedFor(c, req, req.session, o.loaded, o.touches)
    ensures Dispatched(c, req, o.(after := o.after + [last])) == Touched(Dispatched(c, req, o), req.session, last)
  {
    UsedOnceMore(DispatchedFor(c, req, req.session, o.loaded, o.touches), req.session, o.after, last);
  }

  lemma {:induction false} UsedOnceMore(c: Ctx, session: Option<string>, touches: seq<PageState>, last: PageState)
    ensures TouchedAll(c, session, touches + [last]) == Touched(TouchedAll(c, session, touches), session, last)
    decreases |touches|
  {
    if touches == [] {
      assert [last][1..] == [] && [] + [last] == [last];
    } else {
      assert (touches + [last])[1..] == touches[1..] + [last];
      UsedOnceMore(Touched(c, session, touches[0]), session, touches[1..], last);
    }
  }

  // ---------- targets ----------

  /** The context a page is created in, if it is known. */
  predicate Knows(c: Ctx, context: Option<string>)
  {
    match context
    case None => true
    case Some(id) => id == "default" || id in c.contexts
  }

  /** A created target is one more page, the last, with the next id, in the named context or the default
      one, and the session of that id is its session; with a url it holds what its load left of it. */
  lemma TargetIsCreated(c: Ctx, context: Option<string>, blank: bool, loaded: PageState)
    requires Knows(c, context)
    requires forall i :: 0 <= i < |c.pages| ==> c.pages[i].id != "page-" + Decimal(c.pageCounter + 1)
    ensures var after := Effect(c, CreateTarget(context, blank, true), loaded);
      var id, home := "page-" + Decimal(c.pageCounter + 1), if context.Some? then context.value else "default";
      && |after.pages| == |c.pages| + 1 && after.pages[..|c.pages|] == c.pages
      && after.pages[|c.pages|].id == id && after.pages[|c.pages|].context == home
      && after.pages[|c.pages|] ==
           (if blank then PageState(id, home, Some(Dom(0, {})), None, {}) else loaded.(id := id, context := home))
      && after.sessions == c.sessions[id + "-session" := id] && after.contexts == c.contexts
      && after.pageCounter == c.pageCounter + 1
  {
    var made := Created(c, ContextOr(context)).pages;
    assert made[..|c.pages|] == c.pages;
    assert FirstWith(made, PageId(c.pageCounter + 1), |c.pages|);
    ReplaceFirstAt(made, PageId(c.pageCounter + 1), |c.pages|, loaded);
  }

  /** In an unknown context, or for a forbidden file url, none is created. */
  lemma TargetIsRefused(c: Ctx, context: Option<string>, blank: bool, allowed: bool, loaded: PageState)
    requires !Knows(c, context) || !allowed
    ensures Effect(c, CreateTarget(context, blank, allowed), loaded) == c
  {
  }

  /** Closing a target takes its pages, its loader and its sessions, and nothing else. */
  lemma TargetIsClosed(c: Ctx, id: string, loaded: PageState)
    ensures var after := Effect(c, CloseTarget(id), loaded);
      && (forall p :: p in after.pages <==> p in c.pages && p.id != id)
      && (forall s :: s in after.sessions <==> s in c.sessions && c.sessions[s] != id)
      && (forall s :: s in after.sessions ==> after.sessions[s] == c.sessions[s])
      && after.loaders == c.loaders - {id} && after.contexts == c.contexts
  {
    WithoutPageCount(c.pages, id);
  }

  /** Attaching gives a page one more session, with a number of its own; detaching takes one session away;
      neither touches a page or another session. */
  lemma SessionsChange(c: Ctx, id: string, loaded: PageState)
    ensures var after := Effect(c, Attach(id), loaded);
      if exists i :: 0 <= i < |c.pages| && c.pages[i].id == id
      then after == c.(sessions := c.sessions[id + "-session-" + Decimal(c.sessionCounter + 1) := id],
                       sessionCounter := c.sessionCounter + 1)
      else after == c
    ensures Effect(c, AttachBrowser, loaded) == c.(sessions := c.sessions["browser-session" := "browser"])
    ensures Effect(c, Detach(id), loaded) == c.(sessions := c.sessions - {id})
  {
  }

  /** A created context has a new number; it holds no page, and nothing else changes. */
  lemma ContextIsCreated(c: Ctx, loaded: PageState)
    ensures Effect(c, CreateContext, loaded)
         == c.(contexts := c.contexts + {"context-" + Decimal(c.contextCounter + 1)},
               contextCounter := c.contextCounter + 1)
    ensures Effect(c, OnPage, loaded) == c
  {
  }

  /** The default context and unknown ones are not disposed of. */
  lemma DisposalIsRefused(c: Ctx, context: string, loaded: PageState)
    requires context == "default" || context !in c.contexts
    ensures Effect(c, DisposeContext(context), loaded) == c
  {
  }
}
