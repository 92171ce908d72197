/** What a dispatched command does to the pages and sessions, and to the number of live runtimes. */
module Dispatch {
  import opened Wrappers
  import opened Text
  import opened Pages
  import opened CdpContexts

  /** The commands that add or remove pages, sessions or contexts; `OnPage` is every other one,
      whose only effect is through `get_session_page_mut`. A target's url is `blank` when it is
      empty or `about:blank`, and `allowed` unless it is a forbidden file url. */
  datatype Command =
    | OnPage
    | CreateTarget(context: Option<string>, blank: bool, allowed: bool)
    | CloseTarget(closed: string)
    | CreateContext
    | DisposeContext(disposed: string)
    | Attach(target: string)
    | AttachBrowser
    | Detach(session: string)

  /** A command, or a `Target.sendMessageToTarget` that carries one, perhaps for another session. */
  datatype Request =
    | Request(name: string, session: Option<string>, requestId: string, command: Command)
    | Wrapper(name: string, session: Option<string>, requestId: string, route: Option<string>, inner: Request)

  /** The command behind all wrappers. */
  function CarriedCommand(req: Request): Command
  {
    if req.Wrapper? then CarriedCommand(req.inner) else req.command
  }

  /** The session that command acts on when its outermost request acts on `session`: each
      wrapper's own route goes before the session of what it carries. */
  function CarriedSession(req: Request, session: Option<string>): Option<string>
  {
    if req.Wrapper? then CarriedSession(req.inner, RouteOf(req)) else session
  }

  function RouteOf(req: Request): Option<string>
    requires req.Wrapper?
  {
    if req.route.Some? then req.route else req.inner.session
  }

  /** What foreign code (scripts, the network) made of the pages it was given: the page a new
      target's load left, what each use of the carried command's page left, and what each use
      of the outer session's page left when a navigation its scripts asked for follows. */
  datatype Outcome = Outcome(loaded: PageState, touches: seq<PageState>, after: seq<PageState>)

  /** Foreign code may leave a page in any state, but it stays the same page. */
  function Became(p: PageState, q: PageState): PageState
  {
    q.(id := p.id, context := p.context)
  }

  function ReplaceFirst(pages: seq<PageState>, id: string, q: PageState): (r: seq<PageState>)
    ensures |r| == |pages|
  {
    if pages == [] then []
    else if pages[0].id == id then [Became(pages[0], q)] + pages[1..]
    else [pages[0]] + ReplaceFirst(pages[1..], id, q)
  }

  function TargetCreated(c: Ctx, context: string, blank: bool, loaded: PageState): Ctx
  {
    var id := PageId(c.pageCounter + 1);
    var made := Created(c, context);
    made.(pages := if blank then made.pages else ReplaceFirst(made.pages, id, loaded),
          sessions := made.sessions[SessionOf(id) := id])
  }

  function Effect(c: Ctx, command: Command, loaded: PageState): Ctx
  {
    match command
    case OnPage => c
    case CreateTarget(context, blank, allowed) =>
      if KnownContext(c.contexts, context) && allowed then TargetCreated(c, ContextOr(context), blank, loaded) else c
    case CloseTarget(closed) => RemovePageFrom(c, closed)
    case CreateContext =>
      c.(contexts := c.contexts + {ContextId(c.contextCounter + 1)}, contextCounter := c.contextCounter + 1)
    case DisposeContext(disposed) => Disposed(c, disposed)
    case Attach(target) =>
      if HasPage(c.pages, target) then
        c.(sessions := c.sessions[AttachedSession(target, c.sessionCounter + 1) := target],
           sessionCounter := c.sessionCounter + 1)
      else c
    case AttachBrowser => c.(sessions := c.sessions["browser-session" := "browser"])
    case Detach(session) => c.(sessions := c.sessions - {session})
  }

  function ContextId(n: nat): string
  {
    "context-" + Decimal(n)
  }

  function AttachedSession(target: string, n: nat): string
  {
    target + "-session-" + Decimal(n)
  }

  /** One use of the session's page: activate it, then let foreign code at it. */
  function Touched(c: Ctx, session: Option<string>, q: PageState): Ctx
  {
    var a := Activated(c, session);
    if session.Some? && session.value in c.sessions then
      a.(pages := ReplaceFirst(a.pages, c.sessions[session.value], q))
    else a
  }

  function TouchedAll(c: Ctx, session: Option<string>, touches: seq<PageState>): Ctx
    decreases |touches|
  {
    if touches == [] then c else TouchedAll(Touched(c, session, touches[0]), session, touches[1..])
  }

  /** `dispatch`, which unwraps before anything else. */
  function DispatchedFor(c: Ctx, req: Request, session: Option<string>, loaded: PageState, touches: seq<PageState>): Ctx
    decreases req
  {
    if req.Wrapper? then DispatchedFor(c, req.inner, RouteOf(req), loaded, touches)
    else TouchedAll(Effect(c, req.command, loaded), session, touches)
  }

  /** `process_cdp_message`: dispatch, then the navigation that scripts asked for, if any. */
  function Dispatched(c: Ctx, req: Request, o: Outcome): Ctx
  {
    TouchedAll(DispatchedFor(c, req, req.session, o.loaded, o.touches), req.session, o.after)
  }

  /** Wrappers change which session a command acts on, and nothing else. */
  lemma {:induction false} WrappersOnlyRoute(c: Ctx, req: Request, session: Option<string>, loaded: PageState,
                                             touches: seq<PageState>)
    ensures DispatchedFor(c, req, session, loaded, touches)
         == TouchedAll(Effect(c, CarriedCommand(req), loaded), CarriedSession(req, session), touches)
    decreases req
  {
    if req.Wrapper? {
      WrappersOnlyRoute(c, req.inner, RouteOf(req), loaded, touches);
    }
  }

  // ---------- the handlers ----------

  method Replace(ctx: CdpContext, id: string, q: PageState)
    modifies ctx`pages
    ensures ctx.pages == ReplaceFirst(old(ctx.pages), id, q)
  {
    for i := 0 to |ctx.pages|
      invariant ctx.pages == old(ctx.pages)
      invariant forall j :: 0 <= j < i ==> ctx.pages[j].id != id
    {
      if ctx.pages[i].id == id {
        ReplaceFirstAt(ctx.pages, id, i, q);
        ctx.pages := ctx.pages[i := Became(ctx.pages[i], q)];
        return;
      }
    }
    ReplaceFirstNone(ctx.pages, id, q);
  }

  method HandleCreateTarget(ctx: CdpContext, context: Option<string>, blank: bool, allowed: bool, loaded: PageState)
    returns (id: Option<string>)
    modifies ctx
    ensures ctx.Contents() == Effect(old(ctx.Contents()), CreateTarget(context, blank, allowed), loaded)
    ensures id.Some? <==> allowed && KnownContext(old(ctx.contexts), context)
    ensures id.Some? ==> id.value == PageId(old(ctx.pageCounter) + 1)
  {
    if !KnownContext(ctx.contexts, context) || !allowed {
      return None;
    }
    id := ctx.CreatePageInContext(context);
    if !blank {
      Replace(ctx, id.value, loaded);
    }
    ctx.sessions := ctx.sessions[SessionOf(id.value) := id.value];
  }

  method Handle(ctx: CdpContext, command: Command, loaded: PageState)
    modifies ctx
    ensures ctx.Contents() == Effect(old(ctx.Contents()), command, loaded)
  {
    match command
    case OnPage =>
    case CreateTarget(context, blank, allowed) =>
      var _ := HandleCreateTarget(ctx, context, blank, allowed, loaded);
    case CloseTarget(closed) =>
      ctx.RemovePage(closed);
    case CreateContext =>
      ctx.contextCounter := ctx.contextCounter + 1;
      ctx.contexts := ctx.contexts + {ContextId(ctx.contextCounter)};
    case DisposeContext(disposed) =>
      var _ := ctx.DisposeBrowserContext(disposed);
    case Attach(target) =>
      if HasPage(ctx.pages, target) {
        ctx.sessionCounter := ctx.sessionCounter + 1;
        ctx.sessions := ctx.sessions[AttachedSession(target, ctx.sessionCounter) := target];
      }
    case AttachBrowser =>
      ctx.sessions := ctx.sessions["browser-session" := "browser"];
    case Detach(session) =>
      ctx.sessions := ctx.sessions - {session};
  }

  method DispatchFor(ctx: CdpContext, req: Request, session: Option<string>, loaded: PageState, touches: seq<PageState>)
    modifies ctx
    ensures ctx.Contents() == DispatchedFor(old(ctx.Contents()), req, session, loaded, touches)
    decreases req
  {
    match req
    case Wrapper(_, _, _, route, inner) =>
      DispatchFor(ctx, inner, if route.Some? then route else inner.session, loaded, touches);
    case Request(_, _, _, command) =>
      Handle(ctx, command, loaded);
      TouchEach(ctx, session, touches);
  }

  method Run(ctx: CdpContext, req: Request, o: Outcome)
    modifies ctx
    ensures ctx.Contents() == Dispatched(old(ctx.Contents()), req, o)
  {
    DispatchFor(ctx, req, req.session, o.loaded, o.touches);
    TouchEach(ctx, req.session, o.after);
  }

  method TouchEach(ctx: CdpContext, session: Option<string>, touches: seq<PageState>)
    modifies ctx`pages
    ensures ctx.Contents() == TouchedAll(old(ctx.Contents()), session, touches)
  {
    for i := 0 to |touches|
      invariant TouchedAll(ctx.Contents(), session, touches[i..]) == TouchedAll(old(ctx.Contents()), session, touches)
    {
      assert touches[i..][1..] == touches[i + 1..];
      Touch(ctx, session, touches[i]);
    }
  }

  method Touch(ctx: CdpContext, session: Option<string>, q: PageState)
    modifies ctx`pages
    ensures ctx.Contents() == Touched(old(ctx.Contents()), session, q)
  {
    var index := ctx.GetSessionPageMut(session);
    if index.None? {
      if session.Some? && session.value in ctx.sessions {
        ActivationKeepsIds(old(ctx.pages), ctx.sessions[session.value]);
        ReplaceFirstNone(ctx.pages, ctx.sessions[session.value], q);
      }
      return;
    }
    ReplaceFirstAt(ctx.pages, ctx.sessions[session.value], index.value, q);
    ctx.pages := ctx.pages[index.value := Became(ctx.pages[index.value], q)];
  }

  lemma {:induction false} ReplaceFirstAt(pages: seq<PageState>, id: string, i: nat, q: PageState)
    requires i < |pages| && FirstWith(pages, id, i)
    ensures ReplaceFirst(pages, id, q) == pages[i := Became(pages[i], q)]
  {
    if i > 0 {
      ReplaceFirstAt(pages[1..], id, i - 1, q);
    }
  }

  lemma {:induction false} ReplaceFirstNone(pages: seq<PageState>, id: string, q: PageState)
    requires forall j :: 0 <= j < |pages| ==> pages[j].id != id
    ensures ReplaceFirst(pages, id, q) == pages
  {
    if pages != [] {
      ReplaceFirstNone(pages[1..], id, q);
    }
  }
}
