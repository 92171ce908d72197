/** One connection's command scheduler: the processor loop, the navigation loop nested in it, and
    the queue of commands put off while a navigation runs. */
module Connections {
  import opened Wrappers
  import opened Text
  import opened Pages
  import opened CdpContexts
  import opened Dispatch

  const MAX_DEFERRED_MESSAGES := 256
  const NAVIGATE := "Page.navigate"

  /** A command as received: its text, and what it parses to if it is a request at all. */
  datatype Message = Message(text: string, request: Option<Request>)

  datatype Fate = Accepted | Rejected | Resolution

  /** What became of a command when it arrived, with the state of affairs at that moment. */
  datatype Receipt = Receipt(message: Message, fate: Fate, navigating: bool, waiting: nat)

  /** `out` is the page a navigation task holds; `received` and `processed` record the history. */
  datatype State = State(ctx: Ctx, out: Option<PageState>, deferred: seq<Message>, paused: set<string>,
                         received: seq<Receipt>, processed: seq<Message>)

  const START := State(EMPTY, None, [], {}, [], [])

  /** What can happen next; a screencast takes frames between commands. Outcomes and pages carried by an event
    * are what foreign code did. */
  datatype Event =
    | TakeDeferred(outcome: Outcome)
    | Arrive(message: Message, outcome: Outcome)
    | NewConnection
    | Intercept(requestId: string, routed: bool)
    | Pump(page: PageState)
    | PumpNavigate(session: string, outcome: Outcome)
    | Frame(session: string, page: PageState)
    | NavigationDone(page: PageState)

  predicate IsFetchResolution(text: string)
  {
    Contains(text, "Fetch.continueRequest") || Contains(text, "Fetch.fulfillRequest")
      || Contains(text, "Fetch.failRequest")
  }

  predicate IsResolutionName(name: string)
  {
    name == "Fetch.continueRequest" || name == "Fetch.fulfillRequest" || name == "Fetch.failRequest"
  }

  predicate IsNavigate(m: Message)
  {
    m.request.Some? && m.request.value.name == NAVIGATE
  }

  // ---------- the specification ----------

  /** `handle_fetch_resolution`: the paused request goes whatever the method is. */
  function PausedAfter(paused: set<string>, m: Message): set<string>
  {
    if m.request.Some? then paused - {m.request.value.requestId} else paused
  }

  predicate ResolvesFetch(paused: set<string>, m: Message)
  {
    m.request.Some? && m.request.value.requestId in paused && IsResolutionName(m.request.value.name)
  }

  /** A session whose page is in the context. */
  predicate Routed(c: Ctx, session: Option<string>)
  {
    session.Some? && session.value in c.sessions && HasPage(c.pages, c.sessions[session.value])
  }

  function IndexOf(pages: seq<PageState>, id: string): (i: nat)
    requires HasPage(pages, id)
    ensures i < |pages| && FirstWith(pages, id, i)
  {
    if pages[0].id == id then 0
    else
      HasPageTail(pages, id);
      var i := IndexOf(pages[1..], id) + 1;
      assert forall j :: 0 < j < i ==> pages[j] == pages[1..][j - 1];
      i
  }

  function Without(pages: seq<PageState>, i: nat): seq<PageState>
    requires i < |pages|
  {
    pages[..i] + pages[i + 1..]
  }

  /** A navigation as `dispatch` sees it: it acts on its session's page only. */
  function NavigateRequest(session: Option<string>): Request
  {
    Request(NAVIGATE, session, "", OnPage)
  }

  /** Start of `process_with_interception`: take the page out and suspend every other, or fall
      back to a plain dispatch when the session leads to no page. */
  function Navigated(s: State, req: Request, o: Outcome): State
  {
    if Routed(s.ctx, req.session) then
      var i := IndexOf(s.ctx.pages, s.ctx.sessions[req.session.value]);
      s.(out := Some(s.ctx.pages[i]), ctx := s.ctx.(pages := SuspendAll(Without(s.ctx.pages, i))))
    else s.(ctx := Dispatched(s.ctx, NavigateRequest(req.session), o))
  }

  /** One command handled by the processor loop, with no navigation running. */
  function Handled(s: State, m: Message, o: Outcome): State
  {
    var t := s.(processed := s.processed + [m]);
    if IsNavigate(m) then Navigated(t, m.request.value, o)
    else
      var fetch := Contains(m.text, "Fetch.");
      var u := if fetch then t.(paused := PausedAfter(t.paused, m)) else t;
      if fetch && ResolvesFetch(s.paused, m) then u
      else if m.request.Some? then u.(ctx := Dispatched(u.ctx, m.request.value, o))
      else u
  }

  function FateOf(s: State, m: Message): Fate
  {
    if s.out.None? then Accepted
    else if IsFetchResolution(m.text) then Resolution
    else if |s.deferred| >= MAX_DEFERRED_MESSAGES then Rejected
    else Accepted
  }

  function ReceiptOf(s: State, m: Message): Receipt
  {
    Receipt(m, FateOf(s, m), s.out.Some?, |s.deferred|)
  }

  /** A command that arrives while a navigation runs. */
  function ReceivedDuring(s: State, m: Message): State
  {
    var t := s.(received := s.received + [ReceiptOf(s, m)]);
    match FateOf(s, m)
    case Resolution => t.(paused := PausedAfter(t.paused, m))
    case Rejected => t
    case Accepted => t.(deferred := t.deferred + [m])
  }

  function Connected(c: Ctx): Ctx
  {
    var id := PageId(c.pageCounter + 1);
    var made := Created(c, DEFAULT_CONTEXT);
    made.(sessions := made.sessions[SessionOf(id) := id])
  }

  function Pumped(p: PageState, q: PageState): PageState
  {
    Became(p, q).(js := if q.js.Some? then q.js else p.js)
  }

  function PumpFirst(pages: seq<PageState>, q: PageState): (r: seq<PageState>)
    ensures |r| == |pages|
  {
    if pages == [] then []
    else if Live(pages[0]) then [Pumped(pages[0], q)] + pages[1..]
    else [pages[0]] + PumpFirst(pages[1..], q)
  }

  /** A session, if any, that a live page can be navigated through. */
  predicate RoutesToLive(c: Ctx, session: string)
  {
    session in c.sessions && HasLive(c.pages, c.sessions[session])
  }

  predicate Idle(s: State)
  {
    s.out.None? && s.deferred == []
  }

  predicate Enabled(s: State, e: Event)
  {
    match e
    case TakeDeferred(_) => s.out.None? && s.deferred != []
    case Arrive(_, _) => s.out.Some? || s.deferred == []
    case NewConnection => s.out.Some? || s.deferred == []
    case Intercept(_, _) => s.out.Some? || s.deferred == []
    case Pump(_) => Idle(s)
    case PumpNavigate(session, _) => Idle(s) && RoutesToLive(s.ctx, session)
    case Frame(_, _) => s.out.None?
    case NavigationDone(_) => s.out.Some?
  }

  function Next(s: State, e: Event): State
    requires Enabled(s, e)
  {
    match e
    case TakeDeferred(o) => Handled(s.(deferred := s.deferred[1..]), s.deferred[0], o)
    case Arrive(m, o) =>
      if s.out.Some? then ReceivedDuring(s, m)
      else Handled(s.(received := s.received + [ReceiptOf(s, m)]), m, o)
    case NewConnection => if s.out.Some? then s.(ctx := Connected(s.ctx)) else s
    case Intercept(id, routed) => if s.out.Some? || routed then s.(paused := s.paused + {id}) else s
    case Pump(q) => s.(ctx := s.ctx.(pages := PumpFirst(s.ctx.pages, q)))
    case PumpNavigate(session, o) => Navigated(s, NavigateRequest(Some(session)), o)
    case Frame(session, q) => s.(ctx := Touched(s.ctx, Some(session), q))
    case NavigationDone(q) =>
      s.(out := None, ctx := s.ctx.(pages := s.ctx.pages + [Became(s.out.value, q)]))
  }

  predicate IsRun(s: State, events: seq<Event>)
    decreases |events|
  {
    events == [] || (Enabled(s, events[0]) && IsRun(Next(s, events[0]), events[1..]))
  }

  function After(s: State, events: seq<Event>): State
    requires IsRun(s, events)
    decreases |events|
  {
    if events == [] then s else After(Next(s, events[0]), events[1..])
  }

  // ---------- the processor ----------

  class Processor {
    const ctx: CdpContext
    var out: Option<PageState>
    var deferred: seq<Message>
    var paused: set<string>
    ghost var received: seq<Receipt>
    ghost var processed: seq<Message>

    ghost function Now(): State
      reads this, ctx
    {
      State(ctx.Contents(), out, deferred, paused, received, processed)
    }

    constructor ()
      ensures fresh(ctx) && Now() == START
    {
      ctx := new CdpContext();
      out, deferred, paused, received, processed := None, [], {}, [], [];
    }

    /** Takes the page out for the navigation task, or dispatches when there is none. */
    method StartNavigation(req: Request, o: Outcome)
      modifies this`out, ctx
      ensures Now() == Navigated(old(Now()), req, o)
    {
      if req.session.Some? && req.session.value in ctx.sessions {
        var id := ctx.sessions[req.session.value];
        if HasPage(ctx.pages, id) {
          TakeOut(IndexOf(ctx.pages, id));
          return;
        }
      }
      Run(ctx, NavigateRequest(req.session), o);
    }

    method TakeOut(index: nat)
      requires index < |ctx.pages|
      modifies this`out, ctx`pages
      ensures out == Some(old(ctx.pages)[index])
      ensures ctx.pages == SuspendAll(Without(old(ctx.pages), index))
    {
      out := Some(ctx.pages[index]);
      ctx.pages := Without(ctx.pages, index);
      ghost var others := ctx.pages;
      SuspendAllCount(others);
      for i := 0 to |ctx.pages|
        invariant out == Some(old(ctx.pages)[index]) && |ctx.pages| == |others|
        invariant forall j :: 0 <= j < i ==> ctx.pages[j] == Suspended(others[j])
        invariant forall j :: i <= j < |others| ==> ctx.pages[j] == others[j]
      {
        if Live(ctx.pages[i]) {
          ctx.SuspendAt(i);
        }
      }
    }

    method HandleFetchResolution(m: Message) returns (resolved: bool)
      modifies this`paused
      ensures paused == PausedAfter(old(paused), m)
      ensures resolved <==> ResolvesFetch(old(paused), m)
    {
      if m.request.None? {
        return false;
      }
      var id := m.request.value.requestId;
      if id in paused {
        paused := paused - {id};
        return IsResolutionName(m.request.value.name);
      }
      return false;
    }

    method Process(m: Message, o: Outcome)
      modifies this`out, this`paused, this`processed, ctx
      ensures Now() == Handled(old(Now()), m, o)
    {
      processed := processed + [m];
      if IsNavigate(m) {
        StartNavigation(m.request.value, o);
        return;
      }
      var resolved := false;
      if Contains(m.text, "Fetch.") {
        resolved := HandleFetchResolution(m);
      }
      if !resolved && m.request.Some? {
        Run(ctx, m.request.value, o);
      }
    }

    /** The top of the processor loop: deferred commands come first. */
    method DrainOne(o: Outcome)
      requires out.None? && deferred != []
      modifies this, ctx
      ensures Now() == Next(old(Now()), TakeDeferred(o))
    {
      var m := deferred[0];
      deferred := deferred[1..];
      Process(m, o);
    }

    method Receive(m: Message, o: Outcome)
      requires out.Some? || deferred == []
      modifies this, ctx
      ensures Now() == Next(old(Now()), Arrive(m, o))
    {
      received := received + [ReceiptOf(Now(), m)];
      if out.None? {
        Process(m, o);
      } else if IsFetchResolution(m.text) {
        var _ := HandleFetchResolution(m);
      } else if |deferred| < MAX_DEFERRED_MESSAGES {
        deferred := deferred + [m];
      }
    }

    method Connect()
      requires out.Some? || deferred == []
      modifies ctx
      ensures Now() == Next(old(Now()), NewConnection)
    {
      if out.Some? {
        var id := ctx.CreatePageInContext(None);
        ctx.sessions := ctx.sessions[SessionOf(id.value) := id.value];
      }
    }

    method PauseRequest(id: string, routed: bool)
      requires out.Some? || deferred == []
      modifies this`paused
      ensures Now() == Next(old(Now()), Intercept(id, routed))
    {
      if out.Some? || routed {
        paused := paused + {id};
      }
    }

    /** One turn of the live page's event loop, which cannot end its runtime. */
    method PumpLivePage(q: PageState)
      requires out.None? && deferred == []
      modifies ctx`pages
      ensures Now() == Next(old(Now()), Pump(q))
    {
      for i := 0 to |ctx.pages|
        invariant ctx.pages == old(ctx.pages)
        invariant forall j :: 0 <= j < i ==> !Live(ctx.pages[j])
      {
        if Live(ctx.pages[i]) {
          PumpFirstAt(ctx.pages, i, q);
          ctx.pages := ctx.pages[i := Pumped(ctx.pages[i], q)];
          return;
        }
      }
      PumpFirstNone(ctx.pages, q);
    }

    /** A screencast frame of a session's page, which needs that page's runtime. */
    method TakeFrame(session: string, q: PageState)
      requires out.None?
      modifies ctx`pages
      ensures Now() == Next(old(Now()), Frame(session, q))
    {
      Touch(ctx, Some(session), q);
    }

    method FinishNavigation(q: PageState)
      requires out.Some?
      modifies this`out, ctx`pages
      ensures Now() == Next(old(Now()), NavigationDone(q))
    {
      ctx.pages := ctx.pages + [Became(out.value, q)];
      out := None;
    }

    method NavigateLive(session: string, o: Outcome)
      requires out.None? && deferred == [] && RoutesToLive(ctx.Contents(), session)
      modifies this`out, ctx
      ensures Now() == Next(old(Now()), PumpNavigate(session, o))
    {
      StartNavigation(NavigateRequest(Some(session)), o);
    }
  }

  lemma {:induction false} PumpFirstAt(pages: seq<PageState>, i: nat, q: PageState)
    requires i < |pages| && Live(pages[i]) && forall j :: 0 <= j < i ==> !Live(pages[j])
    ensures PumpFirst(pages, q) == pages[i := Pumped(pages[i], q)]
  {
    if i > 0 {
      PumpFirstAt(pages[1..], i - 1, q);
    }
  }

  lemma {:induction false} PumpFirstNone(pages: seq<PageState>, q: PageState)
    requires forall j :: 0 <= j < |pages| ==> !Live(pages[j])
    ensures PumpFirst(pages, q) == pages
  {
    if pages != [] {
      PumpFirstNone(pages[1..], q);
    }
  }
}
