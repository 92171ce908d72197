/** What becomes of one command, said of its text and name, and of the page and requests that wait. */
module ConnectionLaws {
  import opened Wrappers
  import opened Text
  import opened Pages
  import opened CdpContexts
  import opened Dispatch
  import opened Connections

  /** `part` stands somewhere in `text`. */
  ghost predicate Mentions(text: string, part: string)
  {
    exists before, behind :: Framed(text, before, part, behind)
  }

  predicate Framed(text: string, before: string, part: string, behind: string)
  {
    text == before + part + behind
  }

  lemma ContainsMentions(text: string, part: string)
    ensures Contains(text, part) <==> Mentions(text, part)
  {
    var found := Find(text, part);
    if found.Some? {
      assert Framed(text, text[..found.value], part, text[found.value + |part|..]);
    }
    if before, behind :| Framed(text, before, part, behind) {
      assert text[|before|..|before| + |part|] == part;
      FindLeast(text, part, |before|);
    }
  }

  /** `m` resolves a paused request: it names it, and its method is one of the three. */
  predicate Resolves(paused: set<string>, m: Message)
  {
    && m.request.Some? && m.request.value.requestId in paused
    && (m.request.value.name == "Fetch.continueRequest" || m.request.value.name == "Fetch.fulfillRequest"
        || m.request.value.name == "Fetch.failRequest")
  }

  /** What is paused once a handler has seen `m`: all but the request it names, if it is one. */
  ghost predicate PausedLeft(before: set<string>, after: set<string>, m: Message)
  {
    forall id :: id in after <==> id in before && !(m.request.Some? && m.request.value.requestId == id)
  }

  predicate Navigates(m: Message)
  {
    m.request.Some? && m.request.value.name == "Page.navigate"
  }

  /** The first page of the session, at `i`. */
  predicate SessionPageAt(c: Ctx, session: Option<string>, i: nat)
  {
    && session.Some? && session.value in c.sessions && i < |c.pages| && c.pages[i].id == c.sessions[session.value]
    && forall j :: 0 <= j < i ==> c.pages[j].id != c.sessions[session.value]
  }

  /** The page at `i` is out, and the others stay in order, suspended. */
  predicate TakenOut(s: State, t: State, i: nat)
    requires i < |s.ctx.pages|
  {
    && t.out == Some(s.ctx.pages[i]) && t.ctx == s.ctx.(pages := t.ctx.pages)
    && |t.ctx.pages| == |s.ctx.pages| - 1
    && forall j :: 0 <= j < |t.ctx.pages| ==> t.ctx.pages[j] == Suspended(s.ctx.pages[if j < i then j else j + 1])
  }

  /** A navigation takes its session's page out. */
  lemma NavigationTakesPage(s: State, req: Request, o: Outcome, i: nat)
    requires s.out.None? && SessionPageAt(s.ctx, req.session, i)
    ensures var t := Navigated(s, req, o);
      && TakenOut(s, t, i) && t.paused == s.paused && t.deferred == s.deferred
      && t.received == s.received && t.processed == s.processed
  {
    var id := s.ctx.sessions[req.session.value];
    assert HasPage(s.ctx.pages, id);
    assert IndexOf(s.ctx.pages, id) == i;
    SuspendAllCount(Without(s.ctx.pages, i));
  }

  /** A command handled while no navigation runs, other than a navigation. One that mentions a fetch
      lets the paused request it names go; when that resolves it, that is all; otherwise the command
      is dispatched, if it is one. */
  lemma HandledWhenIdle(s: State, m: Message, o: Outcome)
    requires s.out.None? && !Navigates(m)
    ensures var t := Handled(s, m, o);
      && t.out.None? && t.deferred == s.deferred && t.received == s.received && t.processed == s.processed + [m]
      && (if Mentions(m.text, "Fetch.") then PausedLeft(s.paused, t.paused, m) else t.paused == s.paused)
      && t.ctx == if (Mentions(m.text, "Fetch.") && Resolves(s.paused, m)) || m.request.None? then s.ctx
                  else Dispatched(s.ctx, m.request.value, o)
  {
    ContainsMentions(m.text, "Fetch.");
  }

  /** A navigation whose session has no page is dispatched like any command. */
  lemma HandledNavigation(s: State, m: Message, o: Outcome)
    requires s.out.None? && Navigates(m)
    ensures var t := Handled(s, m, o);
      && t.paused == s.paused && t.deferred == s.deferred && t.received == s.received
      && t.processed == s.processed + [m]
      && (forall i: nat :: SessionPageAt(s.ctx, m.request.value.session, i) ==> TakenOut(s, t, i))
      && ((forall i: nat :: !SessionPageAt(s.ctx, m.request.value.session, i)) ==>
            && t.out.None?
            && t.ctx == Dispatched(s.ctx, Request("Page.navigate", m.request.value.session, "", OnPage), o))
  {
    var req := m.request.value;
    var u := s.(processed := s.processed + [m]);
    forall i: nat | SessionPageAt(s.ctx, req.session, i) ensures TakenOut(s, Navigated(u, req, o), i) {
      NavigationTakesPage(u, req, o, i);
    }
    if Routed(s.ctx, req.session) {
      var i := IndexOf(s.ctx.pages, s.ctx.sessions[req.session.value]);
      assert SessionPageAt(s.ctx, req.session, i);
      NavigationTakesPage(u, req, o, i);
    }
  }

  /** The text names one of the three resolving methods. */
  ghost predicate MentionsResolution(text: string)
  {
    || Mentions(text, "Fetch.continueRequest") || Mentions(text, "Fetch.fulfillRequest")
    || Mentions(text, "Fetch.failRequest")
  }

  /** A command that arrives while a navigation runs: one that mentions a resolution lets the request it
      names go at once; any other waits, unless 256 wait already. Pages are not touched. */
  lemma ReceivedWhenBusy(s: State, m: Message)
    requires s.out.Some?
    ensures var t := ReceivedDuring(s, m);
      && t.ctx == s.ctx && t.out == s.out && t.processed == s.processed
      && (if MentionsResolution(m.text) then PausedLeft(s.paused, t.paused, m) else t.paused == s.paused)
      && t.deferred == if MentionsResolution(m.text) || |s.deferred| >= 256 then s.deferred else s.deferred + [m]
  {
    ContainsMentions(m.text, "Fetch.continueRequest");
    ContainsMentions(m.text, "Fetch.fulfillRequest");
    ContainsMentions(m.text, "Fetch.failRequest");
  }

  /** What the other events do: a client that connects during a navigation gets a blank page and its
      session; an intercepted request waits, during a navigation or when it can be routed; the
      navigation's page comes back last under its own id and context. */
  lemma OtherEvents(s: State, e: Event)
    requires Enabled(s, e)
    ensures var t := Next(s, e);
      match e
      case NewConnection =>
        var id := "page-" + Decimal(s.ctx.pageCounter + 1);
        if s.out.None? then t == s
        else
          && t == s.(ctx := t.ctx) && t.ctx.sessions == s.ctx.sessions[id + "-session" := id]
          && t.ctx.pages == s.ctx.pages + [PageState(id, "default", Some(Dom(0, {})), None, {})]
      case Intercept(id, routed) =>
        t == s.(paused := if s.out.Some? || routed then s.paused + {id} else s.paused)
      case NavigationDone(q) =>
        && t == s.(ctx := t.ctx, out := None) && t.ctx == s.ctx.(pages := t.ctx.pages)
        && t.ctx.pages == s.ctx.pages + [q.(id := s.out.value.id, context := s.out.value.context)]
      case TakeDeferred(o) => t == Handled(s.(deferred := s.deferred[1..]), s.deferred[0], o)
      case _ => true
  {
  }

  /** A turn of the event loop reaches the first live page only, which becomes what foreign code made of it
      but stays the same page, and live: it keeps its runtime when it was given none. */
  lemma {:induction false} PumpReaches(pages: seq<PageState>, q: PageState, i: nat)
    requires i < |pages|
    ensures var after := PumpFirst(pages, q);
      if pages[i].js.Some? && forall j :: 0 <= j < i ==> pages[j].js.None?
      then after[i] == q.(id := pages[i].id, context := pages[i].context,
                          js := if q.js.Some? then q.js else pages[i].js)
      else after[i] == pages[i]
  {
    if pages[0].js.None? && i > 0 {
      PumpReaches(pages[1..], q, i - 1);
      assert forall j :: 0 < j < |pages| ==> pages[1..][j - 1] == pages[j];
    }
  }
}
