/** Over every run of a connection: the order and fate of commands, the number of live runtimes,
    and the return of the page a navigation took. */
module ConnectionRuns {
  import opened Wrappers
  import opened Text
  import opened Pages
  import opened CdpContexts
  import opened Dispatch
  import opened LiveRuntimes
  import opened Connections

  // ---------- invariants ----------

  /** Every page of the connection, the one out in a navigation last. */
  function Roster(s: State): seq<PageState>
  {
    s.ctx.pages + if s.out.Some? then [s.out.value] else []
  }

  function AcceptedOf(receipts: seq<Receipt>): seq<Message>
  {
    if receipts == [] then []
    else AcceptedOf(receipts[..|receipts| - 1]) +
         if receipts[|receipts| - 1].fate.Accepted? then [receipts[|receipts| - 1].message] else []
  }

  /** Why a command met its fate: only a navigation turns one away, and then only a fetch
      resolution (as its text shows) or when the queue is full. */
  predicate ReceiptSound(r: Receipt)
  {
    && (r.fate.Resolution? <==> r.navigating && IsFetchResolution(r.message.text))
    && (r.fate.Rejected? <==> r.navigating && !IsFetchResolution(r.message.text) && r.waiting == MAX_DEFERRED_MESSAGES)
  }

  ghost predicate PagesSound(s: State)
  {
    WellIded(Roster(s), s.ctx.pageCounter) && (s.out.Some? ==> LiveCount(s.ctx.pages) == 0)
  }

  ghost predicate QueueSound(s: State)
  {
    && |s.deferred| <= MAX_DEFERRED_MESSAGES
    && AcceptedOf(s.received) == s.processed + s.deferred
    && forall r :: r in s.received ==> ReceiptSound(r)
  }

  ghost predicate Inv(s: State)
  {
    PagesSound(s) && QueueSound(s)
  }

  /** Taking page `i` out and suspending the others loses no page. */
  lemma TakingOutKeepsIds(pages: seq<PageState>, i: nat, id: string)
    requires i < |pages|
    ensures IdCount(SuspendAll(Without(pages, i)) + [pages[i]], id) == IdCount(pages, id)
  {
    SuspendAllCount(Without(pages, i));
    SameIds(Without(pages, i), SuspendAll(Without(pages, i)), id);
    IdCountConcat(SuspendAll(Without(pages, i)), [pages[i]], id);
    IdCountConcat(pages[..i], pages[i + 1..], id);
    IdCountConcat(pages[..i], [pages[i]] + pages[i + 1..], id);
    IdCountConcat([pages[i]], pages[i + 1..], id);
    assert pages == pages[..i] + ([pages[i]] + pages[i + 1..]);
  }

  lemma NavigatedKeepsPages(s: State, req: Request, o: Outcome)
    requires s.out.None? && PagesSound(s)
    ensures PagesSound(Navigated(s, req, o))
  {
    assert Roster(s) == s.ctx.pages;
    var t := Navigated(s, req, o);
    if Routed(s.ctx, req.session) {
      var i := IndexOf(s.ctx.pages, s.ctx.sessions[req.session.value]);
      SuspendAllCount(Without(s.ctx.pages, i));
      forall id ensures IdCount(Roster(t), id) == IdCount(s.ctx.pages, id) {
        TakingOutKeepsIds(s.ctx.pages, i, id);
      }
    } else {
      DispatchedKeepsIds(s.ctx, NavigateRequest(req.session), o);
      assert Roster(t) == t.ctx.pages;
    }
  }

  lemma HandledKeepsPages(s: State, m: Message, o: Outcome)
    requires s.out.None? && PagesSound(s)
    ensures PagesSound(Handled(s, m, o))
  {
    var t := Handled(s, m, o);
    assert Roster(s) == s.ctx.pages;
    if IsNavigate(m) {
      var u := s.(processed := s.processed + [m]);
      assert Roster(u) == Roster(s);
      NavigatedKeepsPages(u, m.request.value, o);
    } else {
      if m.request.Some? {
        DispatchedKeepsIds(s.ctx, m.request.value, o);
      }
      assert Roster(t) == t.ctx.pages;
    }
  }

  lemma ConnectedKeepsPages(s: State)
    requires s.out.Some? && PagesSound(s)
    ensures PagesSound(s.(ctx := Connected(s.ctx)))
  {
    var c := Connected(s.ctx);
    var p := c.pages[|s.ctx.pages|];
    NewPageKeepsIds(Roster(s), s.ctx.pageCounter, p);
    LiveCountConcat(s.ctx.pages, [p]);
    forall id ensures IdCount(Roster(s.(ctx := c)), id) == IdCount(Roster(s) + [p], id) {
      IdCountConcat(s.ctx.pages + [p], [s.out.value], id);
      IdCountConcat(s.ctx.pages, [p], id);
      IdCountConcat(s.ctx.pages, [s.out.value], id);
      IdCountConcat(Roster(s), [p], id);
    }
  }

  lemma {:induction false} PumpKeepsPages(pages: seq<PageState>, q: PageState)
    ensures LiveCount(PumpFirst(pages, q)) == LiveCount(pages)
    ensures forall i :: 0 <= i < |pages| ==> PumpFirst(pages, q)[i].id == pages[i].id
  {
    if pages != [] {
      PumpKeepsPages(pages[1..], q);
    }
  }

  lemma NextKeepsPages(s: State, e: Event)
    requires Enabled(s, e) && PagesSound(s)
    ensures PagesSound(Next(s, e))
  {
    var t := Next(s, e);
    match e
    case TakeDeferred(o) =>
      var u := s.(deferred := s.deferred[1..]);
      assert Roster(u) == Roster(s);
      HandledKeepsPages(u, s.deferred[0], o);
    case Arrive(m, o) =>
      if s.out.None? {
        var u := s.(received := s.received + [ReceiptOf(s, m)]);
        assert Roster(u) == Roster(s);
        HandledKeepsPages(u, m, o);
      } else {
        assert Roster(t) == Roster(s);
      }
    case NewConnection =>
      if s.out.Some? {
        ConnectedKeepsPages(s);
      }
    case Intercept(_, _) =>
      assert Roster(t) == Roster(s);
    case Pump(q) =>
      PumpKeepsPages(s.ctx.pages, q);
      assert Roster(s) == s.ctx.pages && Roster(t) == t.ctx.pages;
      forall id { SameIds(s.ctx.pages, t.ctx.pages, id); }
    case PumpNavigate(session, o) =>
      NavigatedKeepsPages(s, NavigateRequest(Some(session)), o);
    case Frame(session, q) =>
      assert Roster(s) == s.ctx.pages && Roster(t) == t.ctx.pages;
      TouchedKeepsIds(s.ctx, Some(session), q);
    case NavigationDone(q) =>
      assert Roster(t) == t.ctx.pages;
      forall id { SameIds(Roster(s), t.ctx.pages, id); }
  }

  lemma HandledQueue(s: State, m: Message, o: Outcome)
    ensures var t := Handled(s, m, o);
      t.processed == s.processed + [m] && t.deferred == s.deferred && t.received == s.received
  {
  }

  lemma TakingKeepsQueue(s: State, o: Outcome)
    requires s.deferred != [] && QueueSound(s)
    ensures QueueSound(Handled(s.(deferred := s.deferred[1..]), s.deferred[0], o))
  {
    HandledQueue(s.(deferred := s.deferred[1..]), s.deferred[0], o);
    assert s.processed + s.deferred == s.processed + [s.deferred[0]] + s.deferred[1..];
  }

  lemma ArrivingKeepsQueue(s: State, m: Message, o: Outcome)
    requires (s.out.Some? || s.deferred == []) && QueueSound(s)
    ensures QueueSound(Next(s, Arrive(m, o)))
  {
    assert (s.received + [ReceiptOf(s, m)])[..|s.received|] == s.received;
    assert ReceiptSound(ReceiptOf(s, m));
    if s.out.None? {
      HandledQueue(s.(received := s.received + [ReceiptOf(s, m)]), m, o);
    }
  }

  lemma NextKeepsInv(s: State, e: Event)
    requires Enabled(s, e) && Inv(s)
    ensures Inv(Next(s, e))
  {
    NextKeepsPages(s, e);
    if e.TakeDeferred? {
      TakingKeepsQueue(s, e.outcome);
    } else if e.Arrive? {
      ArrivingKeepsQueue(s, e.message, e.outcome);
    } else {
      OtherStepsKeepQueue(s, e);
    }
  }

  lemma OtherStepsKeepQueue(s: State, e: Event)
    requires Enabled(s, e) && !e.TakeDeferred? && !e.Arrive?
    ensures var t := Next(s, e);
      t.deferred == s.deferred && t.received == s.received && t.processed == s.processed
  {
  }

  lemma {:induction false} RunKeepsInv(s: State, events: seq<Event>)
    requires IsRun(s, events) && Inv(s)
    ensures Inv(After(s, events))
    decreases |events|
  {
    if events != [] {
      NextKeepsInv(s, events[0]);
      RunKeepsInv(Next(s, events[0]), events[1..]);
    }
  }

  // ---------- commands ----------

  function Arrivals(events: seq<Event>): seq<Message>
  {
    if events == [] then []
    else (if events[0].Arrive? then [events[0].message] else []) + Arrivals(events[1..])
  }

  function Messages(receipts: seq<Receipt>): seq<Message>
  {
    if receipts == [] then []
    else Messages(receipts[..|receipts| - 1]) + [receipts[|receipts| - 1].message]
  }

  lemma ReceiptsGrow(s: State, e: Event)
    requires Enabled(s, e)
    ensures Next(s, e).received == s.received + if e.Arrive? then [ReceiptOf(s, e.message)] else []
  {
  }

  lemma StepReceipts(s: State, e: Event)
    requires Enabled(s, e)
    ensures Messages(Next(s, e).received) == Messages(s.received) + if e.Arrive? then [e.message] else []
  {
    ReceiptsGrow(s, e);
    if e.Arrive? {
      assert (s.received + [ReceiptOf(s, e.message)])[..|s.received|] == s.received;
    } else {
      assert s.received + [] == s.received;
    }
  }

  lemma {:induction false} EveryArrivalHasReceipt(s: State, events: seq<Event>)
    requires IsRun(s, events)
    ensures Messages(After(s, events).received) == Messages(s.received) + Arrivals(events)
    decreases |events|
  {
    if events != [] {
      StepReceipts(s, events[0]);
      EveryArrivalHasReceipt(Next(s, events[0]), events[1..]);
    }
  }

  lemma StartSound()
    ensures Inv(START)
  {
    assert Roster(START) == [];
  }

  /** Every command received gets exactly one receipt, in order; the accepted ones, in order of
      arrival, are those processed followed by those waiting; at most 256 wait; and one is turned
      away exactly for the reasons of `ReceiptSound`. */
  lemma CommandsInOrder(events: seq<Event>)
    requires IsRun(START, events)
    ensures var s := After(START, events);
      && Messages(s.received) == Arrivals(events)
      && AcceptedOf(s.received) == s.processed + s.deferred
      && |s.deferred| <= MAX_DEFERRED_MESSAGES
      && forall r :: r in s.received ==> ReceiptSound(r)
  {
    StartSound();
    RunKeepsInv(START, events);
    EveryArrivalHasReceipt(START, events);
  }

  // ---------- live runtimes ----------

  /** While a navigation runs, no page but the one it holds has a runtime, on any run. */
  lemma NavigationRunsAlone(events: seq<Event>)
    requires IsRun(START, events) && After(START, events).out.Some?
    ensures LiveCount(After(START, events).ctx.pages) == 0
    ensures LiveCount(Roster(After(START, events))) <= 1
  {
    StartSound();
    RunKeepsInv(START, events);
    var s := After(START, events);
    LiveCountConcat(s.ctx.pages, [s.out.value]);
  }

  /** What a command handled outside a navigation dispatches, if it dispatches. */
  function DispatchOf(paused: set<string>, m: Message): Option<Request>
  {
    if IsNavigate(m) || (Contains(m.text, "Fetch.") && ResolvesFetch(paused, m)) then None else m.request
  }

  /** The step handles a command, and that is a `Target.createTarget` that loads its url while
      some page is live. */
  predicate LoadsSecond(s: State, e: Event)
    requires Enabled(s, e)
  {
    && (e.TakeDeferred? || (e.Arrive? && s.out.None?))
    && var d := DispatchOf(s.paused, if e.TakeDeferred? then s.deferred[0] else e.message);
    d.Some? && LoadsBeside(s.ctx, d.value) && LiveCount(s.ctx.pages) == 1
  }

  function WithOutcome(e: Event, o: Outcome): Event
  {
    match e
    case TakeDeferred(_) => TakeDeferred(o)
    case Arrive(m, _) => Arrive(m, o)
    case PumpNavigate(session, _) => PumpNavigate(session, o)
    case _ => e
  }

  function LiveAfter(s: State, e: Event, o: Outcome): nat
    requires Enabled(s, e)
  {
    LiveCount(Roster(Next(s, WithOutcome(e, o))))
  }

  lemma NavigatedCount(s: State, req: Request, o: Outcome)
    requires s.out.None? && PagesSound(s) && LiveCount(s.ctx.pages) <= 1
    ensures LiveCount(Roster(Navigated(s, req, o))) <= 1
  {
    assert Roster(s) == s.ctx.pages;
    var t := Navigated(s, req, o);
    if Routed(s.ctx, req.session) {
      SuspendAllCount(Without(s.ctx.pages, IndexOf(s.ctx.pages, s.ctx.sessions[req.session.value])));
      LiveCountConcat(t.ctx.pages, [t.out.value]);
    } else {
      DispatchKeepsOneExactly(s.ctx, NavigateRequest(req.session));
      assert Roster(t) == t.ctx.pages;
    }
  }

  lemma HandledRoster(s: State, m: Message, o: Outcome)
    requires s.out.None? && PagesSound(s) && LiveCount(s.ctx.pages) <= 1
    ensures var d, live := DispatchOf(s.paused, m), LiveCount(Roster(Handled(s, m, o)));
      if d.Some? then live == LiveCount(Dispatched(s.ctx, d.value, o).pages) else live <= 1
  {
    assert Roster(s) == s.ctx.pages;
    if IsNavigate(m) {
      var u := s.(processed := s.processed + [m]);
      assert Roster(u) == s.ctx.pages;
      NavigatedCount(u, m.request.value, o);
    } else {
      assert Roster(Handled(s, m, o)) == Handled(s, m, o).ctx.pages;
    }
  }

  /** From a state with at most one live runtime, counting the page out in a navigation, a step
      leaves at most one whatever foreign code does, exactly unless it is such a
      `Target.createTarget`. */
  lemma StepKeepsOneExactly(s: State, e: Event)
    requires Enabled(s, e) && Inv(s) && LiveCount(Roster(s)) <= 1
    ensures (forall o :: LiveAfter(s, e, o) <= 1) <==> !LoadsSecond(s, e)
  {
    LiveCountConcat(s.ctx.pages, if s.out.Some? then [s.out.value] else []);
    if e.TakeDeferred? || (e.Arrive? && s.out.None?) {
      HandledStep(s, e);
    } else {
      forall o ensures LiveAfter(s, e, o) <= 1 {
        var t := Next(s, WithOutcome(e, o));
        match e
        case PumpNavigate(session, _) =>
          NavigatedCount(s, NavigateRequest(Some(session)), o);
        case NewConnection =>
          if s.out.Some? {
            ConnectedKeepsPages(s);
            LiveCountConcat(t.ctx.pages, [s.out.value]);
          }
        case Pump(q) =>
          PumpKeepsPages(s.ctx.pages, q);
          assert Roster(t) == t.ctx.pages;
        case Frame(session, q) =>
          assert Roster(s) == s.ctx.pages && Roster(t) == t.ctx.pages;
          TouchedCount(s.ctx, Some(session), q);
        case NavigationDone(q) =>
          LiveCountConcat(s.ctx.pages, [Became(s.out.value, q)]);
          assert Roster(t) == t.ctx.pages;
        case Arrive(_, _) =>
          assert Roster(t) == Roster(s);
        case Intercept(_, _) =>
          assert Roster(t) == Roster(s);
      }
    }
  }

  lemma HandledStep(s: State, e: Event)
    requires Enabled(s, e) && Inv(s) && LiveCount(s.ctx.pages) <= 1
    requires e.TakeDeferred? || (e.Arrive? && s.out.None?)
    ensures (forall o :: LiveAfter(s, e, o) <= 1) <==> !LoadsSecond(s, e)
  {
    var m := if e.TakeDeferred? then s.deferred[0] else e.message;
    var u :=
      if e.TakeDeferred? then s.(deferred := s.deferred[1..]) else s.(received := s.received + [ReceiptOf(s, m)]);
    assert forall o :: LiveAfter(s, e, o) == LiveCount(Roster(Handled(u, m, o)));
    assert Roster(u) == Roster(s) == s.ctx.pages;
    var d := DispatchOf(s.paused, m);
    forall o { HandledRoster(u, m, o); }
    if d.Some? {
      DispatchKeepsOneExactly(s.ctx, d.value);
      assert forall o :: LiveAfter(s, e, o) == LiveCount(Dispatched(s.ctx, d.value, o).pages);
    }
  }

  ghost predicate NeverLoadsSecond(s: State, events: seq<Event>)
    requires IsRun(s, events)
    decreases |events|
  {
    events == [] || (!LoadsSecond(s, events[0]) && NeverLoadsSecond(Next(s, events[0]), events[1..]))
  }

  /** On every run without such a step the connection has at most one live runtime throughout. */
  lemma {:induction false} AtMostOneRuntime(s: State, events: seq<Event>)
    requires IsRun(s, events) && NeverLoadsSecond(s, events)
    requires Inv(s) && LiveCount(Roster(s)) <= 1
    ensures LiveCount(Roster(After(s, events))) <= 1
    decreases |events|
  {
    if events != [] {
      var e := events[0];
      StepKeepsOneExactly(s, e);
      NextKeepsInv(s, e);
      var o := match e case TakeDeferred(x) => x case Arrive(_, x) => x case PumpNavigate(_, x) => x
                 case _ => Outcome(NewPage("", ""), [], []);
      assert WithOutcome(e, o) == e;
      assert LiveAfter(s, e, o) <= 1;
      AtMostOneRuntime(Next(s, e), events[1..]);
    }
  }

  /** A command that is no navigation, arriving at an idle connection with no fetch in its text. */
  lemma ArrivalDispatches(s: State, m: Message, o: Outcome)
    requires Idle(s) && m.request.Some? && m.request.value.name != NAVIGATE && !Contains(m.text, "Fetch.")
    ensures Enabled(s, Arrive(m, o)) && Idle(Next(s, Arrive(m, o)))
    ensures Next(s, Arrive(m, o)).ctx == Dispatched(s.ctx, m.request.value, o)
  {
  }

  /** Creating a target with a url, however wrapped, adds a live runtime to an idle connection. */
  lemma CreationAddsRuntime(s: State, m: Message, live: PageState)
    requires Idle(s) && PagesSound(s) && Live(live) && !Contains(m.text, "Fetch.")
    requires m.request.Some? && m.request.value.name != NAVIGATE
    requires CarriedCommand(m.request.value) == CreateTarget(None, false, true)
    ensures var e := Arrive(m, Outcome(live, [], []));
      Enabled(s, e) && Idle(Next(s, e)) && LiveCount(Roster(Next(s, e))) == LiveCount(Roster(s)) + 1
  {
    var e := Arrive(m, Outcome(live, [], []));
    ArrivalDispatches(s, m, e.outcome);
    assert Roster(s) == s.ctx.pages && Roster(Next(s, e)) == Next(s, e).ctx.pages;
    EffectCount(s.ctx, CarriedCommand(m.request.value), live);
    DispatchedCount(s.ctx, m.request.value, e.outcome);
  }

  // The two frames of the witness, as a client sends them.
  const CREATE_HEAD := "{\"id\":1,\"method\":"
  const CREATE_NAME := "\"Target.createTarget\",\"params\":"
  const CREATE_FRAME := CREATE_HEAD + CREATE_NAME + "{\"url\":\"http://a/\"}}"
  const WRAPPER_HEAD := "{\"id\":2,\"method\":"
  const WRAPPER_NAME := "\"Target.sendMessageToTarget\","
  const WRAPPER_SESSION := "\"params\":{\"sessionId\":"
  const WRAPPER_ID := "\"page-1-session\",\"message\":\""
  const INNER_HEAD := "{\\\"id\\\":1,\\\"method\\\":"
  const INNER_NAME := "\\\"Target.createTarget\\\","
  const INNER_PARAMS := "\\\"params\\\":{\\\"url\\\":"
  const INNER_URL := "\\\"http://a/\\\"}}\"}}"
  const WRAPPER_FRAME := WRAPPER_HEAD + WRAPPER_NAME + WRAPPER_SESSION + WRAPPER_ID
                         + INNER_HEAD + INNER_NAME + INNER_PARAMS + INNER_URL

  function CreateMessage(): Message
  {
    Message(CREATE_FRAME, Some(Request("Target.createTarget", None, "", CreateTarget(None, false, true))))
  }

  /** The same creation, carried to the session of the first page. */
  function WrappedMessage(): Message
  {
    Message(WRAPPER_FRAME,
            Some(Wrapper("Target.sendMessageToTarget", None, "", Some(SessionOf(PageId(1))),
                         Request("Target.createTarget", None, "", CreateTarget(None, false, true)))))
  }

  lemma OccurrenceStarts(text: string, part: string, i: nat)
    requires OccursAt(text, part, i) && part != ""
    ensures part[0] in text
  {
    assert text[i..i + |part|][0] == text[i];
  }

  lemma NoFetchWithoutF(text: string)
    requires 'F' !in text
    ensures !Contains(text, "Fetch.")
  {
    var found := Find(text, "Fetch.");
    if found.Some? {
      OccurrenceStarts(text, "Fetch.", found.value);
    }
  }

  lemma FramesResolveNothing()
    ensures !Contains(CreateMessage().text, "Fetch.") && !Contains(WrappedMessage().text, "Fetch.")
  {
    CreateFrameHasNoF();
    WrapperFrameHasNoF();
    NoFetchWithoutF(CreateMessage().text);
    NoFetchWithoutF(WrappedMessage().text);
  }

  lemma CreateFrameHasNoF()
    ensures 'F' !in CREATE_FRAME
  {
    assert 'F' !in CREATE_HEAD;
    assert 'F' !in CREATE_NAME;
  }

  lemma WrapperFrameHasNoF()
    ensures 'F' !in WRAPPER_FRAME
  {
    WrapperHeadHasNoF();
    WrapperInnerHasNoF();
  }

  lemma WrapperHeadHasNoF()
    ensures 'F' !in WRAPPER_HEAD && 'F' !in WRAPPER_NAME && 'F' !in WRAPPER_SESSION && 'F' !in WRAPPER_ID
  {
    assert 'F' !in WRAPPER_HEAD && 'F' !in WRAPPER_NAME;
  }

  lemma WrapperInnerHasNoF()
    ensures 'F' !in INNER_HEAD && 'F' !in INNER_NAME && 'F' !in INNER_PARAMS && 'F' !in INNER_URL
  {
    assert 'F' !in INNER_HEAD && 'F' !in INNER_NAME;
  }

  lemma CreationsAreNoNavigation()
    ensures CreateMessage().request.value.name != NAVIGATE && WrappedMessage().request.value.name != NAVIGATE
  {
    assert "Target.createTarget"[0] != NAVIGATE[0] && "Target.sendMessageToTarget"[0] != NAVIGATE[0];
  }

  /** Two such creations, one after the other, leave two live runtimes: sent plainly, or the
      second wrapped in a `Target.sendMessageToTarget`. */
  lemma TwoRuntimesReachable(second: Message)
    requires second == CreateMessage() || second == WrappedMessage()
    ensures exists o :: var events := [Arrive(CreateMessage(), o), Arrive(second, o)];
      IsRun(START, events) && LiveCount(Roster(After(START, events))) == 2
  {
    FramesResolveNothing();
    CreationsAreNoNavigation();
    TwoCreations(CreateMessage(), second);
  }

  lemma TwoCreations(first: Message, second: Message)
    requires !Contains(first.text, "Fetch.") && !Contains(second.text, "Fetch.")
    requires first.request.Some? && first.request.value.name != NAVIGATE
    requires second.request.Some? && second.request.value.name != NAVIGATE
    requires CarriedCommand(first.request.value) == CreateTarget(None, false, true)
    requires CarriedCommand(second.request.value) == CreateTarget(None, false, true)
    ensures exists o :: var events := [Arrive(first, o), Arrive(second, o)];
      IsRun(START, events) && LiveCount(Roster(After(START, events))) == 2
  {
    var o := Outcome(PageState("", "", None, Some(Runtime(None, {})), {}), [], []);
    var d, e := Arrive(first, o), Arrive(second, o);
    StartSound();
    CreationAddsRuntime(START, first, o.loaded);
    NextKeepsPages(START, d);
    CreationAddsRuntime(Next(START, d), second, o.loaded);
    TwoSteps(START, d, e);
  }

  lemma TwoSteps(s: State, d: Event, e: Event)
    requires Enabled(s, d) && Enabled(Next(s, d), e)
    ensures IsRun(s, [d, e]) && After(s, [d, e]) == Next(Next(s, d), e)
  {
    var t := Next(s, d);
    assert [d, e][1..] == [e] && [e][1..] == [];
    assert IsRun(Next(t, e), []) && IsRun(t, [e]);
    assert After(t, [e]) == Next(t, e);
  }

  // ---------- navigation ----------

  function NewPages(counter: nat, k: nat): seq<PageState>
  {
    if k == 0 then [] else NewPages(counter, k - 1) + [NewPage(PageId(counter + k), DEFAULT_CONTEXT)]
  }

  function NewConnections(events: seq<Event>): nat
  {
    if events == [] then 0 else (if events[0].NewConnection? then 1 else 0) + NewConnections(events[1..])
  }

  function WithNewPages(pages: seq<PageState>, counter: nat, k: nat): seq<PageState>
    decreases k
  {
    if k == 0 then pages else WithNewPages(pages + [NewPage(PageId(counter + 1), DEFAULT_CONTEXT)], counter + 1, k - 1)
  }

  lemma {:induction false} NewPagesHead(counter: nat, k: nat)
    requires k > 0
    ensures NewPages(counter, k) == [NewPage(PageId(counter + 1), DEFAULT_CONTEXT)] + NewPages(counter + 1, k - 1)
  {
    if k > 1 {
      NewPagesHead(counter, k - 1);
    }
  }

  lemma {:induction false} WithNewPagesMeaning(pages: seq<PageState>, counter: nat, k: nat)
    ensures WithNewPages(pages, counter, k) == pages + NewPages(counter, k)
    decreases k
  {
    if k > 0 {
      NewPagesHead(counter, k);
      WithNewPagesMeaning(pages + [NewPage(PageId(counter + 1), DEFAULT_CONTEXT)], counter + 1, k - 1);
    }
  }

  predicate StillNavigating(events: seq<Event>)
  {
    forall e :: e in events ==> !e.NavigationDone?
  }

  /** What a navigation in progress keeps: the page it holds, what has been processed, and the
      pages of the context, to which only new ones are added. */
  ghost predicate Continues(s: State, t: State, connected: nat)
  {
    && t.out == s.out && t.processed == s.processed
    && t.ctx.pages == WithNewPages(s.ctx.pages, s.ctx.pageCounter, connected)
  }

  lemma StepDuringNavigation(s: State, e: Event)
    requires Enabled(s, e) && s.out.Some? && !e.NavigationDone?
    ensures var t := Next(s, e);
      if e.NewConnection? then
        && t.out == s.out && t.processed == s.processed && t.ctx.pageCounter == s.ctx.pageCounter + 1
        && t.ctx.pages == s.ctx.pages + [NewPage(PageId(s.ctx.pageCounter + 1), DEFAULT_CONTEXT)]
      else t.out == s.out && t.processed == s.processed && t.ctx == s.ctx
  {
  }

  lemma {:induction false} DuringNavigation(s: State, events: seq<Event>)
    requires IsRun(s, events) && s.out.Some? && StillNavigating(events)
    ensures Continues(s, After(s, events), NewConnections(events))
    decreases |events|
  {
    if events != [] {
      StepDuringNavigation(s, events[0]);
      DuringNavigation(Next(s, events[0]), events[1..]);
    }
  }

  /** A navigation gives back the page it took, under the same id and context: afterwards the
      context holds the other pages in order, each suspended but with its document and started
      scripts, then a page for each client that connected meanwhile, then the navigated page.
      No command is processed in between. */
  lemma NavigationReturnsPage(s: State, start: Event, during: seq<Event>, q: PageState)
    requires s.out.None? && Enabled(s, start) && Next(s, start).out.Some?
    requires IsRun(Next(s, start), during) && StillNavigating(during)
    ensures var nav := Next(s, start);
      var t := After(nav, during);
      && Enabled(t, NavigationDone(q))
      && t.processed == nav.processed
      && exists i :: 0 <= i < |s.ctx.pages| && nav.out == Some(s.ctx.pages[i])
           && Returned(s, Next(t, NavigationDone(q)), NewConnections(during), i, q)
  {
    var nav := Next(s, start);
    DuringNavigation(nav, during);
    var session := NavigatedSession(s, start);
    var i := IndexOf(s.ctx.pages, s.ctx.sessions[session]);
    OthersAsleep(Without(s.ctx.pages, i));
    NewPagesLength(s.ctx.pageCounter, NewConnections(during));
    WithNewPagesMeaning(nav.ctx.pages, s.ctx.pageCounter, NewConnections(during));
    ReturnedHere(s, After(nav, during), NewConnections(during), i, q);
  }

  lemma OthersAsleep(others: seq<PageState>)
    ensures forall j :: 0 <= j < |others| ==> SuspendAll(others)[j].id == others[j].id
    ensures forall j :: 0 <= j < |others| && StartedAreScripts(others[j]) ==>
      KeptAsleep(others[j], SuspendAll(others)[j])
  {
    SuspendAllCount(others);
    forall j | 0 <= j < |others| && StartedAreScripts(others[j]) ensures KeptAsleep(others[j], SuspendAll(others)[j]) {
      SwitchesKeepPage(others[j], [SuspendIt]);
      assert [SuspendIt][1..] == [];
      assert Switched(others[j], [SuspendIt]) == Switched(Suspended(others[j]), []) == Suspended(others[j]);
    }
  }

  lemma {:induction false} NewPagesLength(counter: nat, k: nat)
    ensures |NewPages(counter, k)| == k
  {
    if k > 0 {
      NewPagesLength(counter, k - 1);
    }
  }

  lemma ReturnedHere(s: State, t: State, connected: nat, i: nat, q: PageState)
    requires i < |s.ctx.pages| && t.out == Some(s.ctx.pages[i])
    requires var others := Without(s.ctx.pages, i);
      && (forall j :: 0 <= j < |others| ==> SuspendAll(others)[j].id == others[j].id)
      && (forall j :: 0 <= j < |others| && StartedAreScripts(others[j]) ==>
            KeptAsleep(others[j], SuspendAll(others)[j]))
      && t.ctx.pages == SuspendAll(others) + NewPages(s.ctx.pageCounter, connected)
    requires |NewPages(s.ctx.pageCounter, connected)| == connected
    ensures Returned(s, Next(t, NavigationDone(q)), connected, i, q)
  {
  }

  lemma NavigatedSession(s: State, start: Event) returns (session: string)
    requires s.out.None? && Enabled(s, start) && Next(s, start).out.Some?
    ensures Routed(s.ctx, Some(session))
    ensures var i := IndexOf(s.ctx.pages, s.ctx.sessions[session]);
      Next(s, start).out == Some(s.ctx.pages[i]) &&
      Next(s, start).ctx == s.ctx.(pages := SuspendAll(Without(s.ctx.pages, i)))
  {
    match start
    case TakeDeferred(_) => session := s.deferred[0].request.value.session.value;
    case Arrive(m, _) => session := m.request.value.session.value;
    case PumpNavigate(x, _) => session := x;
    case _ => session := "";
  }

  predicate KeptAsleep(p: PageState, q: PageState)
  {
    q.id == p.id && !Live(q) && DocumentOf(q) == DocumentOf(p) && StartedOf(q) == StartedOf(p)
  }

  ghost predicate Returned(s: State, t: State, connected: nat, i: nat, q: PageState)
    requires i < |s.ctx.pages|
  {
    var n := |s.ctx.pages| - 1;
    && t.out.None?
    && |t.ctx.pages| == n + connected + 1
    && (forall j :: 0 <= j < n && StartedAreScripts(Without(s.ctx.pages, i)[j]) ==>
          KeptAsleep(Without(s.ctx.pages, i)[j], t.ctx.pages[j]))
    && (forall j :: 0 <= j < n ==> t.ctx.pages[j].id == Without(s.ctx.pages, i)[j].id)
    && t.ctx.pages[n..n + connected] == NewPages(s.ctx.pageCounter, connected)
    && t.ctx.pages[n + connected] == Became(s.ctx.pages[i], q)
  }
}
