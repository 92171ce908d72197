/** Page ids stay distinct, and which commands can leave a connection with two live runtimes. */
module LiveRuntimes {
  import opened Wrappers
  import opened Text
  import opened Pages
  import opened CdpContexts
  import opened Dispatch

  // ---------- distinct ids ----------

  function IdCount(pages: seq<PageState>, id: string): nat
  {
    if pages == [] then 0 else (if pages[0].id == id then 1 else 0) + IdCount(pages[1..], id)
  }

  ghost predicate IsNumbered(id: string, n: nat)
  {
    exists k: nat :: 1 <= k <= n && id == PageId(k)
  }

  /** No id occurs twice, and every id was given out by the page counter. */
  ghost predicate WellIded(pages: seq<PageState>, n: nat)
  {
    forall id :: IdCount(pages, id) <= if IsNumbered(id, n) then 1 else 0
  }

  lemma {:induction false} IdCountConcat(s: seq<PageState>, t: seq<PageState>, id: string)
    ensures IdCount(s + t, id) == IdCount(s, id) + IdCount(t, id)
  {
    if s == [] {
      assert s + t == t;
    } else {
      assert (s + t)[1..] == s[1..] + t;
      IdCountConcat(s[1..], t, id);
    }
  }

  lemma {:induction false} IdCounted(pages: seq<PageState>, i: nat)
    requires i < |pages|
    ensures IdCount(pages, pages[i].id) >= 1
  {
    if i > 0 {
      IdCounted(pages[1..], i - 1);
    }
  }

  lemma {:induction false} SameIds(s: seq<PageState>, t: seq<PageState>, id: string)
    requires |s| == |t| && forall i :: 0 <= i < |s| ==> s[i].id == t[i].id
    ensures IdCount(s, id) == IdCount(t, id)
  {
    if s != [] {
      SameIds(s[1..], t[1..], id);
    }
  }

  lemma DistinctWhenWellIded(pages: seq<PageState>, n: nat)
    requires WellIded(pages, n)
    ensures DistinctIds(pages)
  {
    forall i, j | 0 <= i < j < |pages| ensures pages[i].id != pages[j].id {
      assert pages == pages[..j] + pages[j..];
      IdCountConcat(pages[..j], pages[j..], pages[i].id);
      IdCounted(pages[..j], i);
      IdCounted(pages[j..], 0);
    }
  }

  lemma PageIdInjective(m: nat, n: nat)
    requires PageId(m) == PageId(n)
    ensures m == n
  {
    assert PageId(m)[5..] == Decimal(m) && PageId(n)[5..] == Decimal(n);
    DecimalInjective(m, n);
  }

  /** The next id is new, so adding a page with it keeps ids distinct. */
  lemma NewPageKeepsIds(pages: seq<PageState>, n: nat, p: PageState)
    requires WellIded(pages, n) && p.id == PageId(n + 1)
    ensures IdCount(pages, p.id) == 0
    ensures WellIded(pages + [p], n + 1)
  {
    if IsNumbered(p.id, n) {
      var k: nat :| 1 <= k <= n && p.id == PageId(k);
      PageIdInjective(k, n + 1);
    }
    assert !IsNumbered(p.id, n);
    forall id ensures IdCount(pages + [p], id) <= if IsNumbered(id, n + 1) then 1 else 0 {
      IdCountConcat(pages, [p], id);
      assert IdCount(pages, id) <= if IsNumbered(id, n) then 1 else 0;
      if id == p.id {
        assert 1 <= n + 1 <= n + 1 && id == PageId(n + 1);
      } else if IsNumbered(id, n) {
        var k: nat :| 1 <= k <= n && id == PageId(k);
        assert 1 <= k <= n + 1;
      }
    }
  }

  lemma {:induction false} WithoutPageIds(pages: seq<PageState>, removed: string, id: string)
    ensures IdCount(WithoutPage(pages, removed), id) <= IdCount(pages, id)
  {
    if pages != [] {
      WithoutPageIds(pages[1..], removed, id);
    }
  }

  lemma {:induction false} RemoveEachIds(c: Ctx, ids: seq<string>, id: string)
    ensures IdCount(RemoveEach(c, ids).pages, id) <= IdCount(c.pages, id)
    ensures RemoveEach(c, ids).pageCounter == c.pageCounter
  {
    if ids != [] {
      RemoveEachIds(c, ids[..|ids| - 1], id);
      WithoutPageIds(RemoveEach(c, ids[..|ids| - 1]).pages, ids[|ids| - 1], id);
    }
  }

  lemma {:induction false} ReplaceKeepsIds(pages: seq<PageState>, id: string, q: PageState)
    ensures forall i :: 0 <= i < |pages| ==> ReplaceFirst(pages, id, q)[i].id == pages[i].id
  {
    if pages != [] {
      ReplaceKeepsIds(pages[1..], id, q);
    }
  }

  lemma EffectKeepsIds(c: Ctx, command: Command, loaded: PageState)
    requires WellIded(c.pages, c.pageCounter)
    ensures var d := Effect(c, command, loaded); WellIded(d.pages, d.pageCounter)
  {
    var d := Effect(c, command, loaded);
    match command
    case CloseTarget(closed) =>
      forall id { WithoutPageIds(c.pages, closed, id); }
    case DisposeContext(disposed) =>
      forall id { RemoveEachIds(c.(contexts := c.contexts - {disposed}), IdsIn(c.pages, disposed), id); }
      assert d.pageCounter == c.pageCounter by {
        RemoveEachIds(c.(contexts := c.contexts - {disposed}), IdsIn(c.pages, disposed), "");
      }
    case CreateTarget(context, blank, allowed) =>
      if KnownContext(c.contexts, context) && allowed {
        var made := Created(c, ContextOr(context)).pages;
        NewPageKeepsIds(c.pages, c.pageCounter, made[|c.pages|]);
        ReplaceKeepsIds(made, PageId(c.pageCounter + 1), loaded);
        forall id { SameIds(d.pages, made, id); }
      }
    case _ =>
  }

  lemma TouchedKeepsIds(c: Ctx, session: Option<string>, q: PageState)
    requires WellIded(c.pages, c.pageCounter)
    ensures var d := Touched(c, session, q); WellIded(d.pages, d.pageCounter)
  {
    if session.Some? && session.value in c.sessions {
      var id := c.sessions[session.value];
      ActivationKeepsIds(c.pages, id);
      var d := Touched(c, session, q);
      ReplaceKeepsIds(Activated(c, session).pages, id, q);
      forall x { SameIds(d.pages, c.pages, x); }
    }
  }

  // ---------- counting live runtimes ----------

  lemma {:induction false} LiveCountUpdate(pages: seq<PageState>, i: nat, q: PageState)
    requires i < |pages|
    ensures LiveCount(pages[i := q]) + (if Live(pages[i]) then 1 else 0) == LiveCount(pages) + if Live(q) then 1 else 0
  {
    assert pages == pages[..i] + ([pages[i]] + pages[i + 1..]);
    assert pages[i := q] == pages[..i] + ([q] + pages[i + 1..]);
    LiveCountConcat(pages[..i], [pages[i]] + pages[i + 1..]);
    LiveCountConcat(pages[..i], [q] + pages[i + 1..]);
    LiveCountConcat([pages[i]], pages[i + 1..]);
    LiveCountConcat([q], pages[i + 1..]);
  }

  /** Using a session's page never leaves more live runtimes than there were, or than one. */
  lemma TouchedCount(c: Ctx, session: Option<string>, q: PageState)
    requires WellIded(c.pages, c.pageCounter)
    ensures var n := LiveCount(c.pages); LiveCount(Touched(c, session, q).pages) <= if n > 1 then n else 1
  {
    DistinctWhenWellIded(c.pages, c.pageCounter);
    ActivationCount(c, session);
    var a := Activated(c, session);
    if session.Some? && session.value in c.sessions {
      var id := c.sessions[session.value];
      if i: nat :| i < |a.pages| && FirstWith(a.pages, id, i) {
        ActivatedIsLive(c, session.value, i);
        ReplaceFirstAt(a.pages, id, i, q);
        LiveCountUpdate(a.pages, i, Became(a.pages[i], q));
      } else {
        FirstExists(a.pages, id);
        ReplaceFirstNone(a.pages, id, q);
      }
    }
  }

  lemma {:induction false} FirstExists(pages: seq<PageState>, id: string)
    ensures (forall j :: 0 <= j < |pages| ==> pages[j].id != id) ||
      exists i: nat :: i < |pages| && FirstWith(pages, id, i)
  {
    if j: nat :| j < |pages| && pages[j].id == id {
      var k := FirstIndex(pages, id, j);
    }
  }

  lemma {:induction false} FirstIndex(pages: seq<PageState>, id: string, j: nat) returns (k: nat)
    requires j < |pages| && pages[j].id == id
    ensures k < |pages| && FirstWith(pages, id, k)
  {
    k := j;
    if i: nat :| i < j && pages[i].id == id {
      k := FirstIndex(pages, id, i);
    }
  }

  lemma {:induction false} TouchedAllCount(c: Ctx, session: Option<string>, touches: seq<PageState>)
    requires WellIded(c.pages, c.pageCounter)
    ensures var d := TouchedAll(c, session, touches);
      WellIded(d.pages, d.pageCounter)
      && LiveCount(d.pages) <= if LiveCount(c.pages) > 1 then LiveCount(c.pages) else 1
    decreases |touches|
  {
    if touches != [] {
      TouchedKeepsIds(c, session, touches[0]);
      TouchedCount(c, session, touches[0]);
      TouchedAllCount(Touched(c, session, touches[0]), session, touches[1..]);
    }
  }

  /** The command loads a document into a page it creates, which no other page is suspended for. */
  predicate LoadsNewPage(c: Ctx, command: Command)
  {
    command.CreateTarget? && !command.blank && command.allowed && KnownContext(c.contexts, command.context)
  }

  /** The request is, or carries inside any number of wrappers, such a command. */
  predicate LoadsBeside(c: Ctx, req: Request)
  {
    if req.Wrapper? then LoadsBeside(c, req.inner) else LoadsNewPage(c, req.command)
  }

  lemma {:induction false} LoadsBesideCarried(c: Ctx, req: Request)
    ensures LoadsBeside(c, req) <==> LoadsNewPage(c, CarriedCommand(req))
    decreases req
  {
    if req.Wrapper? {
      LoadsBesideCarried(c, req.inner);
    }
  }

  lemma EffectCount(c: Ctx, command: Command, loaded: PageState)
    requires WellIded(c.pages, c.pageCounter)
    ensures var m, n := LiveCount(Effect(c, command, loaded).pages), LiveCount(c.pages);
      if LoadsNewPage(c, command) then m == n + (if Live(loaded) then 1 else 0) else m <= n
  {
    match command
    case CloseTarget(closed) => WithoutPageCount(c.pages, closed);
    case DisposeContext(disposed) =>
      RemoveEachPages(c.(contexts := c.contexts - {disposed}), IdsIn(c.pages, disposed));
    case CreateTarget(context, blank, allowed) =>
      if KnownContext(c.contexts, context) && allowed {
        var made := Created(c, ContextOr(context)).pages;
        var id := PageId(c.pageCounter + 1);
        LiveCountConcat(c.pages, [made[|c.pages|]]);
        NewPageKeepsIds(c.pages, c.pageCounter, made[|c.pages|]);
        forall j | 0 <= j < |c.pages| ensures made[j].id != id {
          IdCounted(c.pages, j);
        }
        assert FirstWith(made, id, |c.pages|);
        ReplaceFirstAt(made, id, |c.pages|, loaded);
        LiveCountUpdate(made, |c.pages|, Became(made[|c.pages|], loaded));
      }
    case _ =>
  }

  lemma DispatchedKeepsIds(c: Ctx, req: Request, o: Outcome)
    requires WellIded(c.pages, c.pageCounter)
    ensures var d := Dispatched(c, req, o); WellIded(d.pages, d.pageCounter)
  {
    EffectKeepsIds(c, CarriedCommand(req), o.loaded);
    WrappersOnlyRoute(c, req, req.session, o.loaded, o.touches);
    TouchedAllCount(Effect(c, CarriedCommand(req), o.loaded), CarriedSession(req, req.session), o.touches);
    TouchedAllCount(DispatchedFor(c, req, req.session, o.loaded, o.touches), req.session, o.after);
  }

  /** A dispatched request leaves at most as many live runtimes as its command's own effect, or
      than one; and just as many when foreign code is given no page. */
  lemma DispatchedCount(c: Ctx, req: Request, o: Outcome)
    requires WellIded(c.pages, c.pageCounter)
    ensures
      var m := LiveCount(Dispatched(c, req, o).pages);
      var n := LiveCount(Effect(c, CarriedCommand(req), o.loaded).pages);
      m <= (if n > 1 then n else 1) && (o.touches == [] && o.after == [] ==> m == n)
  {
    EffectKeepsIds(c, CarriedCommand(req), o.loaded);
    WrappersOnlyRoute(c, req, req.session, o.loaded, o.touches);
    TouchedAllCount(Effect(c, CarriedCommand(req), o.loaded), CarriedSession(req, req.session), o.touches);
    TouchedAllCount(DispatchedFor(c, req, req.session, o.loaded, o.touches), req.session, o.after);
  }

  /** A dispatched request keeps to one live runtime, whatever scripts and the network do, exactly
      unless it loads a document into a new page, itself or inside wrappers, while another
      page is live. */
  lemma DispatchKeepsOneExactly(c: Ctx, req: Request)
    requires WellIded(c.pages, c.pageCounter) && LiveCount(c.pages) <= 1
    ensures (forall o :: LiveCount(Dispatched(c, req, o).pages) <= 1)
        <==> !(LoadsBeside(c, req) && LiveCount(c.pages) == 1)
  {
    LoadsBesideCarried(c, req);
    if LoadsBeside(c, req) && LiveCount(c.pages) == 1 {
      var o := Outcome(PageState("", "", None, Some(Runtime(None, {})), {}), [], []);
      EffectCount(c, CarriedCommand(req), o.loaded);
      DispatchedCount(c, req, o);
      assert LiveCount(Dispatched(c, req, o).pages) == 2;
    } else {
      forall o ensures LiveCount(Dispatched(c, req, o).pages) <= 1 {
        EffectCount(c, CarriedCommand(req), o.loaded);
        DispatchedCount(c, req, o);
      }
    }
  }
}
