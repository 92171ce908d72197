/** The pages and sessions of one connection: the operations that switch runtimes between pages,
    and what they do to the number of live runtimes. */
module CdpContexts {
  import opened Wrappers
  import opened Text
  import opened Pages

  const DEFAULT_CONTEXT := "default"

  datatype Ctx = Ctx(pages: seq<PageState>, sessions: map<string, string>, loaders: map<string, string>,
                     contexts: set<string>, pageCounter: nat, contextCounter: nat, sessionCounter: nat)

  const EMPTY := Ctx([], map[], map[], {}, 0, 0, 0)

  function PageId(n: nat): string
  {
    "page-" + Decimal(n)
  }

  function SessionOf(pageId: string): string
  {
    pageId + "-session"
  }

  function NewPage(id: string, context: string): PageState
  {
    Blanked(PageState(id, context, None, None, {}), Dom(0, {}))
  }

  // ---------- the specification ----------

  function LiveCount(pages: seq<PageState>): nat
  {
    if pages == [] then 0 else (if Live(pages[0]) then 1 else 0) + LiveCount(pages[1..])
  }

  predicate HasPage(pages: seq<PageState>, id: string)
  {
    exists i :: 0 <= i < |pages| && pages[i].id == id
  }

  predicate FirstWith(pages: seq<PageState>, id: string, i: nat)
    requires i < |pages|
  {
    pages[i].id == id && forall j :: 0 <= j < i ==> pages[j].id != id
  }

  ghost predicate DistinctIds(pages: seq<PageState>)
  {
    forall i, j :: 0 <= i < j < |pages| ==> pages[i].id != pages[j].id
  }

  predicate HasLive(pages: seq<PageState>, id: string)
  {
    exists i :: 0 <= i < |pages| && pages[i].id == id && Live(pages[i])
  }

  /** Suspend the first live page other than `id`, and only that one. */
  function SuspendFirstOther(pages: seq<PageState>, id: string): (r: seq<PageState>)
    ensures |r| == |pages|
  {
    if pages == [] then []
    else if pages[0].id != id && Live(pages[0]) then [Suspended(pages[0])] + pages[1..]
    else [pages[0]] + SuspendFirstOther(pages[1..], id)
  }

  function ResumeFirst(pages: seq<PageState>, id: string): (r: seq<PageState>)
    ensures |r| == |pages|
  {
    if pages == [] then []
    else if pages[0].id == id then [Resumed(pages[0])] + pages[1..]
    else [pages[0]] + ResumeFirst(pages[1..], id)
  }

  function SuspendAll(pages: seq<PageState>): (r: seq<PageState>)
    ensures |r| == |pages|
  {
    if pages == [] then [] else [Suspended(pages[0])] + SuspendAll(pages[1..])
  }

  function WithoutPage(pages: seq<PageState>, id: string): seq<PageState>
  {
    if pages == [] then []
    else if pages[0].id == id then WithoutPage(pages[1..], id)
    else [pages[0]] + WithoutPage(pages[1..], id)
  }

  /** `get_session_page_mut`. */
  function Activated(c: Ctx, session: Option<string>): Ctx
  {
    if session.None? || session.value !in c.sessions then c
    else
      var id := c.sessions[session.value];
      if HasLive(c.pages, id) then c
      else c.(pages := ResumeFirst(SuspendFirstOther(c.pages, id), id))
  }

  function Created(c: Ctx, context: string): Ctx
  {
    var id := PageId(c.pageCounter + 1);
    c.(pages := c.pages + [NewPage(id, context)], loaders := c.loaders[id := "loader-blank-" + id],
       pageCounter := c.pageCounter + 1)
  }

  predicate KnownContext(contexts: set<string>, context: Option<string>)
  {
    context.None? || context.value == DEFAULT_CONTEXT || context.value in contexts
  }

  function ContextOr(context: Option<string>): string
  {
    if context.Some? then context.value else DEFAULT_CONTEXT
  }

  function RemovePageFrom(c: Ctx, id: string): Ctx
  {
    c.(pages := WithoutPage(c.pages, id), loaders := c.loaders - {id},
       sessions := map s | s in c.sessions && c.sessions[s] != id :: c.sessions[s])
  }

  function RemoveEach(c: Ctx, ids: seq<string>): Ctx
  {
    if ids == [] then c else RemovePageFrom(RemoveEach(c, ids[..|ids| - 1]), ids[|ids| - 1])
  }

  function IdsIn(pages: seq<PageState>, context: string): seq<string>
  {
    if pages == [] then []
    else (if pages[0].context == context then [pages[0].id] else []) + IdsIn(pages[1..], context)
  }

  function Disposed(c: Ctx, context: string): Ctx
  {
    if context == DEFAULT_CONTEXT || context !in c.contexts then c
    else RemoveEach(c.(contexts := c.contexts - {context}), IdsIn(c.pages, context))
  }

  // ---------- the context object ----------

  class CdpContext {
    var pages: seq<PageState>
    var sessions: map<string, string>
    var loaders: map<string, string>
    var contexts: set<string>
    var pageCounter: nat
    var contextCounter: nat
    var sessionCounter: nat

    ghost function Contents(): Ctx
      reads this
    {
      Ctx(pages, sessions, loaders, contexts, pageCounter, contextCounter, sessionCounter)
    }

    constructor ()
      ensures Contents() == EMPTY
    {
      pages, sessions, loaders, contexts := [], map[], map[], {};
      pageCounter, contextCounter, sessionCounter := 0, 0, 0;
    }

    /** Gives the index of the session's page; when ids are distinct, that page is live. */
    method GetSessionPageMut(session: Option<string>) returns (index: Option<nat>)
      modifies `pages
      ensures Contents() == Activated(old(Contents()), session)
      ensures index.Some? <==>
        session.Some? && session.value in sessions && HasPage(old(pages), sessions[session.value])
      ensures index.Some? ==> index.value < |pages| && FirstWith(pages, sessions[session.value], index.value)
      ensures index.Some? && DistinctIds(old(pages)) ==> Live(pages[index.value])
    {
      if session.None? || session.value !in sessions {
        return None;
      }
      var id := sessions[session.value];
      if !HasLive(pages, id) {
        SuspendOther(id);
        Resume(id);
      }
      index := FirstPage(id);
      FoundPage(old(Contents()), session.value, index);
    }

    method FirstPage(id: string) returns (index: Option<nat>)
      ensures index.None? ==> forall j :: 0 <= j < |pages| ==> pages[j].id != id
      ensures index.Some? ==> index.value < |pages| && FirstWith(pages, id, index.value)
    {
      for i := 0 to |pages|
        invariant forall j :: 0 <= j < i ==> pages[j].id != id
      {
        if pages[i].id == id {
          return Some(i);
        }
      }
      return None;
    }

    method SuspendOther(id: string)
      modifies `pages
      ensures pages == SuspendFirstOther(old(pages), id)
    {
      for i := 0 to |pages|
        invariant pages == old(pages)
        invariant forall j :: 0 <= j < i ==> !(pages[j].id != id && Live(pages[j]))
      {
        if pages[i].id != id && Live(pages[i]) {
          SuspendFirstAt(pages, id, i);
          SuspendAt(i);
          return;
        }
      }
      SuspendFirstNone(pages, id);
    }

    method SuspendAt(i: nat)
      requires i < |pages|
      modifies `pages
      ensures pages == old(pages)[i := Suspended(old(pages)[i])]
    {
      var page := new Page.Of(pages[i]);
      page.SuspendJs();
      pages := pages[i := page.State()];
    }

    method Resume(id: string)
      modifies `pages
      ensures pages == ResumeFirst(old(pages), id)
    {
      for i := 0 to |pages|
        invariant pages == old(pages)
        invariant forall j :: 0 <= j < i ==> pages[j].id != id
      {
        if pages[i].id == id {
          ResumeFirstAt(pages, id, i);
          var page := new Page.Of(pages[i]);
          page.ResumeJs();
          pages := pages[i := page.State()];
          return;
        }
      }
      ResumeFirstNone(pages, id);
    }

    method CreatePageInContext(context: Option<string>) returns (r: Option<string>)
      modifies this
      ensures r.Some? <==> KnownContext(old(contexts), context)
      ensures r.Some? ==> r.value == PageId(old(pageCounter) + 1)
      ensures r.Some? ==> Contents() == Created(old(Contents()), ContextOr(context))
      ensures r.None? ==> Contents() == old(Contents())
    {
      if !KnownContext(contexts, context) {
        return None;
      }
      pageCounter := pageCounter + 1;
      var id := PageId(pageCounter);
      var page := new Page(id, ContextOr(context));
      page.NavigateBlank(Dom(0, {}));
      pages := pages + [page.State()];
      loaders := loaders[id := "loader-blank-" + id];
      return Some(id);
    }

    method RemovePage(id: string)
      modifies this
      ensures Contents() == RemovePageFrom(old(Contents()), id)
    {
      pages := WithoutPage(pages, id);
      loaders := loaders - {id};
      sessions := map s | s in sessions && sessions[s] != id :: sessions[s];
    }

    method DisposeBrowserContext(context: string) returns (r: Option<seq<string>>)
      modifies this
      ensures Contents() == Disposed(old(Contents()), context)
      ensures r.Some? <==> context != DEFAULT_CONTEXT && context in old(contexts)
      ensures r.Some? ==> r.value == IdsIn(old(pages), context)
    {
      if context == DEFAULT_CONTEXT || context !in contexts {
        return None;
      }
      contexts := contexts - {context};
      var ids := IdsIn(pages, context);
      ghost var start := Contents();
      for i := 0 to |ids|
        invariant Contents() == RemoveEach(start, ids[..i])
      {
        assert ids[..i + 1][..i] == ids[..i];
        RemovePage(ids[i]);
      }
      assert ids[..|ids|] == ids;
      return Some(ids);
    }
  }

  lemma {:induction false} SuspendFirstAt(pages: seq<PageState>, id: string, i: nat)
    requires i < |pages| && pages[i].id != id && Live(pages[i])
    requires forall j :: 0 <= j < i ==> !(pages[j].id != id && Live(pages[j]))
    ensures SuspendFirstOther(pages, id) == pages[i := Suspended(pages[i])]
  {
    if i > 0 {
      SuspendFirstAt(pages[1..], id, i - 1);
    }
  }

  lemma {:induction false} SuspendFirstNone(pages: seq<PageState>, id: string)
    requires forall j :: 0 <= j < |pages| ==> !(pages[j].id != id && Live(pages[j]))
    ensures SuspendFirstOther(pages, id) == pages
  {
    if pages != [] {
      SuspendFirstNone(pages[1..], id);
    }
  }

  lemma {:induction false} ResumeFirstAt(pages: seq<PageState>, id: string, i: nat)
    requires i < |pages| && FirstWith(pages, id, i)
    ensures ResumeFirst(pages, id) == pages[i := Resumed(pages[i])]
  {
    if i > 0 {
      ResumeFirstAt(pages[1..], id, i - 1);
    }
  }

  lemma {:induction false} ResumeFirstNone(pages: seq<PageState>, id: string)
    requires forall j :: 0 <= j < |pages| ==> pages[j].id != id
    ensures ResumeFirst(pages, id) == pages
  {
    if pages != [] {
      ResumeFirstNone(pages[1..], id);
    }
  }

  lemma {:induction false} ActivationKeepsIds(pages: seq<PageState>, id: string)
    ensures var after := ResumeFirst(SuspendFirstOther(pages, id), id);
      |after| == |pages| && forall i :: 0 <= i < |pages| ==> after[i].id == pages[i].id
  {
    SuspendKeepsIds(pages, id);
    ResumeKeepsIds(SuspendFirstOther(pages, id), id);
  }

  lemma {:induction false} SuspendKeepsIds(pages: seq<PageState>, id: string)
    ensures forall i :: 0 <= i < |pages| ==> SuspendFirstOther(pages, id)[i].id == pages[i].id
  {
    if pages != [] {
      SuspendKeepsIds(pages[1..], id);
    }
  }

  lemma {:induction false} ResumeKeepsIds(pages: seq<PageState>, id: string)
    ensures forall i :: 0 <= i < |pages| ==> ResumeFirst(pages, id)[i].id == pages[i].id
  {
    if pages != [] {
      ResumeKeepsIds(pages[1..], id);
    }
  }

  lemma {:induction false} ResumedIsLive(pages: seq<PageState>, id: string, i: nat)
    requires i < |pages| && ResumeFirst(pages, id)[i].id == id
    requires forall j :: 0 <= j < i ==> ResumeFirst(pages, id)[j].id != id
    ensures Live(ResumeFirst(pages, id)[i])
  {
    ResumeKeepsIds(pages, id);
    if i > 0 {
      assert pages[0].id == ResumeFirst(pages, id)[0].id != id;
      ResumeKeepsIds(pages[1..], id);
      assert forall j :: 0 <= j < i - 1 ==> ResumeFirst(pages[1..], id)[j] == ResumeFirst(pages, id)[j + 1];
      ResumedIsLive(pages[1..], id, i - 1);
    }
  }

  lemma ActivatedIsLive(c: Ctx, session: string, i: nat)
    requires DistinctIds(c.pages) && session in c.sessions && i < |Activated(c, Some(session)).pages|
    requires FirstWith(Activated(c, Some(session)).pages, c.sessions[session], i)
    ensures Live(Activated(c, Some(session)).pages[i])
  {
    if !HasLive(c.pages, c.sessions[session]) {
      ResumedIsLive(SuspendFirstOther(c.pages, c.sessions[session]), c.sessions[session], i);
    }
  }

  lemma FoundPage(c: Ctx, session: string, index: Option<nat>)
    requires session in c.sessions
    requires var after := Activated(c, Some(session)).pages;
      if index.None? then forall j :: 0 <= j < |after| ==> after[j].id != c.sessions[session]
      else index.value < |after| && FirstWith(after, c.sessions[session], index.value)
    ensures index.Some? <==> HasPage(c.pages, c.sessions[session])
    ensures index.Some? && DistinctIds(c.pages) ==> Live(Activated(c, Some(session)).pages[index.value])
  {
    var after := Activated(c, Some(session)).pages;
    ActivationKeepsIds(c.pages, c.sessions[session]);
    assert |after| == |c.pages| && forall i :: 0 <= i < |after| ==> after[i].id == c.pages[i].id;
    if index.Some? && DistinctIds(c.pages) {
      ActivatedIsLive(c, session, index.value);
    }
  }

  // ---------- counting live runtimes ----------

  lemma {:induction false} LiveCountConcat(s: seq<PageState>, t: seq<PageState>)
    ensures LiveCount(s + t) == LiveCount(s) + LiveCount(t)
  {
    if s == [] {
      assert s + t == t;
    } else {
      assert (s + t)[1..] == s[1..] + t;
      LiveCountConcat(s[1..], t);
    }
  }

  lemma {:induction false} SuspendAllCount(pages: seq<PageState>)
    ensures LiveCount(SuspendAll(pages)) == 0
    ensures forall i :: 0 <= i < |pages| ==> SuspendAll(pages)[i] == Suspended(pages[i])
  {
    if pages != [] {
      SuspendAllCount(pages[1..]);
    }
  }

  lemma {:induction false} SuspendFirstCount(pages: seq<PageState>, id: string)
    requires !HasLive(pages, id)
    ensures LiveCount(SuspendFirstOther(pages, id)) == if LiveCount(pages) > 0 then LiveCount(pages) - 1 else 0
    ensures !HasLive(SuspendFirstOther(pages, id), id)
  {
    if pages != [] {
      assert !HasLive(pages[1..], id) by {
        assert forall i :: 0 <= i < |pages| - 1 ==> pages[1..][i] == pages[i + 1];
      }
      if !(pages[0].id != id && Live(pages[0])) {
        SuspendFirstCount(pages[1..], id);
        var rest := SuspendFirstOther(pages[1..], id);
        assert forall i :: 0 < i < |pages| ==> SuspendFirstOther(pages, id)[i] == rest[i - 1];
      } else {
        assert forall i :: 0 < i < |pages| ==> SuspendFirstOther(pages, id)[i] == pages[i];
      }
    }
  }

  lemma {:induction false} ResumeFirstCount(pages: seq<PageState>, id: string)
    requires !HasLive(pages, id)
    ensures LiveCount(ResumeFirst(pages, id)) == LiveCount(pages) + if HasPage(pages, id) then 1 else 0
  {
    if pages != [] {
      assert !HasLive(pages[1..], id) by {
        assert forall i :: 0 <= i < |pages| - 1 ==> pages[1..][i] == pages[i + 1];
      }
      if pages[0].id != id {
        ResumeFirstCount(pages[1..], id);
        HasPageTail(pages, id);
      }
    }
  }

  lemma HasPageTail(pages: seq<PageState>, id: string)
    requires pages != [] && pages[0].id != id
    ensures HasPage(pages, id) <==> HasPage(pages[1..], id)
  {
    if HasPage(pages, id) {
      var i :| 0 <= i < |pages| && pages[i].id == id;
      assert pages[1..][i - 1].id == id;
    }
    if HasPage(pages[1..], id) {
      var i :| 0 <= i < |pages[1..]| && pages[1..][i].id == id;
      assert pages[i + 1].id == id;
    }
  }

  lemma {:induction false} LiveMeansCount(pages: seq<PageState>, id: string)
    requires HasLive(pages, id)
    ensures LiveCount(pages) >= 1
  {
    var i :| 0 <= i < |pages| && pages[i].id == id && Live(pages[i]);
    assert pages == pages[..i] + ([pages[i]] + pages[i + 1..]);
    LiveCountConcat(pages[..i], [pages[i]] + pages[i + 1..]);
    LiveCountConcat([pages[i]], pages[i + 1..]);
  }

  /** Activating a session's page, though it suspends only the first other live page, never raises
      the number of live runtimes above what it was, or above one; and it leaves at least
      one when the page exists. */
  lemma ActivationCount(c: Ctx, session: Option<string>)
    ensures var n, m := LiveCount(c.pages), LiveCount(Activated(c, session).pages);
      && m <= (if n > 1 then n else 1)
      && (session.Some? && session.value in c.sessions && HasPage(c.pages, c.sessions[session.value]) ==>
            m == if n > 1 then n else 1)
      && (!(session.Some? && session.value in c.sessions) ==> m == n)
  {
    if session.Some? && session.value in c.sessions {
      var id := c.sessions[session.value];
      if HasLive(c.pages, id) {
        LiveMeansCount(c.pages, id);
      } else {
        var between := SuspendFirstOther(c.pages, id);
        SuspendFirstCount(c.pages, id);
        ResumeFirstCount(between, id);
        SuspendKeepsIds(c.pages, id);
        assert HasPage(between, id) <==> HasPage(c.pages, id) by {
          if HasPage(c.pages, id) {
            var i :| 0 <= i < |c.pages| && c.pages[i].id == id;
            assert between[i].id == id;
          }
        }
      }
    }
  }

  lemma {:induction false} WithoutPageCount(pages: seq<PageState>, id: string)
    ensures LiveCount(WithoutPage(pages, id)) <= LiveCount(pages)
    ensures forall p :: p in WithoutPage(pages, id) <==> p in pages && p.id != id
  {
    if pages != [] {
      WithoutPageCount(pages[1..], id);
      assert forall p :: p in pages <==> p == pages[0] || p in pages[1..];
    }
  }

  lemma {:induction false} RemoveEachPages(c: Ctx, ids: seq<string>)
    ensures LiveCount(RemoveEach(c, ids).pages) <= LiveCount(c.pages)
    ensures forall p :: p in RemoveEach(c, ids).pages <==> p in c.pages && p.id !in ids
    ensures forall s :: s in RemoveEach(c, ids).sessions <==> s in c.sessions && c.sessions[s] !in ids
    ensures forall s :: s in RemoveEach(c, ids).sessions ==> RemoveEach(c, ids).sessions[s] == c.sessions[s]
    ensures RemoveEach(c, ids).contexts == c.contexts
  {
    if ids != [] {
      var init, last := ids[..|ids| - 1], ids[|ids| - 1];
      RemoveEachPages(c, init);
      WithoutPageCount(RemoveEach(c, init).pages, last);
      assert forall x :: x in ids <==> x in init || x == last;
    }
  }

  lemma {:induction false} IdsInMeaning(pages: seq<PageState>, context: string, id: string)
    ensures id in IdsIn(pages, context) <==> exists p :: p in pages && p.context == context && p.id == id
  {
    if pages != [] {
      IdsInMeaning(pages[1..], context, id);
      assert forall p :: p in pages <==> p == pages[0] || p in pages[1..];
    }
  }

  /** Disposing a context removes exactly its pages, and every session of theirs. */
  lemma DisposeRemovesExactly(c: Ctx, context: string)
    requires context != DEFAULT_CONTEXT && context in c.contexts && DistinctIds(c.pages)
    ensures var after := Disposed(c, context);
      && (forall p :: p in after.pages <==> p in c.pages && p.context != context)
      && (forall s :: s in after.sessions <==>
            s in c.sessions && !exists p :: p in c.pages && p.context == context && p.id == c.sessions[s])
      && after.contexts == c.contexts - {context}
      && LiveCount(after.pages) <= LiveCount(c.pages)
  {
    var ids := IdsIn(c.pages, context);
    RemoveEachPages(c.(contexts := c.contexts - {context}), ids);
    forall p | p in c.pages ensures p.id in ids <==> p.context == context {
      IdsInMeaning(c.pages, context, p.id);
    }
    forall s | s in c.sessions
      ensures c.sessions[s] in ids <==> exists p :: p in c.pages && p.context == context && p.id == c.sessions[s]
    {
      IdsInMeaning(c.pages, context, c.sessions[s]);
    }
  }
}
