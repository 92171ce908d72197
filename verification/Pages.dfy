/** Where a page keeps its document and its started-script ids while its JS runtime comes and goes. */
module Pages {
  import opened Wrappers

  /** A document tree: its identity and which of its nodes are scripts. */
  datatype Dom = Dom(document: nat, scripts: set<nat>)

  /** A live runtime holds the document and the scripts it has started. */
  datatype Runtime = Runtime(dom: Option<Dom>, started: set<nat>)

  datatype PageState = PageState(id: string, context: string, dom: Option<Dom>, js: Option<Runtime>, saved: set<nat>)

  predicate Live(p: PageState)
  {
    p.js.Some?
  }

  function Suspended(p: PageState): PageState
  {
    if p.js.None? then p
    else if p.js.value.dom.Some? then p.(dom := p.js.value.dom, saved := p.js.value.started, js := None)
    else p.(saved := {}, js := None)
  }

  /** `init_js`: a fresh realm that takes the stored document. */
  function Initialized(p: PageState): PageState
  {
    p.(saved := {}, js := Some(Runtime(p.dom, {})), dom := None)
  }

  /** `restore_started_script_ids` keeps only ids of script nodes of the current document. */
  function Restored(rt: Runtime, ids: set<nat>): Runtime
  {
    if rt.dom.Some? then rt.(started := rt.started + ids * rt.dom.value.scripts) else rt
  }

  function Resumed(p: PageState): PageState
  {
    if p.js.Some? then p
    else
      var started := Initialized(p.(saved := {}));
      started.(js := Some(Restored(started.js.value, p.saved)))
  }

  /** `navigate_blank`: an empty document, and no runtime. */
  function Blanked(p: PageState, blank: Dom): PageState
  {
    p.(js := None, dom := Some(blank))
  }

  /** A navigation that got a document: install it, then start a realm. */
  function Loaded(p: PageState, dom: Dom): PageState
  {
    Initialized(p.(dom := Some(dom)))
  }

  /** The page object itself. */
  class Page {
    const id: string
    const context: string
    var dom: Option<Dom>
    var js: Option<Runtime>
    var saved: set<nat>

    function State(): PageState
      reads this
    {
      PageState(id, context, dom, js, saved)
    }

    constructor (id: string, context: string)
      ensures State() == PageState(id, context, None, None, {})
    {
      this.id, this.context, dom, js, saved := id, context, None, None, {};
    }

    /** A page as its owner keeps it, taken out to be worked on. */
    constructor Of(p: PageState)
      ensures State() == p
    {
      id, context, dom, js, saved := p.id, p.context, p.dom, p.js, p.saved;
    }

    method SuspendJs()
      modifies this
      ensures State() == Suspended(old(State()))
    {
      if js.None? {
        return;
      }
      var started := js.value.started;
      var taken := js.value.dom;
      if taken.Some? {
        dom, saved := taken, started;
      } else {
        saved := {};
      }
      js := None;
    }

    method InitJs()
      modifies this
      ensures State() == Initialized(old(State()))
    {
      saved := {};
      js := None;
      var rt := Runtime(None, {});
      if dom.Some? {
        rt := rt.(dom := dom);
        dom := None;
      }
      js := Some(rt);
    }

    method ResumeJs()
      modifies this
      ensures State() == Resumed(old(State()))
    {
      if js.Some? {
        return;
      }
      var started := saved;
      saved := {};
      InitJs();
      js := Some(Restored(js.value, started));
    }

    method NavigateBlank(blank: Dom)
      modifies this
      ensures State() == Blanked(old(State()), blank)
    {
      js := None;
      dom := Some(blank);
    }
  }

  // ---------- what survives ----------

  /** The page's document, wherever it is kept. */
  function DocumentOf(p: PageState): Option<Dom>
  {
    if p.js.Some? then p.js.value.dom else p.dom
  }

  function StartedOf(p: PageState): set<nat>
  {
    if p.js.Some? then p.js.value.started else p.saved
  }

  /** A document, with only script nodes of it among the started ids. */
  predicate StartedAreScripts(p: PageState)
  {
    DocumentOf(p).Some? && StartedOf(p) <= DocumentOf(p).value.scripts
  }

  datatype Switch = SuspendIt | ResumeIt

  function Switched(p: PageState, switches: seq<Switch>): PageState
    decreases |switches|
  {
    if switches == [] then p
    else Switched(if switches[0].SuspendIt? then Suspended(p) else Resumed(p), switches[1..])
  }

  /** Any number of suspend and resume switches keeps the document and the started ids. */
  lemma {:induction false} SwitchesKeepPage(p: PageState, switches: seq<Switch>)
    requires StartedAreScripts(p)
    ensures var q := Switched(p, switches);
      q.id == p.id && DocumentOf(q) == DocumentOf(p) && StartedOf(q) == StartedOf(p)
    decreases |switches|
  {
    if switches != [] {
      var q := if switches[0].SuspendIt? then Suspended(p) else Resumed(p);
      assert StartedOf(p) * DocumentOf(p).value.scripts == StartedOf(p);
      SwitchesKeepPage(q, switches[1..]);
    }
  }

  /** That the started ids are scripts of the document is what it takes: without it the very
      first round trip of a live page that has a document loses the others. */
  lemma RoundTripKeepsExactly(p: PageState)
    requires Live(p) && DocumentOf(p).Some?
    ensures DocumentOf(Resumed(Suspended(p))) == DocumentOf(p)
    ensures StartedOf(Resumed(Suspended(p))) == StartedOf(p) <==> StartedAreScripts(p)
  {
    var scripts := DocumentOf(p).value.scripts;
    assert StartedOf(Resumed(Suspended(p))) == {} + StartedOf(p) * scripts;
    assert StartedOf(p) * scripts == StartedOf(p) <==> StartedOf(p) <= scripts by {
      if StartedOf(p) * scripts == StartedOf(p) {
        forall x | x in StartedOf(p) ensures x in scripts {
          assert x in StartedOf(p) * scripts;
        }
      }
    }
  }

  /** A loaded document starts with no started script, however the page was left before, and
      has none after any number of switches. */
  lemma NewDocumentInheritsNothing(p: PageState, dom: Dom, switches: seq<Switch>)
    ensures DocumentOf(Switched(Loaded(p, dom), switches)) == Some(dom)
    ensures StartedOf(Switched(Loaded(p, dom), switches)) == {}
  {
    SwitchesKeepPage(Loaded(p, dom), switches);
  }

  /** `navigate_blank` leaves the saved ids in place; a later resume gives the new document
      those of them that are its scripts, so it inherits nothing exactly when there are none,
      as in the scriptless document that `navigate_blank` installs. */
  lemma BlankInheritsExactly(p: PageState, blank: Dom)
    ensures DocumentOf(Resumed(Blanked(p, blank))) == Some(blank)
    ensures StartedOf(Resumed(Blanked(p, blank))) == {} <==> p.saved !! blank.scripts
  {
    assert StartedOf(Resumed(Blanked(p, blank))) == p.saved * blank.scripts;
    assert p.saved * blank.scripts == {} <==> p.saved !! blank.scripts by {
      assert forall x :: x in p.saved * blank.scripts <==> x in p.saved && x in blank.scripts;
    }
  }
}
