/** Expanding a loaded stylesheet graph in cascade order, with an active set that cuts cycles. */
module StylesheetGraph {
  import opened Wrappers
  import opened Text
  import opened CssUrls
  import opened Walks

  datatype Import = Import(url: string, media: Option<string>)

  datatype Sheet = Sheet(responseUrl: string, imports: seq<Import>, rules: string)

  /** The loaded sheets by canonical key, the aliases between keys, and the URL library:
      `keyOf` joins an import to its sheet's URL and takes the canonical key, `css` is
      the resolver for a sheet's own `url(...)` values. */
  datatype Graph = Graph(sheets: map<string, Sheet>, aliases: map<string, string>,
                         keyOf: (string, string) -> Option<string>, css: string -> CssLib)

  function Canonical(g: Graph, key: string): string
  {
    if key in g.aliases then g.aliases[key] else key
  }

  /** An imported sheet's text at its import position. */
  function Block(text: string, media: Option<string>): string
  {
    if media.Some? then "@media " + media.value + " {\n" + text + "\n}\n" else text + "\n"
  }

  function OwnRules(g: Graph, sheet: Sheet): string
  {
    Rebased(g.css(sheet.responseUrl), sheet.rules)
  }

  // ---------- the guarded expansion ----------

  /** None where a cycle is cut or no sheet is stored. */
  function Expand(g: Graph, key: string, active: set<string>): Option<string>
    decreases g.sheets.Keys - active, 1, 0
  {
    var actual := Canonical(g, key);
    if actual in active || actual !in g.sheets then None
    else Some(ExpandImports(g, g.sheets[actual], 0, active + {actual}, actual) + OwnRules(g, g.sheets[actual]))
  }

  /** The blocks of the imports from `i` on; `key` is the importer, already active. */
  function ExpandImports(g: Graph, sheet: Sheet, i: nat, active: set<string>, key: string): string
    requires i <= |sheet.imports| && key in active
    decreases g.sheets.Keys - active, 2, |sheet.imports| - i
  {
    if i == |sheet.imports| then ""
    else ImportBlock(g, sheet, i, active) + ExpandImports(g, sheet, i + 1, active, key)
  }

  function ImportBlock(g: Graph, sheet: Sheet, i: nat, active: set<string>): string
    requires i < |sheet.imports|
    decreases g.sheets.Keys - active, 1, 1
  {
    match g.keyOf(sheet.responseUrl, sheet.imports[i].url)
    case None => ""
    case Some(key) =>
      match Expand(g, key, active)
      case None => ""
      case Some(text) => Block(text, sheet.imports[i].media)
  }

  class ActiveSet {
    var keys: set<string>

    constructor ()
      ensures keys == {}
    {
      keys := {};
    }
  }

  /** `materialize_stylesheet_graph`: every path leaves the active set as it was. */
  method Materialize(g: Graph, key: string, active: ActiveSet) returns (r: Option<string>)
    modifies active
    ensures r == Expand(g, key, old(active.keys))
    ensures active.keys == old(active.keys)
    decreases g.sheets.Keys - active.keys, 0
  {
    var actual := Canonical(g, key);
    if actual in active.keys {
      return None;
    }
    ghost var before := active.keys;
    active.keys := active.keys + {actual};
    assert active.keys - {actual} == before;
    if actual !in g.sheets {
      active.keys := active.keys - {actual};
      return None;
    }
    var sheet := g.sheets[actual];
    ghost var inside := active.keys;
    assert actual in g.sheets.Keys - before;
    var output := "";
    for i := 0 to |sheet.imports|
      invariant active.keys == inside
      invariant ExpandImports(g, sheet, 0, inside, actual) == output + ExpandImports(g, sheet, i, inside, actual)
    {
      var block := MaterializeImport(g, sheet, i, active);
      Regroup(output, block, ExpandImports(g, sheet, i + 1, inside, actual));
      output := output + block;
    }
    assert output + "" == output;
    var own := Rebase(g.css(sheet.responseUrl), sheet.rules);
    active.keys := active.keys - {actual};
    return Some(output + own);
  }

  /** One turn of its loop: what an import adds to the output. */
  method MaterializeImport(g: Graph, sheet: Sheet, i: nat, active: ActiveSet) returns (block: string)
    requires i < |sheet.imports|
    modifies active
    ensures block == ImportBlock(g, sheet, i, old(active.keys))
    ensures active.keys == old(active.keys)
    decreases g.sheets.Keys - active.keys, 1
  {
    var importKey := g.keyOf(sheet.responseUrl, sheet.imports[i].url);
    if importKey.None? {
      return "";
    }
    var imported := Materialize(g, importKey.value, active);
    return if imported.Some? then Block(imported.value, sheet.imports[i].media) else "";
  }

  // ---------- order ----------

  function BlocksBetween(g: Graph, sheet: Sheet, i: nat, j: nat, active: set<string>): string
    requires i <= j <= |sheet.imports|
    decreases j - i
  {
    if i == j then "" else ImportBlock(g, sheet, i, active) + BlocksBetween(g, sheet, i + 1, j, active)
  }

  lemma {:induction false} ImportsFromTo(g: Graph, sheet: Sheet, i: nat, j: nat, active: set<string>, key: string)
    requires i <= j <= |sheet.imports| && key in active
    ensures ExpandImports(g, sheet, i, active, key)
         == BlocksBetween(g, sheet, i, j, active) + ExpandImports(g, sheet, j, active, key)
    decreases j - i
  {
    if i == j {
      assert "" + ExpandImports(g, sheet, j, active, key) == ExpandImports(g, sheet, j, active, key);
    } else {
      ImportsFromTo(g, sheet, i + 1, j, active, key);
      Regroup(ImportBlock(g, sheet, i, active), BlocksBetween(g, sheet, i + 1, j, active),
              ExpandImports(g, sheet, j, active, key));
    }
  }

  /** In the expansion of a sheet the blocks of any two imports stand in the order of the
      imports, and the sheet's own rules come last. */
  lemma ImportsComeFirst(g: Graph, key: string, active: set<string>, i: nat, j: nat)
    returns (before: string, between: string, after: string)
    requires Expand(g, key, active).Some? && i < j < |g.sheets[Canonical(g, key)].imports|
    ensures var sheet, inside := g.sheets[Canonical(g, key)], active + {Canonical(g, key)};
      Expand(g, key, active).value
      == before + ImportBlock(g, sheet, i, inside) + between + ImportBlock(g, sheet, j, inside) + after
        + Rebased(g.css(sheet.responseUrl), sheet.rules)
  {
    var actual := Canonical(g, key);
    var sheet, inside := g.sheets[actual], active + {actual};
    before := BlocksBetween(g, sheet, 0, i, inside);
    between := BlocksBetween(g, sheet, i + 1, j, inside);
    after := ExpandImports(g, sheet, j + 1, inside, actual);
    ImportsFromTo(g, sheet, 0, i, inside, actual);
    ImportsFromTo(g, sheet, i + 1, j, inside, actual);
    var first, second := ImportBlock(g, sheet, i, inside), ImportBlock(g, sheet, j, inside);
    Regroup(first, between, second + after);
    Regroup(before, first + between, second + after);
    Regroup(before, first, between);
    Regroup(before + first + between, second, after);
  }

  /** The block of an import that expands is its text and a line end, inside its media condition when
      it has one; the block of any other is empty. */
  lemma BlockEncloses(g: Graph, sheet: Sheet, i: nat, active: set<string>)
    requires i < |sheet.imports|
    ensures var url, media := sheet.imports[i].url, sheet.imports[i].media;
      var key := g.keyOf(sheet.responseUrl, url);
      ImportBlock(g, sheet, i, active) ==
        if key.None? || Expand(g, key.value, active).None? then ""
        else
          var text := Expand(g, key.value, active).value;
          if media.None? then text + "\n" else "@media " + media.value + " {\n" + text + "\n}\n"
  {
  }

  /** The text of a sheet without imports is its own rules, rebased on its response URL. */
  lemma PlainSheetExpands(g: Graph, key: string, active: set<string>)
    requires var actual := if key in g.aliases then g.aliases[key] else key;
      actual in g.sheets && actual !in active && g.sheets[actual].imports == []
    ensures var actual := if key in g.aliases then g.aliases[key] else key;
      Expand(g, key, active) == Some(Rebased(g.css(g.sheets[actual].responseUrl), g.sheets[actual].rules))
  {
    var actual := Canonical(g, key);
    assert ExpandImports(g, g.sheets[actual], 0, active + {actual}, actual) == "";
    assert "" + OwnRules(g, g.sheets[actual]) == OwnRules(g, g.sheets[actual]);
  }

  // ---------- acyclic graphs ----------

  function ImportKey(g: Graph, sheet: Sheet, i: nat): Option<string>
    requires i < |sheet.imports|
  {
    match g.keyOf(sheet.responseUrl, sheet.imports[i].url)
    case None => None
    case Some(key) => Some(Canonical(g, key))
  }

  // ---------- cycles ----------

  /** The `i`-th import of the stored sheet `a` is stored under `b`. */
  predicate HasImport(g: Graph, a: string, i: nat, b: string)
  {
    a in g.sheets && i < |g.sheets[a].imports| && ImportKey(g, g.sheets[a], i) == Some(b) && b in g.sheets
  }

  /** Expanding `actual` leaves out a stored sheet somewhere, at an import of its own or below. */
  ghost predicate Cuts(g: Graph, actual: string, active: set<string>)
    requires actual in g.sheets && actual !in active
    decreases g.sheets.Keys - active, 1
  {
    exists i: nat, b: string :: HasImport(g, actual, i, b) && CutsAt(g, actual, active, i, b)
  }

  ghost predicate CutsAt(g: Graph, actual: string, active: set<string>, i: nat, b: string)
    requires actual !in active && HasImport(g, actual, i, b)
    decreases g.sheets.Keys - active, 0
  {
    var key := g.keyOf(g.sheets[actual].responseUrl, g.sheets[actual].imports[i].url).value;
    Expand(g, key, active + {actual}).None? || Cuts(g, b, active + {actual})
  }

  ghost predicate Imports(g: Graph, a: string, b: string)
  {
    exists i: nat :: HasImport(g, a, i, b)
  }

  /** From a stored sheet to the stored sheets it imports. */
  ghost function ImportEdges(g: Graph): Edges<string>
  {
    (a, b) => Imports(g, a, b)
  }

  function Elements(w: seq<string>): (s: set<string>)
    ensures forall x :: x in s <==> x in w
  {
    set x | x in w
  }

  /** A cut below the import path `w`, whose sheets are the active ones, closes a cycle. */
  lemma {:induction false} CutClosesCycle(g: Graph, w: seq<string>)
    requires Walk(ImportEdges(g), w) && w[|w| - 1] in g.sheets && !Closes(w)
    requires Cuts(g, w[|w| - 1], Elements(w[..|w| - 1]))
    ensures CycleFrom(ImportEdges(g), w[0])
    decreases g.sheets.Keys - Elements(w[..|w| - 1])
  {
    var actual, active := w[|w| - 1], Elements(w[..|w| - 1]);
    var i: nat, b :| HasImport(g, actual, i, b) && CutsAt(g, actual, active, i, b);
    var longer := w + [b];
    WalkOn(ImportEdges(g), w, b);
    assert longer[..|w|] == w && w == w[..|w| - 1] + [actual];
    assert Elements(w) == active + {actual};
    if b in w {
      assert Closes(longer) && longer[0] == w[0];
    } else {
      assert g.sheets.Keys - Elements(w) < g.sheets.Keys - active by {
        assert actual in g.sheets.Keys - active;
      }
      CutClosesCycle(g, longer);
    }
  }

  /** Along a walk that visits no sheet twice before it closes at `n`, every sheet's expansion
      has a cut. */
  lemma {:induction false} CycleCuts(g: Graph, w: seq<string>, n: nat, k: nat)
    requires Walk(ImportEdges(g), w) && k < n < |w| && w[n] in w[..n]
    requires forall x, y :: 0 <= x < y < n ==> w[x] != w[y]
    ensures w[k] in g.sheets && w[k] !in w[..k] && Cuts(g, w[k], Elements(w[..k]))
    decreases n - k
  {
    assert StepAt(ImportEdges(g), w, k);
    var i: nat :| HasImport(g, w[k], i, w[k + 1]);
    assert w[..k + 1] == w[..k] + [w[k]];
    assert Elements(w[..k + 1]) == Elements(w[..k]) + {w[k]};
    if k + 1 < n {
      CycleCuts(g, w, n, k + 1);
    }
    assert CutsAt(g, w[k], Elements(w[..k]), i, w[k + 1]);
  }

  /** Expanding a stored sheet, as the loader calls it, leaves out a stored sheet exactly when a
      cycle of imports can be reached from it: only back edges are cut, and every cycle is. */
  lemma CutsOnlyBackEdges(g: Graph, key: string)
    requires Canonical(g, key) in g.sheets
    ensures Cuts(g, Canonical(g, key), {}) <==> CycleFrom(ImportEdges(g), Canonical(g, key))
  {
    var actual := Canonical(g, key);
    assert Elements([actual][..0]) == {};
    if Cuts(g, actual, {}) {
      CutClosesCycle(g, [actual]);
    }
    if w :| Walk(ImportEdges(g), w) && w[0] == actual && Closes(w) {
      var n := FirstReturn(w, |w| - 1);
      CycleCuts(g, w, n, 0);
      assert Elements(w[..0]) == {};
    }
  }

  /** `domain` is closed under imports of stored sheets and every import goes down in rank:
      the import graph on it has no cycle. */
  ghost predicate Acyclic(g: Graph, domain: set<string>, rank: string -> nat)
  {
    forall k, i :: k in domain && k in g.sheets && 0 <= i < |g.sheets[k].imports| ==>
      var target := ImportKey(g, g.sheets[k], i);
      target.Some? && target.value in g.sheets ==> target.value in domain && rank(target.value) < rank(k)
  }

  /** The obvious recursion, with no guard: each import's text, then the sheet's own rules. */
  ghost function Full(g: Graph, domain: set<string>, rank: string -> nat, actual: string): string
    requires Acyclic(g, domain, rank) && actual in domain && actual in g.sheets
    decreases rank(actual), 0
  {
    FullImports(g, domain, rank, actual, 0) + OwnRules(g, g.sheets[actual])
  }

  ghost function FullImports(g: Graph, domain: set<string>, rank: string -> nat, actual: string, i: nat): string
    requires Acyclic(g, domain, rank) && actual in domain && actual in g.sheets && i <= |g.sheets[actual].imports|
    decreases rank(actual), 0, |g.sheets[actual].imports| - i
  {
    var sheet := g.sheets[actual];
    if i == |sheet.imports| then ""
    else
      var target := ImportKey(g, sheet, i);
      (if target.Some? && target.value in g.sheets
       then Block(Full(g, domain, rank, target.value), sheet.imports[i].media) else "")
      + FullImports(g, domain, rank, actual, i + 1)
  }

  /** On an acyclic graph the guard never fires: expansion is the plain recursion, so a shared
      import is expanded at each of its positions. */
  lemma {:induction false} ExpandsFully(g: Graph, domain: set<string>, rank: string -> nat, key: string,
                                        active: set<string>)
    requires Acyclic(g, domain, rank)
    requires Canonical(g, key) in domain && Canonical(g, key) in g.sheets
    requires forall a :: a in active && a in domain ==> rank(Canonical(g, key)) < rank(a)
    ensures Expand(g, key, active) == Some(Full(g, domain, rank, Canonical(g, key)))
    decreases rank(Canonical(g, key)), 0
  {
    var actual := Canonical(g, key);
    ImportsExpandFully(g, domain, rank, actual, 0, active + {actual});
  }

  lemma {:induction false} ImportsExpandFully(g: Graph, domain: set<string>, rank: string -> nat, actual: string,
                                              i: nat, active: set<string>)
    requires Acyclic(g, domain, rank)
    requires actual in domain && actual in g.sheets && i <= |g.sheets[actual].imports|
    requires actual in active && forall a :: a in active && a in domain ==> rank(actual) <= rank(a)
    ensures ExpandImports(g, g.sheets[actual], i, active, actual) == FullImports(g, domain, rank, actual, i)
    decreases rank(actual), 0, |g.sheets[actual].imports| - i
  {
    if i < |g.sheets[actual].imports| {
      ImportsExpandFully(g, domain, rank, actual, i + 1, active);
      BlockExpandsFully(g, domain, rank, actual, i, active);
    }
  }

  lemma {:induction false} BlockExpandsFully(g: Graph, domain: set<string>, rank: string -> nat, actual: string,
                                             i: nat, active: set<string>)
    requires Acyclic(g, domain, rank)
    requires actual in domain && actual in g.sheets && i < |g.sheets[actual].imports|
    requires forall a :: a in active && a in domain ==> rank(actual) <= rank(a)
    ensures var sheet, target := g.sheets[actual], ImportKey(g, g.sheets[actual], i);
      ImportBlock(g, sheet, i, active) ==
        if target.Some? && target.value in g.sheets
        then Block(Full(g, domain, rank, target.value), sheet.imports[i].media) else ""
    decreases rank(actual), 0, 0
  {
    var sheet := g.sheets[actual];
    var key := g.keyOf(sheet.responseUrl, sheet.imports[i].url);
    if key.Some? {
      var target := Canonical(g, key.value);
      assert ImportKey(g, sheet, i) == Some(target);
      if target in g.sheets {
        ExpandsFully(g, domain, rank, key.value, active);
      }
    }
  }

  /** The stored sheets that the expansion of `a` can come to. */
  ghost function Reachable(g: Graph, a: string): set<string>
  {
    set b | b in g.sheets && Reaches(ImportEdges(g), a, b)
  }

  /** Falls along imports where no cycle can be reached. */
  ghost function Depth(g: Graph): string -> nat
  {
    a => Height(ImportEdges(g), g.sheets.Keys, a)
  }

  lemma ReachableAcyclic(g: Graph, a: string)
    requires !CycleFrom(ImportEdges(g), a)
    ensures Acyclic(g, Reachable(g, a), Depth(g))
  {
    forall k, i | k in Reachable(g, a) && k in g.sheets && 0 <= i < |g.sheets[k].imports|
      ensures var target := ImportKey(g, g.sheets[k], i);
        target.Some? && target.value in g.sheets ==>
          target.value in Reachable(g, a) && Depth(g)(target.value) < Depth(g)(k)
    {
      var target := ImportKey(g, g.sheets[k], i);
      if target.Some? && target.value in g.sheets {
        assert HasImport(g, k, i, target.value);
        ImportGoesDown(g, a, k, target.value);
      }
    }
  }

  lemma ImportGoesDown(g: Graph, a: string, k: string, b: string)
    requires !CycleFrom(ImportEdges(g), a)
    requires k in Reachable(g, a) && Imports(g, k, b) && b in g.sheets
    ensures b in Reachable(g, a) && Depth(g)(b) < Depth(g)(k)
  {
    if CycleFrom(ImportEdges(g), k) {
      CycleAfterReach(ImportEdges(g), a, k);
    }
    ReachesOn(ImportEdges(g), a, k, b);
    HeightFalls(ImportEdges(g), g.sheets.Keys, k, b);
  }

  /** Where no cycle of imports can be reached, whatever there is elsewhere, expansion from the
      empty active set, as the loader calls it, is the plain recursion. */
  lemma AcyclicGraphExpandsFully(g: Graph, key: string)
    requires Canonical(g, key) in g.sheets && !CycleFrom(ImportEdges(g), Canonical(g, key))
    ensures var actual := Canonical(g, key);
      && Acyclic(g, Reachable(g, actual), Depth(g)) && actual in Reachable(g, actual)
      && Expand(g, key, {}) == Some(Full(g, Reachable(g, actual), Depth(g), actual))
    ensures var actual := Canonical(g, key);
      forall domain, rank :: Acyclic(g, domain, rank) && actual in domain ==>
        Expand(g, key, {}) == Some(Full(g, domain, rank, actual))
  {
    var actual := Canonical(g, key);
    ReachableAcyclic(g, actual);
    ReachesSelf(ImportEdges(g), actual);
    forall domain, rank | Acyclic(g, domain, rank) && actual in domain
      ensures Expand(g, key, {}) == Some(Full(g, domain, rank, actual))
    {
      ExpandsFully(g, domain, rank, key, {});
    }
  }
}
