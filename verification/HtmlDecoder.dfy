/** Serialization loses nothing: on trees of elements, text and comments a decoder reads the
    document back from its markup. */
module HtmlDecoder {
  import opened Wrappers
  import opened Text
  import opened HtmlSerializer
  import opened HtmlWorklist

  datatype Tree = Elem(tag: string, attrs: seq<Attribute>, kids: seq<Tree>) | Txt(text: string) | Com(comment: string)

  // ---------- how a reader takes the elements (HTML Living Standard, section 13.1.2) ----------

  /** Elements without an end tag; `param` is an obsolete one. */
  predicate VoidElement(tag: string)
  {
    || tag == "area" || tag == "base" || tag == "br" || tag == "col" || tag == "embed" || tag == "hr" || tag == "img"
    || tag == "input" || tag == "link" || tag == "meta" || tag == "param" || tag == "source" || tag == "track"
    || tag == "wbr"
  }

  /** Elements whose text is read as it stands. */
  predicate RawTextElement(tag: string)
  {
    tag == "script" || tag == "style"
  }

  /** Elements with nothing but text, in which character references are read. */
  predicate EscapableTextElement(tag: string)
  {
    tag == "textarea" || tag == "title"
  }

  predicate TextElement(tag: string)
  {
    RawTextElement(tag) || EscapableTextElement(tag)
  }

  predicate NameChar(c: char)
  {
    c != ' ' && c != '>' && c != '<' && c != '/' && c != '=' && c != '"'
  }

  predicate LegalName(s: string)
  {
    s != [] && forall i :: 0 <= i < |s| ==> NameChar(s[i])
  }

  /** An element name does not begin like a comment. */
  predicate LegalTag(tag: string)
  {
    LegalName(tag) && tag[0] != '!'
  }

  predicate LegalAttr(a: Attribute)
  {
    match a.prefix
    case None => LegalName(a.local) && ':' !in a.local
    case Some(prefix) => LegalName(prefix) && ':' !in prefix && LegalName(a.local)
  }

  predicate LegalAttrs(attrs: seq<Attribute>)
  {
    forall i :: 0 <= i < |attrs| ==> LegalAttr(attrs[i])
  }

  /** Legal names; void elements childless; no empty or adjacent texts; no `>` in comments. */
  predicate Legal(t: Tree)
    decreases t
  {
    match t
    case Txt(text) => text != []
    case Com(comment) => '>' !in comment
    case Elem(tag, attrs, kids) =>
      && LegalTag(tag) && LegalAttrs(attrs)
      && (VoidElement(tag) ==> kids == [])
      && (if TextElement(tag) then LegalText(tag, kids) else LegalForest(kids))
  }

  /** The inside of a text element: at most one text, which does not look like an end tag, and in
      an escapable one has nothing that reads as a character reference. */
  predicate LegalText(tag: string, kids: seq<Tree>)
  {
    kids == [] ||
    (&& |kids| == 1 && kids[0].Txt? && kids[0].text != [] && !Contains(kids[0].text, "</")
     && (EscapableTextElement(tag) ==> Unescape(kids[0].text) == kids[0].text))
  }

  predicate LegalForest(ts: seq<Tree>)
    decreases ts
  {
    ts == [] || (Legal(ts[0]) && LegalForest(ts[1..]) && !(|ts| > 1 && ts[0].Txt? && ts[1].Txt?))
  }

  /** `raw` says whether the tree stands in an element whose text is written as it is. */
  function Print(t: Tree, raw: bool): string
    decreases t
  {
    match t
    case Txt(text) => if raw then text else EscapeText(text)
    case Com(comment) => "<!--" + EscapeComment(comment) + "-->"
    case Elem(tag, attrs, kids) =>
      OpenTag(tag, attrs) + if IsVoid(tag) then "" else PrintForest(kids, IsRawText(tag)) + CloseTag(tag)
  }

  function PrintForest(ts: seq<Tree>, raw: bool): string
    decreases ts
  {
    if ts == [] then "" else Print(ts[0], raw) + PrintForest(ts[1..], raw)
  }

  lemma TagKinds(tag: string)
    ensures IsVoid(tag) <==> VoidElement(tag)
    ensures IsRawText(tag) <==> TextElement(tag)
  {
  }

  // ---------- escaping has a left inverse ----------

  function Unescape(s: string): string
  {
    if s == [] then []
    else if "&amp;" <= s then ['&'] + Unescape(s[5..])
    else if "&lt;" <= s then ['<'] + Unescape(s[4..])
    else if "&gt;" <= s then ['>'] + Unescape(s[4..])
    else if "&quot;" <= s then ['"'] + Unescape(s[6..])
    else [s[0]] + Unescape(s[1..])
  }

  lemma UnescapePlain(c: char, rest: string)
    requires c != '&'
    ensures Unescape([c] + rest) == [c] + Unescape(rest)
  {
    assert ([c] + rest)[0] == c && ([c] + rest)[1..] == rest;
  }

  function CodeOf(c: char): string
    requires c == '&' || c == '<' || c == '>' || c == '"'
  {
    if c == '&' then "&amp;" else if c == '<' then "&lt;" else if c == '>' then "&gt;" else "&quot;"
  }

  lemma UnescapeCode(c: char, rest: string)
    requires c == '&' || c == '<' || c == '>' || c == '"'
    ensures Unescape(CodeOf(c) + rest) == [c] + Unescape(rest)
  {
    var code := CodeOf(c);
    var s := code + rest;
    assert s[|code|..] == rest && s[..|code|] == code;
    assert s[0] == code[0] && s[1] == code[1] && s[2] == code[2];
  }

  lemma UnescapeTextChar(c: char, rest: string)
    ensures Unescape(EscapeChar(c) + rest) == [c] + Unescape(rest)
  {
    if c == '&' || c == '<' || c == '>' {
      UnescapeCode(c, rest);
    } else {
      UnescapePlain(c, rest);
    }
  }

  lemma UnescapeAttrChar(c: char, rest: string)
    ensures Unescape(EscapeAttrChar(c) + rest) == [c] + Unescape(rest)
  {
    if c == '&' || c == '"' {
      UnescapeCode(c, rest);
    } else {
      UnescapePlain(c, rest);
    }
  }

  /** Both escapings can be undone, and leave no bare delimiter. */
  lemma {:induction false} TextUnescapes(s: string)
    ensures Unescape(EscapeText(s)) == s
  {
    if s != [] {
      TextUnescapes(s[1..]);
      UnescapeTextChar(s[0], EscapeText(s[1..]));
    }
  }

  lemma {:induction false} TextHasNoTags(s: string)
    ensures '<' !in EscapeText(s) && '>' !in EscapeText(s)
    ensures s != [] ==> EscapeText(s) != []
  {
    if s != [] {
      TextHasNoTags(s[1..]);
      assert '<' !in EscapeChar(s[0]) && '>' !in EscapeChar(s[0]);
    }
  }

  lemma {:induction false} AttrUnescapes(s: string)
    ensures Unescape(EscapeAttr(s)) == s
    ensures '"' !in EscapeAttr(s)
  {
    if s != [] {
      AttrUnescapes(s[1..]);
      UnescapeAttrChar(s[0], EscapeAttr(s[1..]));
    }
  }

  /** Nothing else is escaped. */
  lemma {:induction false} PlainTextKept(s: string)
    requires '&' !in s && '<' !in s && '>' !in s
    ensures EscapeText(s) == s
  {
    if s != [] {
      PlainTextKept(s[1..]);
    }
  }

  lemma {:induction false} PlainAttrKept(s: string)
    requires '&' !in s && '"' !in s
    ensures EscapeAttr(s) == s
  {
    if s != [] {
      PlainAttrKept(s[1..]);
    }
  }

  lemma {:induction false} PlainCommentKept(s: string)
    requires '>' !in s
    ensures EscapeComment(s) == s
  {
    if s != [] {
      PlainCommentKept(s[1..]);
    }
  }

  /** In a comment every `>` is written as a reference, and all else as it is. */
  lemma {:induction false} CommentEscapes(a: string, b: string)
    requires '>' !in a
    ensures EscapeComment(a + ">" + b) == a + "&gt;" + EscapeComment(b)
    ensures '>' !in EscapeComment(b)
    decreases |a|, |b|
  {
    if a == [] {
      assert (a + ">" + b)[1..] == b;
      assert a + "&gt;" == "&gt;";
      if b != [] {
        CommentEscapes([], b[1..]);
      }
    } else {
      CommentEscapes(a[1..], b);
      assert (a + ">" + b)[1..] == a[1..] + ">" + b;
      assert a == [a[0]] + a[1..];
    }
  }

  // ---------- the decoder ----------

  predicate IsEquals(c: char) { c == '=' }
  predicate IsQuote(c: char) { c == '"' }
  predicate IsLess(c: char) { c == '<' }
  predicate IsGreater(c: char) { c == '>' }
  predicate IsColon(c: char) { c == ':' }
  predicate EndsName(c: char) { c == ' ' || c == '>' }

  /** How many characters come before the first that stops. */
  function UpTo(s: string, stop: char -> bool): (n: nat)
    ensures n <= |s|
  {
    if s == [] || stop(s[0]) then 0 else 1 + UpTo(s[1..], stop)
  }

  /** The attribute of that name: what stands before a colon is its prefix. */
  function Named(name: string, value: string): Attribute
  {
    var n := UpTo(name, IsColon);
    if n == |name| then Attribute(None, name, value) else Attribute(Some(name[..n]), name[n + 1..], value)
  }

  /** Reads attributes up to and including the `>` of their tag. */
  function ReadAttrs(s: string): (r: Option<(seq<Attribute>, string)>)
    ensures r.Some? ==> |r.value.1| < |s|
    decreases |s|
  {
    if s == "" then None
    else if s[0] == '>' then Some(([], s[1..]))
    else if s[0] != ' ' then None
    else
      var n := UpTo(s[1..], IsEquals);
      var name, behind := s[1..][..n], s[1..][n..];
      if !("=\"" <= behind) then None
      else
        var m := UpTo(behind[2..], IsQuote);
        var value, close := behind[2..][..m], behind[2..][m..];
        if close == "" then None
        else
          match ReadAttrs(close[1..])
          case None => None
          case Some((more, rest)) => Some(([Named(name, Unescape(value))] + more, rest))
  }

  /** Reads trees up to the end or a closing tag. */
  function ReadForest(s: string): (r: Option<(seq<Tree>, string)>)
    ensures r.Some? ==> |r.value.1| <= |s|
    decreases |s|, 1
  {
    if Ends(s) then Some(([], s))
    else
      match ReadTree(s)
      case None => None
      case Some((t, behind)) =>
        match ReadForest(behind)
        case None => None
        case Some((more, rest)) => Some(([t] + more, rest))
  }

  /** Reads the comment that begins behind `<!--`. */
  function ReadComment(s: string): (r: Option<(Tree, string)>)
    ensures r.Some? ==> |r.value.1| <= |s|
  {
    var n := UpTo(s, IsGreater);
    if n < |s| && n >= 2 && s[n - 2..n] == "--" then Some((Com(s[..n - 2]), s[n + 1..])) else None
  }

  /** Reads the text of a text element up to its end tag. */
  function ReadText(tag: string, s: string): (seq<Tree>, string)
  {
    var n := match Find(s, "</") case Some(k) => k case None => |s|;
    var text := if EscapableTextElement(tag) then Unescape(s[..n]) else s[..n];
    (if text == "" then [] else [Txt(text)], s[n..])
  }

  function ReadTree(s: string): (r: Option<(Tree, string)>)
    requires s != ""
    ensures r.Some? ==> |r.value.1| < |s|
    decreases |s|, 0
  {
    if "<!--" <= s then ReadComment(s[4..])
    else    if s[0] != '<' then
      var n := UpTo(s, IsLess);
      Some((Txt(Unescape(s[..n])), s[n..]))
    else
      var n := UpTo(s[1..], EndsName);
      var tag := s[1..][..n];
      match ReadAttrs(s[1..][n..])
      case None => None
      case Some((attrs, body)) =>
        if VoidElement(tag) then Some((Elem(tag, attrs, []), body))
        else if TextElement(tag) then
          var (kids, close) := ReadText(tag, body);
          if CloseTag(tag) <= close then Some((Elem(tag, attrs, kids), close[|CloseTag(tag)|..])) else None
        else
          match ReadForest(body)
          case None => None
          case Some((kids, close)) =>
            if CloseTag(tag) <= close then Some((Elem(tag, attrs, kids), close[|CloseTag(tag)|..])) else None
  }

  /** The element whose outer markup this is. */
  function Decode(html: string): Option<Tree>
  {
    var r := ReadForest(html);
    if r.Some? && |r.value.0| == 1 && r.value.1 == "" then Some(r.value.0[0]) else None
  }

  // ---------- reading what was printed ----------

  /** `a` has no stop, and what follows is empty or starts with one. */
  predicate Delimited(a: string, x: string, stop: char -> bool)
  {
    (forall i :: 0 <= i < |a| ==> !stop(a[i])) && (x == [] || stop(x[0]))
  }

  lemma {:induction false} UpToDelimiter(a: string, x: string, stop: char -> bool)
    requires Delimited(a, x, stop)
    ensures UpTo(a + x, stop) == |a|
    ensures (a + x)[..|a|] == a && (a + x)[|a|..] == x
  {
    if a == [] {
      assert a + x == x;
    } else {
      assert (a + x)[1..] == a[1..] + x;
      UpToDelimiter(a[1..], x, stop);
    }
  }

  lemma Behind(front: string, x: string)
    ensures front <= front + x && (front + x)[|front|..] == x
  {
  }

  function NameOf(a: Attribute): string
  {
    (if a.prefix.Some? then a.prefix.value + ":" else "") + a.local
  }

  lemma AttrShape(a: Attribute, x: string)
    ensures PrintAttr(a) + x == " " + (NameOf(a) + ("=\"" + (EscapeAttr(a.value) + ("\"" + x))))
  {
    var value := EscapeAttr(a.value);
    var prefix := if a.prefix.Some? then a.prefix.value + ":" else "";
    assert PrintAttr(a) == " " + prefix + a.local + "=\"" + value + "\"";
    Regroup(" ", prefix, a.local);
    Regroup(" " + NameOf(a) + "=\"" + value, "\"", x);
    Regroup(" " + NameOf(a) + "=\"", value, "\"" + x);
    Regroup(" " + NameOf(a), "=\"", value + ("\"" + x));
    Regroup(" ", NameOf(a), "=\"" + (value + ("\"" + x)));
  }

  lemma NameReads(a: Attribute)
    requires LegalAttr(a)
    ensures Named(NameOf(a), a.value) == a
    ensures forall i :: 0 <= i < |NameOf(a)| ==> NameOf(a)[i] != '='
  {
    if a.prefix.Some? {
      var p := a.prefix.value;
      Regroup(p, ":", a.local);
      UpToDelimiter(p, ":" + a.local, IsColon);
      Behind(":", a.local);
      assert NameOf(a) == p + (":" + a.local);
      assert NameOf(a)[|p| + 1..] == a.local;
    } else {
      assert NameOf(a) == a.local;
      assert a.local + "" == a.local;
      UpToDelimiter(a.local, "", IsColon);
    }
  }

  lemma ReadAttrPrint(a: Attribute, x: string)
    requires LegalAttr(a)
    ensures var s := PrintAttr(a) + x;
      ReadAttrs(s) == match ReadAttrs(x)
        case None => None
        case Some((more, rest)) => Some(([a] + more, rest))
  {
    var quoted := EscapeAttr(a.value) + ("\"" + x);
    AttrShape(a, x);
    NameReads(a);
    Behind(" ", NameOf(a) + ("=\"" + quoted));
    UpToDelimiter(NameOf(a), "=\"" + quoted, IsEquals);
    Behind("=\"", quoted);
    AttrUnescapes(a.value);
    UpToDelimiter(EscapeAttr(a.value), "\"" + x, IsQuote);
    Behind("\"", x);
  }

  lemma {:induction false} ReadAttrsPrint(attrs: seq<Attribute>, x: string)
    requires LegalAttrs(attrs)
    ensures ReadAttrs(PrintAttrs(attrs) + (">" + x)) == Some((attrs, x))
  {
    if attrs == [] {
      assert PrintAttrs(attrs) + (">" + x) == ">" + x;
      Behind(">", x);
    } else {
      ReadAttrsPrint(attrs[1..], x);
      Regroup(PrintAttr(attrs[0]), PrintAttrs(attrs[1..]), ">" + x);
      ReadAttrPrint(attrs[0], PrintAttrs(attrs[1..]) + (">" + x));
      assert attrs == [attrs[0]] + attrs[1..];
    }
  }

  lemma OpenTagShape(tag: string, attrs: seq<Attribute>, x: string)
    ensures OpenTag(tag, attrs) + x == "<" + (tag + (PrintAttrs(attrs) + (">" + x)))
  {
    Regroup("<" + tag + PrintAttrs(attrs), ">", x);
    Regroup("<" + tag, PrintAttrs(attrs), ">" + x);
    Regroup("<", tag, PrintAttrs(attrs) + (">" + x));
  }

  /** What may follow a forest: the end, or a closing tag. */
  predicate Ends(rest: string)
  {
    rest == "" || "</" <= rest
  }

  lemma ReadTextPrint(text: string, x: string)
    requires text != [] && (x == "" || x[0] == '<')
    ensures EscapeText(text) + x != "" && !Ends(EscapeText(text) + x)
    ensures ReadTree(EscapeText(text) + x) == Some((Txt(text), x))
  {
    TextUnescapes(text);
    TextHasNoTags(text);
    assert (EscapeText(text) + x)[0] == EscapeText(text)[0];
    UpToDelimiter(EscapeText(text), x, IsLess);
  }

  lemma ReadCommentPrint(comment: string, x: string)
    requires '>' !in comment
    ensures var s := Print(Com(comment), false) + x;
      s != "" && !Ends(s) && ReadTree(s) == Some((Com(comment), x))
  {
    PlainCommentKept(comment);
    var tail := comment + ("--" + (">" + x));
    Regroup("<!--" + comment, "-->", x);
    Regroup("<!--", comment, "-->" + x);
    assert "-->" + x == "--" + (">" + x);
    Behind("<!--", tail);
    Regroup(comment, "--", ">" + x);
    UpToDelimiter(comment + "--", ">" + x, IsGreater);
    Behind(">", x);
    assert (comment + "--")[|comment|..] == "--" && (comment + "--")[..|comment|] == comment;
    var n := |comment| + 2;
    assert tail[n - 2..n] == "--" && tail[..n - 2] == comment;
    assert tail[n + 1..] == x;
    assert Print(Com(comment), false) + x == "<!--" + tail;
    assert ("<!--" + tail)[1] == '!';
  }

  /** Behind its opening tag an element reads its contents. */
  lemma ReadOpenTag(tag: string, attrs: seq<Attribute>, x: string)
    requires LegalTag(tag) && LegalAttrs(attrs)
    ensures var s := OpenTag(tag, attrs) + x;
      && s != "" && !Ends(s)
      && ReadTree(s) ==
           if VoidElement(tag) then Some((Elem(tag, attrs, []), x))
           else if TextElement(tag) then
             var (kids, close) := ReadText(tag, x);
             if CloseTag(tag) <= close then Some((Elem(tag, attrs, kids), close[|CloseTag(tag)|..])) else None
           else match ReadForest(x)
             case None => None
             case Some((kids, close)) =>
               if CloseTag(tag) <= close then Some((Elem(tag, attrs, kids), close[|CloseTag(tag)|..])) else None
  {
    var tail := PrintAttrs(attrs) + (">" + x);
    OpenTagShape(tag, attrs, x);
    Behind("<", tag + tail);
    assert tail[0] == if attrs == [] then '>' else ' ';
    UpToDelimiter(tag, tail, EndsName);
    ReadAttrsPrint(attrs, x);
    assert ("<" + (tag + tail))[1] == tag[0];
    assert "<!--"[1] == '!';
  }

  lemma FoundBehind(text: string, x: string)
    requires !Contains(text, "</") && "</" <= x
    ensures Find(text + x, "</") == Some(|text|)
  {
    var s := text + x;
    assert OccursAt(s, "</", |text|) by {
      assert s[|text|..|text| + 2] == x[..2];
    }
    FindLeast(s, "</", |text|);
    var k := Find(s, "</").value;
    assert s[k..k + 2][1] == s[k + 1] && s[|text|] == x[0] == '<';
    if k < |text| {
      assert s[k..k + 2] == text[k..k + 2];
      FindLeast(text, "</", k);
    }
  }

  /** The text of a text element is read back from in front of its end tag. */
  lemma ReadTextElement(tag: string, text: string, x: string)
    requires TextElement(tag) && !Contains(text, "</") && "</" <= x
    ensures var read := if EscapableTextElement(tag) then Unescape(text) else text;
      ReadText(tag, text + x) == (if read == "" then [] else [Txt(read)], x)
  {
    FoundBehind(text, x);
    assert (text + x)[..|text|] == text && (text + x)[|text|..] == x;
  }

  lemma PrintsText(tag: string, kids: seq<Tree>)
    requires LegalText(tag, kids)
    ensures PrintForest(kids, true) == if kids == [] then "" else kids[0].text
  {
    if kids != [] {
      assert kids[1..] == [];
      assert kids[0].text + "" == kids[0].text;
    }
  }

  lemma ReadElemPrint(t: Tree, x: string)
    requires Legal(t) && t.Elem?
    requires !VoidElement(t.tag) && !TextElement(t.tag) ==>
      ReadForest(PrintForest(t.kids, false) + (CloseTag(t.tag) + x)) == Some((t.kids, CloseTag(t.tag) + x))
    ensures Print(t, false) + x != "" && !Ends(Print(t, false) + x)
    ensures ReadTree(Print(t, false) + x) == Some((t, x))
  {
    var open, inside, close := OpenTag(t.tag, t.attrs), PrintForest(t.kids, IsRawText(t.tag)), CloseTag(t.tag) + x;
    TagKinds(t.tag);
    if VoidElement(t.tag) {
      assert open + "" == open;
      ReadOpenTag(t.tag, t.attrs, x);
    } else {
      Regroup(open, inside + CloseTag(t.tag), x);
      Regroup(inside, CloseTag(t.tag), x);
      ReadOpenTag(t.tag, t.attrs, inside + close);
      Behind(CloseTag(t.tag), x);
      if TextElement(t.tag) {
        TextElementReads(t.tag, t.kids, close);
      }
    }
  }

  lemma TextElementReads(tag: string, kids: seq<Tree>, close: string)
    requires TextElement(tag) && LegalText(tag, kids) && "</" <= close
    ensures ReadText(tag, PrintForest(kids, true) + close) == (kids, close)
  {
    PrintsText(tag, kids);
    if kids == [] {
      assert !Contains("", "</");
      ReadTextElement(tag, "", close);
    } else {
      ReadTextElement(tag, kids[0].text, close);
      assert kids == [kids[0]];
    }
  }

  /** Reading the markup of a forest, with the end or a closing tag behind it, gives the forest. */
  lemma {:induction false} ReadForestPrint(ts: seq<Tree>, x: string)
    requires LegalForest(ts) && Ends(x)
    ensures ReadForest(PrintForest(ts, false) + x) == Some((ts, x))
    decreases ts
  {
    if ts == [] {
      assert "" + x == x;
    } else {
      var rest := PrintForest(ts[1..], false) + x;
      ReadForestPrint(ts[1..], x);
      match ts[0] {
        case Txt(text) =>
          StartsWithTag(ts, x);
          ReadTextPrint(text, rest);
        case Com(comment) =>
          ReadCommentPrint(comment, rest);
        case Elem(tag, _, kids) =>
          if !VoidElement(tag) && !TextElement(tag) {
            ReadForestPrint(kids, CloseTag(tag) + rest);
          }
          ReadElemPrint(ts[0], rest);
      }
      ReadFirst(ts, x);
    }
  }

  /** What follows a text begins with a tag, or there is nothing. */
  lemma StartsWithTag(ts: seq<Tree>, x: string)
    requires ts != [] && LegalForest(ts) && ts[0].Txt? && Ends(x)
    ensures var rest := PrintForest(ts[1..], false) + x; rest == "" || rest[0] == '<'
  {
    if |ts| > 1 {
      assert Print(ts[1], false)[0] == '<';
    } else {
      assert "" + x == x;
    }
  }

  lemma ReadFirst(ts: seq<Tree>, x: string)
    requires ts != []
    requires var rest := PrintForest(ts[1..], false) + x;
      && ReadForest(rest) == Some((ts[1..], x))
      && Print(ts[0], false) + rest != "" && !Ends(Print(ts[0], false) + rest)
      && ReadTree(Print(ts[0], false) + rest) == Some((ts[0], rest))
    ensures ReadForest(PrintForest(ts, false) + x) == Some((ts, x))
  {
    Regroup(Print(ts[0], false), PrintForest(ts[1..], false), x);
    assert ts == [ts[0]] + ts[1..];
  }

  /** The decoder recovers every legal element from its markup. */
  lemma DecodePrint(t: Tree)
    requires Legal(t) && t.Elem?
    ensures Decode(Print(t, false)) == Some(t)
  {
    assert [t][1..] == [];
    assert PrintForest([t], false) + "" == Print(t, false);
    ReadForestPrint([t], "");
  }

  // ---------- escapable text elements ----------

  lemma ReadsAlone(s: string, t: Tree)
    requires s != "" && !Ends(s) && ReadTree(s) == Some((t, ""))
    ensures Decode(s) == Some(t)
  {
    assert ReadForest("") == Some(([], ""));
    assert [t] + [] == [t];
  }

  /** The one text of an escapable text element is read with its references. */
  lemma EscapableReads(tag: string, attrs: seq<Attribute>, text: string)
    requires EscapableTextElement(tag) && LegalAttrs(attrs) && text != [] && !Contains(text, "</")
    ensures var s := OpenTag(tag, attrs) + (text + CloseTag(tag));
      && s != "" && !Ends(s)
      && ReadTree(s) == Some((Elem(tag, attrs, if Unescape(text) == "" then [] else [Txt(Unescape(text))]), ""))
  {
    ReadOpenTag(tag, attrs, text + CloseTag(tag));
    ReadTextElement(tag, text, CloseTag(tag));
    assert CloseTag(tag)[|CloseTag(tag)|..] == "";
  }

  /** The text of a `textarea` or `title` is written as it is, so it is read back exactly when nothing
      in it reads as a character reference. */
  lemma EscapableExactly(tag: string, attrs: seq<Attribute>, text: string)
    requires EscapableTextElement(tag) && LegalAttrs(attrs) && text != [] && !Contains(text, "</")
    ensures var t := Elem(tag, attrs, [Txt(text)]);
      Decode(Print(t, false)) == Some(t) <==> Unescape(text) == text
  {
    var t := Elem(tag, attrs, [Txt(text)]);
    var s := OpenTag(tag, attrs) + (text + CloseTag(tag));
    EscapablePrints(tag, attrs, text);
    EscapableReads(tag, attrs, text);
    ReadsAlone(s, ReadTree(s).value.0);
  }

  lemma EscapablePrints(tag: string, attrs: seq<Attribute>, text: string)
    requires EscapableTextElement(tag)
    ensures Print(Elem(tag, attrs, [Txt(text)]), false) == OpenTag(tag, attrs) + (text + CloseTag(tag))
  {
    TagKinds(tag);
    assert [Txt(text)][1..] == [];
    assert text + "" == text;
    assert PrintForest([Txt(text)], true) == text;
  }

  /** A title that loses its text: what was written `&lt;` is read as `<`. */
  lemma TitleLost()
    ensures var t := Elem("title", [], [Txt("&lt;")]); Decode(Print(t, false)) != Some(t)
  {
    var text := "&lt;";
    assert text[4..] == "";
    assert Unescape(text) == "<" + Unescape("");
    forall k | 0 <= k <= |text| ensures !OccursAt(text, "</", k) {
      assert k + 2 <= |text| ==> text[k..k + 2][0] == text[k];
    }
    EscapableExactly("title", [], text);
  }

  // ---------- arenas ----------

  /** The subtree of the arena at `id` is the tree `t`: a template has its children in its contents. */
  ghost predicate Represents(arena: Arena, id: NodeId, t: Tree)
    decreases t
  {
    var node := GetNode(arena, id);
    && node.Some?
    && match t
       case Txt(text) => node.value.data == TextNode(text)
       case Com(comment) => node.value.data == Comment(comment)
       case Elem(tag, attrs, kids) =>
         && node.value.data.Element? && node.value.data.tag == tag && node.value.data.attrs == attrs
         && (node.value.data.contents.Some? ==> !TextElement(tag) && IsFragment(arena, node.value.data.contents.value))
         && RepresentsAll(arena, Children(arena, ContentSource(arena, id)), kids)
  }

  predicate IsFragment(arena: Arena, id: NodeId)
  {
    GetNode(arena, id).Some? && GetNode(arena, id).value.data.Document?
  }

  ghost predicate RepresentsAll(arena: Arena, ids: seq<NodeId>, ts: seq<Tree>)
    decreases ts
  {
    if ts == [] then ids == []
    else ids != [] && Represents(arena, ids[0], ts[0]) && RepresentsAll(arena, ids[1..], ts[1..])
  }

  ghost predicate ChildrenOf(arena: Arena, ids: seq<NodeId>, id: NodeId)
  {
    forall i :: 0 <= i < |ids| ==> GetNode(arena, ids[i]).Some? && GetNode(arena, ids[i]).value.parent == Some(id)
  }

  predicate IsRawParent(arena: Arena, id: NodeId)
  {
    && GetNode(arena, id).Some? && GetNode(arena, id).value.data.Element?
    && TextElement(GetNode(arena, id).value.data.tag)
  }

  /** The recursive printer, on an arena that holds a tree, prints that tree. */
  lemma {:induction false} RenderIsPrint(arena: Arena, shape: Shape, id: NodeId, t: Tree, raw: bool)
    requires WellFormed(arena, shape) && Represents(arena, id, t)
    requires t.Txt? ==> ParentIsRaw(arena, GetNode(arena, id).value) == raw
    ensures Render(arena, shape, id) == Print(t, raw)
    decreases t
  {
    if t.Elem? {
      ContentsArePrint(arena, shape, id, t);
    }
  }

  lemma {:induction false} ContentsArePrint(arena: Arena, shape: Shape, id: NodeId, t: Tree)
    requires WellFormed(arena, shape) && Represents(arena, id, t) && t.Elem?
    ensures RenderContents(arena, shape, id) == PrintForest(t.kids, IsRawText(t.tag))
    decreases t, 0
  {
    var source := ContentSource(arena, id);
    var ids := Children(arena, source);
    TagKinds(t.tag);
    ContentsBelow(arena, shape, id);
    ChildrenLinked(arena, shape, source);
    ListIsPrint(arena, shape, ids, shape.rank(id), t.kids, source);
  }

  lemma ChildrenLinked(arena: Arena, shape: Shape, id: NodeId)
    requires WellFormed(arena, shape)
    ensures ChildrenOf(arena, Children(arena, id), id)
  {
    if GetNode(arena, id).Some? {
      assert OwnsProperly(arena, shape, id);
      var node := GetNode(arena, id).value;
      assert forall i :: 0 <= i < |node.children| ==> Owned(node)[i] == node.children[i];
    }
  }

  lemma {:induction false} ListIsPrint(arena: Arena, shape: Shape, ids: seq<NodeId>, bound: nat, ts: seq<Tree>,
                                       parent: NodeId)
    requires WellFormed(arena, shape) && Below(shape, ids, bound) && RepresentsAll(arena, ids, ts)
    requires ChildrenOf(arena, ids, parent)
    ensures RenderList(arena, shape, ids, bound) == PrintForest(ts, IsRawParent(arena, parent))
    decreases ts
  {
    if ts != [] {
      RawByParent(arena, GetNode(arena, ids[0]).value, parent);
      RenderIsPrint(arena, shape, ids[0], ts[0], IsRawParent(arena, parent));
      ListIsPrint(arena, shape, ids[1..], bound, ts[1..], parent);
      OnlyTextIsRaw(ts[0]);
    }
  }

  lemma RawByParent(arena: Arena, node: Node, parent: NodeId)
    requires node.parent == Some(parent)
    ensures ParentIsRaw(arena, node) <==> IsRawParent(arena, parent)
  {
    if GetNode(arena, parent).Some? && GetNode(arena, parent).value.data.Element? {
      TagKinds(GetNode(arena, parent).value.data.tag);
    }
  }

  lemma OnlyTextIsRaw(t: Tree)
    ensures !t.Txt? ==> Print(t, true) == Print(t, false)
  {
  }

  /** The decoder recovers a tree from what the serializer gives for any arena that holds it, and its
      children from the inner markup, which for a text element is its text as it stands. */
  lemma SerializationDecodes(arena: Arena, shape: Shape, id: NodeId, t: Tree)
    requires WellFormed(arena, shape) && Represents(arena, id, t) && Legal(t) && t.Elem?
    ensures Decode(OuterMarkup(arena, id)) == Some(t)
    ensures if TextElement(t.tag) then InnerMarkup(arena, id) == (if t.kids == [] then "" else t.kids[0].text)
            else ReadForest(InnerMarkup(arena, id)) == Some((t.kids, ""))
  {
    SerializerIsPrinter(arena, shape, id);
    RenderIsPrint(arena, shape, id, t, false);
    DecodePrint(t);
    ContentsArePrint(arena, shape, id, t);
    TagKinds(t.tag);
    if TextElement(t.tag) {
      PrintsText(t.tag, t.kids);
    } else {
      assert PrintForest(t.kids, false) + "" == PrintForest(t.kids, false);
      ReadForestPrint(t.kids, "");
    }
  }

  /** So equal markup means equal trees, whatever arenas they live in. */
  lemma SerializationInjective(arena: Arena, shape: Shape, id: NodeId, t: Tree,
                               arena': Arena, shape': Shape, id': NodeId, u: Tree)
    requires WellFormed(arena, shape) && Represents(arena, id, t) && Legal(t) && t.Elem?
    requires WellFormed(arena', shape') && Represents(arena', id', u) && Legal(u) && u.Elem?
    ensures OuterMarkup(arena, id) == OuterMarkup(arena', id') ==> t == u
    ensures InnerMarkup(arena, id) == InnerMarkup(arena', id') && TextElement(t.tag) == TextElement(u.tag) ==>
      t.kids == u.kids
  {
    SerializationDecodes(arena, shape, id, t);
    SerializationDecodes(arena', shape', id', u);
    if TextElement(t.tag) && TextElement(u.tag) {
      assert t.kids == if InnerMarkup(arena, id) == "" then [] else [Txt(InnerMarkup(arena, id))];
      assert u.kids == if InnerMarkup(arena', id') == "" then [] else [Txt(InnerMarkup(arena', id'))];
    }
  }

  // ---------- text elements and the other leaves, whatever their texts ----------

  /** The texts of nodes, put together. */
  function Joined(texts: seq<string>): string
  {
    if texts == [] then "" else texts[0] + Joined(texts[1..])
  }

  function Texts(texts: seq<string>): seq<Tree>
  {
    if texts == [] then [] else [Txt(texts[0])] + Texts(texts[1..])
  }

  lemma {:induction false} TextsPrint(texts: seq<string>)
    ensures PrintForest(Texts(texts), true) == Joined(texts)
  {
    if texts != [] {
      assert Texts(texts)[1..] == Texts(texts[1..]);
      TextsPrint(texts[1..]);
    }
  }

  /** Inner markup of a script, style, textarea or title is the text of its text nodes, unescaped. */
  lemma RawTextVerbatim(arena: Arena, shape: Shape, id: NodeId, tag: string, attrs: seq<Attribute>, texts: seq<string>)
    requires WellFormed(arena, shape) && Represents(arena, id, Elem(tag, attrs, Texts(texts)))
    requires tag == "script" || tag == "style" || tag == "textarea" || tag == "title"
    ensures InnerMarkup(arena, id) == Joined(texts)
  {
    SerializerIsPrinter(arena, shape, id);
    ContentsArePrint(arena, shape, id, Elem(tag, attrs, Texts(texts)));
    TagKinds(tag);
    TextsPrint(texts);
  }

  /** A comment is marked off by `<!--` and `-->`, with no `>` in between, and with every character of
      its text as it is but for that one. */
  lemma CommentMarkup(arena: Arena, shape: Shape, id: NodeId, a: string, b: string)
    requires WellFormed(arena, shape) && GetNode(arena, id).Some? && '>' !in a
    ensures GetNode(arena, id).value.data == Comment(a) ==> OuterMarkup(arena, id) == "<!--" + a + "-->"
    ensures GetNode(arena, id).value.data == Comment(a + ">" + b) ==>
      && OuterMarkup(arena, id) == "<!--" + (a + "&gt;" + EscapeComment(b)) + "-->"
      && '>' !in a + "&gt;" + EscapeComment(b)
  {
    SerializerIsPrinter(arena, shape, id);
    PlainCommentKept(a);
    CommentEscapes(a, b);
  }

  /** Doctypes and processing instructions are written from their parts. */
  lemma DeclarationMarkup(arena: Arena, shape: Shape, id: NodeId)
    requires WellFormed(arena, shape) && GetNode(arena, id).Some?
    ensures match GetNode(arena, id).value.data
      case Doctype(name) => OuterMarkup(arena, id) == "<!DOCTYPE " + name + ">"
      case ProcessingInstruction(target, data) => OuterMarkup(arena, id) == "<?" + target + " " + data + ">"
      case _ => true
  {
    SerializerIsPrinter(arena, shape, id);
  }
}
