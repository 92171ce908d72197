/** Rewriting the `url(...)` values of a stylesheet: a hand-written tokenizer loop, its token
    list, and what rewriting leaves alone. */
module CssUrls {
  import opened Wrappers
  import opened Text

  /** The URL library; `join` resolves against the stylesheet's own URL. */
  datatype CssLib = CssLib(isAbsolute: string -> bool, join: string -> Option<string>)

  /** A stretch of the stylesheet; only a closed `url(...)` may be rewritten. */
  datatype Token = Copied(text: string) | UrlCall(text: string)

  predicate IsQuote(c: char) { c == '"' || c == '\'' }

  function Fold(c: char): char
  {
    if 'A' <= c <= 'Z' then (c as int - 'A' as int + 'a' as int) as char else c
  }

  predicate OpensUrl(s: string)
  {
    |s| >= 4 && Fold(s[0]) == 'u' && Fold(s[1]) == 'r' && Fold(s[2]) == 'l' && s[3] == '('
  }

  // ---------- where tokens end ----------

  /** Scanning a quoted string from `i`: the position behind its closing quote. */
  function StringEnd(s: string, i: nat, quote: char, escaped: bool): (r: Option<nat>)
    requires i <= |s|
    ensures r.Some? ==> i < r.value <= |s|
    decreases |s| - i
  {
    if i == |s| then None
    else if escaped then StringEnd(s, i + 1, quote, false)
    else if s[i] == '\\' then StringEnd(s, i + 1, quote, true)
    else if s[i] == quote then Some(i + 1)
    else StringEnd(s, i + 1, quote, false)
  }

  function QuoteAfter(c: char, quote: Option<char>): Option<char>
  {
    if quote.Some? then (if c == quote.value then None else quote)
    else if IsQuote(c) then Some(c) else None
  }

  /** Scanning behind `url(` from `i`: the position behind the closing parenthesis. */
  function UrlEnd(s: string, i: nat, quote: Option<char>, escaped: bool): (r: Option<nat>)
    requires i <= |s|
    ensures r.Some? ==> i < r.value <= |s| && s[r.value - 1] == ')'
    decreases |s| - i
  {
    if i == |s| then None
    else if escaped then UrlEnd(s, i + 1, quote, false)
    else if s[i] == '\\' then UrlEnd(s, i + 1, quote, true)
    else if quote.None? && s[i] == ')' then Some(i + 1)
    else UrlEnd(s, i + 1, QuoteAfter(s[i], quote), false)
  }

  /** The first token; an unclosed comment, string or url runs to the end. */
  function NextToken(s: string): (t: Token)
    requires s != []
    ensures 1 <= |t.text| <= |s| && t.text == s[..|t.text|]
  {
    if "/*" <= s then
      match Find(s[2..], "*/")
      case Some(end) => Copied(s[..end + 4])
      case None => Copied(s)
    else if IsQuote(s[0]) then
      match StringEnd(s, 1, s[0], false)
      case Some(end) => Copied(s[..end])
      case None => Copied(s)
    else if !OpensUrl(s) then Copied(s[..1])
    else
      match UrlEnd(s, 4, None, false)
      case Some(end) => UrlCall(s[..end])
      case None => Copied(s)
  }

  function Tokens(s: string): seq<Token>
  {
    if s == [] then [] else [NextToken(s)] + Tokens(s[|NextToken(s).text|..])
  }

  // ---------- rewriting ----------

  function Unquoted(raw: string): string
  {
    if |raw| >= 2 && IsQuote(raw[0]) && raw[|raw| - 1] == raw[0] then raw[1..|raw| - 1] else raw
  }

  /** The text between the parentheses of a closed `url(...)`, without its quotes. */
  function UrlValue(text: string): string
    requires |text| >= 5
  {
    Unquoted(Trim(text[4..|text| - 1]))
  }

  function Resolved(lib: CssLib, value: string): Option<string>
  {
    if value == "" || "#" <= value || Contains(value, "var(") || lib.isAbsolute(value) then None else lib.join(value)
  }

  function Escape(s: string): string
  {
    if s == [] then []
    else (if s[0] == '\\' || s[0] == '"' then ['\\', s[0]] else [s[0]]) + Escape(s[1..])
  }

  function UrlText(url: string): string
  {
    "url(\"" + Escape(url) + "\")"
  }

  function Rewritten(lib: CssLib, token: Token): string
  {
    if token.Copied? || |token.text| < 5 then token.text
    else
      match Resolved(lib, UrlValue(token.text))
      case Some(url) => UrlText(url)
      case None => token.text
  }

  function Rebased(lib: CssLib, s: string): string
  {
    if s == [] then []
    else Rewritten(lib, NextToken(s)) + Rebased(lib, s[|NextToken(s).text|..])
  }

  // ---------- the loop ----------

  method ScanString(s: string) returns (end: Option<nat>)
    requires s != [] && IsQuote(s[0])
    ensures end == StringEnd(s, 1, s[0], false)
  {
    var escaped := false;
    for i := 1 to |s|
      invariant StringEnd(s, 1, s[0], false) == StringEnd(s, i, s[0], escaped)
    {
      if escaped {
        escaped := false;
      } else if s[i] == '\\' {
        escaped := true;
      } else if s[i] == s[0] {
        return Some(i + 1);
      }
    }
    return None;
  }

  method ScanUrl(s: string) returns (end: Option<nat>)
    requires |s| >= 4
    ensures end == UrlEnd(s, 4, None, false)
  {
    var quote: Option<char> := None;
    var escaped := false;
    for i := 4 to |s|
      invariant UrlEnd(s, 4, None, false) == UrlEnd(s, i, quote, escaped)
    {
      if escaped {
        escaped := false;
      } else if s[i] == '\\' {
        escaped := true;
      } else if quote.Some? {
        if s[i] == quote.value {
          quote := None;
        }
      } else if IsQuote(s[i]) {
        quote := Some(s[i]);
      } else if s[i] == ')' {
        return Some(i + 1);
      }
    }
    return None;
  }

  /** `rebase_css_urls`. */
  method Rebase(lib: CssLib, css: string) returns (out: string)
    ensures out == Rebased(lib, css)
  {
    out := [];
    var index := 0;
    var rest := css;
    ghost var goal := Rebased(lib, css);
    while index < |css|
      invariant index <= |css| && rest == css[index..]
      invariant goal == out + Rebased(lib, rest)
    {
      var rewritten, length := RebaseFirst(lib, rest);
      Regroup(out, rewritten, Rebased(lib, rest[length..]));
      assert css[index..][length..] == css[index + length..];
      out := out + rewritten;
      index := index + length;
      rest := css[index..];
    }
  }

  /** One turn of the loop: the first token's replacement and its length in the input. */
  method RebaseFirst(lib: CssLib, rest: string) returns (rewritten: string, length: nat)
    requires rest != []
    ensures 1 <= length <= |rest| && Rebased(lib, rest) == rewritten + Rebased(lib, rest[length..])
  {
    var token := ScanToken(rest);
    rewritten := RewriteToken(lib, token);
    length := |token.text|;
  }

  method ScanToken(rest: string) returns (token: Token)
    requires rest != []
    ensures token == NextToken(rest)
  {
    if "/*" <= rest {
      var end := Find(rest[2..], "*/");
      return Copied(if end.Some? then rest[..end.value + 4] else rest);
    }
    if IsQuote(rest[0]) {
      var end := ScanString(rest);
      return Copied(if end.Some? then rest[..end.value] else rest);
    }
    if !OpensUrl(rest) {
      return Copied(rest[..1]);
    }
    var end := ScanUrl(rest);
    return if end.Some? then UrlCall(rest[..end.value]) else Copied(rest);
  }

  method RewriteToken(lib: CssLib, token: Token) returns (out: string)
    ensures out == Rewritten(lib, token)
  {
    out := token.text;
    if token.UrlCall? && |token.text| >= 5 {
      var resolved := Resolved(lib, UrlValue(token.text));
      if resolved.Some? {
        out := "url(\"";
        var url := resolved.value;
        assert url[0..] == url;
        for i := 0 to |url|
          invariant out + Escape(url[i..]) == "url(\"" + Escape(url)
        {
          assert url[i..][1..] == url[i + 1..];
          if url[i] == '\\' || url[i] == '"' {
            out := out + ['\\'];
          }
          out := out + [url[i]];
        }
        assert url[|url|..] == [];
        out := out + "\")";
      }
    }
  }

  // ---------- tokens cover the text; only url calls change ----------

  function TextOf(tokens: seq<Token>): string
  {
    if tokens == [] then [] else tokens[0].text + TextOf(tokens[1..])
  }

  /** The token with its text rewritten. */
  function Retoken(lib: CssLib, token: Token): Token
  {
    if token.Copied? then token else UrlCall(Rewritten(lib, token))
  }

  function RetokenAll(lib: CssLib, tokens: seq<Token>): (r: seq<Token>)
    ensures |r| == |tokens|
    ensures forall i :: 0 <= i < |tokens| ==> r[i] == Retoken(lib, tokens[i])
  {
    if tokens == [] then [] else [Retoken(lib, tokens[0])] + RetokenAll(lib, tokens[1..])
  }

  /** The tokens are the text, cut up. */
  lemma {:induction false} TokensCover(s: string)
    ensures TextOf(Tokens(s)) == s
  {
    if s != [] {
      var n := |NextToken(s).text|;
      TokensCover(s[n..]);
      assert s == s[..n] + s[n..];
    }
  }

  /** The output is the same list of tokens with url calls rewritten: comments, strings and
      all text outside `url(...)` are copied. */
  lemma {:induction false} OutputByTokens(lib: CssLib, s: string)
    ensures Rebased(lib, s) == TextOf(RetokenAll(lib, Tokens(s)))
  {
    if s != [] {
      OutputByTokens(lib, s[|NextToken(s).text|..]);
    }
  }

  // ---------- reading the output again ----------

  lemma {:induction false} StringEndLocal(s: string, t: string, i: nat, quote: char, escaped: bool)
    requires i <= |s| && StringEnd(s, i, quote, escaped).Some?
    requires var end := StringEnd(s, i, quote, escaped).value; end <= |t| && s[..end] == t[..end]
    ensures StringEnd(t, i, quote, escaped) == StringEnd(s, i, quote, escaped)
    decreases |s| - i
  {
    var end := StringEnd(s, i, quote, escaped).value;
    assert s[i] == s[..end][i] == t[i];
    if escaped || s[i] == '\\' || s[i] != quote {
      StringEndLocal(s, t, i + 1, quote, !escaped && s[i] == '\\');
    }
  }

  lemma {:induction false} UrlEndLocal(s: string, t: string, i: nat, quote: Option<char>, escaped: bool)
    requires i <= |s| && UrlEnd(s, i, quote, escaped).Some?
    requires var end := UrlEnd(s, i, quote, escaped).value; end <= |t| && s[..end] == t[..end]
    ensures UrlEnd(t, i, quote, escaped) == UrlEnd(s, i, quote, escaped)
    decreases |s| - i
  {
    var end := UrlEnd(s, i, quote, escaped).value;
    assert s[i] == s[..end][i] == t[i];
    if escaped {
      UrlEndLocal(s, t, i + 1, quote, false);
    } else if s[i] == '\\' {
      UrlEndLocal(s, t, i + 1, quote, true);
    } else if !(quote.None? && s[i] == ')') {
      UrlEndLocal(s, t, i + 1, QuoteAfter(s[i], quote), false);
    }
  }

  /** A comment closed in `s` closes at the same place before any other text. */
  lemma CommentLocal(s: string, t: string)
    requires "/*" <= s && Find(s[2..], "*/").Some?
    requires var n := Find(s[2..], "*/").value + 4; n <= |t| && s[..n] == t[..n]
    ensures "/*" <= t && Find(t[2..], "*/") == Find(s[2..], "*/")
  {
    var k := Find(s[2..], "*/").value;
    assert t[..2] == s[..k + 4][..2];
    SameOccurrence(s, t, k);
    FindLeast(t[2..], "*/", k);
    var j := Find(t[2..], "*/").value;
    SameOccurrence(t, s, j);
    FindLeast(s[2..], "*/", j);
  }

  lemma SameOccurrence(s: string, t: string, k: nat)
    requires k + 4 <= |s| && k + 4 <= |t| && s[..k + 4] == t[..k + 4]
    requires OccursAt(s[2..], "*/", k)
    ensures OccursAt(t[2..], "*/", k)
  {
    assert s[2..][k..k + 2] == s[..k + 4][k + 2..k + 4];
    assert t[2..][k..k + 2] == t[..k + 4][k + 2..k + 4];
  }

  predicate SameStart(s: string, t: string, k: nat)
  {
    && (|s| < k || |t| < k ==> |s| == |t|)
    && forall i :: 0 <= i < k && i < |s| && i < |t| ==> Fold(s[i]) == Fold(t[i])
  }

  /** Rewriting changes nothing in the first four characters but their case. */
  lemma {:induction false} SameStartRebased(lib: CssLib, s: string)
    ensures SameStart(s, Rebased(lib, s), 4)
  {
    if s != [] {
      var token := NextToken(s);
      var tail := s[|token.text|..];
      if Rewritten(lib, token) == token.text {
        SameStartRebased(lib, tail);
        assert s == token.text + tail;
      } else {
        UrlTextStart(s, Resolved(lib, UrlValue(token.text)).value, Rebased(lib, tail));
      }
    }
  }

  lemma UrlTextStart(s: string, url: string, rest: string)
    requires OpensUrl(s)
    ensures SameStart(s, UrlText(url) + rest, 4)
  {
    var t := UrlText(url) + rest;
    assert t == "url(" + ("\"" + Escape(url) + "\")" + rest);
    assert t[0] == 'u' && t[1] == 'r' && t[2] == 'l' && t[3] == '(';
  }

  lemma {:induction false} UrlEndThroughEscaped(s: string, i: nat, url: string)
    requires i + |Escape(url)| <= |s| && s[i..i + |Escape(url)|] == Escape(url)
    ensures UrlEnd(s, i, Some('"'), false) == UrlEnd(s, i + |Escape(url)|, Some('"'), false)
    decreases |url|
  {
    if url != [] {
      var e := Escape(url);
      var step := |e| - |Escape(url[1..])|;
      assert e[0] == s[i] && (step == 2 ==> e[1] == s[i + 1]);
      assert s[i + step..i + |e|] == e[step..] == Escape(url[1..]);
      assert UrlEnd(s, i, Some('"'), false) == UrlEnd(s, i + step, Some('"'), false);
      UrlEndThroughEscaped(s, i + step, url[1..]);
    }
  }

  lemma UrlTextEnds(s: string, url: string)
    requires 7 + |Escape(url)| <= |s| && s[5..5 + |Escape(url)|] == Escape(url)
    requires s[4] == '"' && s[5 + |Escape(url)|] == '"' && s[6 + |Escape(url)|] == ')'
    ensures UrlEnd(s, 4, None, false) == Some(7 + |Escape(url)|)
  {
    var n := |Escape(url)|;
    assert UrlEnd(s, 4, None, false) == UrlEnd(s, 5, Some('"'), false);
    UrlEndThroughEscaped(s, 5, url);
    assert UrlEnd(s, 5 + n, Some('"'), false) == UrlEnd(s, 6 + n, None, false);
  }

  lemma UrlTextLayout(url: string, rest: string)
    ensures var s, n := UrlText(url) + rest, |Escape(url)|;
      && |s| >= 7 + n && s[..7 + n] == UrlText(url)
      && s[0] == 'u' && s[1] == 'r' && s[2] == 'l' && s[3] == '(' && s[4] == '"'
      && s[5..5 + n] == Escape(url) && s[5 + n] == '"' && s[6 + n] == ')'
  {
    var s := UrlText(url) + rest;
    assert s == "url(\"" + Escape(url) + "\")" + rest;
  }

  /** A rewritten url call is read back as one token, whatever follows and whatever it holds. */
  lemma UrlTextIsToken(url: string, rest: string)
    ensures NextToken(UrlText(url) + rest) == UrlCall(UrlText(url))
  {
    UrlTextLayout(url, rest);
    UrlTextEnds(UrlText(url) + rest, url);
  }

  /** The first token of the output is the rewritten first token. */
  lemma FirstTokenStable(lib: CssLib, s: string)
    requires s != []
    ensures Rebased(lib, s) != [] && NextToken(Rebased(lib, s)) == Retoken(lib, NextToken(s))
  {
    var token := NextToken(s);
    var n := |token.text|;
    var tail := s[n..];
    var rest := Rebased(lib, tail);
    var t := Rebased(lib, s);
    assert t == Rewritten(lib, token) + rest;
    if Rewritten(lib, token) != token.text {
      UrlTextIsToken(Resolved(lib, UrlValue(token.text)).value, rest);
    } else {
      CopiedTokenStable(lib, s);
    }
  }

  lemma CopiedTokenStable(lib: CssLib, s: string)
    requires s != [] && Rewritten(lib, NextToken(s)) == NextToken(s).text
    ensures NextToken(Rebased(lib, s)) == NextToken(s)
  {
    var token := NextToken(s);
    var t := Rebased(lib, s);
    assert t == token.text + Rebased(lib, s[|token.text|..]);
    if |token.text| == |s| {
      assert t == s;
    } else if "/*" <= s || IsQuote(s[0]) || OpensUrl(s) {
      TokenIsLocal(s, t);
    } else {
      SameStartRebased(lib, s[1..]);
      PlainIsLocal(s[0], s[1..], Rebased(lib, s[1..]));
      assert s == [s[0]] + s[1..] && t == [s[0]] + Rebased(lib, s[1..]);
    }
  }

  /** A closed comment, string or url call ends in the same place whatever follows it. */
  lemma TokenIsLocal(s: string, t: string)
    requires s != [] && ("/*" <= s || IsQuote(s[0]) || OpensUrl(s))
    requires |NextToken(s).text| < |s| && NextToken(s).text <= t
    ensures NextToken(t) == NextToken(s)
  {
    var n := |NextToken(s).text|;
    assert t[..n] == s[..n] && t[0] == s[0];
    if "/*" <= s {
      CommentLocal(s, t);
    } else if IsQuote(s[0]) {
      QuotedIsLocal(s, t);
    } else {
      UrlCallIsLocal(s, t);
    }
  }

  lemma QuotedIsLocal(s: string, t: string)
    requires s != [] && IsQuote(s[0])
    requires |NextToken(s).text| < |s| && NextToken(s).text <= t
    ensures NextToken(t) == NextToken(s)
  {
    var n := |NextToken(s).text|;
    assert t[..n] == s[..n] && t[0] == s[0];
    StringEndLocal(s, t, 1, s[0], false);
  }

  lemma UrlCallIsLocal(s: string, t: string)
    requires OpensUrl(s)
    requires |NextToken(s).text| < |s| && NextToken(s).text <= t
    ensures NextToken(t) == NextToken(s)
  {
    var n := |NextToken(s).text|;
    assert UrlEnd(s, 4, None, false) == Some(n);
    assert t[..n] == s[..n] && t[..4] == s[..n][..4] == s[..4];
    assert t[0] == s[..4][0] && t[1] == s[..4][1] && t[2] == s[..4][2] && t[3] == s[..4][3];
    UrlEndLocal(s, t, 4, None, false);
  }

  lemma PlainIsLocal(c: char, s: string, t: string)
    requires !("/*" <= [c] + s) && !IsQuote(c) && !OpensUrl([c] + s)
    requires SameStart(s, t, 4)
    ensures NextToken([c] + t) == NextToken([c] + s)
  {
    assert ([c] + s)[..1] == [c] && ([c] + t)[..1] == [c];
  }

  /** Reading the output again finds the same token boundaries: its tokens are the rewritten
      tokens of the input, one for one. */
  lemma {:induction false} SameBoundaries(lib: CssLib, s: string)
    ensures Tokens(Rebased(lib, s)) == RetokenAll(lib, Tokens(s))
  {
    if s != [] {
      var token := NextToken(s);
      var tail := s[|token.text|..];
      var t := Rebased(lib, s);
      FirstTokenStable(lib, s);
      SameBoundaries(lib, tail);
      assert t[|Rewritten(lib, token)|..] == Rebased(lib, tail);
    }
  }

  /** Every result of the resolver, escaped as the rewriter writes it, counts as absolute. */
  ghost predicate ResolvesToAbsolute(lib: CssLib)
  {
    forall v :: lib.join(v).Some? ==> lib.isAbsolute(Escape(lib.join(v).value))
  }

  lemma {:induction false} EscapePlain(url: string)
    requires '"' !in url && '\\' !in url
    ensures Escape(url) == url
  {
    if url != [] {
      EscapePlain(url[1..]);
    }
  }

  /** Results without quotes or backslashes that parse as absolute URLs are such. */
  lemma PlainResultsSuffice(lib: CssLib)
    requires forall v :: lib.join(v).Some? ==>
      lib.isAbsolute(lib.join(v).value) && '"' !in lib.join(v).value && '\\' !in lib.join(v).value
    ensures ResolvesToAbsolute(lib)
  {
    forall v | lib.join(v).Some? ensures lib.isAbsolute(Escape(lib.join(v).value)) {
      EscapePlain(lib.join(v).value);
    }
  }

  lemma UrlTextValue(url: string)
    ensures UrlValue(UrlText(url)) == Escape(url)
  {
    var text := UrlText(url);
    var raw := "\"" + Escape(url) + "\"";
    assert text[4..|text| - 1] == raw;
    assert Trim(raw) == raw;
    assert raw[1..|raw| - 1] == Escape(url);
  }

  lemma RewriteOnce(lib: CssLib, token: Token)
    requires ResolvesToAbsolute(lib)
    ensures Rewritten(lib, Retoken(lib, token)) == Rewritten(lib, token)
  {
    if token.UrlCall? && |token.text| >= 5 {
      var resolved := Resolved(lib, UrlValue(token.text));
      if resolved.Some? {
        UrlTextValue(resolved.value);
      }
    }
  }

  lemma {:induction false} SameTexts(lib: CssLib, tokens: seq<Token>)
    requires ResolvesToAbsolute(lib)
    ensures TextOf(RetokenAll(lib, RetokenAll(lib, tokens))) == TextOf(RetokenAll(lib, tokens))
  {
    if tokens != [] {
      RewriteOnce(lib, tokens[0]);
      SameTexts(lib, tokens[1..]);
      assert RetokenAll(lib, tokens)[1..] == RetokenAll(lib, tokens[1..]);
    }
  }

  /** Rewriting is idempotent. */
  lemma RebaseTwice(lib: CssLib, s: string)
    requires ResolvesToAbsolute(lib)
    ensures Rebased(lib, Rebased(lib, s)) == Rebased(lib, s)
  {
    OutputByTokens(lib, s);
    OutputByTokens(lib, Rebased(lib, s));
    SameBoundaries(lib, s);
    SameTexts(lib, Tokens(s));
  }
}
