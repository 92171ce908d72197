/** What the tokens of a stylesheet are and which `url(...)` values are rewritten, said of the texts
    alone. */
module CssUrlLaws {
  import opened Wrappers
  import opened Text
  import opened CssUrls

  // ---------- tokens ----------

  predicate Quote(c: char)
  {
    c == '"' || c == '\''
  }

  predicate UrlOpening(s: string)
  {
    && |s| >= 4 && (s[0] == 'u' || s[0] == 'U') && (s[1] == 'r' || s[1] == 'R') && (s[2] == 'l' || s[2] == 'L')
    && s[3] == '('
  }

  /** From `i` to `end` there is no closing quote `q`: a backslash takes the next character with it. */
  predicate InString(s: string, i: nat, end: nat, q: char)
    requires i <= end <= |s|
    decreases end - i
  {
    || i == end
    || (s[i] == '\\' && i + 2 <= end && InString(s, i + 2, end, q))
    || (s[i] != '\\' && s[i] != q && InString(s, i + 1, end, q))
  }

  /** From `i` to `end` there is no closing parenthesis but in strings and behind backslashes. */
  ghost predicate InUrl(s: string, i: nat, end: nat)
    requires i <= end <= |s|
    decreases end - i
  {
    || i == end
    || (s[i] == '\\' && i + 2 <= end && InUrl(s, i + 2, end))
    || (s[i] != '\\' && s[i] != ')' && !Quote(s[i]) && InUrl(s, i + 1, end))
    || (Quote(s[i]) && exists k :: i < k < end && InString(s, i + 1, k, s[i]) && s[k] == s[i] && InUrl(s, k + 1, end))
  }

  /** A comment up to the first `*` and `/` behind its opening. */
  ghost predicate CommentTo(s: string, n: nat)
  {
    && 4 <= n <= |s| && s[n - 2] == '*' && s[n - 1] == '/'
    && forall i :: 2 <= i < n - 2 ==> !(s[i] == '*' && s[i + 1] == '/')
  }

  predicate StringTo(s: string, n: nat)
  {
    2 <= n <= |s| && s[n - 1] == s[0] && InString(s, 1, n - 1, s[0])
  }

  ghost predicate UrlTo(s: string, n: nat)
  {
    5 <= n <= |s| && s[n - 1] == ')' && InUrl(s, 4, n - 1)
  }

  predicate CommentOpens(s: string)
  {
    |s| >= 2 && s[0] == '/' && s[1] == '*'
  }

  /** The first token: a comment, a string or a url call up to where it closes, each to the end when it
      does not; or one character. Only a closed url call may be rewritten. */
  ghost predicate FirstToken(s: string, t: Token)
    requires s != ""
  {
    if CommentOpens(s) then
      if exists n: nat :: CommentTo(s, n)
      then exists n: nat :: CommentTo(s, n) && t == Copied(s[..n])
      else t == Copied(s)
    else if Quote(s[0]) then
      if exists n: nat :: StringTo(s, n) then exists n: nat :: StringTo(s, n) && t == Copied(s[..n]) else t == Copied(s)
    else if UrlOpening(s) then
      if exists n: nat :: UrlTo(s, n) then exists n: nat :: UrlTo(s, n) && t == UrlCall(s[..n]) else t == Copied(s)
    else t == Copied(s[..1])
  }

  lemma FoldLetter(c: char)
    ensures Fold(c) == 'u' <==> c == 'u' || c == 'U'
    ensures Fold(c) == 'r' <==> c == 'r' || c == 'R'
    ensures Fold(c) == 'l' <==> c == 'l' || c == 'L'
  {
  }

  lemma OpeningIsOpening(s: string)
    ensures OpensUrl(s) <==> UrlOpening(s)
  {
    if |s| >= 4 {
      FoldLetter(s[0]);
      FoldLetter(s[1]);
      FoldLetter(s[2]);
    }
  }

  lemma {:induction false} StringEndsThere(s: string, i: nat, end: nat, q: char)
    requires q != '\\' && i <= end < |s| && InString(s, i, end, q) && s[end] == q
    ensures StringEnd(s, i, q, false) == Some(end + 1)
    decreases end - i
  {
    if i < end {
      if s[i] == '\\' {
        assert StringEnd(s, i, q, false) == StringEnd(s, i + 2, q, false);
        StringEndsThere(s, i + 2, end, q);
      } else {
        StringEndsThere(s, i + 1, end, q);
      }
    }
  }

  lemma {:induction false} StringEndIsThere(s: string, i: nat, q: char)
    requires q != '\\' && i <= |s| && StringEnd(s, i, q, false).Some?
    ensures var end := StringEnd(s, i, q, false).value - 1; i <= end && InString(s, i, end, q) && s[end] == q
    decreases |s| - i
  {
    if s[i] == '\\' {
      StringEndIsThere(s, i + 2, q);
    } else if s[i] != q {
      StringEndIsThere(s, i + 1, q);
    }
  }

  lemma {:induction false} StringInUrl(s: string, i: nat, k: nat, q: char)
    requires Quote(q) && i <= k < |s| && InString(s, i, k, q) && s[k] == q
    ensures UrlEnd(s, i, Some(q), false) == UrlEnd(s, k + 1, None, false)
    decreases k - i
  {
    if i < k {
      if s[i] == '\\' {
        assert UrlEnd(s, i, Some(q), false) == UrlEnd(s, i + 2, Some(q), false);
        StringInUrl(s, i + 2, k, q);
      } else {
        StringInUrl(s, i + 1, k, q);
      }
    }
  }

  lemma {:induction false} UrlEndsThere(s: string, i: nat, end: nat)
    requires i <= end < |s| && InUrl(s, i, end) && s[end] == ')'
    ensures UrlEnd(s, i, None, false) == Some(end + 1)
    decreases end - i
  {
    if i < end {
      if s[i] == '\\' {
        assert UrlEnd(s, i, None, false) == UrlEnd(s, i + 2, None, false);
        UrlEndsThere(s, i + 2, end);
      } else if Quote(s[i]) {
        var k :| i < k < end && InString(s, i + 1, k, s[i]) && s[k] == s[i] && InUrl(s, k + 1, end);
        assert UrlEnd(s, i, None, false) == UrlEnd(s, i + 1, Some(s[i]), false);
        StringInUrl(s, i + 1, k, s[i]);
        UrlEndsThere(s, k + 1, end);
      } else {
        UrlEndsThere(s, i + 1, end);
      }
    }
  }

  lemma {:induction false} StringLeft(s: string, i: nat, q: char) returns (k: nat)
    requires Quote(q) && i <= |s| && UrlEnd(s, i, Some(q), false).Some?
    ensures i <= k < |s| && InString(s, i, k, q) && s[k] == q
    ensures UrlEnd(s, i, Some(q), false) == UrlEnd(s, k + 1, None, false)
    decreases |s| - i
  {
    if s[i] == '\\' {
      assert UrlEnd(s, i, Some(q), false) == UrlEnd(s, i + 2, Some(q), false);
      k := StringLeft(s, i + 2, q);
    } else if s[i] == q {
      k := i;
    } else {
      k := StringLeft(s, i + 1, q);
    }
  }

  lemma {:induction false} UrlEndIsThere(s: string, i: nat)
    requires i <= |s| && UrlEnd(s, i, None, false).Some?
    ensures var end := UrlEnd(s, i, None, false).value - 1; i <= end && InUrl(s, i, end) && s[end] == ')'
    decreases |s| - i
  {
    if s[i] == '\\' {
      assert UrlEnd(s, i, None, false) == UrlEnd(s, i + 2, None, false);
      UrlEndIsThere(s, i + 2);
    } else if Quote(s[i]) {
      assert UrlEnd(s, i, None, false) == UrlEnd(s, i + 1, Some(s[i]), false);
      var k := StringLeft(s, i + 1, s[i]);
      UrlEndIsThere(s, k + 1);
    } else if s[i] != ')' {
      UrlEndIsThere(s, i + 1);
    }
  }

  lemma StarSlash(s: string, i: nat)
    requires |s| >= 2 && i <= |s| - 2
    ensures OccursAt(s[2..], "*/", i) <==> i + 4 <= |s| && s[i + 2] == '*' && s[i + 3] == '/'
  {
    if i + 4 <= |s| {
      assert s[2..][i..i + 2] == [s[i + 2], s[i + 3]];
    }
  }

  lemma CommentEnds(s: string, n: nat)
    requires |s| >= 2
    ensures CommentTo(s, n) <==> Find(s[2..], "*/").Some? && Find(s[2..], "*/").value + 4 == n
  {
    var rest, found := s[2..], Find(s[2..], "*/");
    if CommentTo(s, n) {
      StarSlash(s, n - 4);
      FindLeast(rest, "*/", n - 4);
      StarSlash(s, found.value);
    }
    if found.Some? {
      var m := found.value + 4;
      StarSlash(s, found.value);
      forall i | 2 <= i < m - 2 && s[i] == '*' && s[i + 1] == '/' ensures false {
        StarSlash(s, i - 2);
        FindLeast(rest, "*/", i - 2);
      }
    }
  }

  lemma StringEnds(s: string, n: nat)
    requires s != "" && Quote(s[0])
    ensures StringTo(s, n) <==> StringEnd(s, 1, s[0], false) == Some(n)
  {
    if StringTo(s, n) {
      StringEndsThere(s, 1, n - 1, s[0]);
    }
    if StringEnd(s, 1, s[0], false).Some? {
      StringEndIsThere(s, 1, s[0]);
    }
  }

  lemma UrlEnds(s: string, n: nat)
    requires |s| >= 4
    ensures UrlTo(s, n) <==> UrlEnd(s, 4, None, false) == Some(n)
  {
    if UrlTo(s, n) {
      UrlEndsThere(s, 4, n - 1);
    }
    if UrlEnd(s, 4, None, false).Some? {
      UrlEndIsThere(s, 4);
    }
  }

  /** The tokenizer takes the first token, and no other is one. */
  lemma FirstTokenExactly(s: string, t: Token)
    requires s != ""
    ensures t == NextToken(s) <==> FirstToken(s, t)
  {
    OpeningIsOpening(s);
    assert "/*" <= s <==> CommentOpens(s);
    if CommentOpens(s) {
      forall n: nat ensures CommentTo(s, n) <==> Find(s[2..], "*/").Some? && Find(s[2..], "*/").value + 4 == n {
        CommentEnds(s, n);
      }
      var end := Find(s[2..], "*/");
      assert end.Some? ==> CommentTo(s, end.value + 4);
    } else if Quote(s[0]) {
      forall n: nat ensures StringTo(s, n) <==> StringEnd(s, 1, s[0], false) == Some(n) {
        StringEnds(s, n);
      }
      var end := StringEnd(s, 1, s[0], false);
      assert end.Some? ==> StringTo(s, end.value);
    } else if UrlOpening(s) {
      forall n: nat ensures UrlTo(s, n) <==> UrlEnd(s, 4, None, false) == Some(n) {
        UrlEnds(s, n);
      }
      var end := UrlEnd(s, 4, None, false);
      assert end.Some? ==> UrlTo(s, end.value);
    }
  }

  // ---------- values ----------

  /** Between the parentheses stands `body` with blanks around it, and none at its ends. */
  predicate Between(text: string, w: string, body: string, w': string)
  {
    && |text| >= 5 && text[4..|text| - 1] == w + body + w' && Blank(w) && Blank(w')
    && Tight(body)
  }

  /** `body` is the value `v`, or `v` between two quotes of one kind. */
  predicate Means(body: string, v: string)
  {
    if |body| >= 2 && Quote(body[0]) && body[|body| - 1] == body[0] then body == [body[0]] + v + [body[0]]
    else body == v
  }

  lemma HasBlanks(text: string) returns (w: string, body: string, w': string)
    requires |text| >= 5
    ensures Between(text, w, body, w')
  {
    w, w' := BlankEnds(text[4..|text| - 1]);
    body := Trim(text[4..|text| - 1]);
  }

  lemma ValueIs(text: string, w: string, body: string, w': string, v: string)
    requires Between(text, w, body, w')
    ensures UrlValue(text) == v <==> Means(body, v)
  {
    TrimBlanks(w, body, w');
    if |body| >= 2 && Quote(body[0]) && body[|body| - 1] == body[0] {
      assert body == [body[0]] + body[1..|body| - 1] + [body[0]];
      if Means(body, v) {
        assert body[1..|body| - 1] == v;
      }
    }
  }

  // ---------- what is rewritten ----------

  predicate VariableAt(v: string, i: nat)
  {
    i + 4 <= |v| && v[i] == 'v' && v[i + 1] == 'a' && v[i + 2] == 'r' && v[i + 3] == '('
  }

  /** The value stays as it is: nothing, a reference within the page, one with a variable, or an
      absolute URL. */
  ghost predicate Stays(lib: CssLib, v: string)
  {
    v == "" || v[0] == '#' || lib.isAbsolute(v)
    || exists i: nat :: VariableAt(v, i)
  }

  /** The text of a url call in the output: its own when its value stays or does not join, else the
      joined URL in double quotes, escaped. */
  ghost predicate UrlBecomes(lib: CssLib, text: string, v: string, out: string)
  {
    if Stays(lib, v) || lib.join(v).None? then out == text
    else out == "url(\"" + Escape(lib.join(v).value) + "\")"
  }

  lemma StaysExactly(lib: CssLib, v: string)
    ensures Resolved(lib, v) == if Stays(lib, v) then None else lib.join(v)
  {
    assert "#" <= v <==> v != "" && v[0] == '#';
    forall i: nat ensures VariableAt(v, i) <==> OccursAt(v, "var(", i) {
      assert i + 4 <= |v| ==> v[i..i + 4] == [v[i], v[i + 1], v[i + 2], v[i + 3]];
    }
    if i: nat :| VariableAt(v, i) {
      FindLeast(v, "var(", i);
    }
  }

  lemma CallBecomes(lib: CssLib, text: string, w: string, body: string, w': string, v: string)
    requires Between(text, w, body, w') && Means(body, v)
    ensures UrlBecomes(lib, text, v, Rewritten(lib, UrlCall(text)))
  {
    ValueIs(text, w, body, w', v);
    StaysExactly(lib, v);
  }

  /** Reading a CSS string: a backslash stands for the character behind it. */
  function Unslashed(s: string): string
  {
    if s == "" then ""
    else if s[0] == '\\' && |s| > 1 then [s[1]] + Unslashed(s[2..])
    else [s[0]] + Unslashed(s[1..])
  }

  lemma {:induction false} EscapeReads(url: string)
    ensures Unslashed(Escape(url)) == url
  {
    if url != "" {
      var e, tail := Escape(url), Escape(url[1..]);
      EscapeReads(url[1..]);
      if url[0] == '\\' || url[0] == '"' {
        assert e[1] == url[0] && e[2..] == tail;
      } else {
        assert e[1..] == tail;
      }
    }
  }

  /** The output has the tokens of the input, in their places: copied ones as they were, and url
      calls as their values say. */
  lemma OutputTokens(lib: CssLib, s: string, i: nat)
    requires i < |Tokens(s)|
    ensures |Tokens(Rebased(lib, s))| == |Tokens(s)|
    ensures var t, out := Tokens(s)[i], Tokens(Rebased(lib, s))[i];
      match t
      case Copied(_) => out == t
      case UrlCall(text) =>
        && out.UrlCall?
        && forall w, body, w', v :: Between(text, w, body, w') && Means(body, v) ==> UrlBecomes(lib, text, v, out.text)
  {
    SameBoundaries(lib, s);
    var t := Tokens(s)[i];
    if t.UrlCall? {
      forall w, body, w', v | Between(t.text, w, body, w') && Means(body, v)
        ensures UrlBecomes(lib, t.text, v, Rewritten(lib, t))
      {
        CallBecomes(lib, t.text, w, body, w', v);
      }
    }
  }

  /** And every url call among them has a value to go by. */
  lemma {:induction false} CallHasValue(s: string, i: nat) returns (w: string, body: string, w': string, v: string)
    requires i < |Tokens(s)| && Tokens(s)[i].UrlCall?
    ensures Between(Tokens(s)[i].text, w, body, w') && Means(body, v)
    decreases |s|
  {
    var t := NextToken(s);
    if i > 0 {
      w, body, w', v := CallHasValue(s[|t.text|..], i - 1);
    } else {
      w, body, w' := HasBlanks(t.text);
      v := UrlValue(t.text);
      ValueIs(t.text, w, body, w', v);
    }
  }
}
