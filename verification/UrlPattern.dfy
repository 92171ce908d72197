/** The greedy URL pattern matcher against declarative wildcard matching. */
module UrlPatterns {
  import opened Wrappers
  import opened Text

  /** `*` stands for any text, every other character for itself. */
  predicate Wild(pattern: string, url: string)
    decreases |pattern|, |url|
  {
    if pattern == [] then url == []
    else if pattern[0] == '*' then Wild(pattern[1..], url) || (url != [] && Wild(pattern, url[1..]))
    else url != [] && url[0] == pattern[0] && Wild(pattern[1..], url[1..])
  }

  /** The exact meaning of the matcher: with a final star, wildcard matching; without one,
      also that no shorter beginning of the URL matches. */
  ghost predicate Shortest(pattern: string, url: string)
  {
    && Wild(pattern, url)
    && (EndsWith(pattern, "*") || forall e :: 0 <= e < |url| ==> !Wild(pattern, url[..e]))
  }

  // ---------- the matcher ----------

  /** Where finding each part leftmost behind the one before ends. */
  function Leftmost(parts: seq<string>, text: string, from: nat): (r: Option<nat>)
    requires from <= |text|
    ensures r.Some? ==> from <= r.value <= |text|
  {
    if parts == [] then Some(from)
    else
      match FindFrom(text, parts[0], from)
      case None => None
      case Some(i) => Leftmost(parts[1..], text, i + |parts[0]|)
  }

  /** The same with the first part, which is empty before a leading star, held at the front. */
  function Consumed(parts: seq<string>, url: string): Option<nat>
    requires parts != []
  {
    if OccursAt(url, parts[0], 0) then Leftmost(parts[1..], url, |parts[0]|) else None
  }

  predicate Accepts(pattern: string, url: string)
  {
    var end := Consumed(Split(pattern, '*'), url);
    end.Some? && (EndsWith(pattern, "*") || end.value == |url|)
  }

  /** `url_matches_cdp_pattern`. */
  method Matches(pattern: string, url: string) returns (r: bool)
    ensures r == Accepts(pattern, url)
  {
    if pattern == "*" {
      AcceptsMeansShortest(pattern, url);
      StarMatchesAll(url);
      return true;
    }
    var remainder := FindParts(Split(pattern, '*'), "*" <= pattern, url);
    return remainder.Some? && (EndsWith(pattern, "*") || remainder.value == "");
  }

  /** The loop of the matcher; what is left of the URL, or None where it returns false. */
  method FindParts(parts: seq<string>, leadingStar: bool, url: string) returns (r: Option<string>)
    requires parts != [] && (parts[0] == "" <==> leadingStar || parts == [""])
    ensures match Consumed(parts, url)
      case None => r == None
      case Some(end) => r == Some(url[end..])
  {
    var remainder := url;
    var first := true;
    // Where in the URL the remainder starts.
    ghost var done: nat := 0;
    for i := 0 to |parts|
      invariant Progress(parts, url, i, done, remainder)
      invariant i == 0 ==> first
      invariant i > 0 && first ==> parts[0] == ""
    {
      var part := parts[i];
      Turn(parts, url, i, done, remainder);
      if part == "" {
        continue;
      }
      var index := Find(remainder, part);
      if index.None? {
        return None;
      }
      if first && !leadingStar && index.value != 0 {
        return None;
      }
      remainder := remainder[index.value + |part|..];
      done := done + index.value + |part|;
      first := false;
    }
    assert parts[|parts|..] == [];
    return Some(remainder);
  }

  /** The first `i` parts are found and the search goes on at `done`, where `remainder` starts. */
  ghost predicate Progress(parts: seq<string>, url: string, i: nat, done: nat, remainder: string)
  {
    && i <= |parts| && parts != [] && done <= |url| && remainder == url[done..]
    && if i == 0 then done == 0 else Consumed(parts, url) == Leftmost(parts[i..], url, done)
  }

  /** One turn of the loop: an empty part is found where it stands, any other wherever it comes
      first, except that the very first must stand at the front. */
  lemma Turn(parts: seq<string>, url: string, i: nat, done: nat, remainder: string)
    requires Progress(parts, url, i, done, remainder) && i < |parts|
    ensures parts[i] == "" ==> Progress(parts, url, i + 1, done, remainder)
    ensures match Find(remainder, parts[i])
      case None => Consumed(parts, url) == None
      case Some(k) =>
        if i == 0 && k != 0 then Consumed(parts, url) == None
        else Progress(parts, url, i + 1, done + k + |parts[i]|, remainder[k + |parts[i]|..])
  {
    FindInSuffix(url, parts[i], done);
    assert parts[i..][0] == parts[i] && parts[i..][1..] == parts[i + 1..];
    if OccursAt(url, parts[i], done) {
      FindFromLeast(url, parts[i], done, done);
    }
    if parts[i] == "" {
      assert OccursAt(url, "", done);
    }
    var found := Find(remainder, parts[i]);
    if found.Some? {
      var next := found.value + |parts[i]|;
      assert url[done..][next..] == url[done + next..];
    }
  }

  lemma OccursInSuffix(text: string, part: string, from: nat, i: nat)
    requires from <= i && from <= |text|
    ensures OccursAt(text[from..], part, i - from) <==> OccursAt(text, part, i)
  {
    if i + |part| <= |text| {
      assert text[from..][i - from..i - from + |part|] == text[i..i + |part|];
    }
  }

  lemma FindInSuffix(text: string, part: string, from: nat)
    requires from <= |text|
    ensures var found := Find(text[from..], part);
      FindFrom(text, part, from) == if found.Some? then Some(from + found.value) else None
  {
    var tail := text[from..];
    var here, there := Find(tail, part), FindFrom(text, part, from);
    if here.Some? {
      HereMeansThere(text, part, from, here.value);
    }
    if there.Some? {
      ThereMeansHere(text, part, from, there.value);
    }
  }

  lemma HereMeansThere(text: string, part: string, from: nat, k: nat)
    requires from <= |text| && OccursAt(text[from..], part, k)
    ensures FindFrom(text, part, from).Some? && FindFrom(text, part, from).value <= from + k
  {
    OccursInSuffix(text, part, from, from + k);
    FindFromLeast(text, part, from, from + k);
  }

  lemma ThereMeansHere(text: string, part: string, from: nat, i: nat)
    requires from <= i && from <= |text| && OccursAt(text, part, i)
    ensures Find(text[from..], part).Some? && Find(text[from..], part).value + from <= i
  {
    OccursInSuffix(text, part, from, i);
    FindLeast(text[from..], part, i - from);
  }

  // ---------- wildcard matching by parts ----------

  /** `text[from..end]` is a star before each part, the parts in order, and nothing behind the last. */
  ghost predicate Float(parts: seq<string>, text: string, from: nat, end: nat)
  {
    if parts == [] then from == end
    else exists i: nat :: PartAt(text, parts[0], from, i, end) && Float(parts[1..], text, i + |parts[0]|, end)
  }

  predicate PartAt(text: string, part: string, from: nat, i: nat, end: nat)
  {
    from <= i && i + |part| <= end <= |text| && OccursAt(text, part, i)
  }

  ghost predicate Anchored(parts: seq<string>, text: string, from: nat, end: nat)
    requires parts != []
  {
    PartAt(text, parts[0], from, from, end) && Float(parts[1..], text, from + |parts[0]|, end)
  }

  lemma FloatIsSomeSuffix(parts: seq<string>, text: string, from: nat, end: nat)
    requires parts != [] && from <= end <= |text|
    ensures Float(parts, text, from, end) <==>
      Anchored(parts, text, from, end) || (from < end && Float(parts, text, from + 1, end))
  {
    if Float(parts, text, from, end) {
      var i: nat :| PartAt(text, parts[0], from, i, end) && Float(parts[1..], text, i + |parts[0]|, end);
      if i > from {
        assert PartAt(text, parts[0], from + 1, i, end);
      }
    }
    if from < end && Float(parts, text, from + 1, end) {
      var i: nat :| PartAt(text, parts[0], from + 1, i, end) && Float(parts[1..], text, i + |parts[0]|, end);
      assert PartAt(text, parts[0], from, i, end);
    }
  }

  lemma HeadedPart(text: string, c: char, tail: string, from: nat, end: nat)
    requires from < end <= |text|
    ensures PartAt(text, [c] + tail, from, from, end) <==>
      text[from] == c && PartAt(text, tail, from + 1, from + 1, end)
  {
    if from + 1 + |tail| <= end {
      assert text[from..from + 1 + |tail|] == [text[from]] + text[from + 1..from + 1 + |tail|];
    }
  }

  /** The pattern matches `text[from..end]` exactly when its parts do. */
  ghost predicate ByParts(pattern: string, text: string, from: nat, end: nat)
    requires from <= end <= |text|
  {
    Wild(pattern, text[from..end]) <==> Anchored(Split(pattern, '*'), text, from, end)
  }

  lemma StarByParts(pattern: string, text: string, from: nat, end: nat)
    requires from <= end <= |text| && pattern != [] && pattern[0] == '*'
    requires ByParts(pattern[1..], text, from, end)
    requires from < end ==> ByParts(pattern, text, from + 1, end)
    ensures ByParts(pattern, text, from, end)
  {
    var rest := Split(pattern[1..], '*');
    assert Split(pattern, '*') == [""] + rest && Split(pattern, '*')[1..] == rest;
    FloatIsSomeSuffix(rest, text, from, end);
    assert OccursAt(text, "", from);
    if from < end {
      assert text[from..end][1..] == text[from + 1..end];
      assert OccursAt(text, "", from + 1);
    }
  }

  lemma CharByParts(pattern: string, text: string, from: nat, end: nat)
    requires from <= end <= |text| && pattern != [] && pattern[0] != '*'
    requires from < end ==> ByParts(pattern[1..], text, from + 1, end)
    ensures ByParts(pattern, text, from, end)
  {
    var rest := Split(pattern[1..], '*');
    assert Split(pattern, '*') == [[pattern[0]] + rest[0]] + rest[1..];
    if from < end {
      assert text[from..end][1..] == text[from + 1..end] && text[from..end][0] == text[from];
      HeadedPart(text, pattern[0], rest[0], from, end);
    }
  }

  lemma {:induction false} WildByParts(pattern: string, text: string, from: nat, end: nat)
    requires from <= end <= |text|
    ensures ByParts(pattern, text, from, end)
    decreases |pattern|, end - from
  {
    if pattern != [] {
      if pattern[0] == '*' {
        WildByParts(pattern[1..], text, from, end);
        if from < end {
          WildByParts(pattern, text, from + 1, end);
        }
        StarByParts(pattern, text, from, end);
      } else {
        if from < end {
          WildByParts(pattern[1..], text, from + 1, end);
        }
        CharByParts(pattern, text, from, end);
      }
    }
  }

  /** Finding parts leftmost ends at a place where they match, and at the first such. */
  lemma {:induction false} LeftmostMatches(parts: seq<string>, text: string, from: nat)
    requires from <= |text| && Leftmost(parts, text, from).Some?
    ensures Float(parts, text, from, Leftmost(parts, text, from).value)
  {
    if parts != [] {
      var i := FindFrom(text, parts[0], from).value;
      LeftmostMatches(parts[1..], text, i + |parts[0]|);
      assert PartAt(text, parts[0], from, i, Leftmost(parts, text, from).value);
    }
  }

  /** Starting the search later cannot make it end sooner. */
  lemma {:induction false} LeftmostIsLeast(parts: seq<string>, text: string, from: nat, later: nat, end: nat)
    requires from <= later && end <= |text| && Float(parts, text, later, end)
    requires parts == [] ==> from == later
    ensures from <= |text| && Leftmost(parts, text, from).Some? && Leftmost(parts, text, from).value <= end
    decreases |parts|
  {
    if parts != [] {
      var j: nat :| PartAt(text, parts[0], later, j, end) && Float(parts[1..], text, j + |parts[0]|, end);
      FindFromLeast(text, parts[0], from, j);
      var i := FindFrom(text, parts[0], from).value;
      if parts[1..] != [] {
        LeftmostIsLeast(parts[1..], text, i + |parts[0]|, j + |parts[0]|, end);
      }
    }
  }

  lemma {:induction false} LastPartOfStar(pattern: string)
    requires EndsWith(pattern, "*")
    ensures |Split(pattern, '*')| >= 2 && Split(pattern, '*')[|Split(pattern, '*')| - 1] == ""
  {
    if |pattern| > 1 {
      assert EndsWith(pattern[1..], "*");
      LastPartOfStar(pattern[1..]);
    } else {
      assert pattern == "*";
    }
  }

  lemma {:induction false} TrailingFloats(parts: seq<string>, text: string, from: nat)
    requires from <= |text| && parts != [] && parts[|parts| - 1] == "" && Leftmost(parts, text, from).Some?
    ensures Float(parts, text, from, |text|)
  {
    if |parts| == 1 {
      assert parts[1..] == [];
      assert PartAt(text, parts[0], from, |text|, |text|);
    } else {
      var i := FindFrom(text, parts[0], from).value;
      TrailingFloats(parts[1..], text, i + |parts[0]|);
      assert PartAt(text, parts[0], from, i, |text|);
    }
  }

  /** Behind a final star the rest of the text does not matter. */
  lemma FloatTrailing(parts: seq<string>, text: string, from: nat)
    requires from <= |text| && parts != [] && parts[|parts| - 1] == ""
    ensures Float(parts, text, from, |text|) <==> Leftmost(parts, text, from).Some?
  {
    if Leftmost(parts, text, from).Some? {
      TrailingFloats(parts, text, from);
    } else if Float(parts, text, from, |text|) {
      LeftmostIsLeast(parts, text, from, from, |text|);
    }
  }

  lemma ConsumedIsLeast(pattern: string, url: string)
    ensures var end := Consumed(Split(pattern, '*'), url);
      && (end.Some? ==> end.value <= |url| && Wild(pattern, url[..end.value]))
      && forall e :: 0 <= e <= |url| && Wild(pattern, url[..e]) ==> end.Some? && end.value <= e
  {
    var parts := Split(pattern, '*');
    var end := Consumed(parts, url);
    if end.Some? {
      LeftmostMatches(parts[1..], url, |parts[0]|);
      WildByParts(pattern, url, 0, end.value);
      assert url[0..end.value] == url[..end.value];
    }
    forall e | 0 <= e <= |url| && Wild(pattern, url[..e]) ensures end.Some? && end.value <= e {
      assert url[0..e] == url[..e];
      WildByParts(pattern, url, 0, e);
      LeftmostIsLeast(parts[1..], url, |parts[0]|, |parts[0]|, e);
    }
  }

  /** The matcher accepts exactly the shortest wildcard matches. */
  lemma AcceptsMeansShortest(pattern: string, url: string)
    ensures Accepts(pattern, url) <==> Shortest(pattern, url)
  {
    var parts := Split(pattern, '*');
    if EndsWith(pattern, "*") {
      LastPartOfStar(pattern);
      assert url[0..|url|] == url;
      WildByParts(pattern, url, 0, |url|);
      if OccursAt(url, parts[0], 0) {
        FloatTrailing(parts[1..], url, |parts[0]|);
      }
    } else {
      ConsumedIsLeast(pattern, url);
      assert url[..|url|] == url;
    }
  }

  // ---------- where greediness loses ----------

  function Literal(pattern: string): string
  {
    if pattern == [] then []
    else if pattern[0] == '*' then Literal(pattern[1..])
    else [pattern[0]] + Literal(pattern[1..])
  }

  lemma {:induction false} WildLiteral(pattern: string)
    ensures Wild(pattern, Literal(pattern))
  {
    if pattern != [] {
      WildLiteral(pattern[1..]);
    }
  }

  lemma {:induction false} WildConcat(p: string, q: string, u: string, v: string)
    requires Wild(p, u) && Wild(q, v)
    ensures Wild(p + q, u + v)
    decreases |p|, |u|
  {
    if p == [] {
      assert p + q == q && u + v == v;
    } else {
      assert (p + q)[1..] == p[1..] + q;
      if p[0] == '*' && Wild(p[1..], u) {
        WildConcat(p[1..], q, u, v);
      } else {
        assert (u + v)[1..] == u[1..] + v;
        if p[0] == '*' {
          WildConcat(p, q, u[1..], v);
        } else {
          WildConcat(p[1..], q, u[1..], v);
        }
      }
    }
  }

  lemma {:induction false} StarMatchesAll(text: string)
    ensures Wild("*", text)
  {
    if text != [] {
      StarMatchesAll(text[1..]);
    }
  }

  lemma {:induction false} LiteralWithoutStar(pattern: string, url: string)
    requires '*' !in pattern
    ensures Wild(pattern, url) <==> url == pattern
  {
    if pattern != [] && url != [] {
      LiteralWithoutStar(pattern[1..], url[1..]);
      assert pattern == [pattern[0]] + pattern[1..] && url == [url[0]] + url[1..];
    }
  }

  lemma {:induction false} LastStar(pattern: string) returns (head: string, tail: string)
    requires '*' in pattern
    ensures pattern == head + "*" + tail && '*' !in tail
  {
    if '*' in pattern[1..] {
      head, tail := LastStar(pattern[1..]);
      head := [pattern[0]] + head;
    } else {
      head, tail := "", pattern[1..];
    }
  }

  /** Text the pattern matches as a wildcard but the matcher turns down, for every pattern
      with a star that does not end in one: its last part simply occurs twice. */
  lemma MissedMatch(pattern: string) returns (url: string)
    requires '*' in pattern && !EndsWith(pattern, "*")
    ensures Wild(pattern, url) && !Accepts(pattern, url)
  {
    var head, tail := LastStar(pattern);
    assert (head + "*" + "")[|head|..] == "*";
    var start := Literal(head);
    WildLiteral(head);
    LiteralWithoutStar(tail, tail);
    StarMatchesAll("");
    StarMatchesAll(tail);
    WildConcat(head, "*", start, "");
    WildConcat(head, "*", start, tail);
    WildConcat(head + "*", tail, start + "", tail);
    WildConcat(head + "*", tail, start + tail, tail);
    url := start + tail + tail;
    assert url[..|start + tail|] == start + "" + tail;
    AcceptsMeansShortest(pattern, url);
  }

  /** The matcher agrees with wildcard matching on every URL exactly for the patterns that
      have no star or end in one; its acceptances are sound for all patterns. */
  lemma CompleteExactly(pattern: string)
    ensures forall url :: Accepts(pattern, url) ==> Wild(pattern, url)
    ensures (forall url :: Wild(pattern, url) ==> Accepts(pattern, url)) <==> '*' !in pattern || EndsWith(pattern, "*")
  {
    forall url ensures Accepts(pattern, url) <==> Shortest(pattern, url) {
      AcceptsMeansShortest(pattern, url);
    }
    if '*' in pattern {
      if !EndsWith(pattern, "*") {
        var url := MissedMatch(pattern);
      }
    } else {
      forall url | Wild(pattern, url) ensures Accepts(pattern, url) {
        LiteralWithoutStar(pattern, url);
        forall e | 0 <= e < |url| ensures !Wild(pattern, url[..e]) {
          LiteralWithoutStar(pattern, url[..e]);
        }
      }
    }
  }

  /** The shortest witness: `*a` matches `aba` as a wildcard, but not here. */
  lemma StarAMissesAba()
    ensures Wild("*a", "aba") && !Accepts("*a", "aba")
  {
    assert Wild("a", "a") && Wild("*a", "a") && Wild("*a", "ba");
    assert "aba"[1..] == "ba" && "ba"[1..] == "a" && "aba"[..1] == "a";
    AcceptsMeansShortest("*a", "aba");
  }
}
