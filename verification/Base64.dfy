/** The hand-written base64 decoder against the encoder of section 4 of RFC 4648, and the
    length accounting that rests on it. */
module Base64 {
  import opened Wrappers
  import opened Machine

  type Byte = bv8

  const PAD: Byte := 61
  const MAX_OUTPUT_BYTES: nat := 8 * 1024 * 1024

  /** The value of an alphabet character; every other byte is skipped by the decoder. */
  function SextetOf(c: Byte): Option<Byte>
  {
    if 65 <= c <= 90 then Some(c - 65)
    else if 97 <= c <= 122 then Some(c - 97 + 26)
    else if 48 <= c <= 57 then Some(c - 48 + 52)
    else if c == 43 then Some(62)
    else if c == 47 then Some(63)
    else None
  }

  /** The alphabet character of a sextet. */
  function SymbolOf(v: Byte): (c: Byte)
    requires v < 64
    ensures SextetOf(c) == Some(v) && c != PAD
  {
    if v < 26 then v + 65
    else if v < 52 then v - 26 + 97
    else if v < 62 then v - 52 + 48
    else if v == 62 then 43
    else 47
  }

  /** The place of a character in table 1 of section 4 of RFC 4648: the capital letters, the small
      ones, the digits, plus and slash. */
  function PlaceOf(c: char): Option<int>
  {
    if 'A' <= c <= 'Z' then Some(c as int - 'A' as int)
    else if 'a' <= c <= 'z' then Some(26 + (c as int - 'a' as int))
    else if '0' <= c <= '9' then Some(52 + (c as int - '0' as int))
    else if c == '+' then Some(62)
    else if c == '/' then Some(63)
    else None
  }

  /** The values are the places in the alphabet, and whatever is not in it has none. */
  lemma SextetIsPlace(c: Byte)
    ensures match PlaceOf(c as int as char)
      case None => SextetOf(c).None?
      case Some(v) => SextetOf(c).Some? && SextetOf(c).value as int == v
  {
    var n := c as int;
    assert 65 <= c <= 90 ==> (c - 65) as int == n - 65;
    assert 97 <= c <= 122 ==> (c - 97 + 26) as int == n - 71;
    assert 48 <= c <= 57 ==> (c - 48 + 52) as int == n + 4;
  }

  // The four sextets of three bytes.
  function First(x: Byte): (v: Byte) ensures v < 64 { x >> 2 }
  function Second(x: Byte, y: Byte): (v: Byte) ensures v < 64 { ((x & 3) << 4) | (y >> 4) }
  function Third(y: Byte, z: Byte): (v: Byte) ensures v < 64 { ((y & 15) << 2) | (z >> 6) }
  function Fourth(z: Byte): (v: Byte) ensures v < 64 { z & 63 }

  // The three bytes of four sextets, in 8-bit arithmetic.
  function Leading(a: Byte, b: Byte): Byte { (a << 2) | (b >> 4) }
  function Middle(b: Byte, c: Byte): Byte { (b << 4) | (c >> 2) }
  function Trailing(c: Byte, d: Byte): Byte { (c << 6) | d }

  /** The four characters of three bytes. */
  function Quad(x: Byte, y: Byte, z: Byte): (quad: seq<Byte>)
    ensures |quad| == 4
  {
    [SymbolOf(First(x)), SymbolOf(Second(x, y)), SymbolOf(Third(y, z)), SymbolOf(Fourth(z))]
  }

  function Encode(bytes: seq<Byte>): (text: seq<Byte>)
    ensures |text| == (|bytes| + 2) / 3 * 4
  {
    if |bytes| == 0 then []
    else if |bytes| == 1 then
      [SymbolOf(First(bytes[0])), SymbolOf(Second(bytes[0], 0)), PAD, PAD]
    else if |bytes| == 2 then
      [SymbolOf(First(bytes[0])), SymbolOf(Second(bytes[0], bytes[1])), SymbolOf(Third(bytes[1], 0)), PAD]
    else
      Quad(bytes[0], bytes[1], bytes[2]) + Encode(bytes[3..])
  }

  function Sextets(text: seq<Byte>): (values: seq<Byte>)
    ensures |values| <= |text|
    ensures forall i :: 0 <= i < |values| ==> values[i] < 64
  {
    if text == [] then []
    else if SextetOf(text[0]).Some? then [SextetOf(text[0]).value] + Sextets(text[1..])
    else Sextets(text[1..])
  }

  /** The bytes of one chunk of up to four sextets; a missing sextet reads as zero. */
  function Unpack(chunk: seq<Byte>): seq<Byte>
    requires 1 <= |chunk| <= 4
  {
    var b1 := if |chunk| > 1 then chunk[1] else 0;
    var b2 := if |chunk| > 2 then chunk[2] else 0;
    [Leading(chunk[0], b1)]
    + (if |chunk| > 2 then [Middle(b1, b2)] else [])
    + (if |chunk| > 3 then [Trailing(b2, chunk[3])] else [])
  }

  function UnpackAll(values: seq<Byte>): seq<Byte>
  {
    if values == [] then []
    else if |values| <= 4 then Unpack(values)
    else Unpack(values[..4]) + UnpackAll(values[4..])
  }

  function Decoded(text: seq<Byte>): seq<Byte>
  {
    UnpackAll(Sextets(text))
  }

  method CollectSextets(text: seq<Byte>) returns (values: seq<Byte>)
    ensures values == Sextets(text)
  {
    values := [];
    for i := 0 to |text|
      invariant values == Sextets(text[..i])
    {
      assert text[..i + 1] == text[..i] + [text[i]];
      SextetsConcat(text[..i], [text[i]]);
      var v := SextetOf(text[i]);
      if v.Some? {
        values := values + [v.value];
      }
    }
    assert text[..|text|] == text;
  }

  method UnpackChunk(chunk: seq<Byte>) returns (out: seq<Byte>)
    requires 1 <= |chunk| <= 4
    ensures out == Unpack(chunk)
  {
    var b := [chunk[0], if |chunk| > 1 then chunk[1] else 0, if |chunk| > 2 then chunk[2] else 0,
              if |chunk| > 3 then chunk[3] else 0];
    out := [(b[0] << 2) | (b[1] >> 4)];
    if |chunk| > 2 {
      out := out + [(b[1] << 4) | (b[2] >> 2)];
    }
    if |chunk| > 3 {
      out := out + [(b[2] << 6) | b[3]];
    }
  }

  /** `decode_base64` up to its final UTF-8 conversion. */
  method Decode(text: seq<Byte>) returns (out: seq<Byte>)
    ensures out == Decoded(text)
  {
    var values := CollectSextets(text);
    out := [];
    var start := 0;
    while start < |values|
      invariant 0 <= start <= |values|
      invariant out + UnpackAll(values[start..]) == UnpackAll(values)
    {
      var end := if start + 4 < |values| then start + 4 else |values|;
      UnpackFrom(values, start, end);
      var bytes := UnpackChunk(values[start..end]);
      out := out + bytes;
      start := end;
    }
  }

  lemma UnpackAllStep(values: seq<Byte>)
    requires values != []
    ensures var n := if |values| > 4 then 4 else |values|;
      UnpackAll(values) == Unpack(values[..n]) + UnpackAll(values[n..])
  {
    assert values[..|values|] == values;
  }

  lemma UnpackFrom(values: seq<Byte>, start: nat, end: nat)
    requires start < |values| && end == (if start + 4 < |values| then start + 4 else |values|)
    ensures UnpackAll(values[start..]) == Unpack(values[start..end]) + UnpackAll(values[end..])
  {
    var rest := values[start..];
    UnpackAllStep(rest);
    assert rest[..end - start] == values[start..end];
    assert rest[end - start..] == values[end..];
  }

  lemma {:induction false} SextetsConcat(s: seq<Byte>, t: seq<Byte>)
    ensures Sextets(s + t) == Sextets(s) + Sextets(t)
  {
    if s == [] {
      assert s + t == t;
    } else {
      assert (s + t)[1..] == s[1..] + t;
      SextetsConcat(s[1..], t);
    }
  }

  lemma PackedTriple(x: Byte, y: Byte, z: Byte)
    ensures Leading(First(x), Second(x, y)) == x
    ensures Middle(Second(x, y), Third(y, z)) == y
    ensures Trailing(Third(y, z), Fourth(z)) == z
  {
  }

  lemma UnpackQuad(a: Byte, b: Byte, c: Byte, d: Byte)
    ensures Unpack([a, b, c, d]) == [Leading(a, b), Middle(b, c), Trailing(c, d)]
    ensures Unpack([a, b, c]) == [Leading(a, b), Middle(b, c)]
    ensures Unpack([a, b]) == [Leading(a, b)]
  {
  }

  /** Decoding undoes encoding, for every byte string. */
  lemma {:induction false} DecodeEncode(bytes: seq<Byte>)
    ensures Decoded(Encode(bytes)) == bytes
  {
    if |bytes| == 0 {
    } else if |bytes| == 1 {
      DecodeOne(bytes[0]);
    } else if |bytes| == 2 {
      DecodeTwo(bytes[0], bytes[1]);
    } else {
      var encoded := Encode(bytes[3..]);
      DecodeEncode(bytes[3..]);
      DecodeThree(bytes[0], bytes[1], bytes[2], encoded);
      assert Encode(bytes) == Quad(bytes[0], bytes[1], bytes[2]) + encoded;
      assert bytes == [bytes[0], bytes[1], bytes[2]] + bytes[3..];
    }
  }

  lemma DecodeOne(x: Byte)
    ensures Decoded([SymbolOf(First(x)), SymbolOf(Second(x, 0)), PAD, PAD]) == [x]
  {
    SextetsOfFour(SymbolOf(First(x)), SymbolOf(Second(x, 0)), PAD, PAD);
    PackedTriple(x, 0, 0);
    UnpackQuad(First(x), Second(x, 0), 0, 0);
  }

  lemma DecodeTwo(x: Byte, y: Byte)
    ensures Decoded([SymbolOf(First(x)), SymbolOf(Second(x, y)), SymbolOf(Third(y, 0)), PAD]) == [x, y]
  {
    SextetsOfFour(SymbolOf(First(x)), SymbolOf(Second(x, y)), SymbolOf(Third(y, 0)), PAD);
    PackedTriple(x, y, 0);
    UnpackQuad(First(x), Second(x, y), Third(y, 0), 0);
  }

  lemma SextetsOfQuad(x: Byte, y: Byte, z: Byte)
    ensures Sextets(Quad(x, y, z)) == [First(x), Second(x, y), Third(y, z), Fourth(z)]
  {
    SextetsOfFour(SymbolOf(First(x)), SymbolOf(Second(x, y)), SymbolOf(Third(y, z)), SymbolOf(Fourth(z)));
  }

  lemma DecodeThree(x: Byte, y: Byte, z: Byte, rest: seq<Byte>)
    ensures Decoded(Quad(x, y, z) + rest) == [x, y, z] + Decoded(rest)
  {
    SextetsOfQuad(x, y, z);
    PackedTriple(x, y, z);
    UnpackQuad(First(x), Second(x, y), Third(y, z), Fourth(z));
    SextetsConcat(Quad(x, y, z), rest);
    var four := Sextets(Quad(x, y, z));
    UnpackAllStep(four + Sextets(rest));
    assert (four + Sextets(rest))[..4] == four && (four + Sextets(rest))[4..] == Sextets(rest);
  }

  /** What the decoder keeps of one character. */
  function KeptOf(c: Byte): seq<Byte>
  {
    if SextetOf(c).Some? then [SextetOf(c).value] else []
  }

  lemma SextetsOfOne(c: Byte)
    ensures Sextets([c]) == KeptOf(c)
  {
    assert [c][1..] == [];
  }

  lemma SextetsOfFour(a: Byte, b: Byte, c: Byte, d: Byte)
    ensures Sextets([a, b, c, d]) == KeptOf(a) + KeptOf(b) + KeptOf(c) + KeptOf(d)
  {
    SextetsOfOne(a);
    SextetsOfOne(b);
    SextetsOfOne(c);
    SextetsOfOne(d);
    SextetsConcat([a], [b]);
    SextetsConcat([a] + [b], [c]);
    SextetsConcat([a] + [b] + [c], [d]);
    assert [a, b, c, d] == [a] + [b] + [c] + [d];
  }

  /** Bytes outside the alphabet change nothing, wherever they are inserted. */
  lemma JunkIsSkipped(before: seq<Byte>, junk: seq<Byte>, after: seq<Byte>)
    requires forall i :: 0 <= i < |junk| ==> SextetOf(junk[i]).None?
    ensures Decoded(before + junk + after) == Decoded(before + after)
  {
    SextetsConcat(before + junk, after);
    SextetsConcat(before, junk);
    SextetsConcat(before, after);
    JunkHasNoSextets(junk);
    assert Sextets(before) + [] == Sextets(before);
  }

  lemma {:induction false} JunkHasNoSextets(junk: seq<Byte>)
    requires forall i :: 0 <= i < |junk| ==> SextetOf(junk[i]).None?
    ensures Sextets(junk) == []
  {
    if junk != [] {
      JunkHasNoSextets(junk[1..]);
    }
  }

  /** `inline_base64_fits`, given the serialized length of the response with an empty result
      and the largest `usize` of the host. */
  predicate InlineBase64Fits(usizeMax: nat, envelope: nat, rawBytes: nat)
  {
    match CheckedAdd(usizeMax, rawBytes, 2)
    case None => false
    case Some(padded) =>
      match CheckedMul(usizeMax, padded / 3, 4)
      case None => false
      case Some(encoded) =>
        match CheckedAdd(usizeMax, envelope, encoded)
        case None => false
        case Some(total) => total <= MAX_OUTPUT_BYTES
  }

  /** The check is exact: it holds just when the response with the body in place, between the
      two halves of its envelope, is within the output limit. */
  lemma FitsExactly(usizeMax: nat, head: seq<Byte>, tail: seq<Byte>, body: seq<Byte>)
    requires usizeMax >= MAX_OUTPUT_BYTES + 2
    ensures InlineBase64Fits(usizeMax, |head + tail|, |body|) <==> |head + Encode(body) + tail| <= MAX_OUTPUT_BYTES
  {
    assert |head + Encode(body) + tail| == |head + tail| + (|body| + 2) / 3 * 4;
  }
}
