/** The paging cursor: one key in a JSON object, UTF-8, unpadded URL-safe Base64 (section 5 of RFC 4648). */
module Cursor {
  import opened Wrappers
  import opened Decimal

  type Byte = b: int | 0 <= b < 256

  // ----- UTF-8 ----------------------------------------------------------------------------

  /** Six-bit groups from the right, behind a length mark. */
  function EncodeChar(c: char): (bs: seq<Byte>)
    ensures 1 <= |bs| <= 4
  {
    var u := c as int;
    var u6, u12, u18 := u / 0x40, u / 0x40 / 0x40, u / 0x40 / 0x40 / 0x40;
    if u < 0x80 then [u]
    else if u < 0x800 then [0xC0 + u6, 0x80 + u % 0x40]
    else if u < 0x1_0000 then [0xE0 + u12, 0x80 + u6 % 0x40, 0x80 + u % 0x40]
    else [0xF0 + u18, 0x80 + u12 % 0x40, 0x80 + u6 % 0x40, 0x80 + u % 0x40]
  }

  function Utf8Encode(s: string): seq<Byte> {
    if s == [] then [] else EncodeChar(s[0]) + Utf8Encode(s[1..])
  }

  predicate Continues(bs: seq<Byte>, n: nat) {
    |bs| >= n && forall i | 1 <= i < n :: 0x80 <= bs[i] < 0xC0
  }

  predicate IsScalar(u: int) { 0 <= u < 0xD800 || 0xE000 <= u < 0x11_0000 }

  /** Bits of a lead byte followed by six from each continuation byte. */
  function Value(lead: int, bs: seq<Byte>, n: nat): int
    requires 1 <= n <= |bs|
  {
    if n == 1 then lead else Value(lead, bs, n - 1) * 0x40 + (bs[n - 1] as int - 0x80)
  }

  /** The well-formed sequence at the start: its scalar value and length. */
  function First(bs: seq<Byte>): (r: Option<(char, nat)>)
    requires bs != []
    ensures r.Some? ==> 1 <= r.value.1 <= |bs|
  {
    var b: int := bs[0];
    if b < 0x80 then Scalar(b, 0, 1, bs)
    else if 0xC0 <= b < 0xE0 && Continues(bs, 2) then Scalar(Value(b - 0xC0, bs, 2), 0x80, 2, bs)
    else if 0xE0 <= b < 0xF0 && Continues(bs, 3) then Scalar(Value(b - 0xE0, bs, 3), 0x800, 3, bs)
    else if 0xF0 <= b < 0xF8 && Continues(bs, 4) then Scalar(Value(b - 0xF0, bs, 4), 0x1_0000, 4, bs)
    else None
  }

  /** Overlong forms, surrogates and values above U+10FFFF are malformed. */
  function Scalar(u: int, least: int, n: nat, bs: seq<Byte>): (r: Option<(char, nat)>)
    requires 1 <= n <= |bs|
    ensures r.Some? ==> r.value.1 == n
  {
    if least <= u && IsScalar(u) then Some((u as char, n)) else None
  }

  const REPLACEMENT: char := '\U{FFFD}'

  /** A byte that starts no well-formed sequence becomes the replacement character. */
  function Utf8Decode(bs: seq<Byte>): string {
    if bs == [] then [] else
      match First(bs)
      case Some((c, n)) => [c] + Utf8Decode(bs[n..])
      case None => [REPLACEMENT] + Utf8Decode(bs[1..])
  }

  lemma FirstOfEncoded(c: char, rest: seq<Byte>)
    ensures First(EncodeChar(c) + rest) == Some((c, |EncodeChar(c)|))
  {
    var e := EncodeChar(c);
    var bs := e + rest;
    assert forall i | 0 <= i < |e| :: bs[i] == e[i];
    assert IsScalar(c as int);
    if |e| == 2 {
      assert Value(bs[0] as int - 0xC0, bs, 2) == c as int;
    } else if |e| == 3 {
      assert Value(bs[0] as int - 0xE0, bs, 2) == c as int / 0x40;
    } else if |e| == 4 {
      assert Value(bs[0] as int - 0xF0, bs, 2) == c as int / 0x40 / 0x40;
      assert Value(bs[0] as int - 0xF0, bs, 3) == c as int / 0x40;
    }
  }

  lemma {:induction false} Utf8RoundTrip(s: string)
    ensures Utf8Decode(Utf8Encode(s)) == s
  {
    if s != [] {
      var rest := Utf8Encode(s[1..]);
      FirstOfEncoded(s[0], rest);
      assert (EncodeChar(s[0]) + rest)[|EncodeChar(s[0])|..] == rest;
      Utf8RoundTrip(s[1..]);
    }
  }

  // ----- Base64 ---------------------------------------------------------------------------

  function Letter(n: nat): char
    requires n < 64
  {
    if n < 26 then 'A' + n as char
    else if n < 52 then 'a' + (n - 26) as char
    else if n < 62 then '0' + (n - 52) as char
    else if n == 62 then '-'
    else '_'
  }

  predicate IsLetter(c: char) { 'A' <= c <= 'Z' || 'a' <= c <= 'z' || '0' <= c <= '9' || c == '-' || c == '_' }

  function Sextet(c: char): (n: nat)
    requires IsLetter(c)
    ensures n < 64
  {
    if 'A' <= c <= 'Z' then c as int - 'A' as int
    else if 'a' <= c <= 'z' then c as int - 'a' as int + 26
    else if '0' <= c <= '9' then c as int - '0' as int + 52
    else if c == '-' then 62
    else 63
  }

  lemma SextetOfLetter(n: nat)
    requires n < 64
    ensures IsLetter(Letter(n)) && Sextet(Letter(n)) == n
  {
  }

  function Base64Encode(bs: seq<Byte>): string {
    if bs == [] then ""
    else if |bs| == 1 then [Letter(bs[0] / 4), Letter(bs[0] % 4 * 16)]
    else
      var head := [Letter(bs[0] / 4), Letter(bs[0] % 4 * 16 + bs[1] / 16)];
      if |bs| == 2 then head + [Letter(bs[1] % 16 * 4)]
      else head + [Letter(bs[1] % 16 * 4 + bs[2] / 64), Letter(bs[2] % 64)] + Base64Encode(bs[3..])
  }

  predicate Letters(s: string) { forall i | 0 <= i < |s| :: IsLetter(s[i]) }

  /**
    Whole groups of four letters, then nothing, or a last group of two or three letters, bare
    or padded to four. Anything else is refused. Spare bits of the last group are ignored.
   */
  function Base64Decode(s: string): Option<seq<Byte>> {
    if s == "" then Some([])
    else if |s| >= 4 && Letters(s[..4]) then
      match Base64Decode(s[4..])
      case None => None
      case Some(rest) => Some(Pair(s) + [Sextet(s[2]) % 4 * 64 + Sextet(s[3])] + rest)
    else if (|s| == 3 || (|s| == 4 && s[3] == '=')) && Letters(s[..3]) then Some(Pair(s))
    else if (|s| == 2 || (|s| == 4 && s[2..] == "==")) && Letters(s[..2]) then Some([First8(s)])
    else None
  }

  function First8(s: string): Byte
    requires |s| >= 2 && IsLetter(s[0]) && IsLetter(s[1])
  {
    Sextet(s[0]) * 4 + Sextet(s[1]) / 16
  }

  function Pair(s: string): seq<Byte>
    requires |s| >= 3 && IsLetter(s[0]) && IsLetter(s[1]) && IsLetter(s[2])
  {
    [First8(s), Sextet(s[1]) % 16 * 16 + Sextet(s[2]) / 4]
  }

  /** Regrouping of eight-bit into six-bit groups and back. */
  lemma Regroup(b0: Byte, b1: Byte, b2: Byte)
    ensures var n0, n1, n2, n3 := b0 / 4, b0 % 4 * 16 + b1 / 16, b1 % 16 * 4 + b2 / 64, b2 % 64;
      && n0 < 64 && n1 < 64 && n2 < 64
      && n0 * 4 + n1 / 16 == b0
      && n1 % 16 * 16 + n2 / 4 == b1
      && n2 % 4 * 64 + n3 == b2
  {
  }

  lemma GroupOfThree(b0: Byte, b1: Byte, b2: Byte, rest: string)
    ensures var s := [Letter(b0 / 4), Letter(b0 % 4 * 16 + b1 / 16)] + [Letter(b1 % 16 * 4 + b2 / 64), Letter(b2 % 64)] + rest;
      && s[4..] == rest && Letters(s[..4])
      && Pair(s) == [b0, b1]
      && Sextet(s[2]) % 4 * 64 + Sextet(s[3]) == b2
  {
    Regroup(b0, b1, b2);
    SextetOfLetter(b0 / 4);
    SextetOfLetter(b0 % 4 * 16 + b1 / 16);
    SextetOfLetter(b1 % 16 * 4 + b2 / 64);
    SextetOfLetter(b2 % 64);
    hide Sextet, Letter;
  }

  lemma GroupOfTwo(b0: Byte, b1: Byte)
    ensures var s := [Letter(b0 / 4), Letter(b0 % 4 * 16 + b1 / 16)] + [Letter(b1 % 16 * 4)];
      Letters(s) && Pair(s) == [b0, b1]
  {
    Regroup(b0, b1, 0);
    SextetOfLetter(b0 / 4);
    SextetOfLetter(b0 % 4 * 16 + b1 / 16);
    SextetOfLetter(b1 % 16 * 4);
    hide Sextet, Letter;
  }

  lemma GroupOfOne(b: Byte)
    ensures var s := [Letter(b / 4), Letter(b % 4 * 16)]; Letters(s) && First8(s) == b
  {
    SextetOfLetter(b / 4);
    SextetOfLetter(b % 4 * 16);
    hide Sextet, Letter;
  }

  lemma {:induction false} Base64RoundTrip(bs: seq<Byte>)
    ensures Base64Decode(Base64Encode(bs)) == Some(bs)
    ensures Letters(Base64Encode(bs)) && (bs != [] ==> Base64Encode(bs) != "")
  {
    hide Sextet, Letter;
    if |bs| >= 3 {
      var s, rest := Base64Encode(bs), Base64Encode(bs[3..]);
      Base64RoundTrip(bs[3..]);
      GroupOfThree(bs[0], bs[1], bs[2], rest);
      assert [bs[0], bs[1]] + [bs[2]] + bs[3..] == bs;
      assert s == s[..4] + rest;
    } else if |bs| == 2 {
      GroupOfTwo(bs[0], bs[1]);
      assert bs == [bs[0], bs[1]];
    } else if |bs| == 1 {
      GroupOfOne(bs[0]);
      var s := Base64Encode(bs);
      assert s[..2] == s && bs == [bs[0]];
      assert Base64Decode(s) == Some([First8(s)]);
    }
  }

  // ----- the cursor -----------------------------------------------------------------------

  function Delimiter(field: string): string { "\"" + field + "\":" }

  function Json(field: string, value: int): string { "{" + Delimiter(field) + Print(value) + "}" }

  function Encode(field: string, value: int): string {
    Base64Encode(Utf8Encode(Json(field, value)))
  }

  /** Char.isWhitespace of Kotlin. */
  predicate IsSpace(c: char) {
    var u := c as int;
    || 0x09 <= u <= 0x0D || 0x1C <= u <= 0x20 || u == 0xA0 || u == 0x1680 || 0x2000 <= u <= 0x200A
    || u == 0x2028 || u == 0x2029 || u == 0x202F || u == 0x205F || u == 0x3000
  }

  predicate IsBlank(s: string) { forall i | 0 <= i < |s| :: IsSpace(s[i]) }

  function Trim(s: string): string {
    if s != [] && IsSpace(s[0]) then Trim(s[1..])
    else if s != [] && IsSpace(s[|s| - 1]) then Trim(s[..|s| - 1])
    else s
  }

  predicate StartsWith(s: string, d: string) { |d| <= |s| && s[..|d|] == d }

  /** substringAfter with the empty string when the delimiter is missing. */
  function After(s: string, d: string): string {
    if StartsWith(s, d) then s[|d|..] else if s == "" then "" else After(s[1..], d)
  }

  /** substringBefore: the whole string when the delimiter is missing. */
  function Before(s: string, c: char): string {
    if s == "" || s[0] == c then "" else [s[0]] + Before(s[1..], c)
  }

  datatype Error = InvalidRequest

  function Decode(cursor: Option<string>, field: string): Result<Option<int>, Error> {
    if cursor.None? || IsBlank(cursor.value) then Ok(None)
    else
      match Base64Decode(cursor.value)
      case None => Err(InvalidRequest)
      case Some(bytes) =>
        match ParseLong(Trim(Before(After(Utf8Decode(bytes), Delimiter(field)), '}')))
        case None => Err(InvalidRequest)
        case Some(v) => Ok(Some(v))
  }

  lemma {:induction false} BeforeAt(s: string, c: char, rest: string)
    requires c !in s
    ensures Before(s + [c] + rest, c) == s
  {
    if s != "" {
      BeforeAt(s[1..], c, rest);
      assert (s + [c] + rest)[1..] == s[1..] + [c] + rest;
      assert s == [s[0]] + s[1..];
      assert s[0] in s;
    }
  }

  lemma PrintedIsPlain(v: int)
    ensures var s := Print(v); s != "" && '}' !in s && '"' !in s && Trim(s) == s
  {
    var digits := PrintNat(if v < 0 then -v else v);
    assert forall i | 0 <= i < |digits| :: IsDigit(digits[i]);
  }

  /** What a decoder sees in a cursor made by Encode. */
  lemma EncodedText(field: string, v: int)
    ensures !IsBlank(Encode(field, v))
    ensures Base64Decode(Encode(field, v)).Some?
    ensures Utf8Decode(Base64Decode(Encode(field, v)).value) == Json(field, v)
  {
    EncodedIsRead(Json(field, v));
  }

  lemma AfterAt(d: string, tail: string)
    ensures After(d + tail, d) == tail
  {
    assert (d + tail)[..|d|] == d && (d + tail)[|d|..] == tail;
  }

  lemma AfterSkip(c: char, s: string, d: string)
    requires d != "" && c != d[0]
    ensures After([c] + s, d) == After(s, d)
  {
    assert ([c] + s)[1..] == s;
    if |d| <= |s| + 1 {
      assert ([c] + s)[..|d|][0] == c;
    }
  }

  /** Decoding undoes encoding for every field name and every 64-bit value. */
  lemma {:induction false} DecodeEncode(field: string, v: int)
    requires IsLong(v)
    ensures Decode(Some(Encode(field, v)), field) == Ok(Some(v))
  {
    PrintedIsPlain(v);
    PrintedEnds(v);
    ParsePrint(v);
    hide Decode, ParseLong, Print, Base64Encode, Utf8Encode, Trim, IsSpace;
    assert "" + Print(v) + "" == Print(v);
    DecodeValue(field, "", Print(v), "");
  }

  ghost predicate OccursAt(s: string, d: string, i: int) { 0 <= i <= |s| && StartsWith(s[i..], d) }

  lemma {:induction false} AfterMissing(s: string, d: string)
    requires d != "" && forall i :: !OccursAt(s, d, i)
    ensures After(s, d) == ""
  {
    assert s[0..] == s;
    assert !OccursAt(s, d, 0);
    if s != "" {
      forall i
        ensures !OccursAt(s[1..], d, i)
      {
        assert !OccursAt(s, d, i + 1);
        if 0 <= i <= |s| - 1 {
          assert s[1..][i..] == s[i + 1..];
        }
      }
      AfterMissing(s[1..], d);
    }
  }

  lemma DelimiterAt(json: string, g: string, i: int)
    requires OccursAt(json, Delimiter(g), i)
    ensures 0 <= i && i + |g| + 1 < |json|
    ensures json[i] == '"' && json[i + |g| + 1] == '"' && json[i + 1..i + |g| + 1] == g
  {
    var d := Delimiter(g);
    assert json[i..][..|d|] == d;
    assert json[i] == d[0];
    assert json[i + |g| + 1] == json[i..][|g| + 1] == d[|g| + 1];
    assert json[i + 1..i + |g| + 1] == d[1..|g| + 1];
  }

  lemma FieldAt(f: string, v: int)
    ensures |f| + 2 <= |Json(f, v)| && Json(f, v)[2..|f| + 2] == f
  {
  }

  /** Quotes stand only around the field name, so another field's delimiter cannot occur. */
  lemma ForeignDelimiter(f: string, g: string, v: int, i: int)
    requires '"' !in f && '"' !in g
    ensures OccursAt(Json(f, v), Delimiter(g), i) ==> f == g
  {
    hide Print, Json;
    if OccursAt(Json(f, v), Delimiter(g), i) {
      DelimiterAt(Json(f, v), g, i);
      QuotePositions(f, v, i);
      QuotePositions(f, v, i + |g| + 1);
      FieldAt(f, v);
    }
  }

  lemma QuotePositions(f: string, v: int, i: int)
    requires '"' !in f && 0 <= i < |Json(f, v)| && Json(f, v)[i] == '"'
    ensures i == 1 || i == |f| + 2
  {
    PrintedIsPlain(v);
  }

  /** A cursor is accepted exactly by the list whose key it carries. */
  lemma {:induction false} ForeignCursorRefused(f: string, g: string, v: int)
    requires IsLong(v) && '"' !in f && '"' !in g
    ensures Decode(Some(Encode(f, v)), g) == if f == g then Ok(Some(v)) else Err(InvalidRequest)
  {
    if f == g {
      DecodeEncode(f, v);
    } else {
      EncodedText(f, v);
      forall i
        ensures !OccursAt(Json(f, v), Delimiter(g), i)
      {
        ForeignDelimiter(f, g, v, i);
      }
      AfterMissing(Json(f, v), Delimiter(g));
    }
  }

  // ----- what else a decoder may be given -------------------------------------------------

  /** No cursor, or a blank one, is the first page. */
  lemma DecodeAbsent(cursor: Option<string>, field: string)
    ensures (cursor.None? || forall i | 0 <= i < |cursor.value| :: IsSpace(cursor.value[i])) ==>
      Decode(cursor, field) == Ok(None)
    ensures Decode(cursor, field) == Ok(None) ==>
      cursor.None? || forall i | 0 <= i < |cursor.value| :: IsSpace(cursor.value[i])
  {
  }

  lemma PrefixLetters(s: string, n: nat)
    requires n <= |s| && Letters(s[..n])
    ensures forall i | 0 <= i < n :: IsLetter(s[i])
  {
    assert forall i | 0 <= i < n :: s[..n][i] == s[i];
  }

  lemma {:induction false} ForeignLetterRefused(s: string, i: nat)
    requires i < |s| && !IsLetter(s[i]) && s[i] != '='
    ensures Base64Decode(s) == None
  {
    forall n: nat | n <= |s| && Letters(s[..n])
      ensures i >= n
    {
      PrefixLetters(s, n);
    }
    if |s| >= 4 && Letters(s[..4]) {
      ForeignLetterRefused(s[4..], i - 4);
    }
    assert |s| == 4 ==> s[2..][0] == s[2] && s[2..][1] == s[3];
    hide IsLetter, Letters;
  }

  /** A character outside the URL-safe alphabet, the other alphabet's '+' and '/' included, spoils the cursor. */
  lemma DecodeNeedsAlphabet(cursor: string, field: string, i: nat)
    requires i < |cursor| && !IsBlank(cursor)
    requires var c := cursor[i]; !('A' <= c <= 'Z' || 'a' <= c <= 'z' || '0' <= c <= '9' || c in {'-', '_', '='})
    ensures Decode(Some(cursor), field) == Err(InvalidRequest)
  {
    ForeignLetterRefused(cursor, i);
  }

  lemma {:induction false} TrimInner(a: string, x: string, b: string)
    requires IsBlank(a) && IsBlank(b)
    requires x != "" && !IsSpace(x[0]) && !IsSpace(x[|x| - 1])
    ensures Trim(a + x + b) == x
    decreases |a| + |b|
  {
    var s := a + x + b;
    if a != "" {
      TrimInner(a[1..], x, b);
      assert s[1..] == a[1..] + x + b;
    } else if b != "" {
      TrimInner(a, x, b[..|b| - 1]);
      assert s[..|s| - 1] == a + x + b[..|b| - 1];
      assert s[0] == x[0];
    } else {
      assert s == x;
    }
  }

  /** A cursor around any text for the value. */
  function EncodeText(field: string, text: string): string {
    Base64Encode(Utf8Encode("{" + Delimiter(field) + text + "}"))
  }

  lemma EncodedIsRead(json: string)
    requires json != ""
    ensures var c := Base64Encode(Utf8Encode(json));
      !IsBlank(c) && Base64Decode(c).Some? && Utf8Decode(Base64Decode(c).value) == json
  {
    var bytes := Utf8Encode(json);
    Base64RoundTrip(bytes);
    Utf8RoundTrip(json);
    assert bytes != [];
    assert IsLetter(Base64Encode(bytes)[0]);
  }

  /**
    A cursor made for the field is accepted exactly when its value, without the white space around
    it, is a 64-bit number.
   */
  lemma DecodeValue(field: string, a: string, x: string, b: string)
    requires IsBlank(a) && IsBlank(b)
    requires x != "" && !IsSpace(x[0]) && !IsSpace(x[|x| - 1]) && '}' !in x
    ensures Decode(Some(EncodeText(field, a + x + b)), field) ==
      (match ParseLong(x) case Some(v) => Ok(Some(v)) case None => Err(InvalidRequest))
  {
    BlankIsPlain(a);
    BlankIsPlain(b);
    TrimInner(a, x, b);
    EncodedIsRead("{" + Delimiter(field) + (a + x + b) + "}");
    ReadValue(field, a + x + b);
    hide Base64Decode, Base64Encode, Utf8Decode, Utf8Encode, ParseLong, Trim, Before, After, IsBlank, Delimiter, IsSpace;
  }

  lemma BlankIsPlain(s: string)
    requires IsBlank(s)
    ensures '}' !in s
  {
  }

  lemma ReadValue(field: string, text: string)
    requires '}' !in text
    ensures Before(After("{" + Delimiter(field) + text + "}", Delimiter(field)), '}') == text
  {
    var d := Delimiter(field);
    AfterSkip('{', d + (text + "}"), d);
    AfterAt(d, text + "}");
    BeforeAt(text, '}', "");
    hide After, Before;
    assert "{" + d + text + "}" == ['{'] + (d + (text + "}"));
    assert text + ['}'] + "" == text + "}";
  }

  lemma TooLong(v: int)
    requires !IsLong(v)
    ensures ParseLong(Print(v)) == None
  {
    DigitsRoundTrip(if v < 0 then -v else v);
    var digits := PrintNat(if v < 0 then -v else v);
    hide PrintNat, ParseDigits;
    assert IsDigit(digits[0]);
    assert v < 0 ==> Print(v)[1..] == digits;
  }

  /** A number beyond 64 bits is refused. */
  lemma OutOfRangeRefused(field: string, v: int)
    requires !IsLong(v)
    ensures Decode(Some(Encode(field, v)), field) == Err(InvalidRequest)
  {
    PrintedIsPlain(v);
    PrintedEnds(v);
    TooLong(v);
    hide Decode, ParseLong, Print, Base64Encode, Utf8Encode, Trim, IsSpace;
    assert "" + Print(v) + "" == Print(v);
    DecodeValue(field, "", Print(v), "");
  }

  lemma PrintedEnds(v: int)
    ensures var s := Print(v); s != "" && !IsSpace(s[0]) && !IsSpace(s[|s| - 1])
  {
    var digits := PrintNat(if v < 0 then -v else v);
    assert IsDigit(digits[0]) && IsDigit(digits[|digits| - 1]);
  }

  /** Bytes of the four lengths: "A", e acute, the euro sign and U+10348. */
  lemma KnownUtf8()
    ensures EncodeChar('A') == [0x41]
    ensures EncodeChar('\U{E9}') == [0xC3, 0xA9]
    ensures EncodeChar('\U{20AC}') == [0xE2, 0x82, 0xAC]
    ensures EncodeChar('\U{10348}') == [0xF0, 0x90, 0x8D, 0x88]
  {
  }

  /** The test vectors of section 10 of RFC 4648 without padding, and the two letters of its section 5. */
  lemma KnownBase64()
    ensures Base64Encode([0x66]) == "Zg"
    ensures Base64Encode([0x66, 0x6F]) == "Zm8"
    ensures Base64Encode([0x66, 0x6F, 0x6F]) == "Zm9v"
    ensures Base64Encode([0xFB, 0xFF]) == "-_8"
  {
    assert Base64Encode([0x66, 0x6F, 0x6F]) == "Zm9v" + Base64Encode([]);
  }

  /** The JSON text inside a cursor. */
  lemma KnownJson()
    ensures Json("id", -5) == "{\"id\":-5}"
  {
    assert Print(-5) == "-5";
  }
}
