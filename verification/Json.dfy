/** JSON text (RFC 8259) over UTF-16 code units: the writer that
    `JSON.stringify` and the canonical serializer share, and a reader that
    inverts it. */
module Json {
  import opened Utf16

  const QUOTE: Unit := 0x22
  const BACKSLASH: Unit := 0x5C
  const COMMA: Unit := 0x2C
  const COLON: Unit := 0x3A
  const LBRACE: Unit := 0x7B
  const RBRACE: Unit := 0x7D
  const LBRACKET: Unit := 0x5B
  const RBRACKET: Unit := 0x5D
  const MINUS: Unit := 0x2D

  const NULL_TEXT: Text := [0x6E, 0x75, 0x6C, 0x6C]
  const TRUE_TEXT: Text := [0x74, 0x72, 0x75, 0x65]
  const FALSE_TEXT: Text := [0x66, 0x61, 0x6C, 0x73, 0x65]

  predicate Digit(u: Unit) { 0x30 <= u <= 0x39 }

  /** `-`, `+`, `.`, digits, `e`, `E`: the characters of section 6 of RFC 8259. */
  predicate NumberUnit(u: Unit) {
    Digit(u) || u == MINUS || u == 0x2B || u == 0x2E || u == 0x65 || u == 0x45
  }

  /** Covers every text that ECMAScript prints for a finite number. */
  predicate IsNumberText(t: Text) {
    |t| > 0 && (Digit(t[0]) || t[0] == MINUS) && forall i :: 0 <= i < |t| ==> NumberUnit(t[i])
  }

  type NumberText = t: Text | IsNumberText(t) witness [0x30]

  datatype Json =
    | JNull
    | JBool(b: bool)
    | JNumber(lit: NumberText)
    | JString(s: Text)
    | JArray(items: seq<Json>)
    | JObject(members: seq<JMember>)

  datatype JMember = JMember(key: Text, value: Json)

  // ----- writing -----

  function HexUnit(d: int): Unit
    requires 0 <= d < 16
  {
    if d < 10 then 0x30 + d else 0x57 + d
  }

  /** The six-unit lower-case escape of one code unit. */
  function UnicodeEscape(u: Unit): Text {
    [BACKSLASH, 0x75, HexUnit(u / 0x1000), HexUnit(u / 0x100 % 0x10), HexUnit(u / 0x10 % 0x10), HexUnit(u % 0x10)]
  }

  function EscapeUnit(u: Unit): Text {
    if u == QUOTE || u == BACKSLASH then [BACKSLASH, u]
    else if u == 0x08 then [BACKSLASH, 0x62]
    else if u == 0x0C then [BACKSLASH, 0x66]
    else if u == 0x0A then [BACKSLASH, 0x6E]
    else if u == 0x0D then [BACKSLASH, 0x72]
    else if u == 0x09 then [BACKSLASH, 0x74]
    else if u < 0x20 || Surrogate(u) then UnicodeEscape(u)
    else [u]
  }

  /** String body as `JSON.stringify` writes it: surrogate pairs stay, lone surrogates are escaped. */
  function Escape(s: Text): Text {
    if s == [] then []
    else if |s| >= 2 && High(s[0]) && Low(s[1]) then s[..2] + Escape(s[2..])
    else EscapeUnit(s[0]) + Escape(s[1..])
  }

  function Quote(s: Text): Text { [QUOTE] + Escape(s) + [QUOTE] }

  /** `texts.join(",")` */
  function JoinComma(texts: seq<Text>): Text {
    if texts == [] then []
    else if |texts| == 1 then texts[0]
    else texts[0] + [COMMA] + JoinComma(texts[1..])
  }

  function Write(j: Json): Text
    decreases j, 0
  {
    match j
    case JNull => NULL_TEXT
    case JBool(b) => if b then TRUE_TEXT else FALSE_TEXT
    case JNumber(lit) => lit
    case JString(s) => Quote(s)
    case JArray(items) => [LBRACKET] + JoinComma(WriteItems(items)) + [RBRACKET]
    case JObject(members) => [LBRACE] + JoinComma(WriteMembers(members)) + [RBRACE]
  }

  function WriteItems(items: seq<Json>): (texts: seq<Text>)
    ensures |texts| == |items|
    decreases items, 1
  {
    if items == [] then [] else [Write(items[0])] + WriteItems(items[1..])
  }

  function WriteMember(m: JMember): Text
    decreases m, 1
  {
    Quote(m.key) + [COLON] + Write(m.value)
  }

  function WriteMembers(members: seq<JMember>): (texts: seq<Text>)
    ensures |texts| == |members|
    decreases members, 1
  {
    if members == [] then [] else [WriteMember(members[0])] + WriteMembers(members[1..])
  }

  // ----- the text, unit by unit -----

  /** Every value but strings and numbers, in literal units. */
  lemma WriteTexts(x: Json, y: Json, k: Text)
    ensures Write(JNull) == [0x6E, 0x75, 0x6C, 0x6C]
    ensures Write(JBool(true)) == [0x74, 0x72, 0x75, 0x65]
    ensures Write(JBool(false)) == [0x66, 0x61, 0x6C, 0x73, 0x65]
    ensures Write(JArray([])) == [0x5B, 0x5D]
    ensures Write(JArray([x, y])) == [0x5B] + Write(x) + [0x2C] + Write(y) + [0x5D]
    ensures Write(JObject([])) == [0x7B, 0x7D]
    ensures Write(JObject([JMember(k, x)])) == [0x7B] + Write(JString(k)) + [0x3A] + Write(x) + [0x7D]
  {
    assert WriteItems([x, y]) == [Write(x)] + WriteItems([y]) && WriteItems([y]) == [Write(y)] + WriteItems([]);
    assert WriteItems([x, y]) == [Write(x), Write(y)];
    assert JoinComma([Write(x), Write(y)]) == Write(x) + [COMMA] + JoinComma([Write(y)]);
    assert Write(JArray([x, y])) == [LBRACKET] + JoinComma([Write(x), Write(y)]) + [RBRACKET];
    assert WriteMembers([JMember(k, x)]) == [WriteMember(JMember(k, x))];
  }

  /** The value of a lower-case hexadecimal digit. */
  function LowerHex(u: Unit): int {
    if u <= 0x39 then u - 0x30 else u - 0x57
  }

  predicate IsLowerHex(u: Unit) {
    0x30 <= u <= 0x39 || 0x61 <= u <= 0x66
  }

  /** What `JSON.stringify` writes for one unit: quote and backslash escaped, five control
      characters by a letter, other controls and lone surrogates by four lower-case
      hexadecimal digits, anything else as it is. */
  lemma EscapedUnits(u: Unit)
    ensures u == 0x22 || u == 0x5C ==> Escape([u]) == [0x5C, u]
    ensures u == 0x08 ==> Escape([u]) == [0x5C, 0x62]
    ensures u == 0x09 ==> Escape([u]) == [0x5C, 0x74]
    ensures u == 0x0A ==> Escape([u]) == [0x5C, 0x6E]
    ensures u == 0x0C ==> Escape([u]) == [0x5C, 0x66]
    ensures u == 0x0D ==> Escape([u]) == [0x5C, 0x72]
    ensures (u < 0x20 && u !in {0x08, 0x09, 0x0A, 0x0C, 0x0D}) || 0xD800 <= u <= 0xDFFF ==>
      var t := Escape([u]);
      |t| == 6 && t[..2] == [0x5C, 0x75] && (forall i :: 2 <= i < 6 ==> IsLowerHex(t[i])) &&
      u == LowerHex(t[2]) * 0x1000 + LowerHex(t[3]) * 0x100 + LowerHex(t[4]) * 0x10 + LowerHex(t[5])
    ensures 0x20 <= u && u != 0x22 && u != 0x5C && !(0xD800 <= u <= 0xDFFF) ==> Escape([u]) == [u]
  {
    assert Escape([u]) == EscapeUnit(u) + Escape([]) == EscapeUnit(u);
    HexDigitsSum(u);
  }

  /** A surrogate pair is written as it is. */
  lemma EscapedPair(high: Unit, low: Unit)
    requires High(high) && Low(low)
    ensures Escape([high, low]) == [high, low]
  {
    assert Escape([high, low]) == [high, low][..2] + Escape([high, low][2..]);
  }

  predicate StartsWithPair(s: Text) {
    |s| >= 2 && High(s[0]) && Low(s[1])
  }

  function HeadText(s: Text): Text
    requires s != []
  {
    if StartsWithPair(s) then [s[0], s[1]] else Escape([s[0]])
  }

  lemma EscapeHead(s: Text)
    requires s != []
    ensures Escape(s) == HeadText(s) + Escape(s[if StartsWithPair(s) then 2 else 1..])
  {
    assert Escape([s[0]]) == EscapeUnit(s[0]) + Escape([]) == EscapeUnit(s[0]);
  }

  lemma HeadKept(s: Text, t: Text)
    requires s != [] && (t != [] ==> !(High(s[|s| - 1]) && Low(t[0])))
    ensures StartsWithPair(s + t) == StartsWithPair(s) && HeadText(s + t) == HeadText(s)
    ensures StartsWithPair(s) ==> (s + t)[2..] == s[2..] + t
    ensures !StartsWithPair(s) ==> (s + t)[1..] == s[1..] + t
  {
  }

  /** A text is escaped piece by piece, as long as no pair is torn apart. */
  lemma {:induction false} EscapeConcat(s: Text, t: Text)
    requires s != [] && t != [] ==> !(High(s[|s| - 1]) && Low(t[0]))
    ensures Escape(s + t) == Escape(s) + Escape(t)
    decreases |s|
  {
    if s == [] {
      assert s + t == t;
    } else {
      var n, head := if StartsWithPair(s) then 2 else 1, HeadText(s);
      EscapeHead(s);
      EscapeHead(s + t);
      EscapeConcat(s[n..], t);
      HeadKept(s, t);
      Regroup(head, Escape(s[n..]), Escape(t));
    }
  }

  // ----- reading -----

  /** A value read off the front of a text, and what is left. */
  datatype Reading<T> = NoReading | Reading(value: T, rest: Text)

  function HexValue(u: Unit): (d: int)
    ensures -1 <= d < 16
  {
    if Digit(u) then u - 0x30
    else if 0x61 <= u <= 0x66 then u - 0x57
    else if 0x41 <= u <= 0x46 then u - 0x37
    else -1
  }

  /** The value of four hexadecimal digits, or -1. */
  function HexQuad(t: Text): (u: int)
    requires |t| == 4
    ensures -1 <= u < 0x1_0000
  {
    var a, b, c, d := HexValue(t[0]), HexValue(t[1]), HexValue(t[2]), HexValue(t[3]);
    if a < 0 || b < 0 || c < 0 || d < 0 then -1 else a * 0x1000 + b * 0x100 + c * 0x10 + d
  }

  /** The unit a two-unit escape stands for; -1 when it is not one of section 7 of RFC 8259. */
  function ShortEscape(u: Unit): (v: int)
    ensures -1 <= v < 0x1_0000
  {
    if u == QUOTE || u == BACKSLASH || u == 0x2F then u
    else if u == 0x62 then 0x08
    else if u == 0x66 then 0x0C
    else if u == 0x6E then 0x0A
    else if u == 0x72 then 0x0D
    else if u == 0x74 then 0x09
    else -1
  }

  /** Reads one code unit of a string body, plain or escaped. */
  function ReadUnit(t: Text): (r: Reading<Unit>)
    ensures r.Reading? ==> |r.rest| < |t|
  {
    if t == [] then NoReading
    else if t[0] == BACKSLASH then
      if |t| >= 6 && t[1] == 0x75 then
        var u := HexQuad(t[2..6]);
        if u < 0 then NoReading else Reading(u, t[6..])
      else if |t| >= 2 && ShortEscape(t[1]) >= 0 then Reading(ShortEscape(t[1]), t[2..])
      else NoReading
    else if t[0] == QUOTE || t[0] < 0x20 then NoReading
    else Reading(t[0], t[1..])
  }

  /** Reads a string body up to and including its closing quote. */
  function ReadString(t: Text): (r: Reading<Text>)
    ensures r.Reading? ==> |r.rest| < |t|
  {
    if t != [] && t[0] == QUOTE then Reading([], t[1..])
    else
      var head := ReadUnit(t);
      if head.NoReading? then NoReading else Prepend(head.value, ReadString(head.rest))
  }

  function Prepend(u: Unit, r: Reading<Text>): Reading<Text> {
    if r.NoReading? then NoReading else Reading([u] + r.value, r.rest)
  }

  function NumberLength(t: Text): (n: nat)
    ensures n <= |t|
    ensures forall i :: 0 <= i < n ==> NumberUnit(t[i])
  {
    if t == [] || !NumberUnit(t[0]) then 0 else 1 + NumberLength(t[1..])
  }

  function ReadKeyword(t: Text, word: Text, j: Json): Reading<Json> {
    if |word| <= |t| && t[..|word|] == word then Reading(j, t[|word|..]) else NoReading
  }

  function ReadValue(t: Text): (r: Reading<Json>)
    ensures r.Reading? ==> |r.rest| < |t|
    decreases |t|, 0
  {
    if t == [] then NoReading
    else if t[0] == NULL_TEXT[0] then ReadKeyword(t, NULL_TEXT, JNull)
    else if t[0] == TRUE_TEXT[0] then ReadKeyword(t, TRUE_TEXT, JBool(true))
    else if t[0] == FALSE_TEXT[0] then ReadKeyword(t, FALSE_TEXT, JBool(false))
    else if t[0] == QUOTE then
      var r := ReadString(t[1..]);
      if r.NoReading? then NoReading else Reading(JString(r.value), r.rest)
    else if t[0] == LBRACKET then
      if |t| >= 2 && t[1] == RBRACKET then Reading(JArray([]), t[2..])
      else
        var r := ReadItems(t[1..]);
        if r.NoReading? then NoReading else Reading(JArray(r.value), r.rest)
    else if t[0] == LBRACE then
      if |t| >= 2 && t[1] == RBRACE then Reading(JObject([]), t[2..])
      else
        var r := ReadMembers(t[1..]);
        if r.NoReading? then NoReading else Reading(JObject(r.value), r.rest)
    else
      var n := NumberLength(t);
      if IsNumberText(t[..n]) then Reading(JNumber(t[..n]), t[n..]) else NoReading
  }

  /** One or more values separated by commas, then a closing bracket. */
  function ReadItems(t: Text): (r: Reading<seq<Json>>)
    ensures r.Reading? ==> |r.rest| < |t|
    decreases |t|, 1
  {
    var head := ReadValue(t);
    if head.NoReading? || head.rest == [] then NoReading
    else if head.rest[0] == RBRACKET then Reading([head.value], head.rest[1..])
    else if head.rest[0] == COMMA then
      var tail := ReadItems(head.rest[1..]);
      if tail.NoReading? then NoReading else Reading([head.value] + tail.value, tail.rest)
    else NoReading
  }

  function ReadMember(t: Text): (r: Reading<JMember>)
    ensures r.Reading? ==> |r.rest| < |t|
    decreases |t|, 1
  {
    if t == [] || t[0] != QUOTE then NoReading
    else
      var key := ReadString(t[1..]);
      if key.NoReading? || key.rest == [] || key.rest[0] != COLON then NoReading
      else
        var v := ReadValue(key.rest[1..]);
        if v.NoReading? then NoReading else Reading(JMember(key.value, v.value), v.rest)
  }

  /** One or more members separated by commas, then a closing brace. */
  function ReadMembers(t: Text): (r: Reading<seq<JMember>>)
    ensures r.Reading? ==> |r.rest| < |t|
    decreases |t|, 2
  {
    var head := ReadMember(t);
    if head.NoReading? || head.rest == [] then NoReading
    else if head.rest[0] == RBRACE then Reading([head.value], head.rest[1..])
    else if head.rest[0] == COMMA then
      var tail := ReadMembers(head.rest[1..]);
      if tail.NoReading? then NoReading else Reading([head.value] + tail.value, tail.rest)
    else NoReading
  }

  // ----- the reader inverts the writer -----

  lemma HexUnitRoundTrip(d: int)
    requires 0 <= d < 16
    ensures HexValue(HexUnit(d)) == d
  {
  }

  lemma HexDigitsSum(u: Unit)
    ensures u == u / 0x1000 * 0x1000 + u / 0x100 % 0x10 * 0x100 + u / 0x10 % 0x10 * 0x10 + u % 0x10
  {
    assert u / 0x100 == u / 0x10 / 0x10;
    assert u / 0x1000 == u / 0x100 / 0x10;
  }

  lemma HexRoundTrip(u: Unit)
    ensures HexQuad(UnicodeEscape(u)[2..6]) == u
  {
    var a, b, c, d := u / 0x1000, u / 0x100 % 0x10, u / 0x10 % 0x10, u % 0x10;
    HexDigitsSum(u);
    HexQuadOfDigits(a, b, c, d);
    assert UnicodeEscape(u)[2..6] == [HexUnit(a), HexUnit(b), HexUnit(c), HexUnit(d)];
  }

  lemma HexQuadOfDigits(a: int, b: int, c: int, d: int)
    requires 0 <= a < 16 && 0 <= b < 16 && 0 <= c < 16 && 0 <= d < 16
    ensures HexQuad([HexUnit(a), HexUnit(b), HexUnit(c), HexUnit(d)]) == a * 0x1000 + b * 0x100 + c * 0x10 + d
  {
    HexUnitRoundTrip(a);
    HexUnitRoundTrip(b);
    HexUnitRoundTrip(c);
    HexUnitRoundTrip(d);
  }

  lemma ReadUnicodeEscape(u: Unit, rest: Text)
    ensures ReadUnit(UnicodeEscape(u) + rest) == Reading(u, rest)
  {
    var t := UnicodeEscape(u) + rest;
    assert t[2..6] == UnicodeEscape(u)[2..6];
    assert t[6..] == rest;
    HexRoundTrip(u);
  }

  lemma ReadShortEscape(e: Unit, rest: Text)
    requires ShortEscape(e) >= 0
    ensures ReadUnit([BACKSLASH, e] + rest) == Reading(ShortEscape(e), rest)
  {
    assert ([BACKSLASH, e] + rest)[2..] == rest;
  }

  lemma ReadPlainUnit(u: Unit, rest: Text)
    requires u >= 0x20 && u != QUOTE && u != BACKSLASH
    ensures ReadUnit([u] + rest) == Reading(u, rest)
  {
    assert ([u] + rest)[1..] == rest;
  }

  lemma ReadEscapedUnit(u: Unit, rest: Text)
    ensures ReadUnit(EscapeUnit(u) + rest) == Reading(u, rest)
    ensures EscapeUnit(u)[0] != QUOTE
  {
    if EscapeUnit(u) == [u] {
      ReadPlainUnit(u, rest);
    } else if |EscapeUnit(u)| == 2 {
      ReadShortEscape(EscapeUnit(u)[1], rest);
    } else {
      ReadUnicodeEscape(u, rest);
    }
  }

  lemma Regroup(a: Text, b: Text, c: Text)
    ensures a + b + c == a + (b + c)
  {
  }

  lemma ReadOneMore(e: Text, u: Unit, tail: Text, s: Text, rest: Text)
    requires e != [] && e[0] != QUOTE
    requires ReadUnit(e + tail) == Reading(u, tail)
    requires ReadString(tail) == Reading(s, rest)
    ensures ReadString(e + tail) == Reading([u] + s, rest)
  {
    assert (e + tail)[0] == e[0];
  }

  lemma ReadPair(high: Unit, low: Unit, tail: Text, s: Text, rest: Text)
    requires High(high) && Low(low)
    requires ReadString(tail) == Reading(s, rest)
    ensures ReadString([high, low] + tail) == Reading([high, low] + s, rest)
  {
    ReadPlainUnit(low, tail);
    ReadOneMore([low], low, tail, s, rest);
    ReadPlainUnit(high, [low] + tail);
    ReadOneMore([high], high, [low] + tail, [low] + s, rest);
    assert [high] + ([low] + tail) == [high, low] + tail;
    assert [high] + ([low] + s) == [high, low] + s;
  }

  /** Section 7 of RFC 8259 both ways: every string body, lone surrogates included, reads back. */
  lemma {:induction false} ReadStringInvertsEscape(s: Text, rest: Text)
    ensures ReadString(Escape(s) + ([QUOTE] + rest)) == Reading(s, rest)
  {
    var close := [QUOTE] + rest;
    if s == [] {
      assert Escape(s) + close == close;
      assert close[1..] == rest;
    } else if |s| >= 2 && High(s[0]) && Low(s[1]) {
      ReadStringInvertsEscape(s[2..], rest);
      ReadPair(s[0], s[1], Escape(s[2..]) + close, s[2..], rest);
      Regroup(s[..2], Escape(s[2..]), close);
      assert s[..2] == [s[0], s[1]];
      assert s == s[..2] + s[2..];
    } else {
      ReadStringInvertsEscape(s[1..], rest);
      ReadEscapedUnit(s[0], Escape(s[1..]) + close);
      ReadOneMore(EscapeUnit(s[0]), s[0], Escape(s[1..]) + close, s[1..], rest);
      Regroup(EscapeUnit(s[0]), Escape(s[1..]), close);
      assert s == [s[0]] + s[1..];
    }
  }

  /** What may follow a value inside a document: nothing that could extend a number. */
  predicate Delimited(rest: Text) {
    rest == [] || !NumberUnit(rest[0])
  }

  lemma {:induction false} NumberLengthExact(lit: Text, rest: Text)
    requires Delimited(rest) && forall i :: 0 <= i < |lit| ==> NumberUnit(lit[i])
    ensures NumberLength(lit + rest) == |lit|
  {
    if lit == [] {
      assert lit + rest == rest;
    } else {
      NumberLengthExact(lit[1..], rest);
      assert (lit + rest)[1..] == lit[1..] + rest;
    }
  }

  lemma ReadInvertsKeyword(j: Json, rest: Text)
    requires j.JNull? || j.JBool?
    ensures ReadValue(Write(j) + rest) == Reading(j, rest)
  {
    var t := Write(j) + rest;
    assert t[..|Write(j)|] == Write(j);
    assert t[|Write(j)|..] == rest;
  }

  lemma ReadInvertsNumber(lit: NumberText, rest: Text)
    requires Delimited(rest)
    ensures ReadValue(lit + rest) == Reading(JNumber(lit), rest)
  {
    var t := lit + rest;
    NumberLengthExact(lit, rest);
    assert t[..|lit|] == lit;
    assert t[|lit|..] == rest;
  }

  lemma ReadInvertsString(s: Text, rest: Text)
    ensures ReadValue(Quote(s) + rest) == Reading(JString(s), rest)
  {
    QuoteOpens(s, rest);
    ReadStringInvertsEscape(s, rest);
  }

  lemma QuoteOpens(s: Text, rest: Text)
    ensures (Quote(s) + rest)[1..] == Escape(s) + ([QUOTE] + rest)
  {
  }

  lemma BracketOpens(open: Unit, body: Text, close: Unit, rest: Text)
    ensures ([open] + body + [close] + rest)[1..] == body + ([close] + rest)
  {
  }

  lemma WriteStarts(j: Json)
    ensures Write(j) != [] && Write(j)[0] != RBRACKET
  {
  }

  /** The reader returns the written value and leaves what follows it. */
  lemma {:induction false} ReadInvertsWrite(j: Json, rest: Text)
    requires Delimited(rest)
    ensures ReadValue(Write(j) + rest) == Reading(j, rest)
    decreases j, 0
  {
    match j
    case JNull =>
      ReadInvertsKeyword(j, rest);
    case JBool(b) =>
      ReadInvertsKeyword(j, rest);
    case JNumber(lit) =>
      ReadInvertsNumber(lit, rest);
    case JString(s) =>
      ReadInvertsString(s, rest);
    case JArray(items) =>
      if items == [] { ReadInvertsEmpty(j, rest); } else { ReadInvertsArray(items, rest); }
    case JObject(members) =>
      if members == [] { ReadInvertsEmpty(j, rest); } else { ReadInvertsObject(members, rest); }
  }

  lemma ReadInvertsEmpty(j: Json, rest: Text)
    requires j == JArray([]) || j == JObject([])
    ensures ReadValue(Write(j) + rest) == Reading(j, rest)
  {
    assert (Write(j) + rest)[2..] == rest;
  }

  lemma {:induction false} ReadInvertsArray(items: seq<Json>, rest: Text)
    requires items != []
    ensures ReadValue(Write(JArray(items)) + rest) == Reading(JArray(items), rest)
    decreases items, 2
  {
    var body := JoinComma(WriteItems(items));
    ReadInvertsItems(items, rest);
    WriteStarts(items[0]);
    assert body[0] == Write(items[0])[0];
    BracketOpens(LBRACKET, body, RBRACKET, rest);
  }

  lemma {:induction false} ReadInvertsObject(members: seq<JMember>, rest: Text)
    requires members != []
    ensures ReadValue(Write(JObject(members)) + rest) == Reading(JObject(members), rest)
    decreases members, 2
  {
    var body := JoinComma(WriteMembers(members));
    ReadInvertsMembers(members, rest);
    assert body[0] == QUOTE;
    BracketOpens(LBRACE, body, RBRACE, rest);
  }

  lemma JoinMore(texts: seq<Text>, close: Text)
    requires |texts| > 1
    ensures JoinComma(texts) + close == texts[0] + ([COMMA] + (JoinComma(texts[1..]) + close))
  {
    var tail := JoinComma(texts[1..]);
    Regroup(texts[0] + [COMMA], tail, close);
    Regroup(texts[0], [COMMA], tail + close);
  }

  lemma ItemsText(items: seq<Json>, close: Text)
    requires |items| > 1
    ensures JoinComma(WriteItems(items)) + close ==
      Write(items[0]) + ([COMMA] + (JoinComma(WriteItems(items[1..])) + close))
  {
    JoinMore(WriteItems(items), close);
    assert WriteItems(items)[1..] == WriteItems(items[1..]);
  }

  lemma ReadMoreItems(head: Text, j: Json, tail: Text, js: seq<Json>, rest: Text)
    requires ReadValue(head + ([COMMA] + tail)) == Reading(j, [COMMA] + tail)
    requires ReadItems(tail) == Reading(js, rest)
    ensures ReadItems(head + ([COMMA] + tail)) == Reading([j] + js, rest)
  {
    assert ([COMMA] + tail)[1..] == tail;
  }

  lemma ReadLastItem(head: Text, j: Json, rest: Text)
    requires ReadValue(head + ([RBRACKET] + rest)) == Reading(j, [RBRACKET] + rest)
    ensures ReadItems(head + ([RBRACKET] + rest)) == Reading([j], rest)
  {
    assert ([RBRACKET] + rest)[1..] == rest;
  }

  lemma {:induction false} ReadInvertsItems(items: seq<Json>, rest: Text)
    requires items != []
    ensures ReadItems(JoinComma(WriteItems(items)) + ([RBRACKET] + rest)) == Reading(items, rest)
    decreases items, 1
  {
    var head, close := Write(items[0]), [RBRACKET] + rest;
    if |items| == 1 {
      ReadInvertsWrite(items[0], close);
      ReadLastItem(head, items[0], rest);
      assert items == [items[0]];
    } else {
      var tail := JoinComma(WriteItems(items[1..])) + close;
      ReadInvertsWrite(items[0], [COMMA] + tail);
      ReadInvertsItems(items[1..], rest);
      ReadMoreItems(head, items[0], tail, items[1..], rest);
      ItemsText(items, close);
      assert items == [items[0]] + items[1..];
    }
  }

  lemma ReadKeyAndValue(m: JMember, valueText: Text, rest: Text)
    requires ReadValue(valueText + rest) == Reading(m.value, rest)
    ensures ReadMember(Quote(m.key) + [COLON] + valueText + rest) == Reading(m, rest)
  {
    var afterKey := [COLON] + (valueText + rest);
    Regroup(Quote(m.key) + [COLON], valueText, rest);
    Regroup(Quote(m.key), [COLON], valueText + rest);
    QuoteOpens(m.key, afterKey);
    ReadStringInvertsEscape(m.key, afterKey);
    assert afterKey[1..] == valueText + rest;
  }

  lemma {:induction false} ReadInvertsMember(m: JMember, rest: Text)
    requires Delimited(rest)
    ensures ReadMember(WriteMember(m) + rest) == Reading(m, rest)
    decreases m, 1
  {
    ReadInvertsWrite(m.value, rest);
    ReadKeyAndValue(m, Write(m.value), rest);
  }

  lemma MembersText(members: seq<JMember>, close: Text)
    requires |members| > 1
    ensures JoinComma(WriteMembers(members)) + close ==
      WriteMember(members[0]) + ([COMMA] + (JoinComma(WriteMembers(members[1..])) + close))
  {
    JoinMore(WriteMembers(members), close);
    assert WriteMembers(members)[1..] == WriteMembers(members[1..]);
  }

  lemma ReadMembersStep(head: Text, tail: Text, members: seq<JMember>, rest: Text)
    requires members != []
    requires ReadMember(head + ([COMMA] + tail)) == Reading(members[0], [COMMA] + tail)
    requires ReadMembers(tail) == Reading(members[1..], rest)
    ensures ReadMembers(head + ([COMMA] + tail)) == Reading(members, rest)
  {
    assert ([COMMA] + tail)[1..] == tail;
    assert members == [members[0]] + members[1..];
  }

  lemma ReadMembersEnd(head: Text, members: seq<JMember>, rest: Text)
    requires |members| == 1
    requires ReadMember(head + ([RBRACE] + rest)) == Reading(members[0], [RBRACE] + rest)
    ensures ReadMembers(head + ([RBRACE] + rest)) == Reading(members, rest)
  {
    assert ([RBRACE] + rest)[1..] == rest;
    assert members == [members[0]];
  }

  lemma {:induction false} ReadInvertsMembers(members: seq<JMember>, rest: Text)
    requires members != []
    ensures ReadMembers(JoinComma(WriteMembers(members)) + ([RBRACE] + rest)) == Reading(members, rest)
    decreases members, 1
  {
    if |members| == 1 {
      ReadInvertsMember(members[0], [RBRACE] + rest);
      ReadMembersEnd(WriteMember(members[0]), members, rest);
      assert JoinComma(WriteMembers(members)) == WriteMember(members[0]);
    } else {
      ReadInvertsMembers(members[1..], rest);
      var tail := JoinComma(WriteMembers(members[1..])) + ([RBRACE] + rest);
      ReadInvertsMember(members[0], [COMMA] + tail);
      ReadMembersStep(WriteMember(members[0]), tail, members, rest);
      MembersText(members, [RBRACE] + rest);
    }
  }

  /** No two JSON values share a text. */
  lemma WriteInjective(a: Json, b: Json)
    requires Write(a) == Write(b)
    ensures a == b
  {
    ReadInvertsWrite(a, []);
    ReadInvertsWrite(b, []);
    assert Write(a) + [] == Write(b) + [];
  }

  // ----- the text survives UTF-8 -----

  lemma {:induction false} EscapeWellFormed(s: Text)
    ensures WellFormed(Escape(s))
  {
    if s == [] {
    } else if |s| >= 2 && High(s[0]) && Low(s[1]) {
      EscapeWellFormed(s[2..]);
      WellFormedConcat(s[..2], Escape(s[2..]));
    } else {
      EscapeWellFormed(s[1..]);
      PlainIsWellFormed(EscapeUnit(s[0]));
      WellFormedConcat(EscapeUnit(s[0]), Escape(s[1..]));
    }
  }

  lemma QuoteWellFormed(s: Text)
    ensures WellFormed(Quote(s))
  {
    EscapeWellFormed(s);
    WellFormedConcat([QUOTE], Escape(s));
    WellFormedConcat([QUOTE] + Escape(s), [QUOTE]);
  }

  lemma {:induction false} JoinWellFormed(texts: seq<Text>)
    requires forall i :: 0 <= i < |texts| ==> WellFormed(texts[i])
    ensures WellFormed(JoinComma(texts))
  {
    if |texts| > 1 {
      JoinWellFormed(texts[1..]);
      WellFormedConcat(texts[0], [COMMA]);
      WellFormedConcat(texts[0] + [COMMA], JoinComma(texts[1..]));
    }
  }

  /** A written text never holds a lone surrogate, so its UTF-8 bytes determine it. */
  lemma {:induction false} WriteWellFormed(j: Json)
    ensures WellFormed(Write(j))
    decreases j, 0
  {
    match j
    case JNull =>
      PlainIsWellFormed(NULL_TEXT);
    case JBool(b) =>
      PlainIsWellFormed(Write(j));
    case JNumber(lit) =>
      PlainIsWellFormed(lit);
    case JString(s) =>
      QuoteWellFormed(s);
    case JArray(items) =>
      ItemsWellFormed(items);
      BracketWellFormed(LBRACKET, WriteItems(items), RBRACKET);
    case JObject(members) =>
      MembersWellFormed(members);
      BracketWellFormed(LBRACE, WriteMembers(members), RBRACE);
  }

  lemma BracketWellFormed(open: Unit, texts: seq<Text>, close: Unit)
    requires !Surrogate(open) && !Surrogate(close)
    requires forall i :: 0 <= i < |texts| ==> WellFormed(texts[i])
    ensures WellFormed([open] + JoinComma(texts) + [close])
  {
    JoinWellFormed(texts);
    WellFormedConcat([open], JoinComma(texts));
    WellFormedConcat([open] + JoinComma(texts), [close]);
  }

  lemma {:induction false} ItemsWellFormed(items: seq<Json>)
    ensures forall i :: 0 <= i < |items| ==> WellFormed(WriteItems(items)[i])
    decreases items, 1
  {
    if items != [] {
      WriteWellFormed(items[0]);
      ItemsWellFormed(items[1..]);
    }
  }

  lemma {:induction false} MembersWellFormed(members: seq<JMember>)
    ensures forall i :: 0 <= i < |members| ==> WellFormed(WriteMembers(members)[i])
    decreases members, 1
  {
    if members != [] {
      var m := members[0];
      QuoteWellFormed(m.key);
      WellFormedConcat(Quote(m.key), [COLON]);
      WriteWellFormed(m.value);
      WellFormedConcat(Quote(m.key) + [COLON], Write(m.value));
      MembersWellFormed(members[1..]);
    }
  }
}
