/**
 Compact JSON as text and as UTF-8 bytes: what the exact size measurement is taken on. Text is a
 sequence of code points, lone surrogates included, because connector text may hold them.
 */
module JsonText {
  type CodePoint = c: nat | c < 0x11_0000
  type Text = seq<CodePoint>

  predicate IsSurrogate(c: CodePoint) { 0xD800 <= c < 0xE000 }

  /** Bytes of one code point under UTF-8 with `backslashreplace`: a surrogate becomes six ASCII characters. */
  function Utf8Bytes(c: CodePoint): (n: nat)
    ensures 1 <= n <= 6
  {
    if c < 0x80 then 1
    else if c < 0x800 then 2
    else if IsSurrogate(c) then 6
    else if c < 0x1_0000 then 3
    else 4
  }

  function Utf8Size(t: Text): nat {
    if t == [] then 0 else Utf8Bytes(t[0]) + Utf8Size(t[1..])
  }

  lemma {:induction false} Utf8SizeOfConcat(t: Text, u: Text)
    ensures Utf8Size(t + u) == Utf8Size(t) + Utf8Size(u)
  {
    if t == [] {
      assert t + u == u;
    } else {
      assert (t + u)[1..] == t[1..] + u;
      Utf8SizeOfConcat(t[1..], u);
    }
  }

  lemma {:induction false} Utf8SizeCoversLength(t: Text)
    ensures |t| <= Utf8Size(t)
  {
    if t != [] {
      Utf8SizeCoversLength(t[1..]);
    }
  }

  // ----- strings

  const QUOTE: CodePoint := 34
  const BACKSLASH: CodePoint := 92
  const COMMA: CodePoint := 44
  const COLON: CodePoint := 58

  function HexDigit(n: nat): CodePoint
    requires n < 16
  {
    if n < 10 then 48 + n else 87 + n
  }

  /** `\uXXXX`, the six visible characters of a code point below 0x10000. */
  function UnicodeEscape(c: CodePoint): (t: Text)
    requires c < 0x1_0000
    ensures |t| == 6
  {
    [BACKSLASH, 117, HexDigit(c / 4096), HexDigit(c / 256 % 16), HexDigit(c / 16 % 16), HexDigit(c % 16)]
  }

  /** One character inside a JSON string, non-ASCII kept as it is (section 7 of RFC 8259). */
  function JsonChar(c: CodePoint): (t: Text)
    ensures |t| >= 1
  {
    if c == QUOTE || c == BACKSLASH then [BACKSLASH, c]
    else if c == 10 then [BACKSLASH, 110]
    else if c == 13 then [BACKSLASH, 114]
    else if c == 9 then [BACKSLASH, 116]
    else if c == 8 then [BACKSLASH, 98]
    else if c == 12 then [BACKSLASH, 102]
    else if c < 32 then UnicodeEscape(c)
    else [c]
  }

  function JsonChars(t: Text): Text {
    if t == [] then [] else JsonChar(t[0]) + JsonChars(t[1..])
  }

  function JsonString(t: Text): Text {
    [QUOTE] + JsonChars(t) + [QUOTE]
  }

  lemma {:induction false} JsonCharsGrow(t: Text)
    ensures |t| <= |JsonChars(t)|
  {
    if t != [] {
      JsonCharsGrow(t[1..]);
    }
  }

  /** The bytes of a JSON string, split at its quotes. */
  lemma {:induction false} JsonStringSize(t: Text)
    ensures Utf8Size(JsonString(t)) == 2 + Utf8Size(JsonChars(t))
    ensures |t| + 2 <= Utf8Size(JsonString(t))
  {
    Utf8SizeOfConcat([QUOTE] + JsonChars(t), [QUOTE]);
    Utf8SizeOfConcat([QUOTE], JsonChars(t));
    assert Utf8Size([QUOTE]) == 1;
    JsonCharsGrow(t);
    Utf8SizeCoversLength(JsonChars(t));
  }

  /** Characters that JSON renders as one byte each. */
  predicate IsPlain(t: Text) {
    forall k :: 0 <= k < |t| ==> 32 <= t[k] < 128 && t[k] != QUOTE && t[k] != BACKSLASH
  }

  lemma {:induction false} PlainTextSize(t: Text)
    requires IsPlain(t)
    ensures Utf8Size(t) == |t| && JsonChars(t) == t
  {
    if t != [] {
      assert forall k :: 0 <= k < |t[1..]| ==> t[1..][k] == t[k + 1];
      PlainTextSize(t[1..]);
    }
  }

  /** Text with every lone surrogate spelled out, so that a strict UTF-8 encoder takes it. */
  function JsonSafeText(t: Text): (u: Text)
    ensures |t| <= |u|
  {
    if t == [] then []
    else (if IsSurrogate(t[0]) then UnicodeEscape(t[0]) else [t[0]]) + JsonSafeText(t[1..])
  }

  lemma {:induction false} SafeTextHasNoSurrogate(t: Text)
    ensures forall k :: 0 <= k < |JsonSafeText(t)| ==> !IsSurrogate(JsonSafeText(t)[k])
    ensures (forall k :: 0 <= k < |t| ==> !IsSurrogate(t[k])) ==> JsonSafeText(t) == t
  {
    if t != [] {
      SafeTextHasNoSurrogate(t[1..]);
      assert forall k :: 0 <= k < |t[1..]| ==> t[1..][k] == t[k + 1];
    }
  }

  // ----- numbers and bytes

  function Digits(n: nat): (t: Text)
    ensures IsPlain(t) && t != []
  {
    if n < 10 then [48 + n] else Digits(n / 10) + [48 + n % 10]
  }

  function IntText(n: int): (t: Text)
    ensures IsPlain(t) && t != []
  {
    if n < 0 then [45] + Digits(-n) else Digits(n)
  }

  type Byte = b: nat | b < 256

  function Base64Digit(n: nat): CodePoint
    requires n < 64
  {
    if n < 26 then 65 + n else if n < 52 then 71 + n else if n < 62 then n - 4 else if n == 62 then 43 else 47
  }

  function Base64Group(a: Byte, b: Byte, c: Byte): seq<CodePoint> {
    [Base64Digit(a / 4), Base64Digit(a % 4 * 16 + b / 16), Base64Digit(b % 16 * 4 + c / 64), Base64Digit(c % 64)]
  }

  /** Base 64 with padding (section 4 of RFC 4648). */
  function Base64(data: seq<Byte>): (t: Text)
    ensures |t| == 4 * ((|data| + 2) / 3) && IsPlain(t)
  {
    if data == [] then []
    else if |data| == 1 then Base64Group(data[0], 0, 0)[..2] + [61, 61]
    else if |data| == 2 then Base64Group(data[0], data[1], 0)[..3] + [61]
    else Base64Group(data[0], data[1], data[2]) + Base64(data[3..])
  }

  // ----- values

  /**
   A normalised value as `json.dumps` sees it: rendered bare (null, booleans, integers, finite
   floats), rendered as a string (text, and everything that goes through `default=str`), or a container.
   */
  datatype Json = Bare(text: Text) | Quoted(text: Text) | Object(members: seq<JsonMember>) | Array(items: seq<Json>)
  datatype JsonMember = JsonMember(key: Text, value: Json)

  /** Compact JSON: no blanks after separators. */
  function Render(j: Json): Text
    decreases j
  {
    match j
    case Bare(t) => t
    case Quoted(t) => JsonString(t)
    case Object(members) => [123] + RenderMembers(members) + [125]
    case Array(items) => [91] + RenderItems(items) + [93]
  }

  function RenderMember(m: JsonMember): Text
    decreases m
  {
    match m
    case JsonMember(key, value) => JsonString(key) + [COLON] + Render(value)
  }

  function RenderMembers(members: seq<JsonMember>): Text
    decreases members
  {
    if members == [] then []
    else if |members| == 1 then RenderMember(members[0])
    else RenderMember(members[0]) + [COMMA] + RenderMembers(members[1..])
  }

  function RenderItems(items: seq<Json>): Text
    decreases items
  {
    if items == [] then []
    else if |items| == 1 then Render(items[0])
    else Render(items[0]) + [COMMA] + RenderItems(items[1..])
  }

  /** The exact measurement. */
  function JsonBytes(j: Json): nat { Utf8Size(Render(j)) }

  lemma {:induction false} FramedSize(open: CodePoint, t: Text, close: CodePoint)
    requires open < 128 && close < 128
    ensures Utf8Size([open] + t + [close]) == 2 + Utf8Size(t)
  {
    Utf8SizeOfConcat([open] + t, [close]);
    Utf8SizeOfConcat([open], t);
    assert Utf8Size([open]) == 1 && Utf8Size([close]) == 1;
  }

  lemma {:induction false} JoinedSize(t: Text, separator: CodePoint, u: Text)
    requires separator < 128
    ensures Utf8Size(t + [separator] + u) == Utf8Size(t) + 1 + Utf8Size(u)
  {
    Utf8SizeOfConcat(t + [separator], u);
    Utf8SizeOfConcat(t, [separator]);
    assert Utf8Size([separator]) == 1;
  }

  function ItemBytes(items: seq<Json>): nat {
    if items == [] then 0 else JsonBytes(items[0]) + ItemBytes(items[1..])
  }

  /** What a list adds to its `count` items. */
  function FramingBytes(count: nat): nat { 2 + if count == 0 then 0 else count - 1 }

  /** The list form of rows costs the rows themselves and its framing. */
  lemma {:induction false} ArrayBytes(items: seq<Json>)
    ensures JsonBytes(Array(items)) == ItemBytes(items) + FramingBytes(|items|)
  {
    FramedSize(91, RenderItems(items), 93);
    RenderItemsBytes(items);
  }

  lemma {:induction false} RenderItemsBytes(items: seq<Json>)
    ensures Utf8Size(RenderItems(items)) == ItemBytes(items) + if items == [] then 0 else |items| - 1
  {
    if |items| > 1 {
      JoinedSize(Render(items[0]), COMMA, RenderItems(items[1..]));
      RenderItemsBytes(items[1..]);
    }
  }
}
