/**
 What a receiver makes of the text that is sent: a reader of compact JSON, written from RFC 8259, and
 the proof that it reads back what the renderer writes.
 */
module JsonReader {
  import opened Outcomes
  import opened JsonText

  // ----- values

  datatype Value =
    | NullValue
    | BoolValue(b: bool)
    | NumberValue(token: Text)
    | TextValue(text: Text)
    | ListValue(items: seq<Value>)
    | ObjectValue(members: seq<ValueMember>)
  datatype ValueMember = ValueMember(name: Text, value: Value)

  function Ascii(s: string): Text { seq(|s|, i requires 0 <= i < |s| => s[i] as int) }

  // ----- strings (section 7 of RFC 8259)

  function HexValue(c: CodePoint): Option<nat> {
    if '0' as int <= c <= '9' as int then Some(c - '0' as int)
    else if 'a' as int <= c <= 'f' as int then Some(c - 'a' as int + 10)
    else if 'A' as int <= c <= 'F' as int then Some(c - 'A' as int + 10)
    else None
  }

  /** The code unit that four hexadecimal digits name. */
  function HexOf(t: Text): (r: Option<CodePoint>)
    requires |t| == 4
  {
    var a, b, c, d := HexValue(t[0]), HexValue(t[1]), HexValue(t[2]), HexValue(t[3]);
    if a.Some? && b.Some? && c.Some? && d.Some? then
      var n := 4096 * a.value + 256 * b.value + 16 * c.value + d.value;
      if n < 0x11_0000 then Some(n) else None
    else None
  }

  /** What follows a backslash. */
  function ReadEscape(t: Text): (r: Option<(CodePoint, Text)>)
    ensures r.Some? ==> |r.value.1| < |t|
  {
    if t == [] then None
    else if t[0] == '"' as int || t[0] == '\\' as int || t[0] == '/' as int then Some((t[0], t[1..]))
    else if t[0] == 'b' as int then Some((8, t[1..]))
    else if t[0] == 'f' as int then Some((12, t[1..]))
    else if t[0] == 'n' as int then Some((10, t[1..]))
    else if t[0] == 'r' as int then Some((13, t[1..]))
    else if t[0] == 't' as int then Some((9, t[1..]))
    else if t[0] == 'u' as int && |t| >= 5 && HexOf(t[1..5]).Some? then Some((HexOf(t[1..5]).value, t[5..]))
    else None
  }

  /** The characters up to the closing quote, and what follows it. */
  function ReadChars(t: Text): (r: Option<(Text, Text)>)
    ensures r.Some? ==> |r.value.1| < |t|
    decreases |t|
  {
    if t == [] || t[0] < 32 then None
    else if t[0] == '"' as int then Some(([], t[1..]))
    else
      var first := if t[0] == '\\' as int then ReadEscape(t[1..]) else Some((t[0], t[1..]));
      if first == None then None
      else
        var more := ReadChars(first.value.1);
        if more == None then None else Some(([first.value.0] + more.value.0, more.value.1))
  }

  lemma HexDigitReads(n: nat)
    requires n < 16
    ensures HexValue(HexDigit(n)) == Some(n)
  {
  }

  lemma HexDigitsJoin(c: nat)
    ensures 4096 * (c / 4096) + 256 * (c / 256 % 16) + 16 * (c / 16 % 16) + c % 16 == c
  {
    assert c / 16 / 16 == c / 256 && c / 256 / 16 == c / 4096;
  }

  /** The four digits of a spelled-out code point name it. */
  lemma EscapeDigitsRead(c: CodePoint)
    requires c < 0x1_0000
    ensures HexOf(UnicodeEscape(c)[2..]) == Some(c)
  {
    HexDigitReads(c / 4096);
    HexDigitReads(c / 256 % 16);
    HexDigitReads(c / 16 % 16);
    HexDigitReads(c % 16);
    HexDigitsJoin(c);
  }

  lemma EscapeReads(c: CodePoint, x: Text)
    requires c < 0x1_0000
    ensures ReadEscape(UnicodeEscape(c)[1..] + x) == Some((c, x))
  {
    var t := UnicodeEscape(c)[1..] + x;
    EscapeDigitsRead(c);
    assert t[1..5] == UnicodeEscape(c)[2..];
    assert t[5..] == x;
  }

  /** A character and its escape, in front of what is read already. */
  lemma FirstReads(t: Text, c: CodePoint, x: Text, text: Text, rest: Text)
    requires ReadChars(x) == Some((text, rest)) && t != [] && t[0] >= 32 && t[0] != 34
    requires if t[0] == 92 then ReadEscape(t[1..]) == Some((c, x)) else t == [c] + x
    ensures ReadChars(t) == Some(([c] + text, rest))
  {
    if t[0] != 92 {
      assert t[1..] == x;
    }
  }

  lemma ShortEscapeReads(c: CodePoint, x: Text)
    requires |JsonChar(c)| == 2
    ensures JsonChar(c)[0] == 92 && ReadEscape([JsonChar(c)[1]] + x) == Some((c, x))
  {
    assert ([JsonChar(c)[1]] + x)[1..] == x;
  }

  lemma CharReads(c: CodePoint, x: Text, text: Text, rest: Text)
    requires ReadChars(x) == Some((text, rest))
    ensures ReadChars(JsonChar(c) + x) == Some(([c] + text, rest))
  {
    var t := JsonChar(c) + x;
    if |JsonChar(c)| == 2 {
      ShortEscapeReads(c, x);
      assert t[1..] == [JsonChar(c)[1]] + x;
    } else if |JsonChar(c)| == 6 {
      EscapeReads(c, x);
      assert t[1..] == UnicodeEscape(c)[1..] + x;
    }
    FirstReads(t, c, x, text, rest);
  }

  /** The text stands for the character inside a string: the character itself, or an escape of it. */
  predicate StandsFor(e: Text, c: CodePoint) {
    && e != []
    && if e[0] == '\\' as int then ReadEscape(e[1..]) == Some((c, []))
       else e == [c] && c >= 32 && c != '"' as int
  }

  /** Each character is written in its shortest form. */
  lemma ShortestForm(c: CodePoint, e: Text)
    requires StandsFor(e, c)
    ensures |JsonChar(c)| <= |e|
  {
  }

  /** A rendered string reads back as the text it was made of. */
  lemma {:induction false} CharsRead(t: Text, rest: Text)
    ensures ReadChars(JsonChars(t) + ([34] + rest)) == Some((t, rest))
  {
    if t == [] {
      NoCharsRead(JsonChars(t) + ([34] + rest), rest);
    } else {
      CharsRead(t[1..], rest);
      CharReads(t[0], JsonChars(t[1..]) + ([34] + rest), t[1..], rest);
      Reassociate(JsonChar(t[0]), JsonChars(t[1..]), [34] + rest);
      assert [t[0]] + t[1..] == t;
    }
  }

  lemma NoCharsRead(t: Text, rest: Text)
    requires t == [34] + rest
    ensures ReadChars(t) == Some(([], rest))
  {
    assert t[1..] == rest;
  }

  lemma Reassociate(a: Text, b: Text, c: Text)
    ensures (a + b) + c == a + (b + c)
  {
  }

  // ----- numbers and names (sections 3 and 6 of RFC 8259)

  predicate IsDigit(c: CodePoint) { '0' as int <= c <= '9' as int }

  function DigitsEnd(t: Text, i: nat): (e: nat)
    requires i <= |t|
    ensures i <= e <= |t| && (forall k :: i <= k < e ==> IsDigit(t[k])) && (e < |t| ==> !IsDigit(t[e]))
    decreases |t| - i
  {
    if i < |t| && IsDigit(t[i]) then DigitsEnd(t, i + 1) else i
  }

  predicate IsExponent(t: Text) {
    && |t| >= 2 && (t[0] == 'e' as int || t[0] == 'E' as int)
    && var i := if t[1] == '+' as int || t[1] == '-' as int then 2 else 1;
       i < |t| && DigitsEnd(t, i) == |t|
  }

  /** Digits without a leading zero, after an optional sign and before an optional fraction and exponent. */
  predicate IsNumber(t: Text) {
    && t != []
    && var i := if t[0] == '-' as int then 1 else 0;
       var j := DigitsEnd(t, i);
       var k := if j < |t| && t[j] == '.' as int then DigitsEnd(t, j + 1) else j;
       && i < j && (t[i] == '0' as int ==> j == i + 1)
       && (j < |t| && t[j] == '.' as int ==> j + 1 < k)
       && (k == |t| || IsExponent(t[k..]))
  }

  predicate InToken(c: CodePoint) {
    IsDigit(c) || 'a' as int <= c <= 'z' as int || 'A' as int <= c <= 'Z' as int ||
    c == '+' as int || c == '-' as int || c == '.' as int
  }

  function TokenEnd(t: Text, i: nat): (e: nat)
    requires i <= |t|
    ensures i <= e <= |t|
    decreases |t| - i
  {
    if i < |t| && InToken(t[i]) then TokenEnd(t, i + 1) else i
  }

  /** The value that a bare token names. */
  function TokenValue(t: Text): Option<Value> {
    if t == Ascii("null") then Some(NullValue)
    else if t == Ascii("true") then Some(BoolValue(true))
    else if t == Ascii("false") then Some(BoolValue(false))
    else if IsNumber(t) then Some(NumberValue(t))
    else None
  }

  // ----- values (sections 2, 4 and 5 of RFC 8259)

  /** One value at the front of the text, and what follows it. */
  function ReadValue(t: Text): (r: Option<(Value, Text)>)
    ensures r.Some? ==> |r.value.1| < |t|
    decreases |t|, 0
  {
    if t == [] then None
    else if t[0] == '"' as int then
      var s := ReadChars(t[1..]);
      if s == None then None else Some((TextValue(s.value.0), s.value.1))
    else if t[0] == '[' as int then
      if |t| > 1 && t[1] == ']' as int then Some((ListValue([]), t[2..]))
      else
        var items := ReadItems(t[1..]);
        if items == None then None else Some((ListValue(items.value.0), items.value.1))
    else if t[0] == '{' as int then
      if |t| > 1 && t[1] == '}' as int then Some((ObjectValue([]), t[2..]))
      else
        var members := ReadMembers(t[1..]);
        if members == None then None else Some((ObjectValue(members.value.0), members.value.1))
    else
      var e := TokenEnd(t, 0);
      if e == 0 || TokenValue(t[..e]) == None then None else Some((TokenValue(t[..e]).value, t[e..]))
  }

  /** Values between commas up to the closing bracket, at least one. */
  function ReadItems(t: Text): (r: Option<(seq<Value>, Text)>)
    ensures r.Some? ==> |r.value.1| < |t|
    decreases |t|, 1
  {
    var first := ReadValue(t);
    if first == None || first.value.1 == [] then None
    else if first.value.1[0] == ']' as int then Some(([first.value.0], first.value.1[1..]))
    else if first.value.1[0] == ',' as int then
      var more := ReadItems(first.value.1[1..]);
      if more == None then None else Some(([first.value.0] + more.value.0, more.value.1))
    else None
  }

  /** A quoted name, a colon and a value. */
  function ReadMember(t: Text): (r: Option<(ValueMember, Text)>)
    ensures r.Some? ==> |r.value.1| < |t|
    decreases |t|, 1
  {
    if t == [] || t[0] != '"' as int then None
    else
      var name := ReadChars(t[1..]);
      if name == None || name.value.1 == [] || name.value.1[0] != ':' as int then None
      else
        var value := ReadValue(name.value.1[1..]);
        if value == None then None else Some((ValueMember(name.value.0, value.value.0), value.value.1))
  }

  function ReadMembers(t: Text): (r: Option<(seq<ValueMember>, Text)>)
    ensures r.Some? ==> |r.value.1| < |t|
    decreases |t|, 2
  {
    var first := ReadMember(t);
    if first == None || first.value.1 == [] then None
    else if first.value.1[0] == '}' as int then Some(([first.value.0], first.value.1[1..]))
    else if first.value.1[0] == ',' as int then
      var more := ReadMembers(first.value.1[1..]);
      if more == None then None else Some(([first.value.0] + more.value.0, more.value.1))
    else None
  }

  // ----- the renderer read back

  /** Every bare text in it is a name or a number of JSON. */
  predicate IsReadable(j: Json)
    decreases j
  {
    match j
    case Bare(t) => TokenValue(t).Some?
    case Quoted(_) => true
    case Object(members) => MembersAreReadable(members)
    case Array(items) => ItemsAreReadable(items)
  }

  predicate MemberIsReadable(m: JsonMember)
    decreases m
  {
    match m
    case JsonMember(_, value) => IsReadable(value)
  }

  predicate MembersAreReadable(members: seq<JsonMember>)
    decreases members
  {
    members == [] || (MemberIsReadable(members[0]) && MembersAreReadable(members[1..]))
  }

  predicate ItemsAreReadable(items: seq<Json>)
    decreases items
  {
    items == [] || (IsReadable(items[0]) && ItemsAreReadable(items[1..]))
  }

  function ValueOf(j: Json): Value
    requires IsReadable(j)
    decreases j
  {
    match j
    case Bare(t) => TokenValue(t).value
    case Quoted(t) => TextValue(t)
    case Object(members) => ObjectValue(ValuesOfMembers(members))
    case Array(items) => ListValue(ValuesOf(items))
  }

  function ValueOfMember(m: JsonMember): ValueMember
    requires MemberIsReadable(m)
    decreases m
  {
    match m
    case JsonMember(key, value) => ValueMember(key, ValueOf(value))
  }

  function ValuesOfMembers(members: seq<JsonMember>): (r: seq<ValueMember>)
    requires MembersAreReadable(members)
    ensures |r| == |members|
    decreases members
  {
    if members == [] then [] else [ValueOfMember(members[0])] + ValuesOfMembers(members[1..])
  }

  function ValuesOf(items: seq<Json>): (r: seq<Value>)
    requires ItemsAreReadable(items)
    ensures |r| == |items|
    decreases items
  {
    if items == [] then [] else [ValueOf(items[0])] + ValuesOf(items[1..])
  }

  /** What may follow a value: nothing, a comma or a closing mark. */
  predicate Follows(rest: Text) { rest == [] || !InToken(rest[0]) }

  lemma {:induction false} TokenEnds(t: Text, rest: Text, i: nat)
    requires i <= |t| && (forall k :: 0 <= k < |t| ==> InToken(t[k])) && Follows(rest)
    ensures TokenEnd(t + rest, i) == |t|
    decreases |t| - i
  {
    if i < |t| {
      TokenEnds(t, rest, i + 1);
    }
  }

  ghost predicate AllInToken(t: Text) { forall k :: 0 <= k < |t| ==> InToken(t[k]) }

  lemma ExponentIsToken(t: Text)
    requires IsExponent(t)
    ensures AllInToken(t)
  {
  }

  lemma NumberIsToken(t: Text)
    requires IsNumber(t)
    ensures AllInToken(t)
  {
    var i := if t[0] == '-' as int then 1 else 0;
    var j := DigitsEnd(t, i);
    var k := if j < |t| && t[j] == '.' as int then DigitsEnd(t, j + 1) else j;
    assert AllInToken(t[..k]);
    if k < |t| {
      ExponentIsToken(t[k..]);
      PartsAreToken(t, k);
    } else {
      assert t[..k] == t;
    }
  }

  lemma PartsAreToken(t: Text, k: nat)
    requires k <= |t| && AllInToken(t[..k]) && AllInToken(t[k..])
    ensures AllInToken(t)
  {
    assert t == t[..k] + t[k..];
  }

  lemma TokenReads(t: Text, rest: Text)
    requires TokenValue(t).Some? && Follows(rest)
    ensures ReadValue(t + rest) == Some((TokenValue(t).value, rest))
  {
    if IsNumber(t) {
      NumberIsToken(t);
    }
    assert t != [] && forall k :: 0 <= k < |t| ==> InToken(t[k]);
    TokenEnds(t, rest, 0);
    assert (t + rest)[..|t|] == t && (t + rest)[|t|..] == rest;
  }

  lemma StringReads(t: Text, rest: Text)
    ensures ReadValue(JsonString(t) + rest) == Some((TextValue(t), rest))
  {
    CharsRead(t, rest);
    Framed(34, JsonChars(t), 34, rest);
    assert ([34] + (JsonChars(t) + ([34] + rest)))[1..] == JsonChars(t) + ([34] + rest);
  }

  /** The reader takes a rendered value, whatever it holds, back to the value, and stops where it ends. */
  lemma {:induction false} RenderReads(j: Json, rest: Text)
    requires IsReadable(j) && Follows(rest)
    ensures ReadValue(Render(j) + rest) == Some((ValueOf(j), rest))
    decreases j, 2
  {
    match j
    case Bare(t) => TokenReads(t, rest);
    case Quoted(t) => StringReads(t, rest);
    case Object(members) => ObjectReads(members, rest);
    case Array(items) => ArrayReads(items, rest);
  }

  lemma Framed(open: CodePoint, x: Text, close: CodePoint, rest: Text)
    ensures ([open] + x + [close]) + rest == [open] + (x + ([close] + rest))
  {
  }

  lemma {:induction false} ArrayReads(items: seq<Json>, rest: Text)
    requires ItemsAreReadable(items)
    ensures ReadValue(Render(Array(items)) + rest) == Some((ListValue(ValuesOf(items)), rest))
    decreases items, 1
  {
    var t := Render(Array(items)) + rest;
    Framed(91, RenderItems(items), 93, rest);
    if items == [] {
      EmptyReads(t, rest);
    } else {
      ItemsRead(items, rest);
      ItemsOpen(items, [93] + rest);
      ListReads(t, RenderItems(items) + ([93] + rest), ValuesOf(items), rest);
    }
  }

  lemma EmptyReads(t: Text, rest: Text)
    ensures t == [91, 93] + rest ==> ReadValue(t) == Some((ListValue([]), rest))
    ensures t == [123, 125] + rest ==> ReadValue(t) == Some((ObjectValue([]), rest))
  {
    if |t| >= 2 && t[2..] == rest {
    }
  }

  lemma ListReads(t: Text, x: Text, vs: seq<Value>, rest: Text)
    requires t == [91] + x && x != [] && x[0] != 93 && ReadItems(x) == Some((vs, rest))
    ensures ReadValue(t) == Some((ListValue(vs), rest))
  {
    assert t[1..] == x;
  }

  lemma MappingReads(t: Text, x: Text, vs: seq<ValueMember>, rest: Text)
    requires t == [123] + x && x != [] && x[0] != 125 && ReadMembers(x) == Some((vs, rest))
    ensures ReadValue(t) == Some((ObjectValue(vs), rest))
  {
    assert t[1..] == x;
  }

  /** A rendered value does not start with a closing mark. */
  lemma {:induction false} RenderOpens(j: Json)
    requires IsReadable(j)
    ensures Render(j) != [] && Render(j)[0] != 93 && Render(j)[0] != 125
  {
    if j.Bare? && IsNumber(j.text) {
      NumberIsToken(j.text);
    }
  }

  lemma {:induction false} ItemsOpen(items: seq<Json>, rest: Text)
    requires ItemsAreReadable(items) && items != []
    ensures RenderItems(items) != [] && (RenderItems(items) + rest)[0] != 93
  {
    RenderOpens(items[0]);
  }

  lemma Regroup(a: Text, c: CodePoint, b: Text, rest: Text)
    ensures (a + [c] + b) + rest == a + ([c] + (b + rest))
  {
  }

  /** The last item, and one before others. */
  lemma LastItem(t: Text, v: Value, rest: Text)
    requires ReadValue(t) == Some((v, [93] + rest))
    ensures ReadItems(t) == Some(([v], rest))
  {
    assert ([93] + rest)[1..] == rest;
  }

  lemma OneMoreItem(t: Text, v: Value, x: Text, vs: seq<Value>, rest: Text)
    requires ReadValue(t) == Some((v, [44] + x)) && ReadItems(x) == Some((vs, rest))
    ensures ReadItems(t) == Some(([v] + vs, rest))
  {
    assert ([44] + x)[1..] == x;
  }

  lemma {:induction false} ItemsRead(items: seq<Json>, rest: Text)
    requires ItemsAreReadable(items) && items != []
    ensures ReadItems(RenderItems(items) + ([93] + rest)) == Some((ValuesOf(items), rest))
    decreases items, 0
  {
    var t := RenderItems(items) + ([93] + rest);
    if |items| == 1 {
      RenderReads(items[0], [93] + rest);
      LastItem(t, ValueOf(items[0]), rest);
      assert ValuesOf(items) == [ValueOf(items[0])];
    } else {
      var x := RenderItems(items[1..]) + ([93] + rest);
      ItemsRead(items[1..], rest);
      RenderReads(items[0], [44] + x);
      Regroup(Render(items[0]), COMMA, RenderItems(items[1..]), [93] + rest);
      OneMoreItem(t, ValueOf(items[0]), x, ValuesOf(items[1..]), rest);
    }
  }

  lemma {:induction false} ObjectReads(members: seq<JsonMember>, rest: Text)
    requires MembersAreReadable(members)
    ensures ReadValue(Render(Object(members)) + rest) == Some((ObjectValue(ValuesOfMembers(members)), rest))
    decreases members, 2
  {
    var t := Render(Object(members)) + rest;
    Framed(123, RenderMembers(members), 125, rest);
    if members == [] {
      EmptyReads(t, rest);
    } else {
      MembersRead(members, rest);
      MembersOpen(members, [125] + rest);
      MappingReads(t, RenderMembers(members) + ([125] + rest), ValuesOfMembers(members), rest);
    }
  }

  lemma {:induction false} MembersOpen(members: seq<JsonMember>, rest: Text)
    requires members != []
    ensures RenderMembers(members) != [] && (RenderMembers(members) + rest)[0] == 34
  {
    var key := members[0].key;
    assert RenderMember(members[0])[0] == JsonString(key)[0];
  }

  lemma MemberStep(t: Text, key: Text, v: Value, x: Text, rest: Text)
    requires t != [] && t[0] == 34 && ReadChars(t[1..]) == Some((key, [58] + x)) && ReadValue(x) == Some((v, rest))
    ensures ReadMember(t) == Some((ValueMember(key, v), rest))
  {
    assert ([58] + x)[1..] == x;
  }

  lemma {:induction false} MemberReads(m: JsonMember, rest: Text)
    requires MemberIsReadable(m) && Follows(rest)
    ensures ReadMember(RenderMember(m) + rest) == Some((ValueOfMember(m), rest))
    decreases m
  {
    match m
    case JsonMember(key, value) =>
      var x := Render(value) + rest;
      var t := RenderMember(m) + rest;
      RenderReads(value, rest);
      MemberLayout(key, Render(value), rest, t, x);
      MemberStep(t, key, ValueOf(value), x, rest);
  }

  lemma MemberLayout(key: Text, value: Text, rest: Text, t: Text, x: Text)
    requires t == JsonString(key) + [58] + value + rest && x == value + rest
    ensures t[0] == 34 && ReadChars(t[1..]) == Some((key, [58] + x))
  {
    CharsRead(key, [58] + x);
    assert t[1..] == JsonChars(key) + ([34] + ([58] + x));
  }

  lemma LastMember(t: Text, v: ValueMember, rest: Text)
    requires ReadMember(t) == Some((v, [125] + rest))
    ensures ReadMembers(t) == Some(([v], rest))
  {
    assert ([125] + rest)[1..] == rest;
  }

  lemma OneMoreMember(t: Text, v: ValueMember, x: Text, vs: seq<ValueMember>, rest: Text)
    requires ReadMember(t) == Some((v, [44] + x)) && ReadMembers(x) == Some((vs, rest))
    ensures ReadMembers(t) == Some(([v] + vs, rest))
  {
    assert ([44] + x)[1..] == x;
  }

  lemma {:induction false} MembersRead(members: seq<JsonMember>, rest: Text)
    requires MembersAreReadable(members) && members != []
    ensures ReadMembers(RenderMembers(members) + ([125] + rest)) == Some((ValuesOfMembers(members), rest))
    decreases members, 1
  {
    var t := RenderMembers(members) + ([125] + rest);
    if |members| == 1 {
      MemberReads(members[0], [125] + rest);
      LastMember(t, ValueOfMember(members[0]), rest);
      assert ValuesOfMembers(members) == [ValueOfMember(members[0])];
    } else {
      var x := RenderMembers(members[1..]) + ([125] + rest);
      MembersRead(members[1..], rest);
      MemberReads(members[0], [44] + x);
      Regroup(RenderMember(members[0]), COMMA, RenderMembers(members[1..]), [125] + rest);
      OneMoreMember(t, ValueOfMember(members[0]), x, ValuesOfMembers(members[1..]), rest);
    }
  }

  // ----- integers

  predicate AllDigits(t: Text) { forall k :: 0 <= k < |t| ==> IsDigit(t[k]) }

  function NaturalOf(t: Text): nat
    requires AllDigits(t)
  {
    if t == [] then 0 else 10 * NaturalOf(t[..|t| - 1]) + (t[|t| - 1] - '0' as int)
  }

  /** The integer a token names, when it names one. */
  function IntegerOf(t: Text): Option<int> {
    if t != [] && AllDigits(t) then Some(NaturalOf(t))
    else if |t| > 1 && t[0] == '-' as int && AllDigits(t[1..]) then Some(0 as int - NaturalOf(t[1..]))
    else None
  }

  lemma {:induction false} DigitsRead(n: nat)
    ensures AllDigits(Digits(n)) && NaturalOf(Digits(n)) == n
    ensures Digits(n)[0] == 48 ==> |Digits(n)| == 1
  {
    var t := Digits(n);
    if n < 10 {
      assert t[..|t| - 1] == [];
    } else {
      DigitsRead(n / 10);
      assert t[..|t| - 1] == Digits(n / 10);
      assert t[0] == Digits(n / 10)[0];
      if |Digits(n / 10)| == 1 {
        assert Digits(n / 10)[..0] == [];
      }
    }
  }

  lemma {:induction false} DigitsEndAll(t: Text, i: nat)
    requires i <= |t| && forall k :: i <= k < |t| ==> IsDigit(t[k])
    ensures DigitsEnd(t, i) == |t|
    decreases |t| - i
  {
    if i < |t| {
      DigitsEndAll(t, i + 1);
    }
  }

  lemma NaturalReads(t: Text, n: nat)
    requires t == Digits(n)
    ensures IsNumber(t) && IntegerOf(t) == Some(n)
  {
    DigitsRead(n);
    DigitsEndAll(t, 0);
  }

  lemma NegativeReads(t: Text, u: Text, n: nat)
    requires t == [45] + u && u == Digits(n)
    ensures IsNumber(t) && IntegerOf(t) == Some(0 as int - n)
  {
    DigitsRead(n);
    assert t[1..] == u;
    assert forall k :: 1 <= k < |t| ==> t[k] == u[k - 1];
    DigitsEndAll(t, 1);
    assert !IsDigit(t[0]);
  }

  /** A printed integer is a number of JSON and reads back as the integer. */
  lemma IntegerReads(n: int)
    ensures IsNumber(IntText(n)) && TokenValue(IntText(n)) == Some(NumberValue(IntText(n)))
    ensures IntegerOf(IntText(n)) == Some(n)
  {
    if n < 0 {
      NegativeReads(IntText(n), Digits(-n), -n);
    } else {
      NaturalReads(IntText(n), n);
    }
    NumberIsNoName(IntText(n));
  }

  lemma NumberIsNoName(t: Text)
    requires IsNumber(t)
    ensures TokenValue(t) == Some(NumberValue(t))
  {
    assert t[0] == 45 || IsDigit(t[0]);
  }
}
