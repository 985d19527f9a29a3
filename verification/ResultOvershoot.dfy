/**
 How far the size estimate may fall short: a fetch that stops on its estimate holds at most a fixed
 multiple of the cap. The factor is 6 while nothing is cut at the nesting cap and no text holds a lone
 surrogate, 7 while nothing is cut, and 16 in general.
 */
module ResultOvershoot {
  import opened JsonText
  import opened ResultRows
  import opened ResultBounds

  // ----- what is known of the data

  predicate NotSurrogate(c: CodePoint) { !IsSurrogate(c) }

  ghost predicate HasNoSurrogate(alphabet: CodePoint -> bool) {
    forall c: CodePoint :: alphabet(c) ==> NotSurrogate(c)
  }

  predicate TextOver(t: Text, alphabet: CodePoint -> bool) {
    forall k :: 0 <= k < |t| ==> alphabet(t[k])
  }

  /** Connector text of a value that is made safe on its way into the result. */
  predicate ScalarOver(s: Scalar, alphabet: CodePoint -> bool) {
    match s
    case Str(text) => TextOver(text, alphabet)
    case Other(text) => TextOver(text, alphabet)
    case _ => true
  }

  /** A key is made safe whatever its type. */
  predicate KeyOver(k: Scalar, alphabet: CodePoint -> bool) {
    match k
    case Str(text) => TextOver(text, alphabet)
    case Other(text) => TextOver(text, alphabet)
    case Native(text) => TextOver(text, alphabet)
    case Float(repr, _) => TextOver(repr, alphabet)
    case _ => true
  }

  /** All text of a cell that is made safe, keys included, is over the alphabet. */
  predicate CellOver(v: Cell, alphabet: CodePoint -> bool)
    decreases v
  {
    match v
    case Leaf(s) => ScalarOver(s, alphabet)
    case Dict(members) => MembersOver(members, alphabet)
    case Items(items) => ItemsOver(items, alphabet)
  }

  predicate MemberOver(m: Member, alphabet: CodePoint -> bool)
    decreases m
  {
    match m
    case Member(key, value) => KeyOver(key, alphabet) && CellOver(value, alphabet)
  }

  predicate MembersOver(members: seq<Member>, alphabet: CodePoint -> bool)
    decreases members
  {
    members == [] || (MemberOver(members[0], alphabet) && MembersOver(members[1..], alphabet))
  }

  predicate ItemsOver(items: seq<Cell>, alphabet: CodePoint -> bool)
    decreases items
  {
    items == [] || (CellOver(items[0], alphabet) && ItemsOver(items[1..], alphabet))
  }

  predicate RowOver(row: Row, alphabet: CodePoint -> bool) {
    row == [] ||
    (TextOver(row[0].name, alphabet) && CellOver(row[0].cell, alphabet) && RowOver(row[1..], alphabet))
  }

  /** Nothing is cut and all text is over the alphabet; nothing is cut; anything. */
  datatype Data = Clean(alphabet: CodePoint -> bool) | Uncut | Anything
  {
    /** A clean alphabet has no surrogates. */
    ghost predicate Sound() { Clean? ==> HasNoSurrogate(alphabet) }

    /** What the nesting cap replaces, against what it may replace. */
    predicate Allows(capped: nat) { Anything? || capped == 0 }

    predicate AllowsCell(v: Cell, depth: nat) {
      Allows(CappedContainers(v, depth)) && (Clean? ==> CellOver(v, alphabet))
    }

    predicate AllowsItems(items: seq<Cell>, depth: nat) {
      Allows(CappedInItems(items, depth)) && (Clean? ==> ItemsOver(items, alphabet))
    }

    predicate AllowsMember(m: Member, depth: nat) {
      Allows(CappedInMember(m, depth)) && (Clean? ==> MemberOver(m, alphabet))
    }

    predicate AllowsMembers(members: seq<Member>, depth: nat) {
      Allows(CappedInMembers(members, depth)) && (Clean? ==> MembersOver(members, alphabet))
    }

    predicate AllowsRow(row: Row) {
      Allows(CappedInRow(row)) && (Clean? ==> RowOver(row, alphabet))
    }
  }

  /** `bytes` within the factor of `approx` that the data warrants. */
  predicate Within(data: Data, bytes: nat, approx: nat) {
    match data
    case Clean(_) => bytes <= 6 * approx
    case Uncut => bytes <= 7 * approx
    case Anything => bytes <= 16 * approx
  }

  /** One member more, with its comma and colon, on top of `n`. */
  lemma {:induction false} AddOvershoot(data: Data, w1: nat, a1: nat, w2: nat, a2: nat, n: nat)
    requires Within(data, w1, a1 + 2) && Within(data, w2, a2 + 2 * n)
    ensures Within(data, w1 + w2, a1 + a2 + 2 * (n + 1))
  {
  }

  // ----- text

  lemma {:induction false} JsonCharsOfConcat(t: Text, u: Text)
    ensures JsonChars(t + u) == JsonChars(t) + JsonChars(u)
  {
    if t == [] {
      assert t + u == u;
    } else {
      assert (t + u)[1..] == t[1..] + u;
      JsonCharsOfConcat(t[1..], u);
    }
  }

  lemma {:induction false} AsciiSize(t: Text)
    requires forall k :: 0 <= k < |t| ==> t[k] < 128
    ensures Utf8Size(t) == |t|
  {
    if t != [] {
      AsciiSize(t[1..]);
    }
  }

  lemma {:induction false} CharCost(c: CodePoint)
    ensures Utf8Size(JsonChar(c)) <= 6
  {
    if c < 128 {
      AsciiSize(JsonChar(c));
    } else {
      assert [c][1..] == [];
    }
  }

  /** A character of text costs at most six bytes inside a JSON string. */
  lemma {:induction false} TextCost(t: Text)
    ensures Utf8Size(JsonChars(t)) <= 6 * |t|
  {
    if t != [] {
      CharCost(t[0]);
      Utf8SizeOfConcat(JsonChar(t[0]), JsonChars(t[1..]));
      TextCost(t[1..]);
    }
  }

  /** A lone surrogate is spelled out in six characters, of which JSON doubles the backslash. */
  lemma {:induction false} SurrogateCost(c: CodePoint)
    requires IsSurrogate(c)
    ensures Utf8Size(JsonChars(UnicodeEscape(c))) == 7
  {
    var t := UnicodeEscape(c);
    assert t == [BACKSLASH] + t[1..];
    assert IsPlain(t[1..]);
    PlainTextSize(t[1..]);
    Utf8SizeOfConcat([BACKSLASH, BACKSLASH], t[1..]);
    AsciiSize([BACKSLASH, BACKSLASH]);
  }

  /** A character of text costs at most seven bytes once it has been made safe. */
  lemma {:induction false} SafeTextCost(t: Text)
    ensures Utf8Size(JsonChars(JsonSafeText(t))) <= 7 * |t|
  {
    if t != [] {
      var head := if IsSurrogate(t[0]) then UnicodeEscape(t[0]) else [t[0]];
      JsonCharsOfConcat(head, JsonSafeText(t[1..]));
      Utf8SizeOfConcat(JsonChars(head), JsonChars(JsonSafeText(t[1..])));
      if IsSurrogate(t[0]) {
        SurrogateCost(t[0]);
      } else {
        TextCost([t[0]]);
      }
      SafeTextCost(t[1..]);
    }
  }

  /** At most six when it holds no lone surrogate. */
  lemma {:induction false} CleanTextCost(t: Text, alphabet: CodePoint -> bool)
    requires TextOver(t, alphabet) && HasNoSurrogate(alphabet)
    ensures JsonSafeText(t) == t && Utf8Size(JsonChars(JsonSafeText(t))) <= 6 * |t|
  {
    assert forall k :: 0 <= k < |t| ==> NotSurrogate(t[k]);
    SafeTextHasNoSurrogate(t);
    TextCost(t);
  }

  /** Text in any data. */
  lemma {:induction false} TextOvershoot(t: Text, data: Data)
    requires data.Sound() && (data.Clean? ==> TextOver(t, data.alphabet))
    ensures Within(data, Utf8Size(JsonString(JsonSafeText(t))) + 1, |t| + 3)
    ensures data.Clean? ==> JsonSafeText(t) == t
  {
    JsonStringSize(JsonSafeText(t));
    SafeTextCost(t);
    if data.Clean? {
      CleanTextCost(t, data.alphabet);
    }
  }

  lemma {:induction false} PlainSafeText(t: Text)
    requires IsPlain(t)
    ensures JsonSafeText(t) == t && Utf8Size(JsonString(t)) == |t| + 2
  {
    SafeTextHasNoSurrogate(t);
    PlainTextSize(t);
    JsonStringSize(t);
  }

  // ----- scalars and keys

  lemma {:induction false} BareTextCost(t: Text)
    ensures Utf8Size(t) <= 6 * |t|
  {
    if t != [] {
      BareTextCost(t[1..]);
    }
  }

  lemma {:induction false} ScalarOvershoot(s: Scalar, data: Data)
    requires data.Sound() && (data.Clean? ==> ScalarOver(s, data.alphabet))
    ensures Within(data, JsonBytes(NormaliseScalar(s)) + 1, ApproxScalar(s) + 1)
  {
    match s
    case Null => PlainTextSize(NULL_TEXT);
    case Boolean(b) => PlainTextSize(if b then TRUE_TEXT else FALSE_TEXT);
    case Integer(n) => PlainTextSize(IntText(n));
    case Float(repr, finite) =>
      BareTextCost(repr);
      TextCost(repr);
      JsonStringSize(repr);
    case Str(text) => TextOvershoot(text, data);
    case Binary(bytes) => PlainSafeText(Base64(bytes));
    case Native(text) =>
      TextCost(text);
      JsonStringSize(text);
    case Other(text) => TextOvershoot(text, data);
  }

  lemma {:induction false} KeyOvershoot(k: Scalar, data: Data)
    requires data.Sound() && (data.Clean? ==> KeyOver(k, data.alphabet))
    ensures Within(data, Utf8Size(JsonString(KeyText(k))) + 1, ApproxKeySize(k) + 1)
  {
    match k
    case Str(text) =>
      SafeTextIsSafe(text);
      TextOvershoot(text, data);
    case Other(text) =>
      SafeTextIsSafe(text);
      TextOvershoot(text, data);
    case Binary(bytes) => PlainSafeText(Base64(bytes));
    case Native(text) => TextOvershoot(text, data);
    case Float(repr, _) => TextOvershoot(repr, data);
    case _ => PlainSafeText(BareText(k));
  }

  /** Making safe text safe again changes nothing. */
  lemma {:induction false} SafeTextIsSafe(t: Text)
    ensures JsonSafeText(JsonSafeText(t)) == JsonSafeText(t)
  {
    SafeTextHasNoSurrogate(t);
    SafeTextHasNoSurrogate(JsonSafeText(t));
  }

  // ----- mappings keep no more than their pairs

  function Weight(members: seq<JsonMember>): nat { MembersBytes(members) + 2 * |members| }

  lemma {:induction false} WeightOfHead(members: seq<JsonMember>)
    requires members != []
    ensures Weight(members) ==
            Utf8Size(JsonString(members[0].key)) + JsonBytes(members[0].value) + 2 + Weight(members[1..])
  {
  }

  lemma {:induction false} PutWeight(members: seq<JsonMember>, key: Text, value: Json)
    ensures Put(members, key, value) != []
    ensures Weight(Put(members, key, value)) <= Weight(members) + Utf8Size(JsonString(key)) + JsonBytes(value) + 2
  {
    var r := Put(members, key, value);
    WeightOfHead(r);
    if members == [] {
      assert r[1..] == [];
    } else {
      WeightOfHead(members);
      if members[0].key == key {
        assert r[1..] == members[1..];
      } else {
        PutWeight(members[1..], key, value);
        assert r[1..] == Put(members[1..], key, value);
      }
    }
  }

  lemma {:induction false} PutAllWeight(done: seq<JsonMember>, pairs: seq<JsonMember>)
    ensures Weight(PutAll(done, pairs)) <= Weight(done) + Weight(pairs)
    ensures PutAll(done, pairs) == [] ==> pairs == []
    decreases pairs
  {
    if pairs != [] {
      PutWeight(done, pairs[0].key, pairs[0].value);
      WeightOfHead(pairs);
      PutAllWeight(Put(done, pairs[0].key, pairs[0].value), pairs[1..]);
      PutAllNonEmpty(Put(done, pairs[0].key, pairs[0].value), pairs[1..]);
    }
  }

  lemma {:induction false} PutAllNonEmpty(done: seq<JsonMember>, pairs: seq<JsonMember>)
    requires done != []
    ensures PutAll(done, pairs) != []
    decreases pairs
  {
    if pairs != [] {
      PutWeight(done, pairs[0].key, pairs[0].value);
      PutAllNonEmpty(Put(done, pairs[0].key, pairs[0].value), pairs[1..]);
    }
  }

  lemma {:induction false} MappingOvershoot(pairs: seq<JsonMember>, approx: nat, data: Data)
    requires Within(data, Weight(pairs), approx + 2 * |pairs|)
    ensures Within(data, JsonBytes(Object(PutAll([], pairs))) + 1, 2 + approx + ObjectSeparatorBytes(|pairs|) + 1)
    ensures Within(data, JsonBytes(Object(PutAll([], pairs))), 2 + approx + ObjectSeparatorBytes(|pairs|))
  {
    var kept := PutAll([], pairs);
    PutAllWeight([], pairs);
    ObjectBytes(kept);
  }

  // ----- cells

  /**
   A normalised cell of any shape and nesting costs at most 16 times its estimate, at most 7 times
   when none of its containers is cut, one byte being granted to both for the comma that follows.
   No condition on keys or texts is needed.
   */
  lemma {:induction false} CellOvershoot(v: Cell, depth: nat, data: Data)
    requires data.Sound() && data.AllowsCell(v, depth)
    ensures Within(data, JsonBytes(Normalise(v, depth)) + 1, ApproxSize(v, depth) + 1)
    decreases v
  {
    if v.Leaf? {
      ScalarOvershoot(v.scalar, data);
    } else if depth >= MAX_CELL_NESTING_DEPTH {
      CutCellBytes(v, depth);
    } else {
      match v
      case Dict(members) =>
        MembersOvershoot(members, depth, data);
        MappingOvershoot(NormaliseMembers(members, depth), ApproxMembers(members, depth), data);
      case Items(items) =>
        ItemsOvershoot(items, depth + 1, data);
        ListOvershoot(items, depth, data);
    }
  }

  lemma {:induction false} PlainStringBytes(t: Text)
    requires IsPlain(t)
    ensures JsonBytes(Quoted(t)) == |t| + 2
  {
    JsonStringSize(t);
    PlainTextSize(t);
  }

  lemma {:induction false} PlaceholderIsPlain()
    ensures |NESTING_DEPTH_PLACEHOLDER| == 45 && IsPlain(NESTING_DEPTH_PLACEHOLDER)
  {
    HeadIsPlain();
    MiddleIsPlain();
    TailIsPlain();
    PlainConcat(PLACEHOLDER_HEAD, PLACEHOLDER_MIDDLE);
    PlainConcat(PLACEHOLDER_HEAD + PLACEHOLDER_MIDDLE, PLACEHOLDER_TAIL);
  }

  lemma {:induction false} PlainConcat(t: Text, u: Text)
    requires IsPlain(t) && IsPlain(u)
    ensures IsPlain(t + u)
  {
  }

  lemma {:induction false} HeadIsPlain()
    ensures |PLACEHOLDER_HEAD| == 14 && IsPlain(PLACEHOLDER_HEAD)
  {
  }

  lemma {:induction false} MiddleIsPlain()
    ensures |PLACEHOLDER_MIDDLE| == 16 && IsPlain(PLACEHOLDER_MIDDLE)
  {
  }

  lemma {:induction false} TailIsPlain()
    ensures |PLACEHOLDER_TAIL| == 15 && IsPlain(PLACEHOLDER_TAIL)
  {
  }

  /** A cut container is estimated at its quotes and rendered as the placeholder. */
  lemma {:induction false} CutCellBytes(v: Cell, depth: nat)
    requires !v.Leaf? && depth >= MAX_CELL_NESTING_DEPTH
    ensures ApproxSize(v, depth) == 2 && JsonBytes(Normalise(v, depth)) == 47 && CappedContainers(v, depth) == 1
  {
    PlaceholderIsPlain();
    PlainStringBytes(NESTING_DEPTH_PLACEHOLDER);
  }

  lemma {:induction false} ListOvershoot(items: seq<Cell>, depth: nat, data: Data)
    requires depth < MAX_CELL_NESTING_DEPTH
    requires Within(
               data, ItemBytes(NormaliseItems(items, depth + 1)) + |items|, ApproxItems(items, depth + 1) + |items|)
    ensures Within(data, JsonBytes(Normalise(Items(items), depth)) + 1, ApproxSize(Items(items), depth) + 1)
  {
    ArrayBytes(NormaliseItems(items, depth + 1));
  }

  lemma {:induction false} ItemsOfHead(items: seq<Cell>, depth: nat)
    requires items != []
    ensures ItemBytes(NormaliseItems(items, depth)) ==
            JsonBytes(Normalise(items[0], depth)) + ItemBytes(NormaliseItems(items[1..], depth))
    ensures ApproxItems(items, depth) == ApproxSize(items[0], depth) + ApproxItems(items[1..], depth)
  {
    assert NormaliseItems(items, depth)[1..] == NormaliseItems(items[1..], depth);
  }

  lemma {:induction false} ItemsOvershoot(items: seq<Cell>, depth: nat, data: Data)
    requires data.Sound() && data.AllowsItems(items, depth)
    ensures Within(data, ItemBytes(NormaliseItems(items, depth)) + |items|, ApproxItems(items, depth) + |items|)
    decreases items
  {
    if items != [] {
      CellOvershoot(items[0], depth, data);
      ItemsOvershoot(items[1..], depth, data);
      ItemsOfHead(items, depth);
    }
  }

  function MemberWeight(m: Member, depth: nat): nat {
    var n := NormaliseMember(m, depth);
    Utf8Size(JsonString(n.key)) + JsonBytes(n.value) + 2
  }

  lemma {:induction false} MemberOvershoot(m: Member, depth: nat, data: Data)
    requires data.Sound() && data.AllowsMember(m, depth)
    ensures Within(data, MemberWeight(m, depth), ApproxMember(m, depth) + 2)
    decreases m
  {
    match m
    case Member(key, value) =>
      KeyOvershoot(key, data);
      CellOvershoot(value, depth + 1, data);
  }

  lemma {:induction false} MembersOfHead(members: seq<Member>, depth: nat)
    requires members != []
    ensures Weight(NormaliseMembers(members, depth)) ==
            MemberWeight(members[0], depth) + Weight(NormaliseMembers(members[1..], depth))
    ensures ApproxMembers(members, depth) == ApproxMember(members[0], depth) + ApproxMembers(members[1..], depth)
    ensures CappedInMembers(members, depth) == CappedInMember(members[0], depth) + CappedInMembers(members[1..], depth)
  {
    assert NormaliseMembers(members, depth)[1..] == NormaliseMembers(members[1..], depth);
    WeightOfHead(NormaliseMembers(members, depth));
  }

  lemma {:induction false} MembersStep(members: seq<Member>, depth: nat, data: Data)
    requires members != [] && Within(data, MemberWeight(members[0], depth), ApproxMember(members[0], depth) + 2)
    requires Within(
               data, Weight(NormaliseMembers(members[1..], depth)),
               ApproxMembers(members[1..], depth) + 2 * |members[1..]|)
    ensures Within(data, Weight(NormaliseMembers(members, depth)), ApproxMembers(members, depth) + 2 * |members|)
  {
    MembersOfHead(members, depth);
    AddOvershoot(
      data, MemberWeight(members[0], depth), ApproxMember(members[0], depth),
      Weight(NormaliseMembers(members[1..], depth)), ApproxMembers(members[1..], depth), |members[1..]|);
  }

  lemma {:induction false} MembersOvershoot(members: seq<Member>, depth: nat, data: Data)
    requires data.Sound() && data.AllowsMembers(members, depth)
    ensures Within(data, Weight(NormaliseMembers(members, depth)), ApproxMembers(members, depth) + 2 * |members|)
    decreases members
  {
    if members != [] {
      MembersOfHead(members, depth);
      MemberOvershoot(members[0], depth, data);
      MembersOvershoot(members[1..], depth, data);
      MembersStep(members, depth, data);
    }
  }

  // ----- rows

  /** Containers the nesting cap replaces in a row. */
  function CappedInRow(row: Row): nat {
    if row == [] then 0 else CappedContainers(row[0].cell, 0) + CappedInRow(row[1..])
  }

  function ColumnWeight(c: Column): nat {
    Utf8Size(JsonString(JsonSafeText(c.name))) + JsonBytes(Normalise(c.cell, 0)) + 2
  }

  function ColumnApprox(c: Column): nat { ApproxKeySize(Str(c.name)) + ApproxSize(c.cell, 0) }

  lemma {:induction false} ColumnOvershoot(c: Column, data: Data)
    requires data.Sound() && data.AllowsCell(c.cell, 0) && (data.Clean? ==> TextOver(c.name, data.alphabet))
    ensures Within(data, ColumnWeight(c), ColumnApprox(c) + 2)
  {
    TextOvershoot(c.name, data);
    CellOvershoot(c.cell, 0, data);
  }

  lemma {:induction false} ColumnsOfHead(row: Row)
    requires row != []
    ensures Weight(NormaliseColumns(row)) ==
            ColumnWeight(row[0]) + Weight(NormaliseColumns(row[1..]))
    ensures ApproxColumns(row) == ColumnApprox(row[0]) + ApproxColumns(row[1..])
  {
    assert NormaliseColumns(row)[1..] == NormaliseColumns(row[1..]);
    WeightOfHead(NormaliseColumns(row));
  }

  lemma {:induction false} ColumnsStep(row: Row, data: Data)
    requires row != [] && Within(data, ColumnWeight(row[0]), ColumnApprox(row[0]) + 2)
    requires Within(data, Weight(NormaliseColumns(row[1..])), ApproxColumns(row[1..]) + 2 * |row[1..]|)
    ensures Within(data, Weight(NormaliseColumns(row)), ApproxColumns(row) + 2 * |row|)
  {
    ColumnsOfHead(row);
    AddOvershoot(
      data, ColumnWeight(row[0]), ColumnApprox(row[0]), Weight(NormaliseColumns(row[1..])),
      ApproxColumns(row[1..]), |row[1..]|);
  }

  lemma {:induction false} ColumnsOvershoot(row: Row, data: Data)
    requires data.Sound() && data.AllowsRow(row)
    ensures Within(data, Weight(NormaliseColumns(row)), ApproxColumns(row) + 2 * |row|)
  {
    if row != [] {
      ColumnOvershoot(row[0], data);
      ColumnsOvershoot(row[1..], data);
      ColumnsStep(row, data);
    }
  }

  lemma {:induction false} RowOvershootBy(row: Row, data: Data)
    requires data.Sound() && data.AllowsRow(row)
    ensures Within(data, JsonBytes(NormaliseRow(row)), ApproxRowSize(row))
  {
    ColumnsOvershoot(row, data);
    MappingOvershoot(NormaliseColumns(row), ApproxColumns(row), data);
  }

  /**
   The other direction of the bound: a row costs at most 16 times its estimate, at most 7 times when
   none of its containers is cut at the nesting cap, and at most 6 times when besides none of its
   names, keys and texts holds a lone surrogate.
   */
  lemma {:induction false} RowOvershoot(row: Row)
    ensures JsonBytes(NormaliseRow(row)) <= 16 * ApproxRowSize(row)
    ensures CappedInRow(row) == 0 ==> JsonBytes(NormaliseRow(row)) <= 7 * ApproxRowSize(row)
    ensures CappedInRow(row) == 0 && RowOver(row, NotSurrogate) ==>
              JsonBytes(NormaliseRow(row)) <= 6 * ApproxRowSize(row)
  {
    RowOvershootBy(row, Anything);
    if CappedInRow(row) == 0 {
      RowOvershootBy(row, Uncut);
      if RowOver(row, NotSurrogate) {
        RowOvershootBy(row, Clean(NotSurrogate));
      }
    }
  }

  // ----- the factors are reached

  function Copies(c: CodePoint, n: nat): (t: Text)
    ensures |t| == n && forall k :: 0 <= k < n ==> t[k] == c
  {
    seq(n, _ => c)
  }

  lemma {:induction false} SurrogatesBytes(c: CodePoint, n: nat)
    requires IsSurrogate(c)
    ensures Utf8Size(JsonChars(JsonSafeText(Copies(c, n)))) == 7 * n
  {
    if n > 0 {
      var t := Copies(c, n);
      assert t[1..] == Copies(c, n - 1);
      SurrogatesBytes(c, n - 1);
      JsonCharsOfConcat(UnicodeEscape(c), JsonSafeText(t[1..]));
      Utf8SizeOfConcat(JsonChars(UnicodeEscape(c)), JsonChars(JsonSafeText(t[1..])));
      SurrogateCost(c);
    }
  }

  /** Text of lone surrogates costs seven bytes a character, one more than text of control characters. */
  lemma {:induction false} SurrogatesCostSeven(c: CodePoint, n: nat)
    requires IsSurrogate(c)
    ensures var v := Leaf(Str(Copies(c, n)));
            CappedContainers(v, 0) == 0 && ApproxSize(v, 0) == n + 2 && JsonBytes(Normalise(v, 0)) == 7 * n + 2
  {
    SurrogatesBytes(c, n);
    JsonStringSize(JsonSafeText(Copies(c, n)));
  }

  /** `v` inside `k` lists. */
  function Nest(k: nat, v: Cell): Cell { if k == 0 then v else Items([Nest(k - 1, v)]) }

  /** A list of `n` empty lists. */
  function Wide(n: nat): Cell { Items(Empties(n)) }

  function Empties(n: nat): (items: seq<Cell>)
    ensures |items| == n
  {
    if n == 0 then [] else [Items([])] + Empties(n - 1)
  }

  lemma {:induction false} CutHead(items: seq<Cell>, depth: nat)
    requires items != [] && !items[0].Leaf? && depth >= MAX_CELL_NESTING_DEPTH
    ensures ItemBytes(NormaliseItems(items, depth)) == 47 + ItemBytes(NormaliseItems(items[1..], depth))
    ensures ApproxItems(items, depth) == 2 + ApproxItems(items[1..], depth)
  {
    ItemsOfHead(items, depth);
    CutCellBytes(items[0], depth);
  }

  lemma {:induction false} EmptiesAtCap(n: nat)
    ensures ApproxItems(Empties(n), MAX_CELL_NESTING_DEPTH) == 2 * n
    ensures ItemBytes(NormaliseItems(Empties(n), MAX_CELL_NESTING_DEPTH)) == 47 * n
  {
    if n > 0 {
      EmptiesAtCap(n - 1);
      assert Empties(n)[1..] == Empties(n - 1);
      CutHead(Empties(n), MAX_CELL_NESTING_DEPTH);
    }
  }

  lemma {:induction false} WideBytes(n: nat)
    requires n > 0
    ensures ApproxSize(Wide(n), 63) == 3 * n + 1 && JsonBytes(Normalise(Wide(n), 63)) == 48 * n + 1
  {
    EmptiesAtCap(n);
    ArrayBytes(NormaliseItems(Empties(n), MAX_CELL_NESTING_DEPTH));
  }

  lemma {:induction false} NestBytes(k: nat, v: Cell, depth: nat)
    requires depth + k <= MAX_CELL_NESTING_DEPTH
    ensures ApproxSize(Nest(k, v), depth) == 2 * k + ApproxSize(v, depth + k)
    ensures JsonBytes(Normalise(Nest(k, v), depth)) == 2 * k + JsonBytes(Normalise(v, depth + k))
  {
    if k > 0 {
      NestBytes(k - 1, v, depth + 1);
      OneItemBytes(Nest(k - 1, v), depth);
    }
  }

  lemma {:induction false} OneItemBytes(v: Cell, depth: nat)
    requires depth < MAX_CELL_NESTING_DEPTH
    ensures ApproxSize(Items([v]), depth) == 2 + ApproxSize(v, depth + 1)
    ensures JsonBytes(Normalise(Items([v]), depth)) == 2 + JsonBytes(Normalise(v, depth + 1))
  {
    assert [v][1..] == [];
    ItemsOfHead([v], depth + 1);
    ArrayBytes(NormaliseItems([v], depth + 1));
  }

  /** Lists cut at the nesting cap: the factor 16 of a whole row cannot be lowered, whatever is added to it. */
  lemma {:induction false} OverDeepCosts(n: nat)
    requires n > 0
    ensures var row := [Column([], Nest(63, Wide(n)))];
            && ApproxRowSize(row) == 132 + 3 * n && JsonBytes(NormaliseRow(row)) == 132 + 48 * n
            && JsonBytes(NormaliseRow(row)) == 16 * ApproxRowSize(row) - 1980
  {
    NestBytes(63, Wide(n), 0);
    WideBytes(n);
    OneColumn(Nest(63, Wide(n)));
  }

  lemma {:induction false} OneColumn(cell: Cell)
    ensures var row := [Column([], cell)];
            && ApproxRowSize(row) == 5 + ApproxSize(cell, 0)
            && JsonBytes(NormaliseRow(row)) == 5 + JsonBytes(Normalise(cell, 0))
  {
    var row := [Column([], cell)];
    var member := JsonMember([], Normalise(cell, 0));
    assert row[1..] == [];
    ColumnsOfHead(row);
    assert NormaliseColumns(row) == [member] + [];
    assert [member][1..] == [];
    assert Put([], [], member.value) == [member];
    assert PutAll([member], []) == [member];
    ObjectBytes([member]);
    OneMemberBytes(member);
    JsonStringSize([]);
  }

  // ----- when six is enough

  lemma {:induction false} EmptiesOver(n: nat, alphabet: CodePoint -> bool)
    ensures ItemsOver(Empties(n), alphabet)
  {
    if n > 0 {
      assert Empties(n)[1..] == Empties(n - 1);
      EmptiesOver(n - 1, alphabet);
    }
  }

  lemma {:induction false} NestOver(k: nat, v: Cell, alphabet: CodePoint -> bool)
    requires CellOver(v, alphabet)
    ensures CellOver(Nest(k, v), alphabet)
  {
    if k > 0 {
      NestOver(k - 1, v, alphabet);
      assert [Nest(k - 1, v)][1..] == [];
    }
  }

  lemma {:induction false} OneColumnOver(cell: Cell, alphabet: CodePoint -> bool)
    requires CellOver(cell, alphabet)
    ensures RowOver([Column([], cell)], alphabet)
    ensures CappedInRow([Column([], cell)]) == CappedContainers(cell, 0)
  {
    assert [Column([], cell)][1..] == [];
  }

  /** A row without any text that breaks six once containers may be cut. */
  lemma {:induction false} CutBreaksSix(alphabet: CodePoint -> bool) returns (row: Row)
    ensures RowOver(row, alphabet) && JsonBytes(NormaliseRow(row)) > 6 * ApproxRowSize(row)
  {
    row := [Column([], Nest(63, Wide(23)))];
    EmptiesOver(23, alphabet);
    NestOver(63, Wide(23), alphabet);
    OneColumnOver(Nest(63, Wide(23)), alphabet);
    OverDeepCosts(23);
  }

  /** A row over any alphabet with a surrogate that breaks six, nothing being cut. */
  lemma {:induction false} SurrogateBreaksSix(c: CodePoint, alphabet: CodePoint -> bool) returns (row: Row)
    requires alphabet(c) && IsSurrogate(c)
    ensures RowOver(row, alphabet) && CappedInRow(row) == 0
    ensures JsonBytes(NormaliseRow(row)) > 6 * ApproxRowSize(row)
  {
    var cell := Leaf(Str(Copies(c, 36)));
    row := [Column([], cell)];
    SurrogatesCostSeven(c, 36);
    OneColumnOver(cell, alphabet);
    OneColumn(cell);
  }

  /** A row of the kind in question: text over the alphabet, containers cut only if `cut`. */
  predicate IsOfKind(row: Row, alphabet: CodePoint -> bool, cut: bool) {
    RowOver(row, alphabet) && (cut || CappedInRow(row) == 0)
  }

  /**
   Exactly when the documented factor of six holds: for all rows whose text is over an alphabet, if
   and only if no container may be cut and the alphabet has no surrogate.
   */
  lemma {:induction false} SixHoldsIff(alphabet: CodePoint -> bool, cut: bool)
    ensures (forall row: Row :: IsOfKind(row, alphabet, cut) ==> JsonBytes(NormaliseRow(row)) <= 6 * ApproxRowSize(row))
            <==> !cut && HasNoSurrogate(alphabet)
  {
    if cut {
      var row := CutBreaksSix(alphabet);
      assert IsOfKind(row, alphabet, cut);
    } else if !HasNoSurrogate(alphabet) {
      var c: CodePoint :| alphabet(c) && !NotSurrogate(c);
      var row := SurrogateBreaksSix(c, alphabet);
      assert IsOfKind(row, alphabet, cut);
    } else {
      forall row: Row | IsOfKind(row, alphabet, cut)
        ensures JsonBytes(NormaliseRow(row)) <= 6 * ApproxRowSize(row)
      {
        RowOvershootBy(row, Clean(alphabet));
      }
    }
  }

  /**
   One character at a time: text of copies of `c` keeps to six, whatever its length, exactly when `c`
   is no surrogate.
   */
  lemma {:induction false} CharacterKeepsToSixIff(c: CodePoint)
    ensures (forall n: nat :: var v := Leaf(Str(Copies(c, n))); JsonBytes(Normalise(v, 0)) <= 6 * ApproxSize(v, 0))
            <==> !IsSurrogate(c)
  {
    if IsSurrogate(c) {
      SurrogatesCostSeven(c, 11);
      assert JsonBytes(Normalise(Leaf(Str(Copies(c, 11))), 0)) > 6 * ApproxSize(Leaf(Str(Copies(c, 11))), 0);
    } else {
      forall n: nat
        ensures var v := Leaf(Str(Copies(c, n))); JsonBytes(Normalise(v, 0)) <= 6 * ApproxSize(v, 0)
      {
        CleanTextCost(Copies(c, n), NotSurrogate);
        JsonStringSize(JsonSafeText(Copies(c, n)));
      }
    }
  }
}
