/**
 The cheap size estimate, taken on connector-native rows as they arrive, and the proof that it
 never exceeds the exact size of the differently shaped rows that are sent.
 */
module ResultBounds {
  import opened JsonText
  import opened ResultRows

  const CONTAINER_FRAMING_BYTES := 2
  const QUOTE_BYTES := 2

  function ApproxScalar(s: Scalar): nat {
    match s
    case Str(text) => |text| + QUOTE_BYTES
    case Binary(data) => |data| + QUOTE_BYTES
    case Native(text) => |text| + QUOTE_BYTES
    case Other(text) => |text| + QUOTE_BYTES
    case _ => |BareText(s)|
  }

  /** A key is estimated like the value of its type, with quotes where the value would have none. */
  function ApproxKeySize(k: Scalar): nat {
    match k
    case Null => |BareText(k)| + QUOTE_BYTES
    case Boolean(_) => |BareText(k)| + QUOTE_BYTES
    case Integer(_) => |BareText(k)| + QUOTE_BYTES
    case Float(_, _) => |BareText(k)| + QUOTE_BYTES
    case _ => ApproxScalar(k)
  }

  /** What separates `count` members of an object. */
  function ObjectSeparatorBytes(count: nat): nat { if count == 0 then 0 else 2 * count - 1 }

  function ApproxSize(v: Cell, depth: nat): nat
    decreases v
  {
    match v
    case Leaf(s) => ApproxScalar(s)
    case Dict(members) =>
      if depth >= MAX_CELL_NESTING_DEPTH then QUOTE_BYTES
      else CONTAINER_FRAMING_BYTES + ApproxMembers(members, depth) + ObjectSeparatorBytes(|members|)
    case Items(items) =>
      if depth >= MAX_CELL_NESTING_DEPTH then QUOTE_BYTES
      else CONTAINER_FRAMING_BYTES + ApproxItems(items, depth + 1) + if items == [] then 0 else |items| - 1
  }

  function ApproxMember(m: Member, depth: nat): nat
    decreases m
  {
    match m
    case Member(key, value) => ApproxKeySize(key) + ApproxSize(value, depth + 1)
  }

  function ApproxMembers(members: seq<Member>, depth: nat): nat
    decreases members
  {
    if members == [] then 0 else ApproxMember(members[0], depth) + ApproxMembers(members[1..], depth)
  }

  function ApproxItems(items: seq<Cell>, depth: nat): nat
    decreases items
  {
    if items == [] then 0 else ApproxSize(items[0], depth) + ApproxItems(items[1..], depth)
  }

  function ApproxColumns(row: Row): nat {
    if row == [] then 0 else ApproxKeySize(Str(row[0].name)) + ApproxSize(row[0].cell, 0) + ApproxColumns(row[1..])
  }

  function ApproxRowSize(row: Row): nat {
    CONTAINER_FRAMING_BYTES + ApproxColumns(row) + ObjectSeparatorBytes(|row|)
  }

  // ----- the side condition

  /** No two keys of one mapping collide after stringification, at any depth that is kept. */
  predicate KeysStayDistinct(v: Cell, depth: nat)
    decreases v
  {
    match v
    case Leaf(_) => true
    case Dict(members) =>
      depth >= MAX_CELL_NESTING_DEPTH ||
      (DistinctKeys(NormaliseMembers(members, depth)) && MembersStayDistinct(members, depth))
    case Items(items) => depth >= MAX_CELL_NESTING_DEPTH || ItemsStayDistinct(items, depth + 1)
  }

  predicate MemberStaysDistinct(m: Member, depth: nat)
    decreases m
  {
    match m
    case Member(_, value) => KeysStayDistinct(value, depth + 1)
  }

  predicate MembersStayDistinct(members: seq<Member>, depth: nat)
    decreases members
  {
    members == [] || (MemberStaysDistinct(members[0], depth) && MembersStayDistinct(members[1..], depth))
  }

  predicate ItemsStayDistinct(items: seq<Cell>, depth: nat)
    decreases items
  {
    items == [] || (KeysStayDistinct(items[0], depth) && ItemsStayDistinct(items[1..], depth))
  }

  predicate ColumnsStayDistinct(row: Row) {
    row == [] || (KeysStayDistinct(row[0].cell, 0) && ColumnsStayDistinct(row[1..]))
  }

  predicate RowStaysDistinct(row: Row) {
    DistinctKeys(NormaliseColumns(row)) && ColumnsStayDistinct(row)
  }

  predicate RowsStayDistinct(rows: seq<Row>) {
    forall k :: 0 <= k < |rows| ==> RowStaysDistinct(rows[k])
  }

  // ----- the lower bound

  lemma {:induction false} ScalarBound(s: Scalar)
    ensures ApproxScalar(s) <= JsonBytes(NormaliseScalar(s))
  {
    match s
    case Null => Utf8SizeCoversLength(NULL_TEXT);
    case Boolean(b) => Utf8SizeCoversLength(if b then TRUE_TEXT else FALSE_TEXT);
    case Integer(n) => Utf8SizeCoversLength(IntText(n));
    case Float(repr, finite) =>
      Utf8SizeCoversLength(repr);
      JsonStringSize(repr);
    case Str(text) => JsonStringSize(JsonSafeText(text));
    case Binary(data) => JsonStringSize(Base64(data));
    case Native(text) => JsonStringSize(text);
    case Other(text) => JsonStringSize(JsonSafeText(text));
  }

  lemma {:induction false} KeyBound(k: Scalar)
    ensures ApproxKeySize(k) <= Utf8Size(JsonString(KeyText(k)))
  {
    JsonStringSize(KeyText(k));
  }

  lemma {:induction false} MemberBytes(m: JsonMember)
    ensures Utf8Size(RenderMember(m)) == Utf8Size(JsonString(m.key)) + 1 + JsonBytes(m.value)
  {
    match m
    case JsonMember(key, value) => JoinedSize(JsonString(key), COLON, Render(value));
  }

  function MembersBytes(members: seq<JsonMember>): nat {
    if members == [] then 0
    else Utf8Size(JsonString(members[0].key)) + JsonBytes(members[0].value) + MembersBytes(members[1..])
  }

  lemma {:induction false} ObjectBytes(members: seq<JsonMember>)
    ensures JsonBytes(Object(members)) == 2 + MembersBytes(members) + ObjectSeparatorBytes(|members|)
  {
    FramedSize(123, RenderMembers(members), 125);
    RenderMembersBytes(members);
  }

  lemma {:induction false} RenderMembersBytes(members: seq<JsonMember>)
    ensures Utf8Size(RenderMembers(members)) == MembersBytes(members) + ObjectSeparatorBytes(|members|)
  {
    if members != [] {
      MemberBytes(members[0]);
      if |members| > 1 {
        JoinedSize(RenderMember(members[0]), COMMA, RenderMembers(members[1..]));
        RenderMembersBytes(members[1..]);
      }
    }
  }

  /** A mapping whose keys are distinct is rendered member by member. */
  lemma {:induction false} DistinctMappingBytes(pairs: seq<JsonMember>)
    requires DistinctKeys(pairs)
    ensures JsonBytes(Object(PutAll([], pairs))) == 2 + MembersBytes(pairs) + ObjectSeparatorBytes(|pairs|)
  {
    assert [] + pairs == pairs;
    MappingKeepsAllIff([], pairs);
    ObjectBytes(pairs);
  }

  /**
   For a cell of any shape and nesting whose keys stay distinct, the estimate is at most the exact
   UTF-8 size of the compact JSON of the normalised cell; both cut containers at the same depth.
   */
  lemma {:induction false} EstimateIsLowerBound(v: Cell, depth: nat)
    requires KeysStayDistinct(v, depth)
    ensures ApproxSize(v, depth) <= JsonBytes(Normalise(v, depth))
    decreases v
  {
    if v.Leaf? {
      ScalarBound(v.scalar);
    } else if depth >= MAX_CELL_NESTING_DEPTH {
      CappedBound(v, depth);
    } else {
      match v
      case Dict(members) =>
        MembersBound(members, depth);
        DictBound(members, depth);
      case Items(items) =>
        ItemsBound(items, depth + 1);
        ArrayBytes(NormaliseItems(items, depth + 1));
    }
  }

  lemma {:induction false} CappedBound(v: Cell, depth: nat)
    requires !v.Leaf? && depth >= MAX_CELL_NESTING_DEPTH
    ensures ApproxSize(v, depth) <= JsonBytes(Normalise(v, depth))
  {
    JsonStringSize(NESTING_DEPTH_PLACEHOLDER);
  }

  lemma {:induction false} DictBound(members: seq<Member>, depth: nat)
    requires depth < MAX_CELL_NESTING_DEPTH && DistinctKeys(NormaliseMembers(members, depth))
    requires ApproxMembers(members, depth) <= MembersBytes(NormaliseMembers(members, depth))
    ensures ApproxSize(Dict(members), depth) <= JsonBytes(Normalise(Dict(members), depth))
  {
    DistinctMappingBytes(NormaliseMembers(members, depth));
  }

  lemma {:induction false} MemberBound(m: Member, depth: nat)
    requires MemberStaysDistinct(m, depth)
    ensures var n := NormaliseMember(m, depth);
            ApproxMember(m, depth) <= Utf8Size(JsonString(n.key)) + JsonBytes(n.value)
    decreases m
  {
    match m
    case Member(key, value) =>
      KeyBound(key);
      EstimateIsLowerBound(value, depth + 1);
  }

  lemma {:induction false} MembersBound(members: seq<Member>, depth: nat)
    requires MembersStayDistinct(members, depth)
    ensures ApproxMembers(members, depth) <= MembersBytes(NormaliseMembers(members, depth))
    decreases members
  {
    if members != [] {
      MemberBound(members[0], depth);
      MembersBound(members[1..], depth);
      assert NormaliseMembers(members, depth)[1..] == NormaliseMembers(members[1..], depth);
    }
  }

  lemma {:induction false} ItemsBound(items: seq<Cell>, depth: nat)
    requires ItemsStayDistinct(items, depth)
    ensures ApproxItems(items, depth) <= ItemBytes(NormaliseItems(items, depth))
    decreases items
  {
    if items != [] {
      EstimateIsLowerBound(items[0], depth);
      ItemsBound(items[1..], depth);
      assert NormaliseItems(items, depth)[1..] == NormaliseItems(items[1..], depth);
    }
  }

  lemma {:induction false} ColumnsBound(row: Row)
    requires ColumnsStayDistinct(row)
    ensures ApproxColumns(row) <= MembersBytes(NormaliseColumns(row))
  {
    if row != [] {
      JsonStringSize(JsonSafeText(row[0].name));
      EstimateIsLowerBound(row[0].cell, 0);
      ColumnsBound(row[1..]);
      assert NormaliseColumns(row)[1..] == NormaliseColumns(row[1..]);
    }
  }

  /** The row estimate is a lower bound on the exact measurement of the normalised row. */
  lemma {:induction false} RowEstimateIsLowerBound(row: Row)
    requires RowStaysDistinct(row)
    ensures ApproxRowSize(row) <= JsonBytes(NormaliseRow(row))
  {
    ColumnsBound(row);
    DistinctMappingBytes(NormaliseColumns(row));
  }

  /**
   The side condition cannot be dropped: the keys 1 and "1" of one mapping collide, the normalised
   cell keeps one member, and the estimate for two exceeds its exact size.
   */
  lemma {:induction false} CollidingKeysBreakTheBound()
    ensures var v := Dict([Member(Integer(1), Leaf(Null)), Member(Str([49]), Leaf(Null))]);
            && !KeysStayDistinct(v, 0)
            && ApproxSize(v, 0) == 19 && JsonBytes(Normalise(v, 0)) == 10
  {
    var a, b := Member(Integer(1), Leaf(Null)), Member(Str([49]), Leaf(Null));
    var one := JsonMember([49], Bare(NULL_TEXT));
    CollidingKeysMerge(a, b, one);
    CollidingExact(one);
    CollidingEstimate(a, b);
    assert NormaliseMembers([a, b], 0)[0].key == NormaliseMembers([a, b], 0)[1].key;
  }

  lemma {:induction false} CollidingExact(one: JsonMember)
    requires one == JsonMember([49], Bare(NULL_TEXT))
    ensures JsonBytes(Object([one])) == 10
  {
    ObjectBytes([one]);
    OneMemberBytes(one);
    JsonStringSize([49]);
    PlainTextSize([49]);
    PlainTextSize(NULL_TEXT);
  }

  lemma {:induction false} CollidingEstimate(a: Member, b: Member)
    requires a == Member(Integer(1), Leaf(Null)) && b == Member(Str([49]), Leaf(Null))
    ensures ApproxSize(Dict([a, b]), 0) == 19
  {
    assert [a, b][1..] == [b] && [b][1..] == [];
    assert IntText(1) == [49];
    assert ApproxMembers([b], 0) == ApproxMember(b, 0);
    assert ApproxMembers([a, b], 0) == ApproxMember(a, 0) + ApproxMembers([b], 0);
  }

  lemma {:induction false} OneMemberBytes(m: JsonMember)
    ensures MembersBytes([m]) == Utf8Size(JsonString(m.key)) + JsonBytes(m.value)
  {
    assert [m][1..] == [];
  }

  lemma {:induction false} CollidingKeysMerge(a: Member, b: Member, one: JsonMember)
    requires a == Member(Integer(1), Leaf(Null)) && b == Member(Str([49]), Leaf(Null))
    requires one == JsonMember([49], Bare(NULL_TEXT))
    ensures NormaliseMembers([a, b], 0) == [one, one] && PutAll([], [one, one]) == [one]
  {
    assert JsonSafeText([49]) == [49];
    assert KeyText(a.key) == [49] && KeyText(b.key) == [49];
    assert [a, b][1..] == [b] && [b][1..] == [];
    assert NormaliseMembers([b], 0) == [one] + [];
    assert NormaliseMembers([a, b], 0) == [one] + [one];
    assert [one, one][1..] == [one] && [one][1..] == [];
    assert Put([], [49], one.value) == [one];
    assert Put([one], [49], one.value) == [one] + [];
    assert PutAll([one], []) == [one];
    assert PutAll([one], [one]) == [one];
  }
}
