/** When the size estimate is not merely a lower bound but the exact size. */
module ResultExact {
  import opened JsonText
  import opened ResultRows
  import opened ResultBounds

  /** Scalars that JSON renders in as many bytes as the estimate counts. */
  predicate ScalarIsExact(s: Scalar) {
    match s
    case Float(repr, finite) => finite && IsAscii(repr)
    case Str(text) => IsPlain(text)
    case Binary(data) => data == []
    case Native(text) => IsPlain(text)
    case Other(text) => IsPlain(text)
    case _ => true
  }

  predicate IsAscii(t: Text) { forall k :: 0 <= k < |t| ==> t[k] < 128 }

  predicate KeyIsExact(k: Scalar) {
    match k
    case Float(repr, _) => IsPlain(repr)
    case Str(text) => IsPlain(text)
    case Binary(data) => data == []
    case Native(text) => IsPlain(text)
    case Other(text) => IsPlain(text)
    case _ => true
  }

  /** Every key and leaf is exact and no container is cut. */
  predicate CellIsExact(v: Cell, depth: nat)
    decreases v
  {
    match v
    case Leaf(s) => ScalarIsExact(s)
    case Dict(members) => depth < MAX_CELL_NESTING_DEPTH && MembersAreExact(members, depth)
    case Items(items) => depth < MAX_CELL_NESTING_DEPTH && ItemsAreExact(items, depth + 1)
  }

  predicate MemberIsExact(m: Member, depth: nat)
    decreases m
  {
    match m
    case Member(key, value) => KeyIsExact(key) && CellIsExact(value, depth + 1)
  }

  predicate MembersAreExact(members: seq<Member>, depth: nat)
    decreases members
  {
    members == [] || (MemberIsExact(members[0], depth) && MembersAreExact(members[1..], depth))
  }

  predicate ItemsAreExact(items: seq<Cell>, depth: nat)
    decreases items
  {
    items == [] || (CellIsExact(items[0], depth) && ItemsAreExact(items[1..], depth))
  }

  predicate RowIsExact(row: Row) {
    row == [] || (IsPlain(row[0].name) && CellIsExact(row[0].cell, 0) && RowIsExact(row[1..]))
  }

  // ----- text

  lemma {:induction false} AsciiSizeIff(t: Text)
    ensures Utf8Size(t) == |t| <==> IsAscii(t)
  {
    if t != [] {
      AsciiSizeIff(t[1..]);
      Utf8SizeCoversLength(t[1..]);
      assert forall k :: 0 < k < |t| ==> t[k] == t[1..][k - 1];
      assert IsAscii(t) <==> t[0] < 128 && IsAscii(t[1..]);
    }
  }

  lemma {:induction false} CharIsPlainIff(c: CodePoint)
    ensures 1 <= Utf8Size(JsonChar(c))
    ensures Utf8Size(JsonChar(c)) == 1 <==> 32 <= c < 128 && c != QUOTE && c != BACKSLASH
  {
    Utf8SizeCoversLength(JsonChar(c));
    assert |JsonChar(c)| == 1 ==> JsonChar(c)[1..] == [];
  }

  /** Text costs one byte a character inside a JSON string exactly when all of it is plain. */
  lemma {:induction false} PlainSizeIff(t: Text)
    ensures |t| <= Utf8Size(JsonChars(t))
    ensures Utf8Size(JsonChars(t)) == |t| <==> IsPlain(t)
  {
    if t != [] {
      PlainSizeIff(t[1..]);
      CharIsPlainIff(t[0]);
      Utf8SizeOfConcat(JsonChar(t[0]), JsonChars(t[1..]));
      assert forall k :: 0 < k < |t| ==> t[k] == t[1..][k - 1];
      assert IsPlain(t) <==> 32 <= t[0] < 128 && t[0] != QUOTE && t[0] != BACKSLASH && IsPlain(t[1..]);
    }
  }

  lemma {:induction false} SafeTextGrows(t: Text)
    ensures JsonSafeText(t) == t || |JsonSafeText(t)| > |t|
  {
    if t != [] {
      SafeTextGrows(t[1..]);
    }
  }

  lemma {:induction false} SafeTextSizeIff(t: Text)
    ensures Utf8Size(JsonString(JsonSafeText(t))) == |t| + 2 <==> IsPlain(t)
    ensures IsPlain(t) ==> JsonSafeText(t) == t
  {
    SafeTextGrows(t);
    SafeTextHasNoSurrogate(t);
    JsonStringSize(JsonSafeText(t));
    PlainSizeIff(JsonSafeText(t));
  }

  /** Padded base 64 is longer than its data, but for the empty data. */
  lemma {:induction false} BinarySizeIff(data: seq<Byte>)
    ensures Utf8Size(JsonString(Base64(data))) == |data| + 2 <==> data == []
    ensures JsonSafeText(Base64(data)) == Base64(data)
  {
    JsonStringSize(Base64(data));
    PlainSizeIff(Base64(data));
    SafeTextSizeIff(Base64(data));
  }

  // ----- scalars and keys

  lemma {:induction false} ScalarExactIff(s: Scalar)
    ensures ApproxScalar(s) == JsonBytes(NormaliseScalar(s)) <==> ScalarIsExact(s)
  {
    match s
    case Null => PlainTextSize(NULL_TEXT);
    case Boolean(b) => PlainTextSize(if b then TRUE_TEXT else FALSE_TEXT);
    case Integer(n) => PlainTextSize(IntText(n));
    case Float(repr, _) =>
      AsciiSizeIff(repr);
      JsonStringSize(repr);
    case Str(text) => SafeTextSizeIff(text);
    case Binary(data) => BinarySizeIff(data);
    case Native(text) =>
      JsonStringSize(text);
      PlainSizeIff(text);
    case Other(text) => SafeTextSizeIff(text);
  }

  lemma {:induction false} KeyExactIff(k: Scalar)
    ensures ApproxKeySize(k) == Utf8Size(JsonString(KeyText(k))) <==> KeyIsExact(k)
  {
    match k
    case Str(text) => TwiceSafeSizeIff(text);
    case Other(text) => TwiceSafeSizeIff(text);
    case Binary(data) => BinarySizeIff(data);
    case Native(text) => SafeTextSizeIff(text);
    case _ => SafeTextSizeIff(BareText(k));
  }

  lemma {:induction false} TwiceSafeSizeIff(t: Text)
    ensures Utf8Size(JsonString(JsonSafeText(JsonSafeText(t)))) == |t| + 2 <==> IsPlain(t)
  {
    SafeTextHasNoSurrogate(t);
    SafeTextHasNoSurrogate(JsonSafeText(t));
    SafeTextSizeIff(t);
  }

  // ----- cells and rows

  /**
   The estimate of a cell whose keys stay distinct is its exact size if and only if every leaf and
   every key is printed one byte a character, no binary data is in it and no container is cut.
   */
  lemma {:induction false} EstimateIsExactIff(v: Cell, depth: nat)
    requires KeysStayDistinct(v, depth)
    ensures ApproxSize(v, depth) == JsonBytes(Normalise(v, depth)) <==> CellIsExact(v, depth)
    decreases v
  {
    if v.Leaf? {
      ScalarExactIff(v.scalar);
    } else if depth >= MAX_CELL_NESTING_DEPTH {
      JsonStringSize(NESTING_DEPTH_PLACEHOLDER);
    } else {
      match v
      case Dict(members) =>
        MembersExactIff(members, depth);
        DistinctMappingBytes(NormaliseMembers(members, depth));
      case Items(items) =>
        ItemsExactIff(items, depth + 1);
        ArrayBytes(NormaliseItems(items, depth + 1));
    }
  }

  lemma {:induction false} MemberExactIff(m: Member, depth: nat)
    requires MemberStaysDistinct(m, depth)
    ensures var n := NormaliseMember(m, depth);
            ApproxMember(m, depth) == Utf8Size(JsonString(n.key)) + JsonBytes(n.value) <==> MemberIsExact(m, depth)
    decreases m
  {
    match m
    case Member(key, value) =>
      KeyBound(key);
      KeyExactIff(key);
      EstimateIsLowerBound(value, depth + 1);
      EstimateIsExactIff(value, depth + 1);
  }

  lemma {:induction false} MembersExactIff(members: seq<Member>, depth: nat)
    requires MembersStayDistinct(members, depth)
    ensures ApproxMembers(members, depth) == MembersBytes(NormaliseMembers(members, depth)) <==>
              MembersAreExact(members, depth)
    decreases members
  {
    if members != [] {
      MemberBound(members[0], depth);
      MemberExactIff(members[0], depth);
      MembersBound(members[1..], depth);
      MembersExactIff(members[1..], depth);
      assert NormaliseMembers(members, depth)[1..] == NormaliseMembers(members[1..], depth);
    }
  }

  lemma {:induction false} ItemsExactIff(items: seq<Cell>, depth: nat)
    requires ItemsStayDistinct(items, depth)
    ensures ApproxItems(items, depth) == ItemBytes(NormaliseItems(items, depth)) <==> ItemsAreExact(items, depth)
    decreases items
  {
    if items != [] {
      EstimateIsLowerBound(items[0], depth);
      EstimateIsExactIff(items[0], depth);
      ItemsBound(items[1..], depth);
      ItemsExactIff(items[1..], depth);
      assert NormaliseItems(items, depth)[1..] == NormaliseItems(items[1..], depth);
    }
  }

  lemma {:induction false} ColumnsExactIff(row: Row)
    requires ColumnsStayDistinct(row)
    ensures ApproxColumns(row) == MembersBytes(NormaliseColumns(row)) <==> RowIsExact(row)
  {
    if row != [] {
      JsonStringSize(JsonSafeText(row[0].name));
      SafeTextSizeIff(row[0].name);
      EstimateIsLowerBound(row[0].cell, 0);
      EstimateIsExactIff(row[0].cell, 0);
      ColumnsBound(row[1..]);
      ColumnsExactIff(row[1..]);
      assert NormaliseColumns(row)[1..] == NormaliseColumns(row[1..]);
    }
  }

  /** The same of a row and its column names: the bound is strict on every other row. */
  lemma {:induction false} RowEstimateIsExactIff(row: Row)
    requires RowStaysDistinct(row)
    ensures ApproxRowSize(row) == JsonBytes(NormaliseRow(row)) <==> RowIsExact(row)
    ensures ApproxRowSize(row) < JsonBytes(NormaliseRow(row)) <==> !RowIsExact(row)
  {
    ColumnsExactIff(row);
    DistinctMappingBytes(NormaliseColumns(row));
    RowEstimateIsLowerBound(row);
  }

  // ----- bare rows

  /** A bare primitive that JSON prints as it is. */
  predicate IsBarePrimitive(v: Cell) {
    v.Leaf? &&
    match v.scalar
    case Null => true
    case Boolean(_) => true
    case Integer(_) => true
    case Float(repr, finite) => finite && IsPlain(repr)
    case _ => false
  }

  predicate IsBareRow(row: Row) {
    forall k :: 0 <= k < |row| ==> IsPlain(row[k].name) && IsBarePrimitive(row[k].cell)
  }

  lemma {:induction false} BareRowIsExact(row: Row)
    requires IsBareRow(row)
    ensures RowIsExact(row) && ColumnsStayDistinct(row)
  {
    if row != [] {
      BareRowIsExact(row[1..]);
    }
  }

  /** For rows of bare finite primitives under plain, distinct column names the estimate is exact. */
  lemma {:induction false} BareRowsAreExact(row: Row)
    requires IsBareRow(row) && DistinctKeys(NormaliseColumns(row))
    ensures ApproxRowSize(row) == JsonBytes(NormaliseRow(row))
  {
    BareRowIsExact(row);
    RowEstimateIsExactIff(row);
  }
}
