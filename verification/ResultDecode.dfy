/**
 What the rows that are sent mean to their receiver: cells nothing cuts come back as they were, values,
 names and order.
 */
module ResultDecode {
  import opened Outcomes
  import opened JsonText
  import opened JsonReader
  import opened ByteReader
  import opened ResultRows

  // ----- what the receiver must find

  /** The value read stands for the scalar. */
  predicate MeansScalar(v: Value, s: Scalar) {
    match s
    case Null => v == NullValue
    case Boolean(b) => v == BoolValue(b)
    case Integer(n) => v.NumberValue? && IntegerOf(v.token) == Some(n)
    case Float(repr, finite) => v == if finite then NumberValue(repr) else TextValue(repr)
    case Str(text) => v == TextValue(text)
    case Binary(data) => v.TextValue? && BytesOf(v.text) == Some(data)
    case Native(text) => v == TextValue(text)
    case Other(text) => v == TextValue(text)
  }

  /** The member name read stands for the key of a mapping, printed as Python prints it. */
  predicate MeansKey(name: Text, k: Scalar) {
    match k
    case Null => name == Ascii("None")
    case Boolean(b) => name == if b then Ascii("True") else Ascii("False")
    case Integer(n) => IntegerOf(name) == Some(n)
    case Binary(data) => BytesOf(name) == Some(data)
    case Float(repr, _) => name == repr
    case Str(text) => name == text
    case Native(text) => name == text
    case Other(text) => name == text
  }

  /** The value read stands for the cell: lists item by item, mappings member by member, in order. */
  predicate Means(v: Value, c: Cell)
    decreases c
  {
    match c
    case Leaf(s) => MeansScalar(v, s)
    case Dict(members) => v.ObjectValue? && MeansMembers(v.members, members)
    case Items(items) => v.ListValue? && MeansItems(v.items, items)
  }

  predicate MeansMember(v: ValueMember, m: Member)
    decreases m
  {
    match m
    case Member(key, value) => MeansKey(v.name, key) && Means(v.value, value)
  }

  predicate MeansMembers(vs: seq<ValueMember>, members: seq<Member>)
    decreases members
  {
    |vs| == |members| && (members == [] || (MeansMember(vs[0], members[0]) && MeansMembers(vs[1..], members[1..])))
  }

  predicate MeansItems(vs: seq<Value>, items: seq<Cell>)
    decreases items
  {
    |vs| == |items| && (items == [] || (Means(vs[0], items[0]) && MeansItems(vs[1..], items[1..])))
  }

  predicate IsLowerHex(t: Text) {
    forall k :: 0 <= k < |t| ==> '0' as int <= t[k] <= '9' as int || 'a' as int <= t[k] <= 'f' as int
  }

  /** The text with each lone surrogate as a backslash, a `u` and its four digits, all else unchanged. */
  predicate SpellsOut(t: Text, u: Text) {
    if t == [] then u == []
    else if 0xD800 <= t[0] <= 0xDFFF then
      && |u| >= 6 && u[..2] == Ascii("\\u") && HexOf(u[2..6]) == Some(t[0]) && IsLowerHex(u[2..6])
      && SpellsOut(t[1..], u[6..])
    else u != [] && u[0] == t[0] && SpellsOut(t[1..], u[1..])
  }

  /**
   The value read stands for the row: a member for each column, in order, under its name, and every cell
   that nothing cuts as it was.
   */
  predicate MeansRow(v: Value, row: Row) {
    && v.ObjectValue? && |v.members| == |row|
    && forall k :: 0 <= k < |row| ==>
         && SpellsOut(row[k].name, v.members[k].name)
         && (IsWhole(row[k].cell, 0) ==> Means(v.members[k].value, row[k].cell))
  }

  // ----- which cells arrive whole

  predicate HasNoSurrogates(t: Text) { forall k :: 0 <= k < |t| ==> !(0xD800 <= t[k] <= 0xDFFF) }

  /** Text is free of lone surrogates, and a finite float is printed as JSON prints numbers. */
  predicate IsClean(s: Scalar) {
    match s
    case Str(text) => HasNoSurrogates(text)
    case Native(text) => HasNoSurrogates(text)
    case Other(text) => HasNoSurrogates(text)
    case Float(repr, finite) => HasNoSurrogates(repr) && (finite ==> IsNumber(repr))
    case _ => true
  }

  /** Clean, no two keys of one mapping alike, and no container more than 64 deep. */
  predicate IsWhole(c: Cell, depth: nat)
    decreases c
  {
    match c
    case Leaf(s) => IsClean(s)
    case Dict(members) =>
      depth < 64 && DistinctKeys(NormaliseMembers(members, depth)) && MembersAreWhole(members, depth + 1)
    case Items(items) => depth < 64 && ItemsAreWhole(items, depth + 1)
  }

  predicate MemberIsWhole(m: Member, depth: nat)
    decreases m
  {
    match m
    case Member(key, value) => IsClean(key) && IsWhole(value, depth)
  }

  predicate MembersAreWhole(members: seq<Member>, depth: nat)
    decreases members
  {
    members == [] || (MemberIsWhole(members[0], depth) && MembersAreWhole(members[1..], depth))
  }

  predicate ItemsAreWhole(items: seq<Cell>, depth: nat)
    decreases items
  {
    items == [] || (IsWhole(items[0], depth) && ItemsAreWhole(items[1..], depth))
  }

  /** Finite floats, wherever they stand, are printed as JSON prints numbers. */
  predicate FloatsPrint(c: Cell)
    decreases c
  {
    match c
    case Leaf(s) => s.Float? && s.finite ==> IsNumber(s.repr)
    case Dict(members) => FloatsPrintInMembers(members)
    case Items(items) => FloatsPrintInItems(items)
  }

  predicate FloatsPrintInMember(m: Member)
    decreases m
  {
    match m
    case Member(_, value) => FloatsPrint(value)
  }

  predicate FloatsPrintInMembers(members: seq<Member>)
    decreases members
  {
    members == [] || (FloatsPrintInMember(members[0]) && FloatsPrintInMembers(members[1..]))
  }

  predicate FloatsPrintInItems(items: seq<Cell>)
    decreases items
  {
    items == [] || (FloatsPrint(items[0]) && FloatsPrintInItems(items[1..]))
  }

  /** No two column names alike as they are sent, and floats that print; cells may be of any shape and depth. */
  predicate RowPrints(row: Row) {
    DistinctKeys(NormaliseColumns(row)) && forall k :: 0 <= k < |row| ==> FloatsPrint(row[k].cell)
  }

  // ----- scalars and keys

  lemma {:induction false} ScalarArrives(s: Scalar)
    requires IsClean(s)
    ensures IsReadable(NormaliseScalar(s)) && MeansScalar(ValueOf(NormaliseScalar(s)), s)
  {
    match s
    case Integer(n) => IntegerReads(n);
    case Float(repr, finite) =>
      if finite {
        NumberIsNoName(repr);
      }
    case Str(text) => SafeTextHasNoSurrogate(text);
    case Binary(data) => Base64Reads(data);
    case Other(text) => SafeTextHasNoSurrogate(text);
    case _ =>
  }

  lemma PlainHasNoSurrogates(t: Text)
    requires IsPlain(t)
    ensures JsonSafeText(t) == t
  {
    SafeTextHasNoSurrogate(t);
  }

  lemma NoneIsNamed()
    ensures NONE_TEXT == Ascii("None") && IsPlain(NONE_TEXT)
  {
  }

  lemma BooleanIsNamed(b: bool)
    ensures BareText(Boolean(b)) == (if b then Ascii("True") else Ascii("False")) && IsPlain(BareText(Boolean(b)))
  {
    if b {
      assert BareText(Boolean(b)) == [84, 114, 117, 101];
    } else {
      assert BareText(Boolean(b)) == [70, 97, 108, 115, 101];
    }
  }

  lemma {:induction false} BareKeyArrives(k: Scalar)
    requires k.Null? || k.Boolean? || k.Integer?
    ensures MeansKey(KeyText(k), k)
  {
    if k.Integer? {
      IntegerReads(k.n);
    } else {
      NoneIsNamed();
      BooleanIsNamed(k.Boolean? && k.value);
    }
    PlainHasNoSurrogates(BareText(k));
  }

  lemma {:induction false} KeyArrives(k: Scalar)
    requires IsClean(k)
    ensures MeansKey(KeyText(k), k)
  {
    match k
    case Float(repr, _) => SafeTextHasNoSurrogate(repr);
    case Str(text) => SafeTextHasNoSurrogate(text);
    case Binary(data) =>
      Base64Reads(data);
      PlainHasNoSurrogates(Base64(data));
    case Native(text) => SafeTextHasNoSurrogate(text);
    case Other(text) => SafeTextHasNoSurrogate(text);
    case _ => BareKeyArrives(k);
  }

  // ----- cells

  lemma {:induction false} CellArrives(c: Cell, depth: nat)
    requires IsWhole(c, depth)
    ensures IsReadable(Normalise(c, depth)) && Means(ValueOf(Normalise(c, depth)), c)
    decreases c
  {
    match c
    case Leaf(s) => ScalarArrives(s);
    case Dict(members) =>
      MembersArrive(members, depth);
      KeepsAll(NormaliseMembers(members, depth));
    case Items(items) => ItemsArrive(items, depth + 1);
  }

  lemma {:induction false} KeepsAll(pairs: seq<JsonMember>)
    requires DistinctKeys(pairs)
    ensures PutAll([], pairs) == pairs
  {
    assert [] + pairs == pairs;
    MappingKeepsAllIff([], pairs);
  }

  lemma {:induction false} MemberArrives(m: Member, depth: nat)
    requires MemberIsWhole(m, depth + 1)
    ensures MemberIsReadable(NormaliseMember(m, depth)) && MeansMember(ValueOfMember(NormaliseMember(m, depth)), m)
    decreases m
  {
    match m
    case Member(key, value) =>
      KeyArrives(key);
      CellArrives(value, depth + 1);
  }

  lemma {:induction false} MembersArrive(members: seq<Member>, depth: nat)
    requires MembersAreWhole(members, depth + 1)
    ensures MembersAreReadable(NormaliseMembers(members, depth))
    ensures MeansMembers(ValuesOfMembers(NormaliseMembers(members, depth)), members)
    decreases members
  {
    if members != [] {
      MemberArrives(members[0], depth);
      MembersArrive(members[1..], depth);
      var all := NormaliseMembers(members, depth);
      assert all[1..] == NormaliseMembers(members[1..], depth);
      assert ValuesOfMembers(all)[1..] == ValuesOfMembers(all[1..]);
    }
  }

  lemma {:induction false} ItemsArrive(items: seq<Cell>, depth: nat)
    requires ItemsAreWhole(items, depth)
    ensures ItemsAreReadable(NormaliseItems(items, depth)) && MeansItems(ValuesOf(NormaliseItems(items, depth)), items)
    decreases items
  {
    if items != [] {
      CellArrives(items[0], depth);
      ItemsArrive(items[1..], depth);
      var all := NormaliseItems(items, depth);
      assert all[1..] == NormaliseItems(items[1..], depth);
      assert ValuesOf(all)[1..] == ValuesOf(all[1..]);
    }
  }

  // ----- every cell is readable

  lemma {:induction false} PutStaysReadable(members: seq<JsonMember>, key: Text, value: Json)
    requires MembersAreReadable(members) && IsReadable(value)
    ensures MembersAreReadable(Put(members, key, value))
  {
    var r := Put(members, key, value);
    if members == [] {
      assert r[1..] == [];
    } else if members[0].key == key {
      assert r[1..] == members[1..];
    } else {
      PutStaysReadable(members[1..], key, value);
      assert r[1..] == Put(members[1..], key, value);
    }
  }

  lemma {:induction false} PutAllStaysReadable(done: seq<JsonMember>, pairs: seq<JsonMember>)
    requires MembersAreReadable(done) && MembersAreReadable(pairs)
    ensures MembersAreReadable(PutAll(done, pairs))
    decreases pairs
  {
    if pairs != [] {
      PutStaysReadable(done, pairs[0].key, pairs[0].value);
      PutAllStaysReadable(Put(done, pairs[0].key, pairs[0].value), pairs[1..]);
    }
  }

  lemma {:induction false} CellIsReadable(c: Cell, depth: nat)
    requires FloatsPrint(c)
    ensures IsReadable(Normalise(c, depth))
    decreases c
  {
    match c
    case Leaf(s) =>
      if s.Integer? {
        IntegerReads(s.n);
      } else if s.Float? && s.finite {
        NumberIsNoName(s.repr);
      }
    case Dict(members) =>
      MembersReadable(members, depth);
      PutAllStaysReadable([], NormaliseMembers(members, depth));
    case Items(items) => ItemsReadable(items, depth + 1);
  }

  lemma {:induction false} MemberReadable(m: Member, depth: nat)
    requires FloatsPrintInMember(m)
    ensures MemberIsReadable(NormaliseMember(m, depth))
    decreases m
  {
    match m
    case Member(_, value) => CellIsReadable(value, depth + 1);
  }

  lemma {:induction false} MembersReadable(members: seq<Member>, depth: nat)
    requires FloatsPrintInMembers(members)
    ensures MembersAreReadable(NormaliseMembers(members, depth))
    decreases members
  {
    if members != [] {
      MemberReadable(members[0], depth);
      MembersReadable(members[1..], depth);
      assert NormaliseMembers(members, depth)[1..] == NormaliseMembers(members[1..], depth);
    }
  }

  lemma {:induction false} ItemsReadable(items: seq<Cell>, depth: nat)
    requires FloatsPrintInItems(items)
    ensures ItemsAreReadable(NormaliseItems(items, depth))
    decreases items
  {
    if items != [] {
      CellIsReadable(items[0], depth);
      ItemsReadable(items[1..], depth);
      assert NormaliseItems(items, depth)[1..] == NormaliseItems(items[1..], depth);
    }
  }

  // ----- rows

  lemma {:induction false} ColumnsAt(row: Row, k: nat)
    requires k < |row|
    ensures NormaliseColumns(row)[k] == JsonMember(JsonSafeText(row[k].name), Normalise(row[k].cell, 0))
  {
    if k > 0 {
      ColumnsAt(row[1..], k - 1);
    }
  }

  lemma {:induction false} ReadableAt(members: seq<JsonMember>)
    requires forall k :: 0 <= k < |members| ==> MemberIsReadable(members[k])
    ensures MembersAreReadable(members)
    ensures forall k :: 0 <= k < |members| ==> ValuesOfMembers(members)[k] == ValueOfMember(members[k])
    decreases members
  {
    if members != [] {
      ReadableAt(members[1..]);
      assert forall k :: 0 < k < |members| ==> members[k] == members[1..][k - 1];
    }
  }

  lemma {:induction false} RowArrives(row: Row)
    requires RowPrints(row)
    ensures IsReadable(NormaliseRow(row)) && MeansRow(ValueOf(NormaliseRow(row)), row)
  {
    var all := NormaliseColumns(row);
    forall k | 0 <= k < |row|
      ensures MemberIsReadable(all[k]) && SpellsOut(row[k].name, all[k].key)
      ensures IsWhole(row[k].cell, 0) ==> Means(ValueOf(all[k].value), row[k].cell)
    {
      ColumnsAt(row, k);
      ColumnArrives(row[k]);
    }
    KeepsAll(all);
    ReadableAt(all);
  }

  lemma {:induction false} ColumnArrives(c: Column)
    requires FloatsPrint(c.cell)
    ensures IsReadable(Normalise(c.cell, 0)) && SpellsOut(c.name, JsonSafeText(c.name))
    ensures IsWhole(c.cell, 0) ==> Means(ValueOf(Normalise(c.cell, 0)), c.cell)
  {
    CellIsReadable(c.cell, 0);
    SafeTextSpellsOut(c.name);
    if IsWhole(c.cell, 0) {
      CellArrives(c.cell, 0);
    }
  }

  lemma {:induction false} RowsArrive(rows: seq<Row>)
    requires forall k :: 0 <= k < |rows| ==> RowPrints(rows[k])
    ensures ItemsAreReadable(NormaliseRows(rows))
    ensures forall k :: 0 <= k < |rows| ==> MeansRow(ValuesOf(NormaliseRows(rows))[k], rows[k])
  {
    if rows != [] {
      RowArrives(rows[0]);
      RowsArrive(rows[1..]);
      var all := NormaliseRows(rows);
      assert all[1..] == NormaliseRows(rows[1..]);
      assert forall k :: 0 < k < |rows| ==> ValuesOf(all)[k] == ValuesOf(all[1..])[k - 1];
    }
  }

  /**
   The rendered rows, read by the standard, are a list of as many values, each standing for its row, and
   nothing is left over.
   */
  lemma {:induction false} SentRowsMeanTheRows(rows: seq<Row>)
    requires forall k :: 0 <= k < |rows| ==> RowPrints(rows[k])
    ensures var read := ReadValue(Render(Array(NormaliseRows(rows))));
            && read.Some? && read.value.1 == [] && read.value.0.ListValue?
            && var values := read.value.0.items;
               |values| == |rows| && forall k :: 0 <= k < |rows| ==> MeansRow(values[k], rows[k])
  {
    RowsArrive(rows);
    var text := Render(Array(NormaliseRows(rows)));
    RenderReads(Array(NormaliseRows(rows)), []);
    assert text + [] == text;
  }

  // ----- what does not arrive whole

  lemma {:induction false} SafeTextSpellsOut(t: Text)
    ensures SpellsOut(t, JsonSafeText(t))
  {
    if t != [] {
      SafeTextSpellsOut(t[1..]);
      var u := JsonSafeText(t);
      if IsSurrogate(t[0]) {
        SurrogateReads(t[0]);
        assert u[..2] == UnicodeEscape(t[0])[..2] && u[2..6] == UnicodeEscape(t[0])[2..];
        assert u[6..] == JsonSafeText(t[1..]);
      } else {
        assert u[1..] == JsonSafeText(t[1..]);
      }
    }
  }

  lemma SurrogateReads(c: CodePoint)
    requires IsSurrogate(c)
    ensures UnicodeEscape(c)[..2] == Ascii("\\u") && HexOf(UnicodeEscape(c)[2..]) == Some(c)
    ensures IsLowerHex(UnicodeEscape(c)[2..])
  {
    EscapeDigitsRead(c);
    assert UnicodeEscape(c)[..2] == [92, 117];
  }

  lemma AsciiJoins(a: string, b: string)
    ensures Ascii(a + b) == Ascii(a) + Ascii(b)
  {
  }

  lemma PlaceholderParts()
    ensures PLACEHOLDER_HEAD == Ascii("<nested value ")
    ensures PLACEHOLDER_MIDDLE == Ascii("omitted: deeper ")
    ensures PLACEHOLDER_TAIL == Ascii("than 64 levels>")
  {
  }

  lemma PlaceholderReads()
    ensures NESTING_DEPTH_PLACEHOLDER == Ascii("<nested value omitted: deeper than 64 levels>")
  {
    var head, middle, tail := "<nested value ", "omitted: deeper ", "than 64 levels>";
    PlaceholderParts();
    AsciiJoins(head, middle);
    AsciiJoins(head + middle, tail);
    assert head + middle + tail == "<nested value omitted: deeper than 64 levels>";
  }

  /** A container from the sixty-fifth level on is sent as a text that says so. */
  lemma {:induction false} CutIsSpelledOut(c: Cell, depth: nat)
    requires depth >= 64 && !c.Leaf?
    ensures Normalise(c, depth) == Quoted(Ascii("<nested value omitted: deeper than 64 levels>"))
  {
    PlaceholderReads();
  }

  // ----- how many cells are cut

  /** The cell holds at most `k` containers one inside the other. */
  predicate NestsWithin(c: Cell, k: nat)
    decreases c
  {
    match c
    case Leaf(_) => true
    case Dict(members) => k > 0 && MembersNestWithin(members, k - 1)
    case Items(items) => k > 0 && ItemsNestWithin(items, k - 1)
  }

  predicate MemberNestsWithin(m: Member, k: nat)
    decreases m
  {
    match m
    case Member(_, value) => NestsWithin(value, k)
  }

  predicate MembersNestWithin(members: seq<Member>, k: nat)
    decreases members
  {
    members == [] || (MemberNestsWithin(members[0], k) && MembersNestWithin(members[1..], k))
  }

  predicate ItemsNestWithin(items: seq<Cell>, k: nat)
    decreases items
  {
    items == [] || (NestsWithin(items[0], k) && ItemsNestWithin(items[1..], k))
  }

  /** Something is cut in a cell exactly when it nests more than 64 containers. */
  lemma {:induction false} CutIff(c: Cell, depth: nat, k: nat)
    requires depth + k == 64
    ensures CappedContainers(c, depth) == 0 <==> NestsWithin(c, k)
    decreases c
  {
    match c
    case Leaf(_) =>
    case Dict(members) =>
      if k > 0 {
        CutInMembersIff(members, depth, k - 1);
      }
    case Items(items) =>
      if k > 0 {
        CutInItemsIff(items, depth + 1, k - 1);
      }
  }

  lemma {:induction false} CutInMembersIff(members: seq<Member>, depth: nat, k: nat)
    requires depth + 1 + k == 64
    ensures CappedInMembers(members, depth) == 0 <==> MembersNestWithin(members, k)
    decreases members
  {
    if members != [] {
      CutInMemberIff(members[0], depth, k);
      CutInMembersIff(members[1..], depth, k);
    }
  }

  lemma {:induction false} CutInMemberIff(m: Member, depth: nat, k: nat)
    requires depth + 1 + k == 64
    ensures CappedInMember(m, depth) == 0 <==> MemberNestsWithin(m, k)
    decreases m
  {
    match m
    case Member(_, value) => CutIff(value, depth + 1, k);
  }

  lemma {:induction false} CutInItemsIff(items: seq<Cell>, depth: nat, k: nat)
    requires depth + k == 64
    ensures CappedInItems(items, depth) == 0 <==> ItemsNestWithin(items, k)
    decreases items
  {
    if items != [] {
      CutIff(items[0], depth, k);
      CutInItemsIff(items[1..], depth, k);
    }
  }

  /** The columns of a row whose cells nest more than 64 containers. */
  ghost function DeepColumns(row: Row): set<nat> {
    set k: nat | k < |row| && !NestsWithin(row[k].cell, 64)
  }

  lemma {:induction false} CutCellsOfLast(row: Row)
    requires row != []
    ensures var n := |row| - 1;
            CappedCellsOfRow(row) ==
            CappedCellsOfRow(row[..n]) + if CappedContainers(row[n].cell, 0) > 0 then 1 else 0
  {
    var n := |row| - 1;
    if n > 0 {
      CutCellsOfLast(row[1..]);
      assert row[1..][..n - 1] == row[..n][1..];
      assert row[1..][n - 1] == row[n];
    }
  }

  /** The count of cut cells of a row is the number of those columns, each once however much is cut in it. */
  lemma {:induction false} CutCellsAreCounted(row: Row)
    ensures CappedCellsOfRow(row) == |DeepColumns(row)|
    decreases |row|
  {
    if row == [] {
      assert DeepColumns(row) == {};
    } else {
      var n := |row| - 1;
      CutCellsAreCounted(row[..n]);
      CutCellsOfLast(row);
      CutIff(row[n].cell, 0, 64);
      var front := DeepColumns(row[..n]);
      assert forall k :: 0 <= k < n ==> row[..n][k] == row[k];
      assert DeepColumns(row) == if NestsWithin(row[n].cell, 64) then front else front + {n};
    }
  }

  /** And that of rows adds up. */
  lemma {:induction false} CutCellsAddUp(rows: seq<Row>, n: nat)
    requires n <= |rows|
    ensures CappedCells(rows) == CappedCells(rows[..n]) + CappedCells(rows[n..])
    ensures n + 1 == |rows| ==> CappedCells(rows[n..]) == |DeepColumns(rows[n])|
  {
    if n == 0 {
      assert rows[..0] == [] && rows[0..] == rows;
      if |rows| == 1 {
        assert rows[1..] == [];
        CutCellsAreCounted(rows[0]);
      }
    } else {
      CutCellsAddUp(rows[1..], n - 1);
      assert rows[1..][..n - 1] == rows[..n][1..] && rows[1..][n - 1..] == rows[n..];
    }
  }
}
