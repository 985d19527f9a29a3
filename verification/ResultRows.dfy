/** The row normaliser: every connector-native cell becomes a JSON value of bounded depth. */
module ResultRows {
  import opened JsonText

  const MAX_CELL_NESTING_DEPTH := 64

  /** `<nested value `, `omitted: deeper ` and `than 64 levels>`: what stands for a container that is cut. */
  const PLACEHOLDER_HEAD: Text := [60, 110, 101, 115, 116, 101, 100, 32, 118, 97, 108, 117, 101, 32]
  const PLACEHOLDER_MIDDLE: Text := [111, 109, 105, 116, 116, 101, 100, 58, 32, 100, 101, 101, 112, 101, 114, 32]
  const PLACEHOLDER_TAIL: Text := [116, 104, 97, 110, 32, 54, 52, 32, 108, 101, 118, 101, 108, 115, 62]
  const NESTING_DEPTH_PLACEHOLDER: Text := PLACEHOLDER_HEAD + PLACEHOLDER_MIDDLE + PLACEHOLDER_TAIL

  /**
   A value that is not a container. A float carries its own printed text; `Native` (decimals, dates,
   times, UUIDs) and `Other` (driver types) carry what `str` makes of them.
   */
  datatype Scalar =
    | Null
    | Boolean(value: bool)
    | Integer(n: int)
    | Float(repr: Text, finite: bool)
    | Str(text: Text)
    | Binary(data: seq<Byte>)
    | Native(text: Text)
    | Other(text: Text)

  /** A connector-native cell; `Items` stands for lists, tuples and sets. */
  datatype Cell = Leaf(scalar: Scalar) | Dict(members: seq<Member>) | Items(items: seq<Cell>)
  datatype Member = Member(key: Scalar, value: Cell)

  datatype Column = Column(name: Text, cell: Cell)
  type Row = seq<Column>

  const NULL_TEXT: Text := [110, 117, 108, 108]
  const NONE_TEXT: Text := [78, 111, 110, 101]
  const TRUE_TEXT: Text := [116, 114, 117, 101]
  const FALSE_TEXT: Text := [102, 97, 108, 115, 101]

  /** What `str` prints for a value that is rendered bare; booleans and None differ from JSON in letters only. */
  function BareText(s: Scalar): (t: Text)
    requires s.Null? || s.Boolean? || s.Integer? || s.Float?
  {
    match s
    case Null => NONE_TEXT
    case Boolean(b) => if b then [84] + TRUE_TEXT[1..] else [70] + FALSE_TEXT[1..]
    case Integer(n) => IntText(n)
    case Float(repr, _) => repr
  }

  function NormaliseScalar(s: Scalar): Json {
    match s
    case Null => Bare(NULL_TEXT)
    case Boolean(b) => Bare(if b then TRUE_TEXT else FALSE_TEXT)
    case Integer(n) => Bare(IntText(n))
    case Float(repr, finite) => if finite then Bare(repr) else Quoted(repr)
    case Str(text) => Quoted(JsonSafeText(text))
    case Binary(data) => Quoted(Base64(data))
    case Native(text) => Quoted(text)
    case Other(text) => Quoted(JsonSafeText(text))
  }

  /** A mapping key: the normalised key, stringified, made safe. */
  function KeyText(k: Scalar): Text {
    JsonSafeText(
      match k
      case Str(text) => JsonSafeText(text)
      case Binary(data) => Base64(data)
      case Native(text) => text
      case Other(text) => JsonSafeText(text)
      case _ => BareText(k))
  }

  /** One assignment to an ordered mapping: a key already there keeps its place and takes the new value. */
  function Put(members: seq<JsonMember>, key: Text, value: Json): (r: seq<JsonMember>)
    ensures |r| == |members| || (|r| == |members| + 1 && r == members + [JsonMember(key, value)])
  {
    if members == [] then [JsonMember(key, value)]
    else if members[0].key == key then [JsonMember(key, value)] + members[1..]
    else [members[0]] + Put(members[1..], key, value)
  }

  /** Building a mapping from pairs in order, on top of `done`. */
  function PutAll(done: seq<JsonMember>, pairs: seq<JsonMember>): seq<JsonMember>
    decreases pairs
  {
    if pairs == [] then done else PutAll(Put(done, pairs[0].key, pairs[0].value), pairs[1..])
  }

  /** Normalises a cell `depth` container levels below the cell's top. */
  function Normalise(v: Cell, depth: nat): Json
    decreases v
  {
    match v
    case Leaf(s) => NormaliseScalar(s)
    case Dict(members) =>
      if depth >= MAX_CELL_NESTING_DEPTH then Quoted(NESTING_DEPTH_PLACEHOLDER)
      else Object(PutAll([], NormaliseMembers(members, depth)))
    case Items(items) =>
      if depth >= MAX_CELL_NESTING_DEPTH then Quoted(NESTING_DEPTH_PLACEHOLDER)
      else Array(NormaliseItems(items, depth + 1))
  }

  function NormaliseMember(m: Member, depth: nat): JsonMember
    decreases m
  {
    match m
    case Member(key, value) => JsonMember(KeyText(key), Normalise(value, depth + 1))
  }

  function NormaliseMembers(members: seq<Member>, depth: nat): (r: seq<JsonMember>)
    ensures |r| == |members|
    decreases members
  {
    if members == [] then [] else [NormaliseMember(members[0], depth)] + NormaliseMembers(members[1..], depth)
  }

  function NormaliseItems(items: seq<Cell>, depth: nat): (r: seq<Json>)
    ensures |r| == |items|
    decreases items
  {
    if items == [] then [] else [Normalise(items[0], depth)] + NormaliseItems(items[1..], depth)
  }

  // ----- the depth cap

  /** Containers the cap replaces inside a cell. */
  function CappedContainers(v: Cell, depth: nat): nat
    decreases v
  {
    match v
    case Leaf(_) => 0
    case Dict(members) => if depth >= MAX_CELL_NESTING_DEPTH then 1 else CappedInMembers(members, depth)
    case Items(items) => if depth >= MAX_CELL_NESTING_DEPTH then 1 else CappedInItems(items, depth + 1)
  }

  function CappedInMember(m: Member, depth: nat): nat
    decreases m
  {
    match m
    case Member(_, value) => CappedContainers(value, depth + 1)
  }

  function CappedInMembers(members: seq<Member>, depth: nat): nat
    decreases members
  {
    if members == [] then 0 else CappedInMember(members[0], depth) + CappedInMembers(members[1..], depth)
  }

  function CappedInItems(items: seq<Cell>, depth: nat): nat
    decreases items
  {
    if items == [] then 0 else CappedContainers(items[0], depth) + CappedInItems(items[1..], depth)
  }

  /** The per-cell accumulator. */
  class Tally {
    var cappedContainers: nat

    constructor ()
      ensures cappedContainers == 0
    {
      cappedContainers := 0;
    }
  }

  method JsonSafeValue(v: Cell, depth: nat, tally: Tally) returns (j: Json)
    modifies tally
    ensures j == Normalise(v, depth)
    ensures tally.cappedContainers == old(tally.cappedContainers) + CappedContainers(v, depth)
    decreases v
  {
    match v
    case Leaf(s) =>
      j := NormaliseScalar(s);
    case Dict(members) =>
      if depth >= MAX_CELL_NESTING_DEPTH {
        tally.cappedContainers := tally.cappedContainers + 1;
        j := Quoted(NESTING_DEPTH_PLACEHOLDER);
      } else {
        var safe := JsonSafeMembers(members, depth, tally);
        j := Object(PutAll([], safe));
      }
    case Items(items) =>
      if depth >= MAX_CELL_NESTING_DEPTH {
        tally.cappedContainers := tally.cappedContainers + 1;
        j := Quoted(NESTING_DEPTH_PLACEHOLDER);
      } else {
        var safe := JsonSafeItems(items, depth + 1, tally);
        j := Array(safe);
      }
  }

  method JsonSafeMembers(members: seq<Member>, depth: nat, tally: Tally) returns (safe: seq<JsonMember>)
    modifies tally
    ensures safe == NormaliseMembers(members, depth)
    ensures tally.cappedContainers == old(tally.cappedContainers) + CappedInMembers(members, depth)
    decreases members
  {
    if members == [] {
      return [];
    }
    var value := JsonSafeMember(members[0], depth, tally);
    var rest := JsonSafeMembers(members[1..], depth, tally);
    safe := [value] + rest;
  }

  method JsonSafeMember(m: Member, depth: nat, tally: Tally) returns (safe: JsonMember)
    modifies tally
    ensures safe == NormaliseMember(m, depth)
    ensures tally.cappedContainers == old(tally.cappedContainers) + CappedInMember(m, depth)
    decreases m
  {
    match m
    case Member(key, value) =>
      var j := JsonSafeValue(value, depth + 1, tally);
      safe := JsonMember(KeyText(key), j);
  }

  method JsonSafeItems(items: seq<Cell>, depth: nat, tally: Tally) returns (safe: seq<Json>)
    modifies tally
    ensures safe == NormaliseItems(items, depth)
    ensures tally.cappedContainers == old(tally.cappedContainers) + CappedInItems(items, depth)
    decreases items
  {
    if items == [] {
      return [];
    }
    var first := JsonSafeValue(items[0], depth, tally);
    var rest := JsonSafeItems(items[1..], depth, tally);
    safe := [first] + rest;
  }

  // ----- rows

  function NormaliseColumns(row: Row): (r: seq<JsonMember>)
    ensures |r| == |row|
  {
    if row == [] then []
    else [JsonMember(JsonSafeText(row[0].name), Normalise(row[0].cell, 0))] + NormaliseColumns(row[1..])
  }

  function NormaliseRow(row: Row): Json { Object(PutAll([], NormaliseColumns(row))) }

  function NormaliseRows(rows: seq<Row>): (r: seq<Json>)
    ensures |r| == |rows|
  {
    if rows == [] then [] else [NormaliseRow(rows[0])] + NormaliseRows(rows[1..])
  }

  /** Cells with at least one capped container. */
  function CappedCellsOfRow(row: Row): nat {
    if row == [] then 0
    else (if CappedContainers(row[0].cell, 0) > 0 then 1 else 0) + CappedCellsOfRow(row[1..])
  }

  function CappedCells(rows: seq<Row>): nat {
    if rows == [] then 0 else CappedCellsOfRow(rows[0]) + CappedCells(rows[1..])
  }

  method NormaliseCell(cell: Cell) returns (j: Json, capped: bool)
    ensures j == Normalise(cell, 0) && capped == (CappedContainers(cell, 0) > 0)
  {
    var tally := new Tally();
    j := JsonSafeValue(cell, 0, tally);
    capped := tally.cappedContainers > 0;
  }

  method NormaliseOneRow(row: Row) returns (safe: seq<JsonMember>, capped: nat)
    ensures safe == PutAll([], NormaliseColumns(row)) && capped == CappedCellsOfRow(row)
  {
    safe, capped := [], 0;
    var i := 0;
    while i < |row|
      invariant 0 <= i <= |row|
      invariant PutAll(safe, NormaliseColumns(row[i..])) == PutAll([], NormaliseColumns(row))
      invariant capped + CappedCellsOfRow(row[i..]) == CappedCellsOfRow(row)
    {
      var value, isCapped := NormaliseCell(row[i].cell);
      assert row[i..][1..] == row[i + 1..];
      safe := Put(safe, JsonSafeText(row[i].name), value);
      capped := capped + if isCapped then 1 else 0;
      i := i + 1;
    }
  }

  /** The one choke point after a billed execution: normalised rows and the count of capped cells. */
  method NormaliseAllRows(rows: seq<Row>) returns (safe: seq<Json>, capped: nat)
    ensures safe == NormaliseRows(rows) && capped == CappedCells(rows)
  {
    safe, capped := [], 0;
    var i := 0;
    while i < |rows|
      invariant 0 <= i <= |rows|
      invariant safe + NormaliseRows(rows[i..]) == NormaliseRows(rows)
      invariant capped + CappedCells(rows[i..]) == CappedCells(rows)
    {
      var members, count := NormaliseOneRow(rows[i]);
      assert rows[i..][1..] == rows[i + 1..];
      safe := safe + [Object(members)];
      capped := capped + count;
      i := i + 1;
    }
  }

  // ----- colliding keys

  predicate DistinctKeys(members: seq<JsonMember>) {
    forall i, j :: 0 <= i < j < |members| ==> members[i].key != members[j].key
  }

  lemma {:induction false} PutNew(members: seq<JsonMember>, key: Text, value: Json)
    ensures (forall k :: 0 <= k < |members| ==> members[k].key != key) ==>
            Put(members, key, value) == members + [JsonMember(key, value)]
    ensures (exists k :: 0 <= k < |members| && members[k].key == key) ==> |Put(members, key, value)| == |members|
  {
    if members != [] && members[0].key != key {
      PutNew(members[1..], key, value);
      assert forall k :: 0 < k < |members| ==> members[k] == members[1..][k - 1];
      if forall k :: 0 <= k < |members| ==> members[k].key != key {
        assert forall k :: 0 <= k < |members[1..]| ==> members[1..][k] == members[k + 1];
      }
    }
  }

  lemma {:induction false} PutAllNeverGrows(done: seq<JsonMember>, pairs: seq<JsonMember>)
    ensures |PutAll(done, pairs)| <= |done| + |pairs|
    decreases pairs
  {
    if pairs != [] {
      PutAllNeverGrows(Put(done, pairs[0].key, pairs[0].value), pairs[1..]);
    }
  }

  /**
   A mapping keeps every member exactly when no two keys collide after stringification; then it is
   the pairs themselves, in order.
   */
  lemma {:induction false} MappingKeepsAllIff(done: seq<JsonMember>, pairs: seq<JsonMember>)
    requires DistinctKeys(done)
    ensures |PutAll(done, pairs)| == |done| + |pairs| <==> DistinctKeys(done + pairs)
    ensures DistinctKeys(done + pairs) ==> PutAll(done, pairs) == done + pairs
    decreases pairs
  {
    if pairs == [] {
      assert done + pairs == done;
    } else {
      var key, value := pairs[0].key, pairs[0].value;
      PutNew(done, key, value);
      var next := Put(done, key, value);
      if exists k :: 0 <= k < |done| && done[k].key == key {
        var k :| 0 <= k < |done| && done[k].key == key;
        assert (done + pairs)[k].key == (done + pairs)[|done|].key;
        PutAllNeverGrows(next, pairs[1..]);
      } else {
        assert next + pairs[1..] == done + pairs;
        MappingKeepsAllIff(next, pairs[1..]);
      }
    }
  }

  // ----- nesting of the result

  /** No container of `j` lies more than `k` levels deep. */
  predicate WithinDepth(j: Json, k: nat)
    decreases j
  {
    match j
    case Object(members) => k > 0 && MembersWithin(members, k - 1)
    case Array(items) => k > 0 && ItemsWithin(items, k - 1)
    case _ => true
  }

  predicate MemberWithin(m: JsonMember, k: nat)
    decreases m
  {
    match m
    case JsonMember(_, value) => WithinDepth(value, k)
  }

  predicate MembersWithin(members: seq<JsonMember>, k: nat)
    decreases members
  {
    members == [] || (MemberWithin(members[0], k) && MembersWithin(members[1..], k))
  }

  predicate ItemsWithin(items: seq<Json>, k: nat)
    decreases items
  {
    items == [] || (WithinDepth(items[0], k) && ItemsWithin(items[1..], k))
  }

  lemma {:induction false} PutStaysWithin(members: seq<JsonMember>, key: Text, value: Json, k: nat)
    requires MembersWithin(members, k) && WithinDepth(value, k)
    ensures MembersWithin(Put(members, key, value), k)
  {
    var r := Put(members, key, value);
    if members == [] {
      assert r[1..] == [];
    } else if members[0].key == key {
      assert r[1..] == members[1..];
    } else {
      PutStaysWithin(members[1..], key, value, k);
      assert r[1..] == Put(members[1..], key, value);
    }
  }

  lemma {:induction false} PutAllStaysWithin(done: seq<JsonMember>, pairs: seq<JsonMember>, k: nat)
    requires MembersWithin(done, k) && MembersWithin(pairs, k)
    ensures MembersWithin(PutAll(done, pairs), k)
    decreases pairs
  {
    if pairs != [] {
      PutStaysWithin(done, pairs[0].key, pairs[0].value, k);
      PutAllStaysWithin(Put(done, pairs[0].key, pairs[0].value), pairs[1..], k);
    }
  }

  /** Whatever the connector returned, a normalised cell nests at most 64 containers. */
  lemma {:induction false} NormalisedDepth(v: Cell, depth: nat)
    requires depth <= MAX_CELL_NESTING_DEPTH
    ensures WithinDepth(Normalise(v, depth), MAX_CELL_NESTING_DEPTH - depth)
    decreases v
  {
    if depth < MAX_CELL_NESTING_DEPTH {
      match v
      case Leaf(_) =>
      case Dict(members) =>
        NormalisedMembersDepth(members, depth);
        PutAllStaysWithin([], NormaliseMembers(members, depth), MAX_CELL_NESTING_DEPTH - depth - 1);
      case Items(items) => NormalisedItemsDepth(items, depth + 1);
    }
  }

  lemma {:induction false} NormalisedMemberDepth(m: Member, depth: nat)
    requires depth < MAX_CELL_NESTING_DEPTH
    ensures MemberWithin(NormaliseMember(m, depth), MAX_CELL_NESTING_DEPTH - depth - 1)
    decreases m
  {
    match m
    case Member(_, value) => NormalisedDepth(value, depth + 1);
  }

  lemma {:induction false} NormalisedMembersDepth(members: seq<Member>, depth: nat)
    requires depth < MAX_CELL_NESTING_DEPTH
    ensures MembersWithin(NormaliseMembers(members, depth), MAX_CELL_NESTING_DEPTH - depth - 1)
    decreases members
  {
    if members != [] {
      NormalisedMemberDepth(members[0], depth);
      NormalisedMembersDepth(members[1..], depth);
    }
  }

  lemma {:induction false} NormalisedItemsDepth(items: seq<Cell>, depth: nat)
    requires depth <= MAX_CELL_NESTING_DEPTH
    ensures ItemsWithin(NormaliseItems(items, depth), MAX_CELL_NESTING_DEPTH - depth)
    decreases items
  {
    if items != [] {
      NormalisedDepth(items[0], depth);
      NormalisedItemsDepth(items[1..], depth);
    }
  }
}
