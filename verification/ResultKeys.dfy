/**
 When the size estimate is a lower bound: exactly while no two keys of one mapping read the same
 after stringification. A later member with the same text erases an earlier one from the result, but
 not from the estimate.
 */
module ResultKeys {
  import opened JsonText
  import opened ResultRows
  import opened ResultBounds

  // ----- what a later key erases

  /** The two mappings differ at most in the value of the first member named `key`. */
  predicate SameBut(d1: seq<JsonMember>, d2: seq<JsonMember>, key: Text)
    decreases d1
  {
    if d1 == [] || d2 == [] then d1 == d2
    else if d1[0].key == key then d2[0].key == key && d1[1..] == d2[1..]
    else d1[0] == d2[0] && SameBut(d1[1..], d2[1..], key)
  }

  lemma {:induction false} SameButItself(d: seq<JsonMember>, key: Text)
    ensures SameBut(d, d, key)
  {
    if d != [] {
      SameButItself(d[1..], key);
    }
  }

  lemma {:induction false} PutDiffersInValue(d: seq<JsonMember>, key: Text, v1: Json, v2: Json)
    ensures SameBut(Put(d, key, v1), Put(d, key, v2), key)
  {
    if d != [] && d[0].key != key {
      PutDiffersInValue(d[1..], key, v1, v2);
      assert Put(d, key, v1)[1..] == Put(d[1..], key, v1) && Put(d, key, v2)[1..] == Put(d[1..], key, v2);
    } else if d != [] {
      assert Put(d, key, v1)[1..] == d[1..] == Put(d, key, v2)[1..];
    } else {
      assert Put(d, key, v1)[1..] == [] == Put(d, key, v2)[1..];
    }
  }

  /** Writing the key itself removes the difference. */
  lemma {:induction false} PutMeets(d1: seq<JsonMember>, d2: seq<JsonMember>, key: Text, value: Json)
    requires SameBut(d1, d2, key)
    ensures Put(d1, key, value) == Put(d2, key, value)
  {
    if d1 != [] && d2 != [] && d1[0].key != key {
      PutMeets(d1[1..], d2[1..], key, value);
    }
  }

  /** Writing another key keeps it where it is. */
  lemma {:induction false} PutKeepsDifference(
    d1: seq<JsonMember>, d2: seq<JsonMember>, key: Text, other: Text, value: Json)
    requires SameBut(d1, d2, key) && other != key
    ensures SameBut(Put(d1, other, value), Put(d2, other, value), key)
  {
    var r1, r2 := Put(d1, other, value), Put(d2, other, value);
    if d1 == [] || d2 == [] {
      SameButItself(r1, key);
    } else if d1[0].key == key {
      assert r1[1..] == Put(d1[1..], other, value) && r2[1..] == Put(d2[1..], other, value);
    } else if d1[0].key == other {
      assert r1[1..] == d1[1..] && r2[1..] == d2[1..];
    } else {
      PutKeepsDifference(d1[1..], d2[1..], key, other, value);
      assert r1[1..] == Put(d1[1..], other, value) && r2[1..] == Put(d2[1..], other, value);
    }
  }

  lemma {:induction false} LaterPutErases(
    d1: seq<JsonMember>, d2: seq<JsonMember>, key: Text, pairs: seq<JsonMember>, j: nat)
    requires SameBut(d1, d2, key) && j < |pairs| && pairs[j].key == key
    ensures PutAll(d1, pairs) == PutAll(d2, pairs)
    decreases pairs
  {
    if pairs[0].key == key {
      PutMeets(d1, d2, key, pairs[0].value);
    } else {
      PutKeepsDifference(d1, d2, key, pairs[0].key, pairs[0].value);
      LaterPutErases(
        Put(d1, pairs[0].key, pairs[0].value), Put(d2, pairs[0].key, pairs[0].value), key, pairs[1..], j - 1);
    }
  }

  /** The value of a member that a later one overwrites does not matter. */
  lemma {:induction false} ErasedAt(done: seq<JsonMember>, pairs: seq<JsonMember>, i: nat, j: nat, value: Json)
    requires i < j < |pairs| && pairs[i].key == pairs[j].key
    ensures PutAll(done, pairs[i := JsonMember(pairs[i].key, value)]) == PutAll(done, pairs)
    decreases pairs
  {
    var changed := pairs[i := JsonMember(pairs[i].key, value)];
    if i == 0 {
      assert changed[1..] == pairs[1..];
      PutDiffersInValue(done, pairs[0].key, value, pairs[0].value);
      LaterPutErases(
        Put(done, pairs[0].key, value), Put(done, pairs[0].key, pairs[0].value), pairs[0].key, pairs[1..], j - 1);
    } else {
      assert changed[1..] == pairs[1..][i - 1 := JsonMember(pairs[i].key, value)];
      ErasedAt(Put(done, pairs[0].key, pairs[0].value), pairs[1..], i - 1, j - 1, value);
    }
  }

  // ----- mappings with given keys

  /** The mapping with these keys and values, in order. */
  function Pairs(keys: seq<Scalar>, values: seq<Cell>): (members: seq<Member>)
    requires |keys| == |values|
    ensures |members| == |keys|
  {
    if keys == [] then [] else [Member(keys[0], values[0])] + Pairs(keys[1..], values[1..])
  }

  predicate DistinctTexts(keys: seq<Scalar>) {
    forall i, j :: 0 <= i < j < |keys| ==> KeyText(keys[i]) != KeyText(keys[j])
  }

  lemma {:induction false} NormalisedPairsAt(keys: seq<Scalar>, values: seq<Cell>, depth: nat, k: nat)
    requires k < |keys| == |values|
    ensures NormaliseMembers(Pairs(keys, values), depth)[k] ==
            JsonMember(KeyText(keys[k]), Normalise(values[k], depth + 1))
  {
    var members := Pairs(keys, values);
    assert members[1..] == Pairs(keys[1..], values[1..]);
    if k > 0 {
      NormalisedPairsAt(keys[1..], values[1..], depth, k - 1);
    }
  }

  /** Changing one value changes one normalised member. */
  lemma {:induction false} NormalisedUpdate(keys: seq<Scalar>, values: seq<Cell>, depth: nat, i: nat, value: Cell)
    requires i < |keys| == |values|
    ensures NormaliseMembers(Pairs(keys, values[i := value]), depth) ==
            NormaliseMembers(Pairs(keys, values), depth)[i := JsonMember(KeyText(keys[i]), Normalise(value, depth + 1))]
  {
    var changed := NormaliseMembers(Pairs(keys, values[i := value]), depth);
    var plain := NormaliseMembers(Pairs(keys, values), depth);
    forall k | 0 <= k < |keys|
      ensures changed[k] == plain[i := JsonMember(KeyText(keys[i]), Normalise(value, depth + 1))][k]
    {
      NormalisedPairsAt(keys, values[i := value], depth, k);
      NormalisedPairsAt(keys, values, depth, k);
    }
  }

  lemma {:induction false} EstimateCoversValue(keys: seq<Scalar>, values: seq<Cell>, depth: nat, i: nat)
    requires i < |keys| == |values|
    ensures ApproxSize(values[i], depth + 1) <= ApproxMembers(Pairs(keys, values), depth)
  {
    var members := Pairs(keys, values);
    assert members[1..] == Pairs(keys[1..], values[1..]);
    assert ApproxMembers(members, depth) == ApproxMember(members[0], depth) + ApproxMembers(members[1..], depth);
    if i > 0 {
      EstimateCoversValue(keys[1..], values[1..], depth, i - 1);
    }
  }

  function Xs(n: nat): (t: Text)
    ensures |t| == n
  {
    seq(n, _ => 120)
  }

  function Nulls(n: nat): (cells: seq<Cell>)
    ensures |cells| == n && forall k :: 0 <= k < n ==> cells[k].Leaf?
  {
    seq(n, _ => Leaf(Null))
  }

  /** Of two members whose keys collide the earlier value is lost. */
  lemma {:induction false} ErasedValue(keys: seq<Scalar>, values: seq<Cell>, depth: nat, i: nat, j: nat, value: Cell)
    requires depth < MAX_CELL_NESTING_DEPTH
    requires i < j < |keys| == |values| && KeyText(keys[i]) == KeyText(keys[j])
    ensures Normalise(Dict(Pairs(keys, values[i := value])), depth) == Normalise(Dict(Pairs(keys, values)), depth)
  {
    NormalisedUpdate(keys, values, depth, i, value);
    NormalisedPairsAt(keys, values, depth, i);
    NormalisedPairsAt(keys, values, depth, j);
    ErasedAt([], NormaliseMembers(Pairs(keys, values), depth), i, j, Normalise(value, depth + 1));
  }

  lemma {:induction false} LongValueEstimate(keys: seq<Scalar>, values: seq<Cell>, depth: nat, i: nat, n: nat)
    requires i < |keys| == |values| && values[i] == Leaf(Str(Xs(n))) && depth < MAX_CELL_NESTING_DEPTH
    ensures ApproxSize(Dict(Pairs(keys, values)), depth) > n
  {
    EstimateCoversValue(keys, values, depth, i);
  }

  /** A text longer than the whole mapping without it, under the key that is lost. */
  lemma {:induction false} CollisionAt(keys: seq<Scalar>, depth: nat, i: nat, j: nat, exact: nat)
    requires depth < MAX_CELL_NESTING_DEPTH && i < j < |keys| && KeyText(keys[i]) == KeyText(keys[j])
    requires exact == JsonBytes(Normalise(Dict(Pairs(keys, Nulls(|keys|))), depth))
    ensures var v := Dict(Pairs(keys, Nulls(|keys|)[i := Leaf(Str(Xs(exact)))]));
            ApproxSize(v, depth) > exact == JsonBytes(Normalise(v, depth))
  {
    var long := Leaf(Str(Xs(exact)));
    ErasedValue(keys, Nulls(|keys|), depth, i, j, long);
    LongValueEstimate(keys, Nulls(|keys|)[i := long], depth, i, exact);
  }

  /** For any keys of which two collide there are leaf values for which the estimate exceeds the exact size. */
  lemma {:induction false} CollisionBreaksTheBound(keys: seq<Scalar>, depth: nat) returns (values: seq<Cell>)
    requires depth < MAX_CELL_NESTING_DEPTH && !DistinctTexts(keys)
    ensures |values| == |keys| && forall k :: 0 <= k < |values| ==> values[k].Leaf?
    ensures ApproxSize(Dict(Pairs(keys, values)), depth) > JsonBytes(Normalise(Dict(Pairs(keys, values)), depth))
  {
    var i, j :| 0 <= i < j < |keys| && KeyText(keys[i]) == KeyText(keys[j]);
    var exact := JsonBytes(Normalise(Dict(Pairs(keys, Nulls(|keys|))), depth));
    CollisionAt(keys, depth, i, j, exact);
    values := Nulls(|keys|)[i := Leaf(Str(Xs(exact)))];
  }

  lemma {:induction false} PairsStayDistinct(keys: seq<Scalar>, values: seq<Cell>, depth: nat)
    requires |keys| == |values| && forall k :: 0 <= k < |values| ==> KeysStayDistinct(values[k], depth + 1)
    ensures MembersStayDistinct(Pairs(keys, values), depth)
  {
    if keys != [] {
      var members := Pairs(keys, values);
      assert members[1..] == Pairs(keys[1..], values[1..]);
      assert forall k :: 0 <= k < |values[1..]| ==> values[1..][k] == values[k + 1];
      PairsStayDistinct(keys[1..], values[1..], depth);
    }
  }

  lemma {:induction false} DistinctTextsBound(keys: seq<Scalar>, values: seq<Cell>, depth: nat)
    requires |keys| == |values| && DistinctTexts(keys)
    requires forall k :: 0 <= k < |values| ==> KeysStayDistinct(values[k], depth + 1)
    ensures ApproxSize(Dict(Pairs(keys, values)), depth) <= JsonBytes(Normalise(Dict(Pairs(keys, values)), depth))
  {
    var normalised := NormaliseMembers(Pairs(keys, values), depth);
    forall k | 0 <= k < |keys|
      ensures normalised[k].key == KeyText(keys[k])
    {
      NormalisedPairsAt(keys, values, depth, k);
    }
    PairsStayDistinct(keys, values, depth);
    EstimateIsLowerBound(Dict(Pairs(keys, values)), depth);
  }

  /** Values whose own mappings are in order. */
  predicate SoundValues(values: seq<Cell>, depth: nat) {
    forall k :: 0 <= k < |values| ==> KeysStayDistinct(values[k], depth)
  }

  /**
   The exact side condition, at every depth that is kept: the estimate is a lower bound under these
   keys, whatever the values, if and only if no two of the keys have the same text.
   */
  lemma {:induction false} BoundHoldsIffKeysDistinct(keys: seq<Scalar>, depth: nat)
    requires depth < MAX_CELL_NESTING_DEPTH
    ensures DistinctTexts(keys) <==>
            forall values: seq<Cell> :: |values| == |keys| && SoundValues(values, depth + 1) ==>
              ApproxSize(Dict(Pairs(keys, values)), depth) <= JsonBytes(Normalise(Dict(Pairs(keys, values)), depth))
  {
    if DistinctTexts(keys) {
      forall values: seq<Cell> | |values| == |keys| && SoundValues(values, depth + 1)
        ensures ApproxSize(Dict(Pairs(keys, values)), depth) <= JsonBytes(Normalise(Dict(Pairs(keys, values)), depth))
      {
        DistinctTextsBound(keys, values, depth);
      }
    } else {
      var values := CollisionBreaksTheBound(keys, depth);
      assert SoundValues(values, depth + 1);
    }
  }

  // ----- rows with given column names

  /** The row with these column names and cells, in order. */
  function Columns(names: seq<Text>, cells: seq<Cell>): (row: Row)
    requires |names| == |cells|
    ensures |row| == |names|
  {
    if names == [] then [] else [Column(names[0], cells[0])] + Columns(names[1..], cells[1..])
  }

  predicate DistinctNames(names: seq<Text>) {
    forall i, j :: 0 <= i < j < |names| ==> JsonSafeText(names[i]) != JsonSafeText(names[j])
  }

  lemma {:induction false} NormalisedColumnsAt(names: seq<Text>, cells: seq<Cell>, k: nat)
    requires k < |names| == |cells|
    ensures NormaliseColumns(Columns(names, cells))[k] == JsonMember(JsonSafeText(names[k]), Normalise(cells[k], 0))
  {
    assert Columns(names, cells)[1..] == Columns(names[1..], cells[1..]);
    if k > 0 {
      NormalisedColumnsAt(names[1..], cells[1..], k - 1);
    }
  }

  lemma {:induction false} NormalisedColumnUpdate(names: seq<Text>, cells: seq<Cell>, i: nat, cell: Cell)
    requires i < |names| == |cells|
    ensures NormaliseColumns(Columns(names, cells[i := cell])) ==
            NormaliseColumns(Columns(names, cells))[i := JsonMember(JsonSafeText(names[i]), Normalise(cell, 0))]
  {
    var changed := NormaliseColumns(Columns(names, cells[i := cell]));
    var plain := NormaliseColumns(Columns(names, cells));
    forall k | 0 <= k < |names|
      ensures changed[k] == plain[i := JsonMember(JsonSafeText(names[i]), Normalise(cell, 0))][k]
    {
      NormalisedColumnsAt(names, cells[i := cell], k);
      NormalisedColumnsAt(names, cells, k);
    }
  }

  lemma {:induction false} EstimateCoversCell(names: seq<Text>, cells: seq<Cell>, i: nat)
    requires i < |names| == |cells|
    ensures ApproxSize(cells[i], 0) <= ApproxColumns(Columns(names, cells))
  {
    assert Columns(names, cells)[1..] == Columns(names[1..], cells[1..]);
    if i > 0 {
      EstimateCoversCell(names[1..], cells[1..], i - 1);
    }
  }

  lemma {:induction false} ErasedCell(names: seq<Text>, cells: seq<Cell>, i: nat, j: nat, cell: Cell)
    requires i < j < |names| == |cells| && JsonSafeText(names[i]) == JsonSafeText(names[j])
    ensures NormaliseRow(Columns(names, cells[i := cell])) == NormaliseRow(Columns(names, cells))
  {
    NormalisedColumnUpdate(names, cells, i, cell);
    NormalisedColumnsAt(names, cells, i);
    NormalisedColumnsAt(names, cells, j);
    ErasedAt([], NormaliseColumns(Columns(names, cells)), i, j, Normalise(cell, 0));
  }

  lemma {:induction false} LongCellEstimate(names: seq<Text>, cells: seq<Cell>, i: nat, n: nat)
    requires i < |names| == |cells| && cells[i] == Leaf(Str(Xs(n)))
    ensures ApproxRowSize(Columns(names, cells)) > n
  {
    EstimateCoversCell(names, cells, i);
  }

  /** A text longer than the whole row without it, under the name that is lost. */
  lemma {:induction false} NameCollisionAt(names: seq<Text>, i: nat, j: nat) returns (cells: seq<Cell>)
    requires i < j < |names| && JsonSafeText(names[i]) == JsonSafeText(names[j])
    ensures |cells| == |names| && forall k :: 0 <= k < |cells| ==> cells[k].Leaf?
    ensures ApproxRowSize(Columns(names, cells)) > JsonBytes(NormaliseRow(Columns(names, cells)))
  {
    var exact := JsonBytes(NormaliseRow(Columns(names, Nulls(|names|))));
    var long := Leaf(Str(Xs(exact)));
    cells := Nulls(|names|)[i := long];
    ErasedCell(names, Nulls(|names|), i, j, long);
    LongCellEstimate(names, cells, i, exact);
  }

  lemma {:induction false} NameCollisionBreaksTheBound(names: seq<Text>) returns (cells: seq<Cell>)
    requires !DistinctNames(names)
    ensures |cells| == |names| && forall k :: 0 <= k < |cells| ==> cells[k].Leaf?
    ensures ApproxRowSize(Columns(names, cells)) > JsonBytes(NormaliseRow(Columns(names, cells)))
  {
    var i, j :| 0 <= i < j < |names| && JsonSafeText(names[i]) == JsonSafeText(names[j]);
    cells := NameCollisionAt(names, i, j);
  }

  lemma {:induction false} ColumnsOfSoundCells(names: seq<Text>, cells: seq<Cell>)
    requires |names| == |cells| && SoundValues(cells, 0)
    ensures ColumnsStayDistinct(Columns(names, cells))
  {
    if names != [] {
      assert Columns(names, cells)[1..] == Columns(names[1..], cells[1..]);
      assert forall k :: 0 <= k < |cells[1..]| ==> cells[1..][k] == cells[k + 1];
      ColumnsOfSoundCells(names[1..], cells[1..]);
    }
  }

  lemma {:induction false} DistinctNamesBound(names: seq<Text>, cells: seq<Cell>)
    requires |names| == |cells| && DistinctNames(names) && SoundValues(cells, 0)
    ensures ApproxRowSize(Columns(names, cells)) <= JsonBytes(NormaliseRow(Columns(names, cells)))
  {
    var normalised := NormaliseColumns(Columns(names, cells));
    forall k | 0 <= k < |names|
      ensures normalised[k].key == JsonSafeText(names[k])
    {
      NormalisedColumnsAt(names, cells, k);
    }
    ColumnsOfSoundCells(names, cells);
    RowEstimateIsLowerBound(Columns(names, cells));
  }

  /** The exact side condition on a row's column names. */
  lemma {:induction false} RowBoundHoldsIffNamesDistinct(names: seq<Text>)
    ensures DistinctNames(names) <==>
            forall cells: seq<Cell> :: |cells| == |names| && SoundValues(cells, 0) ==>
              ApproxRowSize(Columns(names, cells)) <= JsonBytes(NormaliseRow(Columns(names, cells)))
  {
    if DistinctNames(names) {
      forall cells: seq<Cell> | |cells| == |names| && SoundValues(cells, 0)
        ensures ApproxRowSize(Columns(names, cells)) <= JsonBytes(NormaliseRow(Columns(names, cells)))
      {
        DistinctNamesBound(names, cells);
      }
    } else {
      var cells := NameCollisionBreaksTheBound(names);
      assert SoundValues(cells, 0);
    }
  }
}
