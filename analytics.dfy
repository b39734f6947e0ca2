/** The reshape of grouped response rows into per-field bucket tables, from
    `analyticsSummary` in form-builder/apps/api/main.go. The database
    grouping itself is outside the model: the rows arrive already grouped. */
module Analytics {
  import opened Values

  /** One group of the aggregation result: a field id, one distinct stored
      value of that field, and how many answers carried it. */
  datatype Row = Row(fieldId: string, value: Value, count: int)

  /** field id -> (bucket key -> count) */
  type Buckets = map<string, map<string, int>>

  function KeyOf(r: Row): string {
    ToKey(r.value)
  }

  // ---------------------------------------------------------------------
  // The loop as written: a row's count replaces what its key held
  // ---------------------------------------------------------------------

  function Put(out: Buckets, r: Row): Buckets {
    var inner := if r.fieldId in out then out[r.fieldId] else map[];
    out[r.fieldId := inner[KeyOf(r) := r.count]]
  }

  /** The nested map after folding in the rows in order. */
  function Reshaped(rows: seq<Row>): Buckets {
    if rows == [] then map[] else Put(Reshaped(rows[..|rows| - 1]), rows[|rows| - 1])
  }

  /** The reshape loop: the inner map of a field is created the first time
      the field is seen, then the row's key is set to the row's count. */
  method Reshape(rows: seq<Row>) returns (out: Buckets)
    ensures out == Reshaped(rows)
  {
    out := map[];
    for i := 0 to |rows|
      invariant out == Reshaped(rows[..i])
    {
      assert rows[..i + 1][..i] == rows[..i];
      var r := rows[i];
      var fid := r.fieldId;
      var val := ToKey(r.value);
      if fid !in out {
        out := out[fid := map[]];
      }
      out := out[fid := out[fid][val := r.count]];
    }
    assert rows[..|rows|] == rows;
  }

  /** The table of one field, built from that field's rows alone. */
  function FieldTable(rows: seq<Row>, fid: string): map<string, int> {
    if rows == [] then map[]
    else
      var t := FieldTable(rows[..|rows| - 1], fid);
      var r := rows[|rows| - 1];
      if r.fieldId == fid then t[KeyOf(r) := r.count] else t
  }

  predicate HasRowFor(rows: seq<Row>, fid: string) {
    exists i :: 0 <= i < |rows| && rows[i].fieldId == fid
  }

  /** Row `i` is the last row with its field id and key. */
  predicate IsLastFor(rows: seq<Row>, i: nat)
    requires i < |rows|
  {
    forall j :: i < j < |rows| ==> !(rows[j].fieldId == rows[i].fieldId && KeyOf(rows[j]) == KeyOf(rows[i]))
  }

  /** Every field id seen has an inner map, and no other id does; each
      field's table is built from that field's rows alone, so rows of
      different fields never touch each other's tables. */
  lemma {:induction false} ReshapedByField(rows: seq<Row>, fid: string)
    ensures fid in Reshaped(rows) <==> HasRowFor(rows, fid)
    ensures FieldTable(rows, fid) == if fid in Reshaped(rows) then Reshaped(rows)[fid] else map[]
  {
    if rows != [] {
      var init := rows[..|rows| - 1];
      ReshapedByField(init, fid);
      if HasRowFor(init, fid) {
        var i :| 0 <= i < |init| && init[i].fieldId == fid;
        assert rows[i].fieldId == fid;
      }
      if HasRowFor(rows, fid) {
        var i :| 0 <= i < |rows| && rows[i].fieldId == fid;
        if i < |init| {
          assert init[i].fieldId == fid;
        }
      }
    }
  }

  /** A field's table holds exactly the keys of that field's rows. */
  lemma {:induction false} FieldTableKeys(rows: seq<Row>, fid: string, key: string)
    ensures key in FieldTable(rows, fid) <==>
            exists i :: 0 <= i < |rows| && rows[i].fieldId == fid && KeyOf(rows[i]) == key
  {
    if rows != [] {
      var init := rows[..|rows| - 1];
      FieldTableKeys(init, fid, key);
      if exists i :: 0 <= i < |init| && init[i].fieldId == fid && KeyOf(init[i]) == key {
        var i :| 0 <= i < |init| && init[i].fieldId == fid && KeyOf(init[i]) == key;
        assert rows[i] == init[i];
      }
      if exists i :: 0 <= i < |rows| && rows[i].fieldId == fid && KeyOf(rows[i]) == key {
        var i :| 0 <= i < |rows| && rows[i].fieldId == fid && KeyOf(rows[i]) == key;
        if i < |init| {
          assert init[i] == rows[i];
        }
      }
    }
  }

  /** The entry of a key is the count of the last row with that field and
      key: an earlier row with a colliding key is overwritten, not added. */
  lemma {:induction false} FieldTableLastWins(rows: seq<Row>, i: nat)
    requires i < |rows| && IsLastFor(rows, i)
    ensures KeyOf(rows[i]) in FieldTable(rows, rows[i].fieldId)
    ensures FieldTable(rows, rows[i].fieldId)[KeyOf(rows[i])] == rows[i].count
  {
    var init := rows[..|rows| - 1];
    if i < |init| {
      assert init[i] == rows[i];
      assert IsLastFor(init, i) by {
        forall j | i < j < |init|
          ensures !(init[j].fieldId == init[i].fieldId && KeyOf(init[j]) == KeyOf(init[i]))
        {
          assert init[j] == rows[j];
        }
      }
      FieldTableLastWins(init, i);
    }
  }

  /** After the loop, `out[fid][key]` is the count of the last row with that
      field id and key. */
  lemma {:induction false} ReshapedLastWins(rows: seq<Row>, i: nat)
    requires i < |rows| && IsLastFor(rows, i)
    ensures rows[i].fieldId in Reshaped(rows)
    ensures KeyOf(rows[i]) in Reshaped(rows)[rows[i].fieldId]
    ensures Reshaped(rows)[rows[i].fieldId][KeyOf(rows[i])] == rows[i].count
  {
    ReshapedByField(rows, rows[i].fieldId);
    FieldTableLastWins(rows, i);
  }

  // ---------------------------------------------------------------------
  // Colliding keys, and the summing reshape
  // ---------------------------------------------------------------------

  /** The total count of the rows with this field id and key. */
  function TotalCount(rows: seq<Row>, fid: string, key: string): int {
    if rows == [] then 0
    else
      var r := rows[|rows| - 1];
      TotalCount(rows[..|rows| - 1], fid, key) + (if r.fieldId == fid && KeyOf(r) == key then r.count else 0)
  }

  /** One step of the summing loop: the row's count is added to what its
      key already held. */
  function PutSummed(out: Buckets, r: Row): Buckets {
    var inner := if r.fieldId in out then out[r.fieldId] else map[];
    var key := KeyOf(r);
    var prev := if key in inner then inner[key] else 0;
    out[r.fieldId := inner[key := prev + r.count]]
  }

  function ReshapedSummed(rows: seq<Row>): Buckets {
    if rows == [] then map[] else PutSummed(ReshapedSummed(rows[..|rows| - 1]), rows[|rows| - 1])
  }

  /** The summing loop: rows whose values share a key add up. */
  method ReshapeSummed(rows: seq<Row>) returns (out: Buckets)
    ensures out == ReshapedSummed(rows)
  {
    out := map[];
    for i := 0 to |rows|
      invariant out == ReshapedSummed(rows[..i])
    {
      assert rows[..i + 1][..i] == rows[..i];
      var r := rows[i];
      var fid := r.fieldId;
      var val := ToKey(r.value);
      if fid !in out {
        out := out[fid := map[]];
      }
      var prev := if val in out[fid] then out[fid][val] else 0;
      out := out[fid := out[fid][val := prev + r.count]];
    }
    assert rows[..|rows|] == rows;
  }

  /** With summing, every entry is the total count of its field's rows with
      that key, and an absent entry means a total of zero. */
  lemma {:induction false} ReshapedSummedTotals(rows: seq<Row>, fid: string, key: string)
    ensures TotalCount(rows, fid, key) ==
            if fid in ReshapedSummed(rows) && key in ReshapedSummed(rows)[fid]
            then ReshapedSummed(rows)[fid][key] else 0
  {
    if rows != [] {
      ReshapedSummedTotals(rows[..|rows| - 1], fid, key);
    }
  }

  /** No two rows of the same field share a key. */
  predicate KeysDistinct(rows: seq<Row>) {
    forall i, j :: 0 <= i < j < |rows| && rows[i].fieldId == rows[j].fieldId ==> KeyOf(rows[i]) != KeyOf(rows[j])
  }

  /** When no two rows of a field share a key, replacing and summing agree:
      the loop as written loses counts only through colliding keys. */
  lemma {:induction false} SummedAgreesWithoutCollisions(rows: seq<Row>)
    requires KeysDistinct(rows)
    ensures ReshapedSummed(rows) == Reshaped(rows)
  {
    if rows != [] {
      var init := rows[..|rows| - 1];
      var r := rows[|rows| - 1];
      assert KeysDistinct(init) by {
        forall i, j | 0 <= i < j < |init| && init[i].fieldId == init[j].fieldId
          ensures KeyOf(init[i]) != KeyOf(init[j])
        {
          assert init[i] == rows[i] && init[j] == rows[j];
        }
      }
      SummedAgreesWithoutCollisions(init);
      ReshapedByField(init, r.fieldId);
      FieldTableKeys(init, r.fieldId, KeyOf(r));
    }
  }

  /** Two checkbox answers of one field, ["a|b"] and ["a", "b"], are two
      groups with the same key "a|b". The loop as written keeps the count of
      whichever group comes last, 3 in one order and 2 in the other, while
      the summing loop keeps their total, 5, in both orders. */
  lemma CollidingValuesOverwrite()
    ensures var rows := [Row("q", Arr([Str("a|b")]), 2), Row("q", Arr([Str("a"), Str("b")]), 3)];
            var swapped := [rows[1], rows[0]];
            && KeyOf(rows[0]) == KeyOf(rows[1]) == "a|b"
            && Reshaped(rows)["q"]["a|b"] == 3
            && Reshaped(swapped)["q"]["a|b"] == 2
            && TotalCount(rows, "q", "a|b") == TotalCount(swapped, "q", "a|b") == 5
            && ReshapedSummed(rows)["q"]["a|b"] == ReshapedSummed(swapped)["q"]["a|b"] == 5
  {
    var rows := [Row("q", Arr([Str("a|b")]), 2), Row("q", Arr([Str("a"), Str("b")]), 3)];
    var swapped := [rows[1], rows[0]];
    assert ElementKeys([Str("a|b")]) == ["a|b"];
    assert ElementKeys([Str("a"), Str("b")]) == ["a", "b"];
    assert rows[..1] == [rows[0]];
    assert rows[..1][..0] == [];
    assert swapped[..1] == [swapped[0]];
    assert swapped[..1][..0] == [];
  }
}
