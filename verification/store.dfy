/**
 The storage primitives the models are built on, as pure functions over a
 table held as a sequence of rows in storage order. `find` returns the first
 row carrying the id; `belongsTo` follows a nullable foreign key with `find`.
 Tables are generic: `key` reads a row's id.
 */
module Store {
  import opened Values

  /** Some row of the table carries the id. */
  predicate HasId<T>(rows: seq<T>, key: T -> int, id: int)
  {
    exists k :: 0 <= k < |rows| && key(rows[k]) == id
  }

  /** `Model::find($id)`: the first row whose id is `id`, or null. */
  function Find<T>(rows: seq<T>, key: T -> int, id: int): (r: Option<T>)
    ensures r.None? <==> !HasId(rows, key, id)
    ensures r.Some? ==> exists k :: 0 <= k < |rows| && rows[k] == r.value && key(rows[k]) == id
                                    && forall j :: 0 <= j < k ==> key(rows[j]) != id
  {
    if |rows| == 0 then None
    else if key(rows[0]) == id then Some(rows[0])
    else
      var r := Find(rows[1..], key, id);
      assert forall k :: 1 <= k < |rows| ==> rows[k] == rows[1..][k - 1];
      r
  }

  /** `belongsTo(Target, $fk)`: a null key relates to nothing, otherwise the
      related row is `Target::find($fk)`. */
  function BelongsTo<T>(rows: seq<T>, key: T -> int, fk: Option<int>): (r: Option<T>)
    ensures r.Some? <==> fk.Some? && HasId(rows, key, fk.value)
    ensures r.Some? ==> r.value in rows && key(r.value) == fk.value
  {
    match fk
    case None => None
    case Some(id) => Find(rows, key, id)
  }

  /** When the table's ids are distinct, `find` returns the only row with the id. */
  lemma FindUnique<T>(rows: seq<T>, key: T -> int, k: int)
    requires 0 <= k < |rows|
    requires forall i, j :: 0 <= i < j < |rows| ==> key(rows[i]) != key(rows[j])
    ensures Find(rows, key, key(rows[k])) == Some(rows[k])
  {
    var r := Find(rows, key, key(rows[k]));
    var m :| 0 <= m < |rows| && rows[m] == r.value && key(rows[m]) == key(rows[k])
              && forall j :: 0 <= j < m ==> key(rows[j]) != key(rows[k]);
    assert m == k;
  }
}
