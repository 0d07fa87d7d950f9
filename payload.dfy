/**
 * JSON request bodies as the handlers see them (`request.json`), and the "drop missing fields"
 * idiom of `add_lesson_exception` and `update_lesson_occurrence` (Backend/main.py:829-841,
 * 1136-1148): each column is read with `data.get(key, False)` and kept unless the value `is False`.
 */
module Payload {
  import opened Wrappers

  /** A JSON value of a request body. Numbers are integers here. */
  datatype Json = JNull | JBool(b: bool) | JInt(i: int) | JStr(s: string)

  type Body = map<string, Json>

  /** Python truthiness of the decoded value. */
  predicate Truthy(v: Json) {
    match v
    case JNull => false
    case JBool(b) => b
    case JInt(i) => i != 0
    case JStr(s) => s != ""
  }

  /** `data.get(key)`: Python `None` (here `JNull`) when the key is missing. */
  function GetOrNull(data: Body, key: string): (v: Json)
    ensures key !in data ==> v == JNull
  {
    if key in data then data[key] else JNull
  }

  /** `data.get(key, False) is not False`: the key is present and its value is not the JSON `false`. */
  predicate Given(data: Body, key: string) {
    key in data && data[key] != JBool(false)
  }

  /** An ordered dict of column values, as the handlers build them. */
  type Columns = seq<(string, Json)>

  /** The first components of a list of pairs: the column names of `Columns`, the columns of a `FieldMap`. */
  function Firsts<A, B>(ps: seq<(A, B)>): (r: seq<A>)
    ensures |r| == |ps| && forall i :: 0 <= i < |ps| ==> r[i] == ps[i].0
  {
    if ps == [] then [] else [ps[0].0] + Firsts(ps[1..])
  }

  /** `fields_to_update.get(column)`. */
  function Lookup(cs: Columns, column: string): (r: Option<Json>)
    ensures r.Some? <==> column in Firsts(cs)
  {
    if cs == [] then None else if cs[0].0 == column then Some(cs[0].1) else Lookup(cs[1..], column)
  }

  predicate DistinctNames(ns: seq<string>) {
    forall i, j :: 0 <= i < j < |ns| ==> ns[i] != ns[j]
  }

  /** The pairs (column, body key) a handler reads. */
  type FieldMap = seq<(string, string)>

  /** The comprehension `{k: v for k, v in fields_to_update.items() if v is not False}`. */
  function DropMissing(data: Body, fields: FieldMap): (r: Columns)
    ensures |r| <= |fields|
    ensures forall c :: c in Firsts(r) ==> c in Firsts(fields)
  {
    if fields == [] then []
    else
      var (column, key) := fields[0];
      (if Given(data, key) then [(column, data[key])] else []) + DropMissing(data, fields[1..])
  }

  lemma LookupCons(head: Columns, rest: Columns, column: string)
    requires |head| <= 1
    ensures Lookup(head + rest, column) ==
            if head != [] && head[0].0 == column then Some(head[0].1) else Lookup(rest, column)
  {
    if head != [] {
      assert (head + rest)[1..] == rest;
    } else {
      assert head + rest == rest;
    }
  }

  lemma FirstsTail(fields: FieldMap)
    requires fields != []
    ensures Firsts(fields[1..]) == Firsts(fields)[1..]
  {
  }

  /**
   * Reading a column back: a column is present exactly when its key was given, with the body's
   * value, `null` included.
   */
  lemma {:induction false} DropMissingLookup(data: Body, fields: FieldMap, i: int)
    requires DistinctNames(Firsts(fields)) && 0 <= i < |fields|
    ensures Lookup(DropMissing(data, fields), fields[i].0) ==
            if Given(data, fields[i].1) then Some(data[fields[i].1]) else None
    decreases |fields|
  {
    var (column, key) := fields[0];
    var head: Columns := if Given(data, key) then [(column, data[key])] else [];
    var rest := DropMissing(data, fields[1..]);
    assert DropMissing(data, fields) == head + rest;
    FirstsTail(fields);
    LookupCons(head, rest, fields[i].0);
    if i == 0 {
      assert column !in Firsts(fields[1..]);
      assert Lookup(rest, column).None?;
    } else {
      assert DistinctNames(Firsts(fields[1..]));
      DropMissingLookup(data, fields[1..], i - 1);
      assert fields[1..][i - 1] == fields[i];
      assert Firsts(fields)[0] != Firsts(fields)[i];
    }
  }

  /** No column survives exactly when no key was given. */
  lemma {:induction false} DropMissingEmpty(data: Body, fields: FieldMap)
    ensures DropMissing(data, fields) == [] <==> forall i :: 0 <= i < |fields| ==> !Given(data, fields[i].1)
    decreases |fields|
  {
    if fields != [] {
      DropMissingEmpty(data, fields[1..]);
      assert forall i :: 1 <= i < |fields| ==> fields[1..][i - 1] == fields[i];
    }
  }
}
