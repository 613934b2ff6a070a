/** JSON values, and the fields of an object as JavaScript reads them. */
module Json {
  import opened Prelude

  /** A number; an exponent too large reads as Infinity. */
  datatype Number = Finite(value: real) | NotFinite

  datatype Json =
    | Null
    | Bool(b: bool)
    | Num(n: Number)
    | Str(s: string)
    | Arr(items: seq<Json>)
    | Obj(fields: seq<(string, Json)>)

  function Find(fields: seq<(string, Json)>, name: string): Option<Json> {
    if fields == [] then None
    else if fields[0].0 == name then Some(fields[0].1)
    else Find(fields[1..], name)
  }

  /** The field of that name, None for `undefined`. */
  function Get(j: Json, name: string): Option<Json> {
    if j.Obj? then Find(j.fields, name) else None
  }

  /** The field is neither absent nor null. */
  predicate Given(j: Option<Json>) { j.Some? && j.value != Null }

  predicate IsScalar(j: Json) { j.Str? || j.Num? || j.Bool? }

  /** An optional field of an object literal: `undefined` leaves no trace in JSON. */
  function Maybe(name: string, value: Option<Json>): seq<(string, Json)> {
    if value.Some? then [(name, value.value)] else []
  }

  lemma {:induction false} FindConcat(a: seq<(string, Json)>, b: seq<(string, Json)>, name: string)
    ensures Find(a + b, name) == if Find(a, name).Some? then Find(a, name) else Find(b, name)
  {
    if a == [] {
      assert a + b == b;
    } else {
      FindConcat(a[1..], b, name);
      assert (a + b)[1..] == a[1..] + b;
    }
  }

  lemma FindOne(fields: seq<(string, Json)>, name: string)
    requires |fields| == 1
    ensures Find(fields, name) == if fields[0].0 == name then Some(fields[0].1) else None
  {
    assert fields[1..] == [];
  }

  lemma FindTwo(fields: seq<(string, Json)>, name: string)
    requires |fields| == 2
    ensures Find(fields, name) ==
              if fields[0].0 == name then Some(fields[0].1) else if fields[1].0 == name then Some(fields[1].1) else None
  {
    FindOne(fields[1..], name);
  }

  lemma FindThree(fields: seq<(string, Json)>, name: string)
    requires |fields| == 3
    ensures Find(fields, name) ==
              if fields[0].0 == name then Some(fields[0].1)
              else if fields[1].0 == name then Some(fields[1].1)
              else if fields[2].0 == name then Some(fields[2].1)
              else None
  {
    FindTwo(fields[1..], name);
  }

  lemma FindMaybe(own: string, value: Option<Json>, name: string)
    ensures Find(Maybe(own, value), name) == if name == own then value else None
  {
  }

  lemma {:induction false} FindOther(fields: seq<(string, Json)>, name: string)
    requires forall i | 0 <= i < |fields| :: fields[i].0 != name
    ensures Find(fields, name).None?
  {
    if fields != [] {
      FindOther(fields[1..], name);
    }
  }
}
