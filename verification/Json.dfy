/**
  JSON values as the platform stores and interprets them.  A JSON object is an
  insertion-ordered association list, because template resolution visits the
  entries in order and reports the first problem it meets.
 */
module Json {
  import opened Wrappers

  datatype Json =
    | Null
    | Bool(b: bool)
    | Int(i: int)
    | Float(r: real)
    | Str(s: string)
    | Arr(items: seq<Json>)
    | Obj(fields: Fields)

  /** One entry of a JSON object. */
  datatype Field = Field(key: string, value: Json)

  type Fields = seq<Field>

  /** `fields.get(key)`, with None for an absent key. */
  function Find(fields: Fields, key: string): Option<Json> {
    if fields == [] then None
    else if fields[0].key == key then Some(fields[0].value)
    else Find(fields[1..], key)
  }

  /** `fields[key] = value`: replaces in place, or appends a new entry. */
  function Put(fields: Fields, key: string, value: Json): Fields {
    if fields == [] then [Field(key, value)]
    else if fields[0].key == key then [Field(key, value)] + fields[1..]
    else [fields[0]] + Put(fields[1..], key, value)
  }

  /** `dict(base) | update`. */
  function Update(base: Fields, update: Fields): Fields
    decreases update
  {
    if update == [] then base
    else Update(Put(base, update[0].key, update[0].value), update[1..])
  }

  function KeysOf(fields: Fields): set<string> {
    set f | f in fields :: f.key
  }

  /** No key is written twice: what every Python dict guarantees. */
  ghost predicate DistinctKeys(fields: Fields) {
    forall i, j :: 0 <= i < j < |fields| ==> fields[i].key != fields[j].key
  }

  /** Every object inside the value has distinct keys. */
  ghost predicate WellFormed(v: Json) {
    match v
    case Arr(items) => forall x | x in items :: WellFormed(x)
    case Obj(fields) => DistinctKeys(fields) && forall f | f in fields :: WellFormed(f.value)
    case _ => true
  }

  lemma {:induction false} FindPut(fields: Fields, key: string, value: Json, k: string)
    ensures Find(Put(fields, key, value), k) == if k == key then Some(value) else Find(fields, k)
  {
    if fields != [] && fields[0].key != key {
      FindPut(fields[1..], key, value, k);
    }
  }

  lemma {:induction false} FindUpdate(base: Fields, update: Fields, k: string)
    requires DistinctKeys(update)
    ensures Find(Update(base, update), k) ==
            if Find(update, k).Some? then Find(update, k) else Find(base, k)
    decreases update
  {
    if update != [] {
      var b := Put(base, update[0].key, update[0].value);
      FindUpdate(b, update[1..], k);
      FindPut(base, update[0].key, update[0].value, k);
      if update[0].key == k {
        FindNone(update[1..], k);
      }
    }
  }

  lemma {:induction false} FindNone(fields: Fields, k: string)
    ensures Find(fields, k).None? <==> forall i :: 0 <= i < |fields| ==> fields[i].key != k
  {
    if fields != [] {
      FindNone(fields[1..], k);
      assert forall i :: 0 < i < |fields| ==> fields[i] == fields[1..][i - 1];
      if forall i :: 0 <= i < |fields| ==> fields[i].key != k {
        assert forall i :: 0 <= i < |fields[1..]| ==> fields[1..][i] == fields[i + 1];
      }
    }
  }

  lemma {:induction false} FindAt(fields: Fields, i: nat)
    requires i < |fields| && DistinctKeys(fields)
    ensures Find(fields, fields[i].key) == Some(fields[i].value)
  {
    if i > 0 {
      assert fields[0].key != fields[i].key;
      assert fields[1..][i - 1] == fields[i];
      FindAt(fields[1..], i - 1);
    }
  }

  /** What a lookup finds is an entry of the object. */
  lemma {:induction false} FindIsEntry(fields: Fields, k: string)
    requires Find(fields, k).Some?
    ensures Field(k, Find(fields, k).value) in fields
  {
    if fields[0].key != k {
      FindIsEntry(fields[1..], k);
    }
  }
}
