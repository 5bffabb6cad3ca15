/** JSON values as golden-http.py sees them, and the strings it uses as markers. */
module Json {
  import opened Text

  datatype Json =
    | Null
    | Bool(b: bool)
    | Num(n: real)
    | Str(s: string)
    | Arr(items: seq<Json>)
    | Obj(fields: map<string, Json>)

  // ----- heights, for recursion over lists of values -----

  function Max(a: nat, b: nat): nat {
    if a < b then b else a
  }

  ghost function Height(j: Json): nat
    decreases j, 1
  {
    match j
    case Arr(items) => 1 + ItemsHeight(j, |items|)
    case Obj(fields) => 1 + FieldsHeight(j, fields.Keys)
    case _ => 0
  }

  ghost function ItemsHeight(j: Json, n: nat): nat
    requires j.Arr? && n <= |j.items|
    decreases j, 0, n
  {
    if n == 0 then 0 else Max(Height(j.items[n - 1]), ItemsHeight(j, n - 1))
  }

  ghost function FieldsHeight(j: Json, keys: set<string>): nat
    requires j.Obj? && keys <= j.fields.Keys
    decreases j, 0, keys
  {
    if keys == {} then 0
    else
      var k := Pick(keys);
      Max(Height(j.fields[k]), FieldsHeight(j, keys - {k}))
  }

  lemma {:induction false} ItemHeight(j: Json, n: nat, i: nat)
    requires j.Arr? && i < n <= |j.items|
    ensures Height(j.items[i]) <= ItemsHeight(j, n)
    decreases n
  {
    if i < n - 1 {
      ItemHeight(j, n - 1, i);
    }
  }

  lemma {:induction false} FieldHeight(j: Json, keys: set<string>, k: string)
    requires j.Obj? && keys <= j.fields.Keys && k in keys
    ensures Height(j.fields[k]) <= FieldsHeight(j, keys)
    decreases keys
  {
    var p := Pick(keys);
    if k != p {
      FieldHeight(j, keys - {p}, k);
    }
  }

  ghost function ListHeight(values: seq<Json>): nat {
    if values == [] then 0 else Max(Height(values[0]), ListHeight(values[1..]))
  }

  lemma {:induction false} MemberHeight(values: seq<Json>, i: nat)
    requires i < |values|
    ensures Height(values[i]) <= ListHeight(values)
    decreases |values|
  {
    if i > 0 {
      MemberHeight(values[1..], i - 1);
    }
  }

  lemma {:induction false} ListHeightBound(values: seq<Json>, n: nat)
    requires forall i :: 0 <= i < |values| ==> Height(values[i]) <= n
    ensures ListHeight(values) <= n
    decreases |values|
  {
    if values != [] {
      ListHeightBound(values[1..], n);
    }
  }
}
