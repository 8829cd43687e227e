/** JSON values as the parser delivers them; an object lists its entries in iteration order. */
module Json {
  import opened Common

  datatype Json =
    | Null
    | Bool(b: bool)
    | Number(n: int)
    | Fraction
    | String(s: string)
    | Array(items: seq<Json>)
    | Object(fields: seq<Field>)

  datatype Field = Field(key: string, value: Json)

  const I64_MAX: int := 0x7FFF_FFFF_FFFF_FFFF
  const I64_MIN: int := -0x8000_0000_0000_0000

  function Lookup(fields: seq<Field>, key: string): Option<Json> {
    if fields == [] then None
    else if fields[0].key == key then Some(fields[0].value)
    else Lookup(fields[1..], key)
  }

  lemma {:induction false} LookupHit(fields: seq<Field>, i: nat, key: string)
    requires i < |fields| && fields[i].key == key
    requires forall j :: 0 <= j < i ==> fields[j].key != key
    ensures Lookup(fields, key) == Some(fields[i].value)
  {
    if i > 0 {
      LookupHit(fields[1..], i - 1, key);
    }
  }

  lemma {:induction false} LookupMiss(fields: seq<Field>, key: string)
    requires forall j :: 0 <= j < |fields| ==> fields[j].key != key
    ensures Lookup(fields, key) == None
  {
    if fields != [] {
      LookupMiss(fields[1..], key);
    }
  }

  /** `fields` with `key` bound to `value`, every other binding as it was. */
  function SetField(fields: seq<Field>, key: string, value: Json): seq<Field> {
    if fields == [] then [Field(key, value)]
    else if fields[0].key == key then [Field(key, value)] + fields[1..]
    else [fields[0]] + SetField(fields[1..], key, value)
  }

  lemma {:induction false} LookupSet(fields: seq<Field>, key: string, value: Json, other: string)
    ensures Lookup(SetField(fields, key, value), other)
         == if other == key then Some(value) else Lookup(fields, other)
  {
    if fields != [] && fields[0].key != key {
      LookupSet(fields[1..], key, value, other);
    }
  }

  function Get(v: Json, key: string): Option<Json> {
    if v.Object? then Lookup(v.fields, key) else None
  }

  function AsI64(v: Json): (r: Option<int>)
    ensures r.Some? ==> I64_MIN <= r.value <= I64_MAX
  {
    if v.Number? && I64_MIN <= v.n <= I64_MAX then Some(v.n) else None
  }

  function AsString(v: Json): Option<string> {
    if v.String? then Some(v.s) else None
  }

  function GetI64(v: Json, key: string): (r: Option<int>)
    ensures r.Some? ==> I64_MIN <= r.value <= I64_MAX
  {
    match Get(v, key)
    case None => None
    case Some(n) => AsI64(n)
  }

  /** The first of `keys` that holds an integer. */
  function FirstI64(v: Json, keys: seq<string>): (r: Option<int>)
    ensures r.Some? ==> I64_MIN <= r.value <= I64_MAX
    ensures r.Some? <==> exists i :: 0 <= i < |keys| && GetI64(v, keys[i]).Some?
    ensures r.Some? ==>
              exists i :: 0 <= i < |keys| && GetI64(v, keys[i]) == r
                       && forall j :: 0 <= j < i ==> GetI64(v, keys[j]).None?
  {
    if keys == [] then None
    else if GetI64(v, keys[0]).Some? then GetI64(v, keys[0])
    else
      var r := FirstI64(v, keys[1..]);
      assert forall i :: 1 <= i < |keys| ==> keys[i] == keys[1..][i - 1];
      r
  }

  /** `saturating_add` on i64. */
  function SatAdd(a: int, b: int): (r: int)
    ensures I64_MIN <= r <= I64_MAX
    ensures I64_MIN <= a + b <= I64_MAX ==> r == a + b
    ensures r < a + b ==> r == I64_MAX
    ensures r > a + b ==> r == I64_MIN
  {
    if a + b > I64_MAX then I64_MAX else if a + b < I64_MIN then I64_MIN else a + b
  }

  function UnwrapOr(o: Option<int>, default: int): int {
    if o.Some? then o.value else default
  }

  predicate EndsWith(s: string, suffix: string) {
    |s| >= |suffix| && s[|s| - |suffix|..] == suffix
  }

  lemma EndsWithExactly(s: string, suffix: string)
    ensures EndsWith(s, suffix) <==> exists head: string :: s == head + suffix
  {
    if EndsWith(s, suffix) {
      assert s == s[..|s| - |suffix|] + suffix;
    }
  }
}
