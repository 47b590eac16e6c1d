/** JSON values, and how deeply they nest. */
module JsonValues {
  datatype Json =
    | Null
    | Bool(b: bool)
    | Num(n: real)
    | Str(s: string)
    | Arr(items: seq<Json>)
    | Obj(fields: map<string, Json>)

  type Args = map<string, Json>

  /** How deeply objects are nested in one another; anything else is one deep. */
  ghost function Depth(j: Json): (d: nat)
    ensures d >= 1
    decreases j
  {
    if j.Obj? then 1 + DepthOver(j, j.fields.Keys) else 1
  }

  ghost function Pick(keys: set<string>): (k: string)
    requires keys != {}
    ensures k in keys
  {
    var k :| k in keys;
    k
  }

  ghost function DepthOver(j: Json, keys: set<string>): nat
    requires j.Obj? && keys <= j.fields.Keys
    decreases j, |keys|
  {
    if keys == {} then 0
    else
      var k := Pick(keys);
      var a, b := Depth(j.fields[k]), DepthOver(j, keys - {k});
      if a >= b then a else b
  }

  lemma {:induction false} DepthOverBounds(j: Json, keys: set<string>)
    requires j.Obj? && keys <= j.fields.Keys
    ensures forall k :: k in keys ==> Depth(j.fields[k]) <= DepthOver(j, keys)
    ensures keys != {} ==> exists k :: k in keys && Depth(j.fields[k]) == DepthOver(j, keys)
    decreases |keys|
  {
    hide Depth;
    if keys != {} {
      var k := Pick(keys);
      var rest := keys - {k};
      DepthOverBounds(j, rest);
      assert forall x :: x in keys ==> x == k || x in rest;
    }
  }

  /** A field nests less deeply than the object it is in. */
  lemma FieldIsShallower(args: Args, k: string)
    requires k in args
    ensures Depth(args[k]) < Depth(Obj(args))
  {
    DepthOverBounds(Obj(args), args.Keys);
  }

  /** Dropping fields never makes an object nest deeper. */
  lemma FewerFieldsNoDeeper(some: Args, all: Args)
    requires some.Keys <= all.Keys && forall k :: k in some ==> some[k] == all[k]
    ensures Depth(Obj(some)) <= Depth(Obj(all))
  {
    DepthOverBounds(Obj(some), some.Keys);
    DepthOverBounds(Obj(all), all.Keys);
  }
}
