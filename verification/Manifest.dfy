/** harness.py, `_normalize` and `HarnessManifest`: the order-insensitive form of a manifest. */
module Manifest {
  import opened Options
  import opened Sorting
  import opened Matching
  import opened Json
  import Text

  /** The part of a JSON schema that normalisation reads. */
  datatype Schema =
    | Ref(name: string)
    | Node(properties: map<string, Schema>, items: Option<Schema>, isSet: bool)

  /** The root schema; `rank` falls along every `$ref`, so no chain of references comes back to itself. */
  datatype Root = Root(defs: map<string, Schema>, rank: string -> nat)

  ghost predicate Grounded(root: Root)
  {
    forall n :: n in root.defs && root.defs[n].Ref? ==> root.rank(root.defs[n].name) < root.rank(n)
  }

  function Hops(schema: Schema, root: Root): nat
  {
    if schema.Ref? then root.rank(schema.name) + 1 else 0
  }

  ghost predicate DistinctKeys(fields: seq<Field>)
  {
    forall i, j :: 0 <= i < j < |fields| ==> fields[i].key != fields[j].key
  }

  /** What schema validation has already established: every member, item and reference is described. */
  ghost predicate Described(v: Json, schema: Schema, root: Root)
    requires Grounded(root)
    decreases v, Hops(schema, root)
  {
    if schema.Ref? then schema.name in root.defs && Described(v, root.defs[schema.name], root)
    else
      match v
      case Obj(fields) =>
        DistinctKeys(fields) &&
        forall i :: 0 <= i < |fields| ==>
          fields[i].key in schema.properties && Described(fields[i].value, schema.properties[fields[i].key], root)
      case Arr(items) =>
        schema.items.Some? && forall i :: 0 <= i < |items| ==> Described(items[i], schema.items.value, root)
      case _ => true
  }

  /** The order `normalized.sort(key=canonical_json)` sorts by. */
  function ByText(number: Number -> string): (Json, Json) -> bool
  {
    (a: Json, b: Json) => Text.AtMost(Canonical(a, number), Canonical(b, number))
  }

  /** `_normalize`. */
  function Normalize(v: Json, schema: Schema, root: Root, number: Number -> string): (r: Json)
    requires Grounded(root) && Described(v, schema, root)
    ensures v.Obj? <==> r.Obj?
    ensures v.Arr? <==> r.Arr?
    ensures !v.Obj? && !v.Arr? ==> r == v
    decreases v, Hops(schema, root)
  {
    if schema.Ref? then Normalize(v, root.defs[schema.name], root, number)
    else
      match v
      case Obj(fields) => Obj(NormalizeFields(fields, schema.properties, root, number))
      case Arr(items) =>
        var normalized := NormalizeItems(items, schema.items.value, root, number);
        Arr(if schema.isSet then Sort(normalized, ByText(number)) else normalized)
      case _ => v
  }

  function NormalizeFields(fields: seq<Field>, properties: map<string, Schema>, root: Root, number: Number -> string)
    : (r: seq<Field>)
    requires Grounded(root)
    requires forall i :: 0 <= i < |fields| ==>
      fields[i].key in properties && Described(fields[i].value, properties[fields[i].key], root)
    ensures |r| == |fields|
    ensures forall i :: 0 <= i < |fields| ==>
      r[i] == Field(fields[i].key, Normalize(fields[i].value, properties[fields[i].key], root, number))
    decreases fields, 0
  {
    if fields == [] then []
    else
      var f := fields[0];
      [Field(f.key, Normalize(f.value, properties[f.key], root, number))] +
      NormalizeFields(fields[1..], properties, root, number)
  }

  function NormalizeItems(items: seq<Json>, schema: Schema, root: Root, number: Number -> string): (r: seq<Json>)
    requires Grounded(root)
    requires forall i :: 0 <= i < |items| ==> Described(items[i], schema, root)
    ensures |r| == |items|
    ensures forall i :: 0 <= i < |items| ==> r[i] == Normalize(items[i], schema, root, number)
    decreases items, 0
  {
    if items == [] then []
    else [Normalize(items[0], schema, root, number)] + NormalizeItems(items[1..], schema, root, number)
  }

  /** The two values differ only in the order of object members, the order of set-marked arrays at any
      depth, and the way a number is held. */
  ghost predicate Reorders(a: Json, b: Json, schema: Schema, root: Root, number: Number -> string)
    requires Grounded(root) && Described(a, schema, root) && Described(b, schema, root)
    decreases a, Hops(schema, root)
  {
    if schema.Ref? then Reorders(a, b, root.defs[schema.name], root, number)
    else if a.Obj? && b.Obj? then
      |a.fields| == |b.fields| && exists p :: ReordersFields(a, b, schema, root, number, p)
    else if a.Arr? && b.Arr? then
      |a.items| == |b.items| &&
      if schema.isSet then exists p :: ReordersItems(a, b, schema, root, number, p)
      else forall i :: 0 <= i < |a.items| ==> Reorders(a.items[i], b.items[i], schema.items.value, root, number)
    else Canonical(a, number) == Canonical(b, number)
  }

  ghost predicate ReordersFields(a: Json, b: Json, schema: Schema, root: Root, number: Number -> string, p: seq<nat>)
    requires Grounded(root) && schema.Node? && Described(a, schema, root) && Described(b, schema, root)
    requires a.Obj? && b.Obj? && |a.fields| == |b.fields|
    decreases a, 0, 0
  {
    Permutes(p, |a.fields|) &&
    forall i :: 0 <= i < |a.fields| ==>
      a.fields[i].key == b.fields[p[i]].key &&
      Reorders(a.fields[i].value, b.fields[p[i]].value, schema.properties[a.fields[i].key], root, number)
  }

  ghost predicate ReordersItems(a: Json, b: Json, schema: Schema, root: Root, number: Number -> string, p: seq<nat>)
    requires Grounded(root) && schema.Node? && Described(a, schema, root) && Described(b, schema, root)
    requires a.Arr? && b.Arr? && |a.items| == |b.items|
    decreases a, 0, 0
  {
    Permutes(p, |a.items|) &&
    forall i :: 0 <= i < |a.items| ==>
      Reorders(a.items[i], b.items[p[i]], schema.items.value, root, number)
  }
}
