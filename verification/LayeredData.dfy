/**
 JSON data layered by inheritance: objects merge key by key, anything else is replaced.
 */
module LayeredData {
  import opened Wrappers

  datatype Json =
    | Null
    | Bool(flag: bool)
    | Number(literal: string)
    | Text(text: string)
    | Array(items: seq<Json>)
    | Object(fields: map<string, Json>)

  const Empty: Json := Object(map[])

  function Merge(base: Json, over: Json): Json
    decreases base, over
  {
    if base.Object? && over.Object? then
      Object(map k | k in base.fields.Keys + over.fields.Keys ::
               if k in base.fields && k in over.fields then Merge(base.fields[k], over.fields[k])
               else if k in over.fields then over.fields[k]
               else base.fields[k])
    else over
  }

  /** The merge as it is carried out: a copy of the base, updated key by key. */
  method DeepMerge(base: Json, over: Json) returns (merged: Json)
    ensures merged == Merge(base, over)
    decreases base, over
  {
    if !base.Object? || !over.Object? {
      return over;
    }
    var fields := base.fields;
    var todo := over.fields.Keys;
    while todo != {}
      invariant todo <= over.fields.Keys
      invariant fields.Keys == base.fields.Keys + (over.fields.Keys - todo)
      invariant forall k :: k in fields ==>
        fields[k] == if k in over.fields && k !in todo then Merge(base, over).fields[k] else Base(base, over, k)
    {
      var k :| k in todo;
      todo := todo - {k};
      if k in fields {
        assert k in base.fields && fields[k] == base.fields[k];
        var value := DeepMerge(fields[k], over.fields[k]);
        fields := fields[k := value];
      } else {
        fields := fields[k := over.fields[k]];
      }
    }
    merged := Object(fields);
    assert fields == Merge(base, over).fields;
  }

  function Base(base: Json, over: Json, k: string): Json
    requires base.Object? && over.Object?
  {
    if k in base.fields then base.fields[k] else Null
  }

  // ---- what is found in merged data ----

  /** The value at a path of keys. */
  function At(j: Json, path: seq<string>): Option<Json>
    decreases |path|
  {
    if path == [] then Some(j)
    else if j.Object? && path[0] in j.fields then At(j.fields[path[0]], path[1..])
    else None
  }

  predicate IsObject(found: Option<Json>) {
    found.Some? && found.value.Object?
  }

  /** Objects lead towards the path, and one of them has no value for the next key. */
  ghost predicate SilentAt(j: Json, path: seq<string>) {
    exists n :: 0 <= n < |path| && MissesAt(j, path, n)
  }

  predicate MissesAt(j: Json, path: seq<string>, n: nat)
    requires n < |path|
  {
    IsObject(At(j, path[..n])) && path[n] !in At(j, path[..n]).value.fields
  }

  /** A value other than an object is found in merged data exactly where the later layer has it, or
      the earlier one has it and the later one is silent; the same holds of being an object at all,
      where objects of both layers also meet. */
  lemma {:induction false} MergeByPath(base: Json, over: Json, path: seq<string>, leaf: Json)
    requires !leaf.Object?
    ensures At(Merge(base, over), path) == Some(leaf)
            <==> At(over, path) == Some(leaf) || (At(base, path) == Some(leaf) && SilentAt(over, path))
    ensures IsObject(At(Merge(base, over), path))
            <==> IsObject(At(over, path)) || (IsObject(At(base, path)) && SilentAt(over, path))
    decreases |path|
  {
    SilentUnfolds(over, path);
    if path != [] && base.Object? && over.Object? && path[0] in base.fields && path[0] in over.fields {
      MergeByPath(base.fields[path[0]], over.fields[path[0]], path[1..], leaf);
    }
  }

  lemma SilentUnfolds(j: Json, path: seq<string>)
    ensures SilentAt(j, path) <==>
            path != [] && j.Object? && (path[0] in j.fields ==> SilentAt(j.fields[path[0]], path[1..]))
  {
    if path != [] {
      assert path[..0] == [];
      if j.Object? && path[0] in j.fields {
        var rest := path[1..];
        forall n | 0 <= n < |rest| ensures At(j, path[..n + 1]) == At(j.fields[path[0]], rest[..n]) {
          assert path[..n + 1][1..] == rest[..n];
        }
        if n :| 0 <= n < |path| && MissesAt(j, path, n) {
          if n > 0 { assert MissesAt(j.fields[path[0]], rest, n - 1); }
        }
        if n :| 0 <= n < |rest| && MissesAt(j.fields[path[0]], rest, n) {
          assert MissesAt(j, path, n + 1);
        }
      } else if j.Object? {
        assert MissesAt(j, path, 0);
      } else {
        forall n | 0 <= n < |path| ensures !IsObject(At(j, path[..n])) { }
      }
    }
  }

  // ---- when merging is associative ----

  /** No path is an object in one layer and something else in the other. */
  ghost predicate Compatible(a: Json, b: Json)
    decreases a, b
  {
    if a.Object? && b.Object? then forall k :: k in a.fields && k in b.fields ==> Compatible(a.fields[k], b.fields[k])
    else !a.Object? && !b.Object?
  }

  /** A non-object hides an object of the first layer from an object of the last, which would have
      kept something of it. */
  ghost predicate Blocks(a: Json, b: Json, c: Json)
    decreases a, b, c
  {
    && a.Object? && c.Object?
    && if b.Object?
       then exists k :: k in a.fields && k in b.fields && k in c.fields && Blocks(a.fields[k], b.fields[k], c.fields[k])
       else Merge(a, c) != c
  }

  /** Merging is associative exactly where no layer blocks the ones around it. */
  lemma {:induction false} AssociativeIffNotBlocked(a: Json, b: Json, c: Json)
    ensures Merge(Merge(a, b), c) == Merge(a, Merge(b, c)) <==> !Blocks(a, b, c)
    decreases a, b, c
  {
    if a.Object? && b.Object? && c.Object? {
      var left, right := Merge(Merge(a, b), c), Merge(a, Merge(b, c));
      forall k | k in left.fields
        ensures k in right.fields
        ensures left.fields[k] == right.fields[k] <==>
                  !(k in a.fields && k in b.fields && k in c.fields && Blocks(a.fields[k], b.fields[k], c.fields[k]))
      {
        if k in a.fields && k in b.fields && k in c.fields {
          AssociativeIffNotBlocked(a.fields[k], b.fields[k], c.fields[k]);
        }
      }
      assert left.fields.Keys == right.fields.Keys;
      if !Blocks(a, b, c) {
        assert left.fields == right.fields;
      }
    }
  }

  lemma {:induction false} CompatibleNeverBlocks(a: Json, b: Json, c: Json)
    requires Compatible(a, b) && Compatible(b, c)
    ensures !Blocks(a, b, c)
    decreases a, b, c
  {
    if a.Object? && b.Object? && c.Object? {
      forall k | k in a.fields && k in b.fields && k in c.fields
        ensures !Blocks(a.fields[k], b.fields[k], c.fields[k])
      {
        CompatibleNeverBlocks(a.fields[k], b.fields[k], c.fields[k]);
      }
    }
  }

  /** Layers that agree on where objects are merge associatively. */
  lemma CompatibleAssociative(a: Json, b: Json, c: Json)
    requires Compatible(a, b) && Compatible(b, c)
    ensures Merge(Merge(a, b), c) == Merge(a, Merge(b, c))
  {
    CompatibleNeverBlocks(a, b, c);
    AssociativeIffNotBlocked(a, b, c);
  }

  /** An array over an object, with an object on top: the order of merging matters. */
  lemma MixedLayersDoNotAssociate()
    ensures var a, b, c :=
      Object(map["stats" := Object(map["hp" := Number("1")])]), Object(map["stats" := Array([])]),
      Object(map["stats" := Empty]);
            && Blocks(a, b, c) && Merge(Merge(a, b), c) == c && Merge(a, Merge(b, c)) == a
  {
    var x, y, z := Object(map["hp" := Number("1")]), Array([]), Empty;
    var a, b, c := Object(map["stats" := x]), Object(map["stats" := y]), Object(map["stats" := z]);
    assert Merge(x, z) == x by { assert Merge(x, z).fields == x.fields; }
    assert x.fields["hp"] == Number("1") && x != z;
    assert Blocks(x, y, z) && "stats" in a.fields && "stats" in b.fields && "stats" in c.fields;
    assert Merge(a, b).fields == map["stats" := y];
    assert Merge(Merge(a, b), c).fields == map["stats" := z];
    assert Merge(b, c).fields == map["stats" := z];
    assert Merge(a, Merge(b, c)).fields == map["stats" := x];
  }

  lemma {:induction false} CompatibleSymmetric(a: Json, b: Json)
    requires Compatible(a, b)
    ensures Compatible(b, a)
    decreases a, b
  {
    if a.Object? {
      forall k | k in a.fields && k in b.fields ensures Compatible(b.fields[k], a.fields[k]) {
        CompatibleSymmetric(a.fields[k], b.fields[k]);
      }
    }
  }

  lemma {:induction false} CompatibleReflexive(a: Json)
    ensures Compatible(a, a)
    decreases a
  {
    if a.Object? {
      forall k | k in a.fields ensures Compatible(a.fields[k], a.fields[k]) {
        CompatibleReflexive(a.fields[k]);
      }
    }
  }

  /** What is compatible with both layers is compatible with their merge. */
  lemma {:induction false} CompatibleWithMerge(a: Json, b: Json, c: Json)
    requires Compatible(a, c) && Compatible(b, c)
    ensures Compatible(Merge(a, b), c)
    decreases a, b, c
  {
    if a.Object? && b.Object? {
      forall k | k in Merge(a, b).fields && k in c.fields ensures Compatible(Merge(a, b).fields[k], c.fields[k]) {
        if k in a.fields && k in b.fields {
          CompatibleWithMerge(a.fields[k], b.fields[k], c.fields[k]);
        }
      }
    }
  }

  lemma MergeIdentity(a: Json)
    ensures Merge(Empty, a) == a
    ensures Merge(a, Empty) == if a.Object? then a else Empty
  {
    if a.Object? {
      assert Merge(Empty, a).fields == a.fields && Merge(a, Empty).fields == a.fields;
    }
  }

  // ---- layers applied one after another ----

  function Fold(start: Json, layers: seq<Json>): Json {
    if layers == [] then start else Merge(Fold(start, layers[..|layers| - 1]), layers[|layers| - 1])
  }

  lemma {:induction false} FoldConcat(start: Json, xs: seq<Json>, ys: seq<Json>)
    ensures Fold(start, xs + ys) == Fold(Fold(start, xs), ys)
    decreases |ys|
  {
    if ys == [] {
      assert xs + ys == xs;
    } else {
      assert (xs + ys)[..|xs + ys| - 1] == xs + ys[..|ys| - 1];
      FoldConcat(start, xs, ys[..|ys| - 1]);
    }
  }

  ghost predicate AllCompatible(layers: seq<Json>) {
    forall i, j :: 0 <= i < |layers| && 0 <= j < |layers| ==> Compatible(layers[i], layers[j])
  }

  lemma {:induction false} CompatibleWithFold(layers: seq<Json>, c: Json)
    requires layers != [] && forall i :: 0 <= i < |layers| ==> Compatible(layers[i], c)
    ensures Compatible(Fold(Empty, layers), c)
    decreases |layers|
  {
    var n := |layers| - 1;
    if n == 0 {
      assert layers[..0] == [];
      MergeIdentity(layers[0]);
    } else {
      CompatibleWithFold(layers[..n], c);
      CompatibleWithMerge(Fold(Empty, layers[..n]), layers[n], c);
    }
  }

  /** Merging in the fold of some layers is the same as merging in the layers one by one. */
  lemma {:induction false} MergeFold(start: Json, layers: seq<Json>)
    requires layers != [] && AllCompatible(layers)
    requires start == Empty || forall i :: 0 <= i < |layers| ==> Compatible(start, layers[i])
    ensures Merge(start, Fold(Empty, layers)) == Fold(start, layers)
    decreases |layers|
  {
    if start == Empty {
      MergeIdentity(Fold(Empty, layers));
    } else {
      var n := |layers| - 1;
      var last := layers[n];
      if n == 0 {
        assert layers[..0] == [];
        MergeIdentity(last);
      } else {
        var before := layers[..n];
        MergeFold(start, before);
        CompatibleWithFold(before, last);
        forall i | 0 <= i < |before| ensures Compatible(before[i], start) { CompatibleSymmetric(start, before[i]); }
        CompatibleWithFold(before, start);
        CompatibleSymmetric(Fold(Empty, before), start);
        CompatibleAssociative(start, Fold(Empty, before), last);
      }
    }
  }
}
