/** Overlaying configuration layers: objects merge key by key, everything else replaces, and
    an undefined value says nothing. */
module ConfigMerge {
  import opened Optional

  datatype Value = Undefined | Scalar(text: string) | Array(items: seq<Value>) | Object(fields: map<string, Value>)

  /** An own property, or undefined. */
  function Get(v: Value, key: string): Value {
    if v.Object? && key in v.fields then v.fields[key] else Undefined
  }

  /** The overlay `b` on the base `a`. */
  function Over(a: Value, b: Value): Value
    decreases b
  {
    if b.Undefined? then a
    else if !a.Object? || !b.Object? then b
    else
      Object(map key | key in a.fields.Keys + b.fields.Keys && (key in a.fields || !b.fields[key].Undefined?) ::
               if key in b.fields then Over(Get(a, key), b.fields[key]) else a.fields[key])
  }

  /** `mergeConfigLayers`: the first layer is replaced by the defaults, absent layers are
      skipped, later layers win. */
  function Merged(defaults: Value, layers: seq<Option<Value>>): Value {
    if |layers| <= 1 then defaults
    else
      var below := Merged(defaults, layers[..|layers| - 1]);
      match layers[|layers| - 1]
      case None => below
      case Some(layer) => Over(below, layer)
  }

  function At(fields: map<string, Value>, key: string): Option<Value> {
    if key in fields then Some(fields[key]) else None
  }

  lemma OverAt(a: Value, b: Value, key: string)
    requires a.Object? && b.Object?
    ensures At(Over(a, b).fields, key) ==
              if key in b.fields && !b.fields[key].Undefined? then Some(Over(Get(a, key), b.fields[key]))
              else At(a.fields, key)
  {
  }

  /** The keys in `todo` are still as in the base, the others as in the overlay of both. */
  ghost predicate Between(fields: map<string, Value>, base: Value, overlay: Value, todo: set<string>)
    requires base.Object? && overlay.Object?
  {
    forall key :: At(fields, key) == At(if key in todo then base.fields else Over(base, overlay).fields, key)
  }

  lemma BetweenAtFirst(base: Value, overlay: Value)
    requires base.Object? && overlay.Object?
    ensures Between(base.fields, base, overlay, overlay.fields.Keys)
  {
    hide Over, At;
    forall key {
      OverAt(base, overlay, key);
    }
  }

  /** One turn of the loop over the keys. */
  lemma TurnKeeps(fields: map<string, Value>, base: Value, overlay: Value, todo: set<string>, key: string)
    requires base.Object? && overlay.Object? && Between(fields, base, overlay, todo)
    requires key in todo && todo <= overlay.fields.Keys
    ensures var value := overlay.fields[key];
            Between(if value.Undefined? then fields else fields[key := Over(Get(Object(fields), key), value)],
                    base, overlay, todo - {key})
  {
    hide Over;
    OverAt(base, overlay, key);
    assert At(fields, key) == At(base.fields, key);
    assert Get(Object(fields), key) == Get(base, key);
  }

  lemma BetweenAtLast(fields: map<string, Value>, base: Value, overlay: Value)
    requires base.Object? && overlay.Object? && Between(fields, base, overlay, {})
    ensures Object(fields) == Over(base, overlay)
  {
    var merged := Over(base, overlay).fields;
    forall key ensures (key in fields <==> key in merged) && (key in fields ==> fields[key] == merged[key]) {
      assert At(fields, key) == At(merged, key);
    }
    assert fields == merged;
  }

  method DeepMergeObjects(base: Value, overlay: Value) returns (merged: Value)
    requires base.Object? && overlay.Object?
    ensures merged == Over(base, overlay)
    decreases overlay
  {
    hide Between;
    var fields := base.fields;
    var todo := overlay.fields.Keys;
    BetweenAtFirst(base, overlay);
    while todo != {}
      invariant todo <= overlay.fields.Keys && Between(fields, base, overlay, todo)
      decreases |todo|
    {
      var key :| key in todo;
      TurnKeeps(fields, base, overlay, todo, key);
      todo := todo - {key};
      var value := overlay.fields[key];
      if value.Undefined? {
        continue;
      }
      var existing := if key in fields then fields[key] else Undefined;
      if existing.Object? && value.Object? {
        var nested := DeepMergeObjects(existing, value);
        fields := fields[key := nested];
        continue;
      }
      fields := fields[key := value];
    }
    BetweenAtLast(fields, base, overlay);
    merged := Object(fields);
  }

  method MergeConfigLayers(defaults: Value, layers: seq<Option<Value>>) returns (merged: Value)
    requires defaults.Object? && forall i | 0 <= i < |layers| && layers[i].Some? :: layers[i].value.Object?
    ensures merged == Merged(defaults, layers)
  {
    merged := defaults;
    if |layers| == 0 {
      return;
    }
    var i := 1;
    while i < |layers|
      invariant 1 <= i <= |layers| && merged.Object? && merged == Merged(defaults, layers[..i])
    {
      assert layers[..i + 1][..i] == layers[..i];
      if layers[i].Some? {
        merged := DeepMergeObjects(merged, layers[i].value);
      }
      i := i + 1;
    }
    assert layers[..i] == layers;
  }

  // ----- values at paths -----

  function Lookup(v: Value, path: seq<string>): Value
    decreases |path|
  {
    if path == [] then v else Lookup(Get(v, path[0]), path[1..])
  }

  /** Along the path, before its end, the value is something other than an object. */
  predicate Blocks(v: Value, path: seq<string>)
    decreases |path|
  {
    path != [] && ((!v.Undefined? && !v.Object?) || (v.Object? && Blocks(Get(v, path[0]), path[1..])))
  }

  lemma OverAtKey(a: Value, b: Value, key: string)
    requires a.Object? && b.Object?
    ensures Get(Over(a, b), key) == Over(Get(a, key), Get(b, key))
  {
  }

  lemma {:induction false} NothingThere(path: seq<string>, v: Value)
    requires !v.Object? && path != []
    ensures Lookup(v, path) == Undefined
    decreases |path|
  {
    if |path| > 1 {
      NothingThere(path[1..], Undefined);
    }
  }

  /** Main result: at every path the overlay of two values is the overlay of what they have
      there, unless the upper one has a scalar or an array on the way, which hides all below. */
  lemma {:induction false} OverAtPath(a: Value, b: Value, path: seq<string>)
    ensures Lookup(Over(a, b), path) == if Blocks(b, path) then Undefined else Over(Lookup(a, path), Lookup(b, path))
    decreases |path|
  {
    if path != [] {
      var key, rest := path[0], path[1..];
      if b.Undefined? {
        NothingThere(path, b);
      } else if !b.Object? {
        NothingThere(path, b);
      } else if !a.Object? {
        NothingThere(path, a);
        OverNothing(Lookup(b, path));
        if Blocks(b, path) {
          BlockedIsUndefined(b, path);
        }
      } else {
        OverAtKey(a, b, key);
        OverAtPath(Get(a, key), Get(b, key), rest);
      }
    }
  }

  lemma OverNothing(v: Value)
    ensures Over(Undefined, v) == v
  {
  }

  lemma {:induction false} BlockedIsUndefined(v: Value, path: seq<string>)
    requires Blocks(v, path)
    ensures Lookup(v, path) == Undefined
    decreases |path|
  {
    if v.Object? {
      BlockedIsUndefined(Get(v, path[0]), path[1..]);
    } else {
      NothingThere(path, v);
    }
  }

  // ----- layers -----

  /** The layer is present and has a say about the path: a value there, or something on the
      way that hides whatever lies below. */
  predicate Touches(layer: Option<Value>, path: seq<string>) {
    layer.Some? && (Blocks(layer.value, path) || !Lookup(layer.value, path).Undefined?)
  }

  /** Main result: where the highest layer that touches a path puts a scalar or an array
      there, the merged configuration has exactly that; where no layer touches it, it has the
      default. */
  lemma {:induction false} HighestLayerWins(defaults: Value, layers: seq<Option<Value>>, path: seq<string>, at: nat)
    requires at < |layers| && (forall j | at < j < |layers| :: !Touches(layers[j], path))
    requires at > 0 ==> layers[at].Some? && !Blocks(layers[at].value, path)
                        && !Lookup(layers[at].value, path).Undefined? && !Lookup(layers[at].value, path).Object?
    ensures Lookup(Merged(defaults, layers), path) ==
              if at == 0 then Lookup(defaults, path) else Lookup(layers[at].value, path)
    decreases |layers|
  {
    var last := |layers| - 1;
    if last > 0 {
      var below := Merged(defaults, layers[..last]);
      if layers[last].Some? {
        OverAtPath(below, layers[last].value, path);
      }
      if at < last {
        HighestLayerWins(defaults, layers[..last], path, at);
      }
    }
  }

  /** Where the layers all have objects at a path, or nothing, the merged configuration has
      what merging the parts there gives. */
  lemma {:induction false} ObjectsMergeInPlace(defaults: Value, layers: seq<Option<Value>>, path: seq<string>)
    requires forall j | 0 < j < |layers| && layers[j].Some? :: !Blocks(layers[j].value, path)
    ensures Lookup(Merged(defaults, layers), path) ==
              Merged(Lookup(defaults, path), seq(|layers|, j requires 0 <= j < |layers| =>
                if layers[j].Some? then Some(Lookup(layers[j].value, path)) else None))
    decreases |layers|
  {
    var parts := seq(|layers|, j requires 0 <= j < |layers| =>
      if layers[j].Some? then Some(Lookup(layers[j].value, path)) else None);
    if |layers| > 1 {
      var last := |layers| - 1;
      ObjectsMergeInPlace(defaults, layers[..last], path);
      assert parts[..last] == seq(last, j requires 0 <= j < last =>
        if layers[..last][j].Some? then Some(Lookup(layers[..last][j].value, path)) else None);
      if layers[last].Some? {
        OverAtPath(Merged(defaults, layers[..last]), layers[last].value, path);
      }
    }
  }

  // ----- idempotence and associativity -----

  /** Merging a value into itself changes nothing. */
  lemma {:induction false} OverIsIdempotent(v: Value)
    ensures Over(v, v) == v
    decreases v
  {
    if v.Object? {
      forall key | key in v.fields ensures Over(Get(v, key), v.fields[key]) == v.fields[key] {
        OverIsIdempotent(v.fields[key]);
      }
      assert Over(v, v).fields == v.fields;
    }
  }

  /** Whatever `a` has, `c` has already, or hides: laying `c` over `a` gives `c` back. */
  ghost predicate Covers(c: Value, a: Value)
    decreases c
  {
    if c.Undefined? then a.Undefined?
    else if !a.Object? || !c.Object? then true
    else
      && (forall key | key in a.fields :: key in c.fields && Covers(c.fields[key], a.fields[key]))
      && (forall key | key in c.fields && key !in a.fields :: !c.fields[key].Undefined?)
  }

  lemma {:induction false} CoversIs(a: Value, c: Value)
    ensures Over(a, c) == c <==> Covers(c, a)
    decreases c
  {
    if a.Object? && c.Object? {
      forall key | key in a.fields && key in c.fields
        ensures Over(a.fields[key], c.fields[key]) == c.fields[key] <==> Covers(c.fields[key], a.fields[key])
      {
        CoversIs(a.fields[key], c.fields[key]);
      }
      var o := Over(a, c);
      assert forall key :: key in o.fields <==> key in a.fields || !Get(c, key).Undefined?;
      if Covers(c, a) {
        forall key | key in c.fields ensures key in o.fields && o.fields[key] == c.fields[key] {
          OverNothing(c.fields[key]);
        }
        assert o.fields == c.fields;
      }
      assert forall key | key in a.fields && key in c.fields :: o.fields[key] == Over(a.fields[key], c.fields[key]);
    }
  }

  /** Nowhere does `b` have a scalar or an array where `a` and `c` have objects of which `c`
      does not cover `a`. */
  ghost predicate NoClash(a: Value, b: Value, c: Value)
    decreases c
  {
    if !a.Object? || !c.Object? || b.Undefined? then true
    else if !b.Object? then Covers(c, a)
    else forall key | key in c.fields :: NoClash(Get(a, key), Get(b, key), c.fields[key])
  }

  /** Main result: merging is associative exactly where there is no such clash. */
  lemma {:induction false} AssociativeExactly(a: Value, b: Value, c: Value)
    ensures Over(Over(a, b), c) == Over(a, Over(b, c)) <==> NoClash(a, b, c)
    decreases c
  {
    if a.Object? && c.Object? {
      if b.Object? {
        ObjectsAssociate(a, b, c);
      } else if !b.Undefined? {
        CoversIs(a, c);
      }
    }
  }

  lemma AssociateAtKey(a: Value, b: Value, c: Value, key: string)
    requires a.Object? && b.Object? && c.Object?
    ensures Get(Over(Over(a, b), c), key) == Over(Over(Get(a, key), Get(b, key)), Get(c, key))
    ensures Get(Over(a, Over(b, c)), key) == Over(Get(a, key), Over(Get(b, key), Get(c, key)))
    ensures key in Over(Over(a, b), c).fields <==> key in Over(a, Over(b, c)).fields
    ensures key in Over(Over(a, b), c).fields <==>
              key in a.fields || !Get(b, key).Undefined? || !Get(c, key).Undefined?
  {
    OverAtKey(a, b, key);
    OverAtKey(Over(a, b), c, key);
    OverAtKey(b, c, key);
    OverAtKey(a, Over(b, c), key);
  }

  lemma ObjectsAssociate(a: Value, b: Value, c: Value)
    requires a.Object? && b.Object? && c.Object?
    ensures Over(Over(a, b), c) == Over(a, Over(b, c)) <==> NoClash(a, b, c)
    decreases c, 0
  {
    var left, right := Over(Over(a, b), c), Over(a, Over(b, c));
    forall key
      ensures Get(left, key) == Get(right, key) <==>
                key !in c.fields || NoClash(Get(a, key), Get(b, key), c.fields[key])
      ensures key in left.fields <==> key in right.fields
    {
      AssociateAtKey(a, b, c, key);
      if key in c.fields {
        AssociativeExactly(Get(a, key), Get(b, key), c.fields[key]);
      }
    }
    if NoClash(a, b, c) {
      forall key | key in left.fields ensures left.fields[key] == right.fields[key] {
        assert Get(left, key) == Get(right, key);
      }
      assert left.fields == right.fields;
    }
  }

  /** Such a clash in configuration terms: defaults with an object, a layer that replaces it by
      a scalar, and a layer with an object again. */
  lemma ClashesDoNotAssociate()
    ensures var a := Object(map["otlp" := Object(map["endpoint" := Scalar("e")])]);
            var b := Object(map["otlp" := Scalar("off")]);
            var c := Object(map["otlp" := Object(map["protocol" := Scalar("p")])]);
            Over(Over(a, b), c) != Over(a, Over(b, c))
  {
    var a := Object(map["otlp" := Object(map["endpoint" := Scalar("e")])]);
    var b := Object(map["otlp" := Scalar("off")]);
    var c := Object(map["otlp" := Object(map["protocol" := Scalar("p")])]);
    AssociativeExactly(a, b, c);
    assert "endpoint" in a.fields["otlp"].fields && "endpoint" !in c.fields["otlp"].fields;
    assert "otlp" in c.fields && Get(b, "otlp") == Scalar("off") && Get(a, "otlp") == a.fields["otlp"];
    assert !Covers(c.fields["otlp"], a.fields["otlp"]);
    assert !NoClash(Get(a, "otlp"), Get(b, "otlp"), c.fields["otlp"]);
  }
}
