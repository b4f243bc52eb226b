/** The schema example resolver (scripts/generate-http.js, resolveRef and
    getSchemaExample): follows `$ref` pointers into the loaded document and
    produces a representative example for a schema, or `null`.

    The source bounds nothing: a schema that reaches itself through `$ref`
    recurses until the call stack overflows. The model adds a `fuel`
    parameter standing for that stack: a call with no fuel left throws,
    exactly as the source throws a RangeError when the stack runs out. */
module SchemaExample {
  import opened Wrappers
  import opened Text
  import opened Assoc
  import opened JsValue

  /** The placeholder used for string properties of format `uuid`. */
  const NilUuid: string := "00000000-0000-0000-0000-000000000000"

  // ---------------------------------------------------------------------
  // Reference resolution

  /** Walks `parts` from `v`: each step reads one property and stops with
      `null` as soon as the value read is falsy. Reading a property of
      `null` throws. */
  function Walk(v: Value, parts: seq<string>): (r: Outcome<Value>)
    ensures r.Thrown? <==> parts != [] && v.Null?
    ensures r.Done? && parts != [] ==> r.value.Null? || Truthy(Some(r.value))
    ensures !v.Null? ==> r == (if At(v, parts).Some? then Done(At(v, parts).value) else Done(Null))
    decreases |parts|
  {
    if parts == [] then Done(v)
    else if v.Null? then Thrown
    else
      var next := Member(v, parts[0]);
      if !Truthy(next) then Done(Null) else Walk(next.value, parts[1..])
  }

  /** What resolveRef returns for a `$ref` value: `null` for a falsy ref or
      one that does not start with `#/`, otherwise the walk of its
      `/`-separated segments from the document root. No `~0`/`~1`
      unescaping is done. A truthy ref that is not a string throws, as
      calling `startsWith` on it does. */
  function Resolve(ref: Option<Value>, spec: Value): (r: Outcome<Value>)
    ensures r.Thrown? <==> Truthy(ref) && (!ref.value.Str? || (StartsWith(ref.value.s, "#/") && spec.Null?))
    ensures r.Done? && !r.value.Null? ==>
              Truthy(Some(r.value)) && Truthy(ref) && ref.value.Str? && StartsWith(ref.value.s, "#/")
  {
    if !Truthy(ref) then Done(Null)
    else if !ref.value.Str? then Thrown
    else if !StartsWith(ref.value.s, "#/") then Done(Null)
    else Walk(spec, Split(ref.value.s[2..], '/'))
  }

  /** resolveRef: the loop that walks the segments of a reference. */
  method ResolveRef(ref: Option<Value>, spec: Value) returns (r: Outcome<Value>)
    ensures r == Resolve(ref, spec)
  {
    if !Truthy(ref) || (ref.value.Str? && !StartsWith(ref.value.s, "#/")) {
      return Done(Null);
    }
    if !ref.value.Str? {
      return Thrown;
    }
    var parts := Split(ref.value.s[2..], '/');
    var result := spec;
    for i := 0 to |parts|
      invariant Walk(result, parts[i..]) == Walk(spec, parts)
      invariant i > 0 ==> Truthy(Some(result))
    {
      assert parts[i..][1..] == parts[i + 1..];
      if result.Null? {
        return Thrown;
      }
      var next := Member(result, parts[i]);
      if !Truthy(next) {
        return Done(Null);
      }
      result := next.value;
    }
    assert parts[|parts|..] == [];
    r := Done(result);
  }

  /** The value found by reading `segs` one after the other, each read
      giving a truthy value. */
  function At(v: Value, segs: seq<string>): Option<Value>
    decreases |segs|
  {
    if segs == [] then Some(v)
    else if v.Null? then None
    else
      var next := Member(v, segs[0]);
      if !Truthy(next) then None else At(next.value, segs[1..])
  }

  /** Round trip: a reference `#/` + the segments joined by `/` resolves to
      the value found at those segments when every step is truthy, and to
      `null` when some step is falsy (a dangling reference), provided no
      segment contains `/`. */
  lemma RefRoundTrip(spec: Value, segs: seq<string>)
    requires segs != [] && forall i :: 0 <= i < |segs| ==> '/' !in segs[i]
    requires !spec.Null?
    ensures Resolve(Some(Str("#/" + Join(segs, "/"))), spec)
            == (if At(spec, segs).Some? then Done(At(spec, segs).value) else Done(Null))
  {
    var ref := "#/" + Join(segs, "/");
    assert StartsWith(ref, "#/");
    assert ref[2..] == Join(segs, "/");
    SplitJoin(segs, '/');
  }

  // ---------------------------------------------------------------------
  // Example synthesis

  /** The placeholder a property gets when its own schema gives no example:
      by its `type`, a string (the nil UUID for format `uuid`), zero, or its
      `default` (false when absent or null); other types get none. */
  function Placeholder(propSchema: Value): Option<Value> {
    var t := Member(propSchema, "type");
    if t == Some(Str("string")) then
      Some(Str(if Member(propSchema, "format") == Some(Str("uuid")) then NilUuid else ""))
    else if t == Some(Str("number")) || t == Some(Str("integer")) then
      Some(Num(0.0))
    else if t == Some(Str("boolean")) then
      var d := Member(propSchema, "default");
      Some(if d.Some? && !d.value.Null? then d.value else Bool(false))
    else None
  }

  /** A schema of one of the types that always get a placeholder. */
  predicate HasScalarType(propSchema: Value) {
    Member(propSchema, "type") in {Some(Str("string")), Some(Str("number")),
                                   Some(Str("integer")), Some(Str("boolean"))}
  }

  /** What the `$ref` of a truthy schema resolves to: `null` when the
      schema has no truthy `$ref` or the reference does not resolve. */
  function RefTarget(schema: Value, spec: Value): Outcome<Value> {
    var ref := Member(schema, "$ref");
    if Truthy(ref) then Resolve(ref, spec) else Done(Null)
  }

  /** The example a schema states itself: the first entry of a non-empty
      `examples` array, else `example` whenever it is present at all, even
      when it is `null`, `false` or `0`. */
  function OwnExample(schema: Value): Option<Value> {
    var examples := Member(schema, "examples");
    if Truthy(examples) && examples.value.Arr? && |examples.value.items| > 0 then
      Some(examples.value.items[0])
    else Member(schema, "example")
  }

  /** The schema asks for an object built from its properties. */
  predicate IsObjectSchema(schema: Value) {
    Member(schema, "type") == Some(Str("object")) && Truthy(Member(schema, "properties"))
  }

  /** The `[name, schema]` pairs of `properties`. */
  function PropertiesOf(schema: Value): seq<(string, Value)>
    requires IsObjectSchema(schema)
  {
    OwnEntries(Member(schema, "properties").value)
  }

  /** getSchemaExample, with `fuel` standing for the remaining call stack. */
  function GetSchemaExample(schema: Value, spec: Value, fuel: nat): Outcome<Value>
    decreases fuel, 0, 0
  {
    if fuel == 0 then Thrown
    else if !Truthy(Some(schema)) then Done(Null)
    else
      match RefTarget(schema, spec)
      case Thrown => Thrown
      case Done(target) =>
        if Truthy(Some(target)) then GetSchemaExample(target, spec, fuel - 1)
        else if OwnExample(schema).Some? then Done(OwnExample(schema).value)
        else if IsObjectSchema(schema) then
          AsObject(Synthesize(PropertiesOf(schema), [], spec, fuel - 1))
        else Done(Null)
  }

  /** The synthesised object, or `null` when no property contributed. */
  function AsObject(fields: Outcome<seq<(string, Value)>>): Outcome<Value> {
    match fields
    case Thrown => Thrown
    case Done(fs) => Done(if |fs| > 0 then Obj(fs) else Null)
  }

  /** The loop over the properties of an object schema, adding each
      property's example or placeholder to `acc`. A property whose schema is
      `null` throws when its `type` is read. */
  function Synthesize(props: seq<(string, Value)>, acc: seq<(string, Value)>, spec: Value, fuel: nat)
    : Outcome<seq<(string, Value)>>
    decreases fuel, 1, |props|
  {
    if props == [] then Done(acc)
    else
      var name := props[0].0;
      var propSchema := props[0].1;
      match GetSchemaExample(propSchema, spec, fuel)
      case Thrown => Thrown
      case Done(ex) =>
        if !ex.Null? then Synthesize(props[1..], Put(acc, name, ex), spec, fuel)
        else if propSchema.Null? then Thrown
        else
          match Placeholder(propSchema)
          case Some(v) => Synthesize(props[1..], Put(acc, name, v), spec, fuel)
          case None => Synthesize(props[1..], acc, spec, fuel)
  }

  /** What one property adds to the synthesised object: its own example
      when that is not `null`, otherwise its type's placeholder, if any. */
  function Contribution(propSchema: Value, spec: Value, fuel: nat): Option<Value> {
    match GetSchemaExample(propSchema, spec, fuel)
    case Thrown => None
    case Done(ex) => if !ex.Null? then Some(ex) else Placeholder(propSchema)
  }

  // ---------------------------------------------------------------------
  // Properties

  /** More stack never changes a result: once the resolver produces an
      example with some fuel, it produces the same example with any more. */
  lemma {:induction false} FuelMonotone(schema: Value, spec: Value, fuel: nat, more: nat)
    requires fuel <= more && GetSchemaExample(schema, spec, fuel).Done?
    ensures GetSchemaExample(schema, spec, more) == GetSchemaExample(schema, spec, fuel)
    decreases fuel, 0, 1
  {
    var target := RefTarget(schema, spec);
    if Truthy(Some(schema)) && target.Done? && Truthy(Some(target.value)) {
      MonotoneViaRef(schema, spec, fuel, more);
    } else if Truthy(Some(schema)) && target.Done? && OwnExample(schema).None? && IsObjectSchema(schema) {
      MonotoneViaSynthesis(schema, spec, fuel, more);
    } else {
      NoRecursion(schema, spec, fuel, more);
    }
  }

  lemma {:induction false} MonotoneViaRef(schema: Value, spec: Value, fuel: nat, more: nat)
    requires fuel <= more && GetSchemaExample(schema, spec, fuel).Done?
    requires Truthy(Some(schema)) && RefTarget(schema, spec).Done?
    requires Truthy(Some(RefTarget(schema, spec).value))
    ensures GetSchemaExample(schema, spec, more) == GetSchemaExample(schema, spec, fuel)
    decreases fuel, 0, 0
  {
    var target := RefTarget(schema, spec).value;
    RefStep(schema, spec, fuel);
    FuelMonotone(target, spec, fuel - 1, more - 1);
    RefStep(schema, spec, more);
  }

  lemma {:induction false} MonotoneViaSynthesis(schema: Value, spec: Value, fuel: nat, more: nat)
    requires fuel <= more && GetSchemaExample(schema, spec, fuel).Done?
    requires Truthy(Some(schema)) && RefTarget(schema, spec).Done?
    requires !Truthy(Some(RefTarget(schema, spec).value))
    requires OwnExample(schema).None? && IsObjectSchema(schema)
    ensures GetSchemaExample(schema, spec, more) == GetSchemaExample(schema, spec, fuel)
    decreases fuel, 0, 0
  {
    var props := PropertiesOf(schema);
    SynthesizeMonotone(props, [], spec, fuel - 1, more - 1);
  }

  /** Where getSchemaExample does not call itself, the result does not
      depend on the stack left. */
  lemma NoRecursion(schema: Value, spec: Value, fuel: nat, more: nat)
    requires 0 < fuel <= more
    requires !Truthy(Some(schema)) || RefTarget(schema, spec).Thrown?
             || (!Truthy(Some(RefTarget(schema, spec).value))
                 && (OwnExample(schema).Some? || !IsObjectSchema(schema)))
    ensures GetSchemaExample(schema, spec, more) == GetSchemaExample(schema, spec, fuel)
  {
  }

  lemma {:induction false} SynthesizeMonotone(props: seq<(string, Value)>, acc: seq<(string, Value)>,
                                              spec: Value, fuel: nat, more: nat)
    requires fuel <= more && Synthesize(props, acc, spec, fuel).Done?
    ensures Synthesize(props, acc, spec, more) == Synthesize(props, acc, spec, fuel)
    decreases fuel, 1, |props|
  {
    if props != [] {
      var propSchema := props[0].1;
      FuelMonotone(propSchema, spec, fuel, more);
      var ex := GetSchemaExample(propSchema, spec, fuel).value;
      if !ex.Null? {
        SynthesizeMonotone(props[1..], Put(acc, props[0].0, ex), spec, fuel, more);
      } else {
        match Placeholder(propSchema)
        case Some(v) => SynthesizeMonotone(props[1..], Put(acc, props[0].0, v), spec, fuel, more);
        case None => SynthesizeMonotone(props[1..], acc, spec, fuel, more);
      }
    }
  }

  /** Nodes that each reference, through a resolving `$ref`, a node of the
      same set: a reference cycle. */
  ghost predicate RefCycle(nodes: set<Value>, spec: Value) {
    forall n {:trigger RefTarget(n, spec)} :: n in nodes ==>
      Truthy(Some(n)) && RefTarget(n, spec).Done? && RefTarget(n, spec).value in nodes
  }

  /** A schema on a reference cycle never yields an example: whatever the
      stack bound, the resolver throws, where the source recurses until the
      stack overflows. */
  lemma {:induction false} CycleThrows(nodes: set<Value>, spec: Value, n: Value, fuel: nat)
    requires RefCycle(nodes, spec) && n in nodes
    ensures GetSchemaExample(n, spec, fuel) == Thrown
    decreases fuel
  {
    if fuel == 0 {
      NoFuelThrows(n, spec);
    } else {
      var m := RefTarget(n, spec).value;
      assert RefTarget(m, spec).Done?;
      RefStep(n, spec, fuel);
      CycleThrows(nodes, spec, m, fuel - 1);
    }
  }

  /** With no stack left, every call throws. */
  lemma NoFuelThrows(schema: Value, spec: Value)
    ensures GetSchemaExample(schema, spec, 0) == Thrown
  {
  }

  /** The object synthesis step applies to this schema: it is truthy, its
      `$ref` (if any) resolves to nothing, it states no example of its own,
      its `type` is `"object"` and its `properties` are truthy. */
  predicate Synthesizes(schema: Value, spec: Value) {
    Bare(schema, spec) && IsObjectSchema(schema)
  }

  /** A truthy schema whose `$ref` (if any) resolves to nothing and which
      states no example of its own. */
  predicate Bare(schema: Value, spec: Value) {
    Truthy(Some(schema)) && RefTarget(schema, spec) == Done(Null) && OwnExample(schema).None?
  }

  /** Keys of a field list. */
  function Keys(fields: seq<(string, Value)>): set<string> {
    set i | 0 <= i < |fields| :: fields[i].0
  }

  /** The property loop only adds property names, and adds every property
      whose type always gets a placeholder. */
  lemma {:induction false} SynthesizeKeys(props: seq<(string, Value)>, acc: seq<(string, Value)>,
                                          spec: Value, fuel: nat)
    requires Synthesize(props, acc, spec, fuel).Done?
    ensures Keys(acc) <= Keys(Synthesize(props, acc, spec, fuel).value) <= Keys(acc) + Keys(props)
    ensures forall i :: 0 <= i < |props| && HasScalarType(props[i].1) ==>
              props[i].0 in Keys(Synthesize(props, acc, spec, fuel).value)
    decreases |props|
  {
    if props != [] {
      var next := SynthesizeStep(props, acc, spec, fuel);
      SynthesizeKeys(props[1..], next, spec, fuel);
      KeysCons(props);
      forall i | 0 <= i < |props| && HasScalarType(props[i].1)
        ensures props[i].0 in Keys(Synthesize(props, acc, spec, fuel).value)
      {
        if i > 0 {
          assert props[1..][i - 1] == props[i];
        }
      }
    }
  }

  /** One turn of the property loop: the accumulator gains at most the
      property's own name, and surely gains it for a scalar type. */
  lemma SynthesizeStep(props: seq<(string, Value)>, acc: seq<(string, Value)>, spec: Value, fuel: nat)
    returns (next: seq<(string, Value)>)
    requires props != [] && Synthesize(props, acc, spec, fuel).Done?
    ensures Synthesize(props, acc, spec, fuel) == Synthesize(props[1..], next, spec, fuel)
    ensures Keys(acc) <= Keys(next) <= Keys(acc) + {props[0].0}
    ensures HasScalarType(props[0].1) ==> props[0].0 in Keys(next)
    ensures var c := Contribution(props[0].1, spec, fuel);
            next == if c.Some? then Put(acc, props[0].0, c.value) else acc
  {
    var name := props[0].0;
    var propSchema := props[0].1;
    var ex := GetSchemaExample(propSchema, spec, fuel).value;
    if !ex.Null? {
      next := Put(acc, name, ex);
      PutKeys(acc, name, ex);
    } else {
      match Placeholder(propSchema)
      case Some(v) =>
        next := Put(acc, name, v);
        PutKeys(acc, name, v);
      case None =>
        next := acc;
    }
  }

  lemma KeysCons(props: seq<(string, Value)>)
    requires props != []
    ensures Keys(props) == {props[0].0} + Keys(props[1..])
  {
    forall k | k in Keys(props)
      ensures k in {props[0].0} + Keys(props[1..])
    {
      var i :| 0 <= i < |props| && props[i].0 == k;
      if i > 0 {
        assert props[1..][i - 1] == props[i];
      }
    }
    forall k | k in Keys(props[1..])
      ensures k in Keys(props)
    {
      var i :| 0 <= i < |props[1..]| && props[1..][i].0 == k;
      assert props[i + 1] == props[1..][i];
    }
  }

  lemma PutKeys(acc: seq<(string, Value)>, name: string, v: Value)
    ensures Keys(Put(acc, name, v)) == Keys(acc) + {name}
  {
    var r := Put(acc, name, v);
    forall k | k in Keys(acc) + {name}
      ensures k in Keys(r)
    {
      if k == name {
        var i :| 0 <= i < |r| && r[i] == (name, v);
      } else {
        var i :| 0 <= i < |acc| && acc[i].0 == k;
        assert acc[i] in r;
        var j :| 0 <= j < |r| && r[j] == acc[i];
      }
    }
    forall k | k in Keys(r)
      ensures k in Keys(acc) + {name}
    {
      var i :| 0 <= i < |r| && r[i].0 == k;
      if r[i] != (name, v) {
        assert r[i] in acc;
        var j :| 0 <= j < |acc| && acc[j] == r[i];
      }
    }
  }

  /** The property loop gives each property its contribution, the last one
      written when names repeat; with distinct names every property's name
      reads back its own contribution, or what `acc` held when it has none,
      and every other name reads back what `acc` held. */
  lemma {:induction false} SynthesizeValues(props: seq<(string, Value)>, acc: seq<(string, Value)>,
                                            spec: Value, fuel: nat)
    requires Synthesize(props, acc, spec, fuel).Done? && DistinctKeys(props)
    ensures forall i :: 0 <= i < |props| ==>
              Lookup(Synthesize(props, acc, spec, fuel).value, props[i].0)
              == (if Contribution(props[i].1, spec, fuel).Some? then Contribution(props[i].1, spec, fuel)
                  else Lookup(acc, props[i].0))
    ensures forall k :: k !in Keys(props) ==>
              Lookup(Synthesize(props, acc, spec, fuel).value, k) == Lookup(acc, k)
    decreases |props|
  {
    if props != [] {
      var next := SynthesizeStep(props, acc, spec, fuel);
      var rest := props[1..];
      forall i, j | 0 <= i < j < |rest|
        ensures rest[i].0 != rest[j].0
      {
        assert rest[i] == props[i + 1] && rest[j] == props[j + 1];
      }
      forall j | 0 <= j < |rest|
        ensures rest[j].0 != props[0].0
      {
        assert rest[j] == props[j + 1];
      }
      SynthesizeValues(rest, next, spec, fuel);
      KeysCons(props);
      forall i | 0 < i < |props|
        ensures props[i] == rest[i - 1]
      {
      }
    }
  }

  /** The property loop leaves the object empty exactly when it started
      empty and no property contributes. */
  lemma {:induction false} SynthesizeEmpty(props: seq<(string, Value)>, acc: seq<(string, Value)>,
                                           spec: Value, fuel: nat)
    requires Synthesize(props, acc, spec, fuel).Done?
    ensures Synthesize(props, acc, spec, fuel).value == [] <==>
            acc == [] && forall i :: 0 <= i < |props| ==> Contribution(props[i].1, spec, fuel).None?
    decreases |props|
  {
    if props != [] {
      var next := SynthesizeStep(props, acc, spec, fuel);
      SynthesizeEmpty(props[1..], next, spec, fuel);
      var c := Contribution(props[0].1, spec, fuel);
      if c.Some? {
        assert Lookup(next, props[0].0).Some?;
      }
      forall i | 0 < i < |props|
        ensures props[i] == props[1..][i - 1]
      {
      }
    }
  }

  /** An object synthesised from `properties` has only keys named there,
      has every property of string, number, integer or boolean type, and is
      never empty: with no contributing property the result is `null`. */
  lemma SynthesizedObject(schema: Value, spec: Value, fuel: nat)
    requires fuel > 0 && Synthesizes(schema, spec)
    ensures var props := PropertiesOf(schema);
            match GetSchemaExample(schema, spec, fuel)
            case Thrown => true
            case Done(v) =>
              (v.Null? || (v.Obj? && v.fields != [] && Keys(v.fields) <= Keys(props)))
              && (forall i :: 0 <= i < |props| && HasScalarType(props[i].1) ==>
                    v.Obj? && props[i].0 in Keys(v.fields))
              && (v.Null? <==> forall i :: 0 <= i < |props| ==> Contribution(props[i].1, spec, fuel - 1).None?)
  {
    var props := PropertiesOf(schema);
    var s := Synthesize(props, [], spec, fuel - 1);
    if s.Done? {
      SynthesizeKeys(props, [], spec, fuel - 1);
      SynthesizeEmpty(props, [], spec, fuel - 1);
      assert Keys([]) == {};
      forall i | 0 <= i < |props| && HasScalarType(props[i].1)
        ensures |s.value| > 0
      {
        assert props[i].0 in Keys(s.value);
      }
    }
  }

  /** With distinct property names, each property of a synthesised example
      holds exactly that property's contribution, and no other name is
      present; a `null` result is the case where nothing contributes. */
  lemma SynthesizedFields(schema: Value, spec: Value, fuel: nat)
    requires fuel > 0 && Synthesizes(schema, spec) && DistinctKeys(PropertiesOf(schema))
    ensures var props := PropertiesOf(schema);
            match GetSchemaExample(schema, spec, fuel)
            case Thrown => true
            case Done(v) =>
              (forall i :: 0 <= i < |props| ==> Member(v, props[i].0) == Contribution(props[i].1, spec, fuel - 1))
              && (forall k :: k !in Keys(props) ==> Member(v, k).None?)
  {
    var props := PropertiesOf(schema);
    var s := Synthesize(props, [], spec, fuel - 1);
    if s.Done? {
      SynthesizeValues(props, [], spec, fuel - 1);
    }
  }

  /** A falsy schema (`null`, `false`, `0`, `""`) has the example `null`. */
  lemma FalsySchemaNull(schema: Value, spec: Value, fuel: nat)
    requires fuel > 0 && !Truthy(Some(schema))
    ensures GetSchemaExample(schema, spec, fuel) == Done(Null)
  {
  }

  /** A dangling `$ref` (a `#/` pointer some step of which reads a falsy
      value) resolves to `null`, and the node falls through to its own
      `examples`, `example` and properties. */
  lemma DanglingRef(schema: Value, spec: Value, fuel: nat, segs: seq<string>)
    requires fuel > 0 && Truthy(Some(schema)) && !spec.Null?
    requires segs != [] && forall i :: 0 <= i < |segs| ==> '/' !in segs[i]
    requires Member(schema, "$ref") == Some(Str("#/" + Join(segs, "/"))) && At(spec, segs).None?
    ensures RefTarget(schema, spec) == Done(Null)
    ensures OwnExample(schema).Some? ==> GetSchemaExample(schema, spec, fuel) == Done(OwnExample(schema).value)
    ensures OwnExample(schema).None? && IsObjectSchema(schema) ==>
              GetSchemaExample(schema, spec, fuel) == AsObject(Synthesize(PropertiesOf(schema), [], spec, fuel - 1))
    ensures OwnExample(schema).None? && !IsObjectSchema(schema) ==> GetSchemaExample(schema, spec, fuel) == Done(Null)
  {
    RefRoundTrip(spec, segs);
  }

  /** A node whose `$ref` resolves has the example of the node it resolves to. */
  lemma RefStep(schema: Value, spec: Value, fuel: nat)
    requires fuel > 0 && Truthy(Some(schema))
    requires RefTarget(schema, spec).Done? && Truthy(Some(RefTarget(schema, spec).value))
    ensures GetSchemaExample(schema, spec, fuel) == GetSchemaExample(RefTarget(schema, spec).value, spec, fuel - 1)
  {
  }

  /** A resolving `$ref` takes precedence over everything else on the node:
      two nodes with the same resolving reference give the same example. */
  lemma RefPrecedence(s1: Value, s2: Value, spec: Value, fuel: nat)
    requires Truthy(Some(s1)) && Truthy(Some(s2))
    requires Member(s1, "$ref") == Member(s2, "$ref")
    requires Resolve(Member(s1, "$ref"), spec).Done? && !Resolve(Member(s1, "$ref"), spec).value.Null?
    ensures GetSchemaExample(s1, spec, fuel) == GetSchemaExample(s2, spec, fuel)
  {
  }

  /** The first entry of a non-empty `examples` array wins over `example`
      and over synthesis, and a present `example` is returned as it is, even
      when it is `null`, `false` or `0`. */
  lemma ExplicitExamples(schema: Value, spec: Value, fuel: nat)
    requires fuel > 0 && Truthy(Some(schema)) && RefTarget(schema, spec) == Done(Null)
    ensures var examples := Member(schema, "examples");
            Truthy(examples) && examples.value.Arr? && |examples.value.items| > 0 ==>
              GetSchemaExample(schema, spec, fuel) == Done(examples.value.items[0])
    ensures var examples := Member(schema, "examples");
            !(Truthy(examples) && examples.value.Arr? && |examples.value.items| > 0)
            && Member(schema, "example").Some? ==>
              GetSchemaExample(schema, spec, fuel) == Done(Member(schema, "example").value)
  {
  }

  /** A property whose own example is `null` contributes its placeholder. */
  lemma PlaceholderStep(props: seq<(string, Value)>, acc: seq<(string, Value)>, spec: Value, fuel: nat, v: Value)
    requires props != [] && !props[0].1.Null?
    requires GetSchemaExample(props[0].1, spec, fuel) == Done(Null)
    requires Placeholder(props[0].1) == Some(v)
    ensures Synthesize(props, acc, spec, fuel) == Synthesize(props[1..], Put(acc, props[0].0, v), spec, fuel)
  {
  }

  /** An object schema with no reference and no example of its own gets the
      object its properties synthesize, when that is non-empty. */
  lemma ObjectStep(schema: Value, spec: Value, fuel: nat, fields: seq<(string, Value)>)
    requires fuel > 0 && Synthesizes(schema, spec)
    requires Synthesize(PropertiesOf(schema), [], spec, fuel - 1) == Done(fields) && |fields| > 0
    ensures GetSchemaExample(schema, spec, fuel) == Done(Obj(fields))
  {
  }

  /** An object schema with a single property that has a scalar type and no
      example of its own yields an object holding that property's
      placeholder: the nil UUID for a `uuid` string, zero for a number. */
  lemma PlaceholderExample(schema: Value, spec: Value, fuel: nat, name: string, prop: Value)
    requires fuel >= 2 && Truthy(Some(schema)) && RefTarget(schema, spec) == Done(Null)
    requires OwnExample(schema).None? && IsObjectSchema(schema) && PropertiesOf(schema) == [(name, prop)]
    requires prop.Obj? && RefTarget(prop, spec) == Done(Null) && OwnExample(prop).None?
    requires HasScalarType(prop)
    ensures Placeholder(prop).Some?
    ensures GetSchemaExample(schema, spec, fuel) == Done(Obj([(name, Placeholder(prop).value)]))
    ensures Member(prop, "type") == Some(Str("string")) && Member(prop, "format") == Some(Str("uuid")) ==>
              GetSchemaExample(schema, spec, fuel) == Done(Obj([(name, Str(NilUuid))]))
    ensures Member(prop, "type") == Some(Str("integer")) ==>
              GetSchemaExample(schema, spec, fuel) == Done(Obj([(name, Num(0.0))]))
  {
    var props := [(name, prop)];
    var v := Placeholder(prop).value;
    assert GetSchemaExample(prop, spec, fuel - 1) == Done(Null);
    PlaceholderStep(props, [], spec, fuel - 1, v);
    assert props[1..] == [];
    assert Put([], name, v) == [(name, v)];
    ObjectStep(schema, spec, fuel, [(name, v)]);
  }

  /** An object schema with two distinctly named scalar-typed properties
      that state no example yields the two placeholders, in property
      order. */
  lemma TwoPlaceholders(schema: Value, spec: Value, fuel: nat, id: string, count: string,
                        idSchema: Value, countSchema: Value)
    requires fuel > 0 && Synthesizes(schema, spec) && id != count
    requires PropertiesOf(schema) == [(id, idSchema), (count, countSchema)]
    requires Bare(idSchema, spec) && Bare(countSchema, spec)
    requires HasScalarType(idSchema) && HasScalarType(countSchema)
    ensures Placeholder(idSchema).Some? && Placeholder(countSchema).Some?
    ensures GetSchemaExample(schema, spec, fuel + 1)
            == Done(Obj([(id, Placeholder(idSchema).value), (count, Placeholder(countSchema).value)]))
  {
    NoOwnExample(idSchema, spec, fuel);
    NoOwnExample(countSchema, spec, fuel);
    ScalarPlaceholder(idSchema);
    ScalarPlaceholder(countSchema);
    var u, z := Placeholder(idSchema).value, Placeholder(countSchema).value;
    TwoSteps(id, idSchema, count, countSchema, spec, fuel, u, z);
    assert Synthesize(PropertiesOf(schema), [], spec, fuel) == Done([(id, u), (count, z)]);
  }

  /** The object schema `{id: uuid string, count: integer}` whose properties
      state no example yields `{id: "00000000-…", count: 0}`. */
  lemma IdCountExample(schema: Value, spec: Value, fuel: nat, id: string, count: string,
                       idSchema: Value, countSchema: Value)
    requires fuel > 0 && Synthesizes(schema, spec) && id != count
    requires PropertiesOf(schema) == [(id, idSchema), (count, countSchema)]
    requires Bare(idSchema, spec) && Member(idSchema, "type") == Some(Str("string"))
    requires Member(idSchema, "format") == Some(Str("uuid"))
    requires Bare(countSchema, spec) && Member(countSchema, "type") == Some(Str("integer"))
    ensures GetSchemaExample(schema, spec, fuel + 1) == Done(Obj([(id, Str(NilUuid)), (count, Num(0.0))]))
  {
    UuidPlaceholder(idSchema);
    IntegerPlaceholder(countSchema);
    TwoPlaceholders(schema, spec, fuel, id, count, idSchema, countSchema);
  }

  /** A scalar-typed schema with no reference and no example of its own
      has the example `null`, so it contributes its placeholder. */
  lemma NoOwnExample(propSchema: Value, spec: Value, fuel: nat)
    requires fuel > 0 && Bare(propSchema, spec) && HasScalarType(propSchema)
    ensures GetSchemaExample(propSchema, spec, fuel) == Done(Null)
  {
  }

  /** Two properties with distinct names, each with a `null` example and a
      placeholder, give the two placeholders in property order. */
  lemma TwoSteps(a: string, pa: Value, b: string, pb: Value, spec: Value, fuel: nat, u: Value, z: Value)
    requires a != b && !pa.Null? && !pb.Null?
    requires GetSchemaExample(pa, spec, fuel) == Done(Null) && GetSchemaExample(pb, spec, fuel) == Done(Null)
    requires Placeholder(pa) == Some(u) && Placeholder(pb) == Some(z)
    ensures Synthesize([(a, pa), (b, pb)], [], spec, fuel) == Done([(a, u), (b, z)])
  {
    var props := [(a, pa), (b, pb)];
    PlaceholderStep(props, [], spec, fuel, u);
    assert props[1..] == [(b, pb)];
    PlaceholderStep(props[1..], [(a, u)], spec, fuel, z);
    assert props[1..][1..] == [];
    assert Put([], a, u) == [(a, u)];
    assert Put([(a, u)], b, z) == [(a, u), (b, z)];
  }

  /** Every scalar type has a placeholder. */
  lemma ScalarPlaceholder(propSchema: Value)
    requires HasScalarType(propSchema)
    ensures Placeholder(propSchema).Some?
  {
  }

  /** The placeholder of an integer is zero. */
  lemma IntegerPlaceholder(propSchema: Value)
    requires Member(propSchema, "type") == Some(Str("integer"))
    ensures Placeholder(propSchema) == Some(Num(0.0)) && HasScalarType(propSchema)
  {
  }

  /** The placeholder of a `uuid` string is the nil UUID. */
  lemma UuidPlaceholder(propSchema: Value)
    requires Member(propSchema, "type") == Some(Str("string")) && Member(propSchema, "format") == Some(Str("uuid"))
    ensures Placeholder(propSchema) == Some(Str(NilUuid)) && HasScalarType(propSchema)
  {
  }
}
