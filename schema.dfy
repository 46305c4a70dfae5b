/** `Schema` and `BoundSchema` (src/schematix/core/schema.py): running data
    through a schema's registry, deriving new schema classes from it, and
    rebinding its fields to another source layout. */
module Schemas {
  import opened Wrappers
  import opened Values
  import opened Errors
  import opened LeafField
  import opened Composites
  import opened SchemaMeta
  import opened BaseSchemas
  import OrderedMaps

  // ------------------------------------------------------------- transform

  /** The loop shared by `Schema.transform`, `BoundSchema.transform` and
      `BoundSchema._bindfields`, over the outcome of each named step:
      `acc[name] = outcome` while the outcomes succeed, stopping with the
      name and error of the first that fails. */
  function Run<T>(steps: seq<(string, Result<T, Error>)>, acc: seq<(string, T)>): Result<seq<(string, T)>, (string, Error)>
    decreases |steps|
  {
    if steps == [] then Success(acc)
    else if steps[0].1.Failure? then Failure((steps[0].0, steps[0].1.error))
    else Run(steps[1..], OrderedMaps.Set(acc, steps[0].0, steps[0].1.value))
  }

  /** The loop runs to the end exactly when every step succeeds. */
  lemma {:induction false} RunSucceedsIff<T>(steps: seq<(string, Result<T, Error>)>, acc: seq<(string, T)>)
    ensures Run(steps, acc).Success? <==> forall i :: 0 <= i < |steps| ==> steps[i].1.Success?
    decreases |steps|
  {
    if steps != [] && steps[0].1.Success? {
      RunSucceedsIff(steps[1..], OrderedMaps.Set(acc, steps[0].0, steps[0].1.value));
      assert forall i :: 1 <= i < |steps| ==> steps[1..][i - 1] == steps[i];
    }
  }

  /** A loop that stops reports the first failing step. */
  lemma {:induction false} RunFailsAtFirst<T>(steps: seq<(string, Result<T, Error>)>, acc: seq<(string, T)>)
    ensures Run(steps, acc).Failure? ==>
              exists i :: 0 <= i < |steps| && steps[i].1.Failure? &&
                (forall j :: 0 <= j < i ==> steps[j].1.Success?) &&
                Run(steps, acc).error == (steps[i].0, steps[i].1.error)
    decreases |steps|
  {
    if steps != [] && steps[0].1.Success? && Run(steps, acc).Failure? {
      var rest := steps[1..];
      var acc' := OrderedMaps.Set(acc, steps[0].0, steps[0].1.value);
      RunFailsAtFirst(rest, acc');
      var i :| 0 <= i < |rest| && rest[i].1.Failure? &&
        (forall j :: 0 <= j < i ==> rest[j].1.Success?) && Run(rest, acc').error == (rest[i].0, rest[i].1.error);
      assert rest[i] == steps[i + 1];
      forall j | 0 <= j < i + 1 ensures steps[j].1.Success? {
        if j > 0 { assert rest[j - 1] == steps[j]; }
      }
    }
  }

  /** With distinct names the loop appends one entry per step, in order,
      holding that step's value. */
  lemma {:induction false} RunEntries<T>(steps: seq<(string, Result<T, Error>)>, acc: seq<(string, T)>)
    requires OrderedMaps.DistinctKeys(steps)
    requires forall i :: 0 <= i < |steps| ==> steps[i].0 !in OrderedMaps.Keys(acc)
    ensures Run(steps, acc).Success? ==>
              var r := Run(steps, acc).value;
              |r| == |acc| + |steps| && r[..|acc|] == acc &&
              forall i :: 0 <= i < |steps| ==> r[|acc| + i].0 == steps[i].0 && Success(r[|acc| + i].1) == steps[i].1
    decreases |steps|
  {
    if steps != [] && steps[0].1.Success? {
      var rest := steps[1..];
      var acc' := OrderedMaps.Set(acc, steps[0].0, steps[0].1.value);
      OrderedMaps.SetAbsent(acc, steps[0].0, steps[0].1.value);
      FreshNames(steps, acc);
      OrderedMaps.TailDistinct(steps);
      RunEntries(rest, acc');
      if Run(steps, acc).Success? {
        EntriesStep(steps, acc, acc', Run(steps, acc).value);
      }
    }
  }

  lemma FreshNames<T>(steps: seq<(string, Result<T, Error>)>, acc: seq<(string, T)>)
    requires steps != [] && steps[0].1.Success? && OrderedMaps.DistinctKeys(steps)
    requires forall i :: 0 <= i < |steps| ==> steps[i].0 !in OrderedMaps.Keys(acc)
    ensures forall i :: 0 <= i < |steps[1..]| ==> steps[1..][i].0 !in OrderedMaps.Keys(acc + [(steps[0].0, steps[0].1.value)])
  {
    var acc' := acc + [(steps[0].0, steps[0].1.value)];
    assert OrderedMaps.Keys(acc') == OrderedMaps.Keys(acc) + [steps[0].0];
    forall i | 0 <= i < |steps[1..]| ensures steps[1..][i].0 !in OrderedMaps.Keys(acc') {
      assert steps[1..][i] == steps[i + 1];
    }
  }

  /** The step of `RunEntries`: the first step's entry sits right after `acc`. */
  lemma EntriesStep<T>(steps: seq<(string, Result<T, Error>)>, acc: seq<(string, T)>, acc': seq<(string, T)>, r: seq<(string, T)>)
    requires steps != [] && steps[0].1.Success? && acc' == acc + [(steps[0].0, steps[0].1.value)]
    requires |r| == |acc'| + |steps[1..]| && r[..|acc'|] == acc'
    requires forall i :: 0 <= i < |steps[1..]| ==> r[|acc'| + i].0 == steps[1..][i].0 && Success(r[|acc'| + i].1) == steps[1..][i].1
    ensures |r| == |acc| + |steps| && r[..|acc|] == acc
    ensures forall i :: 0 <= i < |steps| ==> r[|acc| + i].0 == steps[i].0 && Success(r[|acc| + i].1) == steps[i].1
  {
    assert r[..|acc|] == r[..|acc'|][..|acc|];
    assert r[|acc|] == acc'[|acc|];
    forall i | 0 <= i < |steps| ensures r[|acc| + i].0 == steps[i].0 && Success(r[|acc| + i].1) == steps[i].1 {
      if i > 0 {
        assert steps[1..][i - 1] == steps[i];
      }
    }
  }

  /** What the loop promises on a dictionary of steps started empty: every
      name in order with its value, or the first failing step. */
  lemma RunResult<T>(steps: seq<(string, Result<T, Error>)>)
    requires OrderedMaps.DistinctKeys(steps)
    ensures Run(steps, []).Success? <==> forall i :: 0 <= i < |steps| ==> steps[i].1.Success?
    ensures Run(steps, []).Success? ==>
              OrderedMaps.Keys(Run(steps, []).value) == OrderedMaps.Keys(steps) &&
              forall i :: 0 <= i < |steps| ==> Success(Run(steps, []).value[i].1) == steps[i].1
    ensures Run(steps, []).Failure? ==>
              exists i :: 0 <= i < |steps| && steps[i].1.Failure? &&
                (forall j :: 0 <= j < i ==> steps[j].1.Success?) &&
                Run(steps, []).error == (steps[i].0, steps[i].1.error)
  {
    RunSucceedsIff(steps, []);
    RunFailsAtFirst(steps, []);
    RunEntries(steps, []);
    if Run(steps, []).Success? {
      SameNames(steps, [], Run(steps, []).value);
    }
  }

  lemma SameNames<T>(steps: seq<(string, Result<T, Error>)>, acc: seq<(string, T)>, r: seq<(string, T)>)
    requires acc == [] && |r| == |acc| + |steps|
    requires forall i :: 0 <= i < |steps| ==> r[|acc| + i].0 == steps[i].0 && Success(r[|acc| + i].1) == steps[i].1
    ensures OrderedMaps.Keys(r) == OrderedMaps.Keys(steps)
    ensures forall i :: 0 <= i < |steps| ==> Success(r[i].1) == steps[i].1
  {
    forall i | 0 <= i < |steps| ensures r[i].0 == steps[i].0 && Success(r[i].1) == steps[i].1 {
      assert |acc| + i == i;
    }
    var ks, ks' := OrderedMaps.Keys(r), OrderedMaps.Keys(steps);
    assert |ks| == |ks'| && forall i :: 0 <= i < |ks| ==> ks[i] == ks'[i];
  }

  /** Each field's name with the outcome of `field.extract(data)`. */
  function Extractions(fields: Registry, data: Value): (o: seq<(string, Result<Value, Error>)>)
    ensures |o| == |fields| && forall i :: 0 <= i < |fields| ==> o[i] == (fields[i].0, Extract(fields[i].1, data, None))
  {
    seq(|fields|, i requires 0 <= i < |fields| => (fields[i].0, Extract(fields[i].1, data, None)))
  }

  /** The loop of `Schema.transform` and `BoundSchema.transform` as written;
      `result` is the dictionary of field names filled so far. */
  method TransformFields(fields: Registry, data: Value) returns (r: Result<seq<(string, Value)>, (string, Error)>)
    ensures r == Run(Extractions(fields, data), [])
  {
    ghost var steps := Extractions(fields, data);
    var result := [];
    var i := 0;
    assert steps[0..] == steps;
    while i < |fields|
      invariant 0 <= i <= |fields|
      invariant Run(steps, []) == Run(steps[i..], result)
    {
      assert steps[i..][1..] == steps[i + 1..];
      var (name, field) := fields[i];
      var x := Extract(field, data, None);
      assert steps[i..][0] == (name, x);
      if x.Failure? {
        return Failure((name, x.error));
      }
      result := OrderedMaps.Set(result, name, x.value);
      i := i + 1;
    }
    return Success(result);
  }

  /** A dictionary with string keys as a Python value. */
  function AsDict(es: seq<(string, Value)>): (v: Value)
    ensures v.VDict? && |v.entries| == |es| && forall i :: 0 <= i < |es| ==> v.entries[i] == (VStr(es[i].0), es[i].1)
  {
    VDict(seq(|es|, i requires 0 <= i < |es| => (VStr(es[i].0), es[i].1)))
  }

  /** `Schema.transform(data)` without a target type. */
  function Transform(cls: SchemaClass, data: Value): Result<Value, Error> {
    match Run(Extractions(cls.fields, data), [])
    case Success(es) => Success(AsDict(es))
    case Failure((name, e)) => Failure(SchemaFieldFailed(name, e))
  }

  /** `Schema.transform` as written. */
  method TransformSchema(cls: SchemaClass, data: Value) returns (r: Result<Value, Error>)
    ensures r == Transform(cls, data)
  {
    var result := TransformFields(cls.fields, data);
    if result.Failure? {
      return Failure(SchemaFieldFailed(result.error.0, result.error.1));
    }
    return Success(AsDict(result.value));
  }

  lemma ExtractionsDistinct(cls: SchemaClass, data: Value)
    requires WellFormed(cls)
    ensures OrderedMaps.DistinctKeys(Extractions(cls.fields, data))
  {
    var steps := Extractions(cls.fields, data);
    forall i, j | 0 <= i < j < |steps| ensures steps[i].0 != steps[j].0 {
      assert steps[i].0 == cls.fields[i].0 && steps[j].0 == cls.fields[j].0;
    }
  }

  /** `Schema.transform` succeeds exactly when every field extracts. */
  lemma TransformSucceedsIff(cls: SchemaClass, data: Value)
    ensures Transform(cls, data).Success? <==> forall i :: 0 <= i < |cls.fields| ==> Extract(cls.fields[i].1, data, None).Success?
  {
    var steps := Extractions(cls.fields, data);
    RunSucceedsIff(steps, []);
    assert forall i :: 0 <= i < |cls.fields| ==> steps[i].1 == Extract(cls.fields[i].1, data, None);
  }

  /** On success `Schema.transform` gives a dictionary with exactly the
      registry's names, in registry order, each holding its field's
      extraction. */
  lemma TransformEntries(cls: SchemaClass, data: Value)
    requires WellFormed(cls)
    ensures Transform(cls, data).Success? ==>
              |Transform(cls, data).value.entries| == |cls.fieldnames| &&
              forall i :: 0 <= i < |cls.fieldnames| ==>
                Transform(cls, data).value.entries[i].0 == VStr(cls.fieldnames[i]) &&
                Success(Transform(cls, data).value.entries[i].1) == Extract(cls.fields[i].1, data, None)
  {
    var steps := Extractions(cls.fields, data);
    ExtractionsDistinct(cls, data);
    RunResult(steps);
    var r := Run(steps, []);
    if r.Success? {
      DictEntries(r.value, steps);
    }
  }

  /** The dictionary the loop builds holds each step's name and value. */
  lemma DictEntries(es: seq<(string, Value)>, steps: seq<(string, Result<Value, Error>)>)
    requires OrderedMaps.Keys(es) == OrderedMaps.Keys(steps)
    requires forall i :: 0 <= i < |steps| ==> Success(es[i].1) == steps[i].1
    ensures |AsDict(es).entries| == |steps|
    ensures forall i :: 0 <= i < |steps| ==> AsDict(es).entries[i].0 == VStr(steps[i].0) && Success(AsDict(es).entries[i].1) == steps[i].1
  {
    forall i | 0 <= i < |steps| ensures es[i].0 == steps[i].0 {
      assert OrderedMaps.Keys(es)[i] == OrderedMaps.Keys(steps)[i];
    }
  }

  /** `Schema.transform` is fail-fast: it reports the first field that
      raises, wrapped with its name, and no partial result. */
  lemma TransformFailsAtFirst(cls: SchemaClass, data: Value)
    ensures Transform(cls, data).Failure? ==>
              exists i :: 0 <= i < |cls.fields| && Extract(cls.fields[i].1, data, None).Failure? &&
                (forall j :: 0 <= j < i ==> Extract(cls.fields[j].1, data, None).Success?) &&
                Transform(cls, data).error == SchemaFieldFailed(cls.fields[i].0, Extract(cls.fields[i].1, data, None).error)
  {
    var steps := Extractions(cls.fields, data);
    RunFailsAtFirst(steps, []);
    if Transform(cls, data).Failure? {
      var i :| 0 <= i < |steps| && steps[i].1.Failure? &&
        (forall j :: 0 <= j < i ==> steps[j].1.Success?) && Run(steps, []).error == (steps[i].0, steps[i].1.error);
      assert forall j :: 0 <= j < i ==> steps[j].1 == Extract(cls.fields[j].1, data, None);
    }
  }

  // -------------------------------------------------------- transformplural

  /** `transformplural`'s loop from item `i` on, over the outcome of
      transforming each item, with `results` collected so far. */
  function Each(outs: seq<Result<Value, Error>>, i: nat, results: seq<Value>): Result<seq<Value>, Error>
    requires i <= |outs|
    decreases |outs| - i
  {
    if i == |outs| then Success(results)
    else if outs[i].Failure? then Failure(ItemFailed(i, outs[i].error))
    else Each(outs, i + 1, results + [outs[i].value])
  }

  /** The outcome of `transform` on each item. */
  function Outcomes(cls: SchemaClass, items: seq<Value>): (outs: seq<Result<Value, Error>>)
    ensures |outs| == |items| && forall k :: 0 <= k < |items| ==> outs[k] == Transform(cls, items[k])
  {
    seq(|items|, k requires 0 <= k < |items| => Transform(cls, items[k]))
  }

  /** `transformplural(datalist)` without a target type. */
  function TransformPlural(cls: SchemaClass, items: seq<Value>): Result<seq<Value>, Error> {
    Each(Outcomes(cls, items), 0, [])
  }

  /** `transformplural` as written. */
  method TransformEach(cls: SchemaClass, items: seq<Value>) returns (r: Result<seq<Value>, Error>)
    ensures r == TransformPlural(cls, items)
  {
    ghost var outs := Outcomes(cls, items);
    var results := [];
    var i := 0;
    while i < |items|
      invariant 0 <= i <= |items|
      invariant TransformPlural(cls, items) == Each(outs, i, results)
    {
      var result := TransformSchema(cls, items[i]);
      assert outs[i] == result;
      if result.Failure? {
        return Failure(ItemFailed(i, result.error));
      }
      results := results + [result.value];
      i := i + 1;
    }
    return Success(results);
  }

  /** The items from `i` on: one result per item, in order, or the index
      and error of the first item that fails. */
  lemma {:induction false} EachFacts(outs: seq<Result<Value, Error>>, i: nat, results: seq<Value>)
    requires i <= |outs|
    ensures Each(outs, i, results).Success? <==> forall k :: i <= k < |outs| ==> outs[k].Success?
    ensures Each(outs, i, results).Success? ==>
              var vs := Each(outs, i, results).value;
              |vs| == |results| + |outs| - i && vs[..|results|] == results &&
              forall k :: i <= k < |outs| ==> Success(vs[|results| + k - i]) == outs[k]
    ensures Each(outs, i, results).Failure? ==>
              exists k :: i <= k < |outs| && outs[k].Failure? &&
                (forall k' :: i <= k' < k ==> outs[k'].Success?) &&
                Each(outs, i, results).error == ItemFailed(k, outs[k].error)
    decreases |outs| - i
  {
    if i < |outs| && outs[i].Success? {
      var results' := results + [outs[i].value];
      EachFacts(outs, i + 1, results');
      if Each(outs, i, results).Success? {
        var vs := Each(outs, i, results).value;
        assert vs[..|results'|] == results';
        assert vs[..|results|] == results'[..|results|];
        assert vs[|results|] == results'[|results|];
      }
    }
  }

  /** What `transformplural` promises: one transformed item per input item,
      in order, or the index of the first item that fails with its error. */
  lemma TransformPluralResult(cls: SchemaClass, items: seq<Value>)
    ensures TransformPlural(cls, items).Success? <==> forall k :: 0 <= k < |items| ==> Transform(cls, items[k]).Success?
    ensures TransformPlural(cls, items).Success? ==>
              |TransformPlural(cls, items).value| == |items| &&
              forall k :: 0 <= k < |items| ==> Success(TransformPlural(cls, items).value[k]) == Transform(cls, items[k])
    ensures TransformPlural(cls, items).Failure? ==>
              exists k :: 0 <= k < |items| && Transform(cls, items[k]).Failure? &&
                (forall k' :: 0 <= k' < k ==> Transform(cls, items[k']).Success?) &&
                TransformPlural(cls, items).error == ItemFailed(k, Transform(cls, items[k]).error)
  {
    var outs := Outcomes(cls, items);
    EachFromStart(outs);
    assert TransformPlural(cls, items) == Each(outs, 0, []);
  }

  /** `EachFacts` for the whole loop, started with no results. */
  lemma EachFromStart(outs: seq<Result<Value, Error>>)
    ensures Each(outs, 0, []).Success? <==> forall k :: 0 <= k < |outs| ==> outs[k].Success?
    ensures Each(outs, 0, []).Success? ==>
              |Each(outs, 0, []).value| == |outs| &&
              forall k :: 0 <= k < |outs| ==> Success(Each(outs, 0, []).value[k]) == outs[k]
    ensures Each(outs, 0, []).Failure? ==>
              exists k :: 0 <= k < |outs| && outs[k].Failure? &&
                (forall k' :: 0 <= k' < k ==> outs[k'].Success?) &&
                Each(outs, 0, []).error == ItemFailed(k, outs[k].error)
  {
    EachFacts(outs, 0, []);
  }

  // --------------------------------------------------------- derived classes

  /** A registry handed to `type(...)` as a class namespace. */
  function AsNamespace(reg: Registry): (ns: seq<(string, Attr)>)
    ensures |ns| == |reg| && forall i :: 0 <= i < |reg| ==> ns[i] == (reg[i].0, FieldAttr(reg[i].1))
  {
    seq(|reg|, i requires 0 <= i < |reg| => (reg[i].0, FieldAttr(reg[i].1)))
  }

  /** The registry with each unnamed field named after its key. */
  function Renamed(reg: Registry): (r: Registry)
    ensures |r| == |reg| && forall i :: 0 <= i < |reg| ==> r[i] == (reg[i].0, NameDefaulted(reg[i].0, reg[i].1))
  {
    seq(|reg|, i requires 0 <= i < |reg| => (reg[i].0, NameDefaulted(reg[i].0, reg[i].1)))
  }

  /** Discovery on such a namespace finds the registry again, with unnamed
      fields named. */
  lemma {:induction false} DiscoveredNamespace(reg: Registry)
    ensures Discovered(AsNamespace(reg)) == Renamed(reg)
    decreases |reg|
  {
    if reg != [] {
      var init := reg[..|reg| - 1];
      assert AsNamespace(reg)[..|reg| - 1] == AsNamespace(init);
      DiscoveredNamespace(init);
      assert Renamed(reg) == Renamed(init) + [Renamed(reg)[|reg| - 1]];
    }
  }

  lemma RenamedKeys(reg: Registry)
    ensures OrderedMaps.Keys(Renamed(reg)) == OrderedMaps.Keys(reg)
    ensures OrderedMaps.DistinctKeys(reg) ==> OrderedMaps.DistinctKeys(Renamed(reg))
  {
  }

  /** Reading a renamed registry. */
  lemma RenamedGet(reg: Registry, k: string)
    requires OrderedMaps.DistinctKeys(reg)
    ensures OrderedMaps.Get(Renamed(reg), k) ==
              if OrderedMaps.Get(reg, k).Some? then Some(NameDefaulted(k, OrderedMaps.Get(reg, k).value)) else None
  {
    RenamedKeys(reg);
    if k in OrderedMaps.Keys(reg) {
      var i := OrderedMaps.IndexOf(reg, k).value;
      OrderedMaps.GetAt(reg, i);
      OrderedMaps.GetAt(Renamed(reg), i);
    }
  }

  /** Named fields are left as they are. */
  lemma RenamedWellNamed(reg: Registry)
    requires WellNamed(reg)
    ensures Renamed(reg) == reg
  {
  }

  /** A field read from a well-named registry is named after the key it was read under. */
  lemma GetNamed(m: Registry, k: string)
    requires WellNamed(m)
    ensures OrderedMaps.Get(m, k).Some? ==> Name(OrderedMaps.Get(m, k).value) == Some(k)
  {
  }

  /** Updating a well-named registry with a well-named one keeps it well named. */
  lemma UpdateWellNamed(m: Registry, n: Registry)
    requires OrderedMaps.DistinctKeys(m) && OrderedMaps.DistinctKeys(n)
    requires WellNamed(m) && WellNamed(n)
    ensures WellNamed(OrderedMaps.Update(m, n))
  {
    var u := OrderedMaps.Update(m, n);
    forall i | 0 <= i < |u| ensures Name(u[i].1) == Some(u[i].0) {
      OrderedMaps.GetAt(u, i);
      OrderedMaps.UpdateGet(m, n, u[i].0);
      GetNamed(m, u[i].0);
      GetNamed(n, u[i].0);
    }
  }

  /** `type(name, (base,), reg)`: the new class inherits `base`'s registry and
      declares the fields of `reg`. */
  lemma DerivedFields(name: string, base: Registry, reg: Registry)
    requires OrderedMaps.DistinctKeys(base)
    ensures AllFields([SchemaBase(base)], AsNamespace(reg)) == OrderedMaps.Update(base, Renamed(reg))
  {
    var bases := [SchemaBase(base)];
    assert bases[..0] == [];
    assert Inherited(bases) == OrderedMaps.Update([], base);
    OrderedMaps.UpdateFresh([], base);
    assert [] + base == base;
    DiscoveredNamespace(reg);
  }

  /** The class `Schema` itself declares no fields. */
  const SchemaRoot: Base := SchemaBase([])

  /** Deriving from `Schema` a class whose namespace is a well-named
      dictionary of fields gives exactly that registry. */
  lemma Recreate(name: string, reg: Registry)
    requires OrderedMaps.DistinctKeys(reg) && WellNamed(reg)
    ensures Create(name, [SchemaRoot], AsNamespace(reg)) == Success(SchemaClass(name, reg, OrderedMaps.Keys(reg)))
  {
    DerivedFields(name, [], reg);
    RenamedWellNamed(reg);
    OrderedMaps.UpdateFresh([], reg);
    assert [] + reg == reg;
    FieldsErrorIff(name, reg);
  }

  /** `subset(*fieldnames)`. */
  function Subset(cls: SchemaClass, names: seq<string>): Result<SchemaClass, Error> {
    var subsets := OrderedMaps.FilterKeys(cls.fields, k => k in names);
    if subsets == [] then Failure(EmptySubset(names))
    else Create("Subset" + cls.name, [SchemaRoot], AsNamespace(subsets))
  }

  /** What `subset` promises: the fields whose names were asked for, in
      registry order; an error when none of the names is a field. */
  lemma SubsetResult(cls: SchemaClass, names: seq<string>)
    requires WellFormed(cls)
    ensures Subset(cls, names).Success? <==> exists k :: k in names && k in cls.fieldnames
    ensures Subset(cls, names).Failure? ==> Subset(cls, names).error == EmptySubset(names)
    ensures Subset(cls, names).Success? ==>
              var sub := Subset(cls, names).value;
              sub.name == "Subset" + cls.name && WellFormed(sub) &&
              (forall e :: e in sub.fields <==> e in cls.fields && e.0 in names) &&
              OrderedMaps.Subsequence(sub.fields, cls.fields)
  {
    var subsets := OrderedMaps.FilterKeys(cls.fields, k => k in names);
    SubsetFields(cls.fields, names);
    if subsets != [] {
      Recreate("Subset" + cls.name, subsets);
    }
  }

  /** The entries of a well-formed registry whose names are among `names`. */
  lemma SubsetFields(fields: Registry, names: seq<string>)
    requires OrderedMaps.DistinctKeys(fields) && WellNamed(fields)
    ensures var sub := OrderedMaps.FilterKeys(fields, k => k in names);
      && (sub != [] <==> exists k :: k in names && k in OrderedMaps.Keys(fields))
      && OrderedMaps.DistinctKeys(sub) && WellNamed(sub)
      && OrderedMaps.Subsequence(sub, fields)
  {
    var subsets := OrderedMaps.FilterKeys(fields, k => k in names);
    OrderedMaps.FilterKeysDistinct(fields, k => k in names);
    OrderedMaps.FilterKeysOrder(fields, k => k in names);
    if exists k :: k in names && k in OrderedMaps.Keys(fields) {
      var k :| k in names && k in OrderedMaps.Keys(fields);
      var i :| 0 <= i < |fields| && OrderedMaps.Keys(fields)[i] == k;
      assert fields[i] in subsets;
    }
    if subsets != [] {
      assert subsets[0] in subsets;
      OrderedMaps.KeyOfEntry(fields, subsets[0]);
    }
    forall i | 0 <= i < |subsets| ensures Name(subsets[i].1) == Some(subsets[i].0) {
      assert subsets[i] in subsets;
      var p :| 0 <= p < |fields| && fields[p] == subsets[i];
    }
  }

  /** `Merge(*schemas)` called on `cls`: the fields of the schemas merged in
      order (the loop `MergeRegistries` runs), declared on a subclass of `cls`. */
  function Merge(cls: SchemaClass, schemas: seq<Base>): Result<SchemaClass, Error> {
    Create("Merged" + cls.name, [SchemaBase(cls.fields)], AsNamespace(Inherited(schemas)))
  }

  /** `Merge` as written. */
  method MergeSchemas(cls: SchemaClass, schemas: seq<Base>) returns (r: Result<SchemaClass, Error>)
    ensures r == Merge(cls, schemas)
  {
    var merged := MergeRegistries(schemas);
    var rest;
    r, rest := NewSchema("Merged" + cls.name, [SchemaBase(cls.fields)], AsNamespace(merged));
  }

  /** Every schema among the bases has a well-formed registry. */
  predicate SchemasWellNamed(schemas: seq<Base>) {
    BasesDistinct(schemas) &&
    forall i :: 0 <= i < |schemas| && schemas[i].SchemaBase? ==> WellNamed(schemas[i].fields)
  }

  /** What `Merge` promises: the merge of well-formed schemas is accepted; a
      name some schema holds takes its field from the last schema holding
      it, the other names keep `cls`'s fields; `cls`'s names keep their
      positions and new names follow in merge order. */
  lemma MergeResult(cls: SchemaClass, schemas: seq<Base>, k: string)
    requires WellFormed(cls) && SchemasWellNamed(schemas)
    ensures Merge(cls, schemas).Success?
    ensures Merge(cls, schemas).value.fields == OrderedMaps.Update(cls.fields, Inherited(schemas))
    ensures OrderedMaps.Get(Merge(cls, schemas).value.fields, k) ==
              if HeldByAny(schemas, k) then OrderedMaps.Get(Inherited(schemas), k) else OrderedMaps.Get(cls.fields, k)
    ensures forall j :: 0 <= j < |schemas| && HeldBy(schemas[j], k) && (forall i :: j < i < |schemas| ==> !HeldBy(schemas[i], k)) ==>
              OrderedMaps.Get(Merge(cls, schemas).value.fields, k) == OrderedMaps.Get(schemas[j].fields, k)
    ensures OrderedMaps.Keys(Merge(cls, schemas).value.fields) ==
              cls.fieldnames + OrderedMaps.FreshKeys(OrderedMaps.Keys(Inherited(schemas)), cls.fieldnames)
  {
    var merged := Inherited(schemas);
    InheritedDistinct(schemas);
    assert WellNamed(merged) by {
      forall i | 0 <= i < |merged| ensures Name(merged[i].1) == Some(merged[i].0) {
        OrderedMaps.GetAt(merged, i);
        InheritedNamed(schemas, merged[i].0);
      }
    }
    RenamedWellNamed(merged);
    DerivedFields("Merged" + cls.name, cls.fields, merged);
    UpdateWellNamed(cls.fields, merged);
    FieldsErrorIff("Merged" + cls.name, OrderedMaps.Update(cls.fields, merged));
    OrderedMaps.UpdateGet(cls.fields, merged, k);
    InheritedHolds(schemas, k);
    OrderedMaps.UpdateKeys(cls.fields, merged);
    forall j | 0 <= j < |schemas| && HeldBy(schemas[j], k) && (forall i :: j < i < |schemas| ==> !HeldBy(schemas[i], k))
      ensures OrderedMaps.Get(OrderedMaps.Update(cls.fields, merged), k) == OrderedMaps.Get(schemas[j].fields, k)
    {
      LaterBaseWins(schemas, j, k);
    }
  }

  /** `Copy(**overrides)` called on `cls`. */
  function Copy(cls: SchemaClass, overrides: Registry): Result<SchemaClass, Error> {
    Create("Copy" + cls.name, [SchemaRoot], AsNamespace(OrderedMaps.Update(cls.fields, overrides)))
  }

  /** An override is accepted when it has no name or is named after its keyword. */
  predicate Acceptable(overrides: Registry) {
    forall i :: 0 <= i < |overrides| ==> Name(overrides[i].1).None? || Name(overrides[i].1) == Some(overrides[i].0)
  }

  /** The registry `Copy` declares, and what the new class gets from it. */
  lemma CopyFields(cls: SchemaClass, overrides: Registry)
    requires WellFormed(cls) && OrderedMaps.DistinctKeys(overrides)
    ensures OrderedMaps.DistinctKeys(OrderedMaps.Update(cls.fields, overrides))
    ensures AllFields([SchemaRoot], AsNamespace(OrderedMaps.Update(cls.fields, overrides))) == Renamed(OrderedMaps.Update(cls.fields, overrides))
    ensures OrderedMaps.DistinctKeys(Renamed(OrderedMaps.Update(cls.fields, overrides)))
  {
    var updated := OrderedMaps.Update(cls.fields, overrides);
    var all := Renamed(updated);
    DerivedFields("Copy" + cls.name, [], updated);
    RenamedKeys(updated);
    OrderedMaps.UpdateFresh([], all);
    assert [] + all == all;
  }

  /** An override named other than its keyword is the field under that key
      after the update, and so breaks the naming rule. */
  lemma MisnamedOverride(cls: SchemaClass, overrides: Registry, j: nat)
    requires WellFormed(cls) && OrderedMaps.DistinctKeys(overrides)
    requires j < |overrides| && Name(overrides[j].1).Some? && Name(overrides[j].1) != Some(overrides[j].0)
    ensures !WellNamed(Renamed(OrderedMaps.Update(cls.fields, overrides)))
  {
    var updated := OrderedMaps.Update(cls.fields, overrides);
    var all := Renamed(updated);
    var key := overrides[j].0;
    OrderedMaps.GetAt(overrides, j);
    OrderedMaps.UpdateGet(cls.fields, overrides, key);
    assert key in OrderedMaps.Keys(overrides);
    var i := OrderedMaps.IndexOf(updated, key).value;
    assert updated[i] == (key, overrides[j].1);
    assert all[i] == (key, overrides[j].1);
  }

  /** Acceptable overrides on a well-formed class give a well-named registry. */
  lemma AcceptableOverrides(cls: SchemaClass, overrides: Registry)
    requires WellFormed(cls) && OrderedMaps.DistinctKeys(overrides) && Acceptable(overrides)
    ensures WellNamed(Renamed(OrderedMaps.Update(cls.fields, overrides)))
  {
    var updated := OrderedMaps.Update(cls.fields, overrides);
    var all := Renamed(updated);
    forall i | 0 <= i < |all| ensures Name(all[i].1) == Some(all[i].0) {
      var key := updated[i].0;
      OrderedMaps.GetAt(updated, i);
      OrderedMaps.UpdateGet(cls.fields, overrides, key);
      if key in OrderedMaps.Keys(overrides) {
        var j := OrderedMaps.IndexOf(overrides, key).value;
        OrderedMaps.GetAt(overrides, j);
      } else {
        GetNamed(cls.fields, key);
      }
    }
  }

  /** `Copy` is accepted exactly when every override is unnamed or named
      after its keyword. */
  lemma CopySucceedsIff(cls: SchemaClass, overrides: Registry)
    requires WellFormed(cls) && OrderedMaps.DistinctKeys(overrides)
    ensures Copy(cls, overrides).Success? <==> Acceptable(overrides)
  {
    var updated := OrderedMaps.Update(cls.fields, overrides);
    CopyFields(cls, overrides);
    FieldsErrorIff("Copy" + cls.name, Renamed(updated));
    if Acceptable(overrides) {
      AcceptableOverrides(cls, overrides);
    } else {
      var j :| 0 <= j < |overrides| && !(Name(overrides[j].1).None? || Name(overrides[j].1) == Some(overrides[j].0));
      MisnamedOverride(cls, overrides, j);
    }
  }

  /** What an accepted `Copy` holds: an override replaces the field of the
      same name in place, new names follow in keyword order, unnamed
      overrides are named after their keyword, and the other fields stay. */
  lemma CopyResult(cls: SchemaClass, overrides: Registry, k: string)
    requires WellFormed(cls) && OrderedMaps.DistinctKeys(overrides)
    requires Copy(cls, overrides).Success?
    ensures OrderedMaps.Get(Copy(cls, overrides).value.fields, k) ==
              if OrderedMaps.Get(overrides, k).Some? then Some(NameDefaulted(k, OrderedMaps.Get(overrides, k).value))
              else OrderedMaps.Get(cls.fields, k)
    ensures OrderedMaps.Keys(Copy(cls, overrides).value.fields) ==
              cls.fieldnames + OrderedMaps.FreshKeys(OrderedMaps.Keys(overrides), cls.fieldnames)
  {
    CopyValue(cls, overrides);
    RenamedUpdate(cls.fields, overrides, k);
  }

  /** Reading the renamed update of a well-named registry. */
  lemma RenamedUpdate(fields: Registry, overrides: Registry, k: string)
    requires WellNamed(fields) && OrderedMaps.DistinctKeys(overrides)
    requires OrderedMaps.DistinctKeys(OrderedMaps.Update(fields, overrides))
    ensures OrderedMaps.Get(Renamed(OrderedMaps.Update(fields, overrides)), k) ==
              if OrderedMaps.Get(overrides, k).Some? then Some(NameDefaulted(k, OrderedMaps.Get(overrides, k).value))
              else OrderedMaps.Get(fields, k)
    ensures OrderedMaps.Keys(Renamed(OrderedMaps.Update(fields, overrides))) ==
              OrderedMaps.Keys(fields) + OrderedMaps.FreshKeys(OrderedMaps.Keys(overrides), OrderedMaps.Keys(fields))
  {
    var updated := OrderedMaps.Update(fields, overrides);
    RenamedGet(updated, k);
    RenamedKeys(updated);
    OrderedMaps.UpdateGet(fields, overrides, k);
    OrderedMaps.UpdateKeys(fields, overrides);
    GetNamed(fields, k);
  }

  /** An accepted `Copy` holds the updated registry, renamed. */
  lemma CopyValue(cls: SchemaClass, overrides: Registry)
    requires WellFormed(cls) && OrderedMaps.DistinctKeys(overrides)
    requires Copy(cls, overrides).Success?
    ensures OrderedMaps.DistinctKeys(OrderedMaps.Update(cls.fields, overrides))
    ensures Copy(cls, overrides).value.fields == Renamed(OrderedMaps.Update(cls.fields, overrides))
  {
    CopyFields(cls, overrides);
  }

  // ----------------------------------------------------------- BoundSchema

  /** A value of the mapping given to `bind`: absent or None, a source path,
      a `(source, transform)` pair, a callable, or anything else (kept as its
      text). */
  datatype MappingEntry =
    | NoEntry
    | PathEntry(path: string)
    | PairEntry(pairSource: Option<string>, pairTransform: Option<Callable>)
    | CallableEntry(f: Callable)
    | OtherEntry(text: string)

  /** `self.mapping.get(name)`. */
  function EntryFor(mapping: seq<(string, MappingEntry)>, name: string): (e: MappingEntry)
    ensures name !in OrderedMaps.Keys(mapping) ==> e.NoEntry?
  {
    match OrderedMaps.Get(mapping, name)
    case None => NoEntry
    case Some(e) => e
  }

  /** A configuration rebuilt from `name`, `source`, `transform`, `required`,
      `default` and the extra options; the target is not passed on. */
  function Rebind(c: Config, source: Option<string>, transform: Option<Callable>): Config {
    c.(source := source, transform := transform, target := None)
  }

  /** The error Python raises when a class's constructor does not take `source`. */
  function NoSourceKeyword(cls: string): Error {
    Raised(TypeError, cls + ".__init__() got an unexpected keyword argument 'source'")
  }

  /** `field.__class__(name=..., source=..., transform=..., required=...,
      default=..., **field._kwargs)`: the options of `SourceField` and
      `TargetField` that live outside the configuration take their defaults,
      and the composite fields do not accept these keywords. */
  function Rebuilt(f: Field, source: Option<string>, transform: Option<Callable>): (r: Result<Field, Error>)
    ensures f.IsLeaf() ==> r.Success? && Rebound(r.value, f, source, transform)
    ensures !f.IsLeaf() ==> r.Failure? && Class(r.error) == TypeError
  {
    match f
    case Plain(c) => Success(Plain(Rebind(c, source, transform)))
    case Source(c, _, _) => Success(Source(Rebind(c, source, transform), [], None))
    case Target(c, _, _, _, _) => Success(Target(Rebind(c, source, transform), None, None, [], true))
    case Fallback(_, _, _) => Failure(NoSourceKeyword("FallbackField"))
    case Combined(_, _) => Failure(NoSourceKeyword("CombinedField"))
    case Nested(_, _, _) => Failure(NoSourceKeyword("NestedField"))
    case Accumulated(_, _, _) => Failure(NoSourceKeyword("AccumulatedField"))
  }

  /** `g` is leaf field `f` rebuilt with `source` and `transform`: the same
      kind of field with the same name, `required`, `default` and extra
      options, and no target. */
  ghost predicate Rebound(g: Field, f: Field, source: Option<string>, transform: Option<Callable>) {
    f.IsLeaf() && g.IsLeaf() && (g.Plain? <==> f.Plain?) && (g.Source? <==> f.Source?) &&
    g.config == f.config.(source := source, transform := transform, target := None)
  }

  /** A rebuilt field keeps what identifies it and reads from the new source. */
  lemma ReboundKeeps(g: Field, f: Field, source: Option<string>, transform: Option<Callable>)
    requires Rebound(g, f, source, transform)
    ensures Name(g) == Name(f) && Required(g) == Required(f) && Default(g) == Default(f)
    ensures SourceOf(g) == source && TargetOf(g).None?
  {
  }

  /** `_bindfield(field, name)`. */
  function BindField(f: Field, name: string, entry: MappingEntry): (r: Result<Field, Error>)
    ensures entry.NoEntry? ==> r == Success(f)
    ensures entry.OtherEntry? ==> r == Failure(InvalidMapping(name, entry.text))
    ensures !f.IsLeaf() && !entry.NoEntry? && !entry.OtherEntry? ==> r.Failure? && Class(r.error) == TypeError
    ensures f.IsLeaf() && entry.PathEntry? ==> r.Success? && Rebound(r.value, f, Some(entry.path), f.config.transform)
    ensures f.IsLeaf() && entry.PairEntry? ==> r.Success? && Rebound(r.value, f, entry.pairSource, entry.pairTransform)
    ensures f.IsLeaf() && entry.CallableEntry? ==> r.Success? && Rebound(r.value, f, f.config.source, Some(entry.f))
  {
    match entry
    case NoEntry => Success(f)
    case PathEntry(p) => Rebuilt(f, Some(p), if f.IsLeaf() then f.config.transform else None)
    case PairEntry(s, t) => Rebuilt(f, s, t)
    case CallableEntry(g) => Rebuilt(f, SourceOf(f), Some(g))
    case OtherEntry(text) => Failure(InvalidMapping(name, text))
  }

  /** Each field's name with the outcome of rebinding it. */
  function Bindings(fields: Registry, mapping: seq<(string, MappingEntry)>): (o: seq<(string, Result<Field, Error>)>)
    ensures |o| == |fields| &&
            forall i :: 0 <= i < |fields| ==> o[i] == (fields[i].0, BindField(fields[i].1, fields[i].0, EntryFor(mapping, fields[i].0)))
  {
    seq(|fields|, i requires 0 <= i < |fields| => (fields[i].0, BindField(fields[i].1, fields[i].0, EntryFor(mapping, fields[i].0))))
  }

  /** `_bindfields` as written. */
  method BindFields(fields: Registry, mapping: seq<(string, MappingEntry)>) returns (r: Result<Registry, (string, Error)>)
    ensures r == Run(Bindings(fields, mapping), [])
  {
    ghost var steps := Bindings(fields, mapping);
    var bindings := [];
    var i := 0;
    assert steps[0..] == steps;
    while i < |fields|
      invariant 0 <= i <= |fields|
      invariant Run(steps, []) == Run(steps[i..], bindings)
    {
      assert steps[i..][1..] == steps[i + 1..];
      var (name, field) := fields[i];
      var bound := BindField(field, name, EntryFor(mapping, name));
      assert steps[i..][0] == (name, bound);
      if bound.Failure? {
        return Failure((name, bound.error));
      }
      bindings := OrderedMaps.Set(bindings, name, bound.value);
      i := i + 1;
    }
    return Success(bindings);
  }

  /** A schema bound to a mapping, with the fields rebound once. */
  datatype BoundSchema = BoundSchema(schema: SchemaClass, mapping: seq<(string, MappingEntry)>, boundfields: Registry)

  /** `Schema.bind(mapping)`, which builds a `BoundSchema`. */
  function Bind(cls: SchemaClass, mapping: seq<(string, MappingEntry)>): Result<BoundSchema, Error> {
    match Run(Bindings(cls.fields, mapping), [])
    case Success(bound) => Success(BoundSchema(cls, mapping, bound))
    case Failure((_, e)) => Failure(e)
  }

  /** `BoundSchema.transform(data)`. */
  function BoundTransform(b: BoundSchema, data: Value): Result<Value, Error> {
    match Run(Extractions(b.boundfields, data), [])
    case Success(es) => Success(AsDict(es))
    case Failure((name, e)) => Failure(BoundFieldFailed(name, e))
  }

  /** `BoundSchema.transform` as written. */
  method TransformBound(b: BoundSchema, data: Value) returns (r: Result<Value, Error>)
    ensures r == BoundTransform(b, data)
  {
    var result := TransformFields(b.boundfields, data);
    if result.Failure? {
      return Failure(BoundFieldFailed(result.error.0, result.error.1));
    }
    return Success(AsDict(result.value));
  }

  lemma BindingsDistinct(cls: SchemaClass, mapping: seq<(string, MappingEntry)>)
    requires WellFormed(cls)
    ensures OrderedMaps.DistinctKeys(Bindings(cls.fields, mapping))
  {
    var steps := Bindings(cls.fields, mapping);
    forall i, j | 0 <= i < j < |steps| ensures steps[i].0 != steps[j].0 {
      assert steps[i].0 == cls.fields[i].0 && steps[j].0 == cls.fields[j].0;
    }
  }

  /** What binding promises: the bound fields are the registry's names in
      order, each rebound according to its mapping entry; binding fails
      exactly when some entry cannot be applied, with the first such error. */
  lemma BindResult(cls: SchemaClass, mapping: seq<(string, MappingEntry)>)
    requires WellFormed(cls)
    ensures Bind(cls, mapping).Success? <==>
              forall i :: 0 <= i < |cls.fields| ==> BindField(cls.fields[i].1, cls.fields[i].0, EntryFor(mapping, cls.fields[i].0)).Success?
    ensures Bind(cls, mapping).Success? ==>
              var bound := Bind(cls, mapping).value.boundfields;
              OrderedMaps.Keys(bound) == cls.fieldnames &&
              forall i :: 0 <= i < |cls.fields| ==> Success(bound[i].1) == BindField(cls.fields[i].1, cls.fields[i].0, EntryFor(mapping, cls.fields[i].0))
    ensures Bind(cls, mapping).Failure? ==>
              exists i :: 0 <= i < |cls.fields| && BindField(cls.fields[i].1, cls.fields[i].0, EntryFor(mapping, cls.fields[i].0)).Failure? &&
                Bind(cls, mapping).error == BindField(cls.fields[i].1, cls.fields[i].0, EntryFor(mapping, cls.fields[i].0)).error
  {
    var steps := Bindings(cls.fields, mapping);
    BindingsDistinct(cls, mapping);
    RunResult(steps);
    if Bind(cls, mapping).Success? {
      var bound := Bind(cls, mapping).value.boundfields;
      assert OrderedMaps.Keys(steps) == cls.fieldnames;
    } else {
      var i :| 0 <= i < |steps| && steps[i].1.Failure? &&
        (forall j :: 0 <= j < i ==> steps[j].1.Success?) && Run(steps, []).error == (steps[i].0, steps[i].1.error);
    }
  }

  /** The bound schema transforms into the registry's names, in order. */
  lemma BoundTransformKeys(cls: SchemaClass, mapping: seq<(string, MappingEntry)>, data: Value)
    requires WellFormed(cls) && Bind(cls, mapping).Success?
    ensures BoundTransform(Bind(cls, mapping).value, data).Success? ==>
              var entries := BoundTransform(Bind(cls, mapping).value, data).value.entries;
              |entries| == |cls.fieldnames| && forall i :: 0 <= i < |entries| ==> entries[i].0 == VStr(cls.fieldnames[i])
  {
    BindResult(cls, mapping);
    var bound := Bind(cls, mapping).value.boundfields;
    ExtractionsNamed(bound, cls.fields, data);
    var r := Run(Extractions(bound, data), []);
    RunResult(Extractions(bound, data));
    if r.Success? {
      DictKeys(r.value, cls.fieldnames);
    }
  }

  lemma DictKeys(es: seq<(string, Value)>, names: seq<string>)
    requires OrderedMaps.Keys(es) == names
    ensures |AsDict(es).entries| == |names| && forall i :: 0 <= i < |names| ==> AsDict(es).entries[i].0 == VStr(names[i])
  {
  }

  /** The steps of a transform over a registry named like a well-formed one. */
  lemma ExtractionsNamed(reg: Registry, fields: Registry, data: Value)
    requires OrderedMaps.DistinctKeys(fields) && OrderedMaps.Keys(reg) == OrderedMaps.Keys(fields)
    ensures OrderedMaps.DistinctKeys(Extractions(reg, data))
    ensures OrderedMaps.Keys(Extractions(reg, data)) == OrderedMaps.Keys(fields)
  {
    var steps := Extractions(reg, data);
    var ks, ks' := OrderedMaps.Keys(steps), OrderedMaps.Keys(fields);
    assert |ks| == |ks'| && forall i :: 0 <= i < |ks| ==> ks[i] == ks'[i];
    forall i, j | 0 <= i < j < |steps| ensures steps[i].0 != steps[j].0 {
      assert ks[i] == fields[i].0 && ks[j] == fields[j].0;
    }
  }

  /** With no mapping entry for any field, the bound schema keeps the very
      same fields and transforms as the schema does: the same result, or an
      error for the same field with the same cause. */
  lemma UnmappedBindingTransformsAlike(cls: SchemaClass, mapping: seq<(string, MappingEntry)>, data: Value)
    requires WellFormed(cls)
    requires forall k :: k in cls.fieldnames ==> EntryFor(mapping, k).NoEntry?
    ensures Bind(cls, mapping).Success? && Bind(cls, mapping).value.boundfields == cls.fields
    ensures BoundTransform(Bind(cls, mapping).value, data).Success? <==> Transform(cls, data).Success?
    ensures Transform(cls, data).Success? ==> BoundTransform(Bind(cls, mapping).value, data) == Transform(cls, data)
    ensures Transform(cls, data).Failure? ==>
              exists k, e :: Transform(cls, data).error == SchemaFieldFailed(k, e) &&
                             BoundTransform(Bind(cls, mapping).value, data).error == BoundFieldFailed(k, e)
  {
    UnmappedBinding(cls, mapping);
    var r := Run(Extractions(cls.fields, data), []);
    assert Run(Extractions(Bind(cls, mapping).value.boundfields, data), []) == r;
    if r.Failure? {
      assert Transform(cls, data).error == SchemaFieldFailed(r.error.0, r.error.1);
      assert BoundTransform(Bind(cls, mapping).value, data).error == BoundFieldFailed(r.error.0, r.error.1);
    }
  }

  /** With no mapping entry for any field, binding keeps the fields as they are. */
  lemma UnmappedBinding(cls: SchemaClass, mapping: seq<(string, MappingEntry)>)
    requires WellFormed(cls)
    requires forall k :: k in cls.fieldnames ==> EntryFor(mapping, k).NoEntry?
    ensures Bind(cls, mapping).Success? && Bind(cls, mapping).value.boundfields == cls.fields
  {
    forall i | 0 <= i < |cls.fields| ensures EntryFor(mapping, cls.fields[i].0).NoEntry? {
      assert cls.fields[i].0 == cls.fieldnames[i];
    }
    BindResult(cls, mapping);
    var bound := Bind(cls, mapping).value.boundfields;
    assert bound == cls.fields by {
      assert |bound| == |cls.fields|;
      forall i | 0 <= i < |bound| ensures bound[i] == cls.fields[i] {
        assert bound[i].0 == cls.fieldnames[i];
        assert BindField(cls.fields[i].1, cls.fields[i].0, EntryFor(mapping, cls.fields[i].0)) == Success(cls.fields[i].1);
      }
    }
  }
}
