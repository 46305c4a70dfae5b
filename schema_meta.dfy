/** `SchemaMeta` (src/schematix/core/metas/schema.py): a schema class's
    field registry is built from the registries of its bases and the fields
    declared in its own namespace, then checked. */
module SchemaMeta {
  import opened Wrappers
  import opened Errors
  import opened Composites
  import OrderedMaps

  /** A field registry, `_fields`: attribute names in order, each with its field. */
  type Registry = seq<(string, Field)>

  // ------------------------------------------------------------ _isfield

  /** What `_isfield` asks of an object: `name`, `required` and `default`
      attributes, and callable `extract` and `assign`. */
  datatype Caps = Caps(hasName: bool, hasRequired: bool, hasDefault: bool, callableExtract: bool, callableAssign: bool)
  {
    predicate All() {
      hasName && hasRequired && hasDefault && callableExtract && callableAssign
    }
  }

  /** An object that is not a field lacks at least one of them. */
  type OtherCaps = c: Caps | !c.All() witness Caps(false, false, false, false, false)

  /** A class attribute: a field, or any other object (kept as its text). */
  datatype Attr = FieldAttr(field: Field) | OtherAttr(caps: OtherCaps, text: string)

  /** A field has every attribute `BaseField` defines. */
  function CapsOf(a: Attr): Caps {
    match a
    case FieldAttr(_) => Caps(true, true, true, true, true)
    case OtherAttr(c, _) => c
  }

  /** `_isfield`: the five attributes are present, which holds exactly for fields. */
  function IsField(a: Attr): (b: bool)
    ensures b <==> a.FieldAttr?
  {
    CapsOf(a).All()
  }

  // ----------------------------------------------------------- inheritance

  /** A base class: a schema class with its registry, or a class without `_fields`. */
  datatype Base = SchemaBase(fields: Registry) | PlainBase

  /** The registries of schema bases are dictionaries. */
  predicate BasesDistinct(bases: seq<Base>) {
    forall i :: 0 <= i < |bases| && bases[i].SchemaBase? ==> OrderedMaps.DistinctKeys(bases[i].fields)
  }

  /** Base `b` has a field under `k`. */
  predicate HeldBy(b: Base, k: string) {
    b.SchemaBase? && k in OrderedMaps.Keys(b.fields)
  }

  /** `inherited.update(base._fields)` for each base in order. */
  function Inherited(bases: seq<Base>): (m: Registry)
    decreases |bases|
  {
    if bases == [] then []
    else
      var m := Inherited(bases[..|bases| - 1]);
      match bases[|bases| - 1]
      case SchemaBase(fs) => OrderedMaps.Update(m, fs)
      case PlainBase => m
  }

  lemma {:induction false} InheritedDistinct(bases: seq<Base>)
    ensures OrderedMaps.DistinctKeys(Inherited(bases))
    decreases |bases|
  {
    if bases != [] {
      InheritedDistinct(bases[..|bases| - 1]);
    }
  }

  lemma BasesPrefix(bases: seq<Base>)
    requires bases != [] && BasesDistinct(bases)
    ensures BasesDistinct(bases[..|bases| - 1])
  {
    var init := bases[..|bases| - 1];
    assert forall i :: 0 <= i < |init| ==> init[i] == bases[i];
  }

  /** Some base in `bases` holds `k`. */
  predicate HeldByAny(bases: seq<Base>, k: string) {
    exists j :: 0 <= j < |bases| && HeldBy(bases[j], k)
  }

  lemma HeldSplit(bases: seq<Base>, k: string)
    requires bases != []
    ensures HeldByAny(bases, k) <==> HeldByAny(bases[..|bases| - 1], k) || HeldBy(bases[|bases| - 1], k)
  {
    var init := bases[..|bases| - 1];
    if HeldByAny(init, k) {
      var j :| 0 <= j < |init| && HeldBy(init[j], k);
      assert bases[j] == init[j];
    }
    if HeldByAny(bases, k) {
      var j :| 0 <= j < |bases| && HeldBy(bases[j], k);
      if j < |init| {
        assert init[j] == bases[j];
      }
    }
  }

  /** The inherited registry holds exactly the names some base holds. */
  lemma {:induction false} InheritedHolds(bases: seq<Base>, k: string)
    requires BasesDistinct(bases)
    ensures OrderedMaps.Get(Inherited(bases), k).Some? <==> HeldByAny(bases, k)
    decreases |bases|
  {
    if bases != [] {
      var init := bases[..|bases| - 1];
      var last := bases[|bases| - 1];
      BasesPrefix(bases);
      InheritedHolds(init, k);
      HeldSplit(bases, k);
      if last.SchemaBase? {
        OrderedMaps.UpdateGet(Inherited(init), last.fields, k);
      }
    }
  }

  /** Later bases win: a name takes its field from the last base holding it. */
  lemma {:induction false} LaterBaseWins(bases: seq<Base>, j: nat, k: string)
    requires BasesDistinct(bases)
    requires j < |bases| && HeldBy(bases[j], k)
    requires forall i :: j < i < |bases| ==> !HeldBy(bases[i], k)
    ensures OrderedMaps.Get(Inherited(bases), k) == OrderedMaps.Get(bases[j].fields, k)
    decreases |bases|
  {
    var init := bases[..|bases| - 1];
    var last := bases[|bases| - 1];
    if j == |init| {
      OrderedMaps.UpdateGet(Inherited(init), last.fields, k);
    } else {
      assert !HeldBy(last, k);
      BasesPrefix(bases);
      assert init[j] == bases[j];
      assert forall i :: j < i < |init| ==> init[i] == bases[i];
      LaterBaseWins(init, j, k);
      SkipLast(bases, k);
    }
  }

  /** A last base without `k` leaves what is inherited under `k` as it was. */
  lemma SkipLast(bases: seq<Base>, k: string)
    requires bases != [] && !HeldBy(bases[|bases| - 1], k)
    requires bases[|bases| - 1].SchemaBase? ==> OrderedMaps.DistinctKeys(bases[|bases| - 1].fields)
    ensures OrderedMaps.Get(Inherited(bases), k) == OrderedMaps.Get(Inherited(bases[..|bases| - 1]), k)
  {
    var last := bases[|bases| - 1];
    if last.SchemaBase? {
      OrderedMaps.UpdateGet(Inherited(bases[..|bases| - 1]), last.fields, k);
    }
  }

  /** The loop over the bases, also the loop of `Schema.Merge`. */
  method MergeRegistries(bases: seq<Base>) returns (merged: Registry)
    ensures merged == Inherited(bases)
  {
    merged := [];
    var i := 0;
    while i < |bases|
      invariant 0 <= i <= |bases|
      invariant merged == Inherited(bases[..i])
    {
      assert bases[..i + 1][..i] == bases[..i];
      if bases[i].SchemaBase? {
        merged := OrderedMaps.Update(merged, bases[i].fields);
      }
      i := i + 1;
    }
    assert bases[..|bases|] == bases;
  }

  // ------------------------------------------------------------- discovery

  /** A discovered field: one without a name is given its attribute name. */
  function NameDefaulted(attrname: string, f: Field): (g: Field)
    ensures Name(g) == if Name(f).None? then Some(attrname) else Name(f)
    ensures Name(f).Some? ==> g == f
  {
    if Name(f).None? then WithName(f, Some(attrname)) else f
  }

  /** The fields declared in a namespace, in declaration order. */
  function Discovered(ns: seq<(string, Attr)>): (current: Registry)
    decreases |ns|
  {
    if ns == [] then []
    else
      var last := ns[|ns| - 1];
      Discovered(ns[..|ns| - 1]) + (if IsField(last.1) then [(last.0, NameDefaulted(last.0, last.1.field))] else [])
  }

  /** The namespace left after the fields are deleted from it. */
  function NonFields(ns: seq<(string, Attr)>): (rest: seq<(string, Attr)>)
    decreases |ns|
  {
    if ns == [] then []
    else
      var last := ns[|ns| - 1];
      NonFields(ns[..|ns| - 1]) + (if IsField(last.1) then [] else [last])
  }

  /** The entry a field attribute becomes in the registry. */
  function Entry(e: (string, Attr)): (string, Field)
    requires e.1.FieldAttr?
  {
    (e.0, NameDefaulted(e.0, e.1.field))
  }

  /** Discovery moves exactly the fields out of the namespace, naming the
      unnamed ones after their attribute; everything else stays. */
  lemma {:induction false} DiscoveredEntries(ns: seq<(string, Attr)>)
    ensures forall e :: e in Discovered(ns) <==> exists i :: 0 <= i < |ns| && ns[i].1.FieldAttr? && e == Entry(ns[i])
    ensures forall e :: e in NonFields(ns) <==> e in ns && !e.1.FieldAttr?
    ensures |Discovered(ns)| + |NonFields(ns)| == |ns|
    decreases |ns|
  {
    if ns != [] {
      var init := ns[..|ns| - 1];
      var last := ns[|ns| - 1];
      DiscoveredEntries(init);
      assert ns == init + [last];
      forall e ensures e in Discovered(ns) <==> exists i :: 0 <= i < |ns| && ns[i].1.FieldAttr? && e == Entry(ns[i]) {
        if exists i :: 0 <= i < |ns| && ns[i].1.FieldAttr? && e == Entry(ns[i]) {
          var i :| 0 <= i < |ns| && ns[i].1.FieldAttr? && e == Entry(ns[i]);
          if i < |init| {
            assert init[i] == ns[i];
          }
        }
        if e in Discovered(init) {
          var i :| 0 <= i < |init| && init[i].1.FieldAttr? && e == Entry(init[i]);
          assert ns[i] == init[i];
        }
      }
    }
  }

  /** The registry's names are the namespace's field attributes, each once. */
  lemma {:induction false} DiscoveredKeys(ns: seq<(string, Attr)>)
    requires OrderedMaps.DistinctKeys(ns)
    ensures OrderedMaps.DistinctKeys(Discovered(ns))
    ensures forall e :: e in Discovered(ns) ==> exists i :: 0 <= i < |ns| && ns[i].0 == e.0
    decreases |ns|
  {
    if ns != [] {
      var init := ns[..|ns| - 1];
      var last := ns[|ns| - 1];
      assert OrderedMaps.DistinctKeys(init);
      DiscoveredKeys(init);
      forall e | e in Discovered(init) ensures e.0 != last.0 {
        var i :| 0 <= i < |init| && init[i].0 == e.0;
        assert ns[i].0 == e.0;
      }
      forall e | e in Discovered(ns) ensures exists i :: 0 <= i < |ns| && ns[i].0 == e.0 {
        if e in Discovered(init) {
          var i :| 0 <= i < |init| && init[i].0 == e.0;
          assert ns[i] == init[i];
        } else {
          assert ns[|ns| - 1].0 == e.0;
        }
      }
      var d := Discovered(ns);
      forall i, j | 0 <= i < j < |d| ensures d[i].0 != d[j].0 {
        if j >= |Discovered(init)| {
          assert d[i] in Discovered(init);
        }
      }
    }
  }

  /** The loop over the namespace: each field is stored under its attribute
      name, named if it had no name, and deleted from the namespace. */
  method Discover(ns: seq<(string, Attr)>) returns (current: Registry, rest: seq<(string, Attr)>)
    ensures current == Discovered(ns) && rest == NonFields(ns)
  {
    current, rest := [], [];
    var i := 0;
    while i < |ns|
      invariant 0 <= i <= |ns|
      invariant current == Discovered(ns[..i]) && rest == NonFields(ns[..i])
    {
      assert ns[..i + 1][..i] == ns[..i];
      var (attrname, attrval) := ns[i];
      if IsField(attrval) {
        var f := attrval.field;
        if Name(f).None? {
          f := WithName(f, Some(attrname));
        }
        current := current + [(attrname, f)];
      } else {
        rest := rest + [ns[i]];
      }
      i := i + 1;
    }
    assert ns[..|ns|] == ns;
  }

  // ------------------------------------------------------------ validation

  /** `[field.name for field in fields.values()]`. */
  function Names(fields: Registry): (names: seq<Option<string>>)
    ensures |names| == |fields|
    ensures forall i :: 0 <= i < |fields| ==> names[i] == Name(fields[i].1)
  {
    seq(|fields|, i requires 0 <= i < |fields| => Name(fields[i].1))
  }

  /** `names.count(x)`. */
  function Count(x: Option<string>, s: seq<Option<string>>): (n: nat)
    ensures n == 0 <==> x !in s
  {
    if s == [] then 0 else (if s[0] == x then 1 else 0) + Count(x, s[1..])
  }

  /** `[name for name in names if all.count(name) > 1]`. */
  function Duplicates(names: seq<Option<string>>, all: seq<Option<string>>): (ds: seq<Option<string>>)
    ensures forall x :: x in ds <==> x in names && Count(x, all) > 1
  {
    if names == [] then []
    else (if Count(names[0], all) > 1 then [names[0]] else []) + Duplicates(names[1..], all)
  }

  /** Two equal entries make a count of at least two. */
  lemma {:induction false} CountTwo(s: seq<Option<string>>, i: nat, j: nat)
    requires i < j < |s| && s[i] == s[j]
    ensures Count(s[i], s) >= 2
  {
    if i > 0 {
      CountTwo(s[1..], i - 1, j - 1);
    } else {
      assert s[1..][j - 1] == s[j];
    }
  }

  /** Without repetitions every count is at most one. */
  lemma {:induction false} CountOne(x: Option<string>, s: seq<Option<string>>)
    requires OrderedMaps.Distinct(s)
    ensures Count(x, s) <= 1
  {
    if s != [] {
      assert OrderedMaps.Distinct(s[1..]) by {
        forall i, j | 0 <= i < j < |s[1..]| ensures s[1..][i] != s[1..][j] {
          assert s[1..][i] == s[i + 1] && s[1..][j] == s[j + 1];
        }
      }
      CountOne(x, s[1..]);
      if s[0] == x {
        forall k | 0 <= k < |s[1..]| ensures s[1..][k] != x {
          assert s[1..][k] == s[k + 1];
        }
        assert x !in s[1..];
      }
    }
  }

  /** The duplicate list is empty exactly when no name repeats. */
  lemma DuplicatesIffRepeated(names: seq<Option<string>>)
    ensures Duplicates(names, names) == [] <==> OrderedMaps.Distinct(names)
  {
    if OrderedMaps.Distinct(names) {
      forall x | x in names ensures Count(x, names) <= 1 {
        CountOne(x, names);
      }
      if Duplicates(names, names) != [] {
        assert Duplicates(names, names)[0] in Duplicates(names, names);
      }
    } else {
      var i, j :| 0 <= i < j < |names| && names[i] == names[j];
      CountTwo(names, i, j);
      assert names[i] in Duplicates(names, names);
    }
  }

  /** The error for a field whose name is not its attribute name. */
  function MismatchError(schema: string, key: string, name: Option<string>): Error {
    InvalidField(schema, key, NameMismatch(schema, key, name))
  }

  /** Every field of the registry is named after its key. */
  predicate WellNamed(fields: Registry) {
    forall i :: 0 <= i < |fields| ==> Name(fields[i].1) == Some(fields[i].0)
  }

  /** The first field, in registry order, whose name differs from its key. */
  function Mismatch(schema: string, fields: Registry): (r: Option<Error>)
    ensures r.None? <==> forall i :: 0 <= i < |fields| ==> Name(fields[i].1) == Some(fields[i].0)
    ensures r.Some? ==> exists i :: 0 <= i < |fields| && Name(fields[i].1) != Some(fields[i].0) &&
                          (forall j :: 0 <= j < i ==> Name(fields[j].1) == Some(fields[j].0)) &&
                          r.value == MismatchError(schema, fields[i].0, Name(fields[i].1))
    decreases |fields|
  {
    if fields == [] then None
    else if Name(fields[0].1) != Some(fields[0].0) then Some(MismatchError(schema, fields[0].0, Name(fields[0].1)))
    else
      var r := Mismatch(schema, fields[1..]);
      assert forall i :: 1 <= i < |fields| ==> fields[1..][i - 1] == fields[i];
      r
  }

  /** `_validatefields`: repeated names first, then the first name mismatch. */
  function FieldsError(schema: string, fields: Registry): (r: Option<Error>)
  {
    var names := Names(fields);
    if !OrderedMaps.Distinct(names) then Some(DuplicateFieldNames(schema, Duplicates(names, names)))
    else Mismatch(schema, fields)
  }

  /** A registry passes exactly when every field is named after its key; a
      repeated name is reported with the repeated names. */
  lemma FieldsErrorIff(schema: string, fields: Registry)
    requires OrderedMaps.DistinctKeys(fields)
    ensures FieldsError(schema, fields).None? <==> forall i :: 0 <= i < |fields| ==> Name(fields[i].1) == Some(fields[i].0)
    ensures FieldsError(schema, fields).Some? && FieldsError(schema, fields).value.DuplicateFieldNames? ==>
              FieldsError(schema, fields).value.duplicates != []
  {
    var names := Names(fields);
    if forall i :: 0 <= i < |fields| ==> Name(fields[i].1) == Some(fields[i].0) {
      forall i, j | 0 <= i < j < |names| ensures names[i] != names[j] {
        assert fields[i].0 != fields[j].0;
      }
    }
    DuplicatesIffRepeated(names);
  }

  /** `_validatefields` as written: the duplicate check, then the loop over the fields. */
  method ValidateFields(schema: string, fields: Registry) returns (r: Option<Error>)
    ensures r == FieldsError(schema, fields)
  {
    var names := Names(fields);
    if !OrderedMaps.Distinct(names) {
      return Some(DuplicateFieldNames(schema, Duplicates(names, names)));
    }
    var i := 0;
    assert fields[0..] == fields;
    while i < |fields|
      invariant 0 <= i <= |fields|
      invariant Mismatch(schema, fields) == Mismatch(schema, fields[i..])
    {
      assert fields[i..][1..] == fields[i + 1..];
      var (name, field) := fields[i];
      if Name(field) != Some(name) {
        return Some(MismatchError(schema, name, Name(field)));
      }
      i := i + 1;
    }
    return None;
  }

  // ---------------------------------------------------------- class creation

  /** A schema class: its name, `_fields` and `_fieldnames`. */
  datatype SchemaClass = SchemaClass(name: string, fields: Registry, fieldnames: seq<string>)

  /** `{**inherited, **current}`. */
  function AllFields(bases: seq<Base>, ns: seq<(string, Attr)>): Registry {
    OrderedMaps.Update(Inherited(bases), Discovered(ns))
  }

  /** `SchemaMeta.__new__`: the class, or the error `_validatefields` raises. */
  function Create(name: string, bases: seq<Base>, ns: seq<(string, Attr)>): (r: Result<SchemaClass, Error>)
  {
    var all := AllFields(bases, ns);
    match FieldsError(name, all)
    case Some(e) => Failure(e)
    case None => Success(SchemaClass(name, all, OrderedMaps.Keys(all)))
  }

  /** `SchemaMeta.__new__` as written; `rest` is the namespace the class keeps. */
  method NewSchema(name: string, bases: seq<Base>, ns: seq<(string, Attr)>) returns (r: Result<SchemaClass, Error>, rest: seq<(string, Attr)>)
    ensures r == Create(name, bases, ns) && rest == NonFields(ns)
  {
    var inherited := MergeRegistries(bases);
    var current;
    current, rest := Discover(ns);
    var all := OrderedMaps.Update(inherited, current);
    var e := ValidateFields(name, all);
    if e.Some? {
      return Failure(e.value), rest;
    }
    return Success(SchemaClass(name, all, OrderedMaps.Keys(all))), rest;
  }

  /** Key order of the registry: the inherited names keep their positions,
      also when the class overrides them, and the new names follow in
      declaration order; `_fieldnames` lists the same names. */
  lemma CreateOrder(name: string, bases: seq<Base>, ns: seq<(string, Attr)>)
    requires OrderedMaps.DistinctKeys(ns)
    requires Create(name, bases, ns).Success?
    ensures OrderedMaps.Keys(Create(name, bases, ns).value.fields) ==
              OrderedMaps.Keys(Inherited(bases)) + OrderedMaps.FreshKeys(OrderedMaps.Keys(Discovered(ns)), OrderedMaps.Keys(Inherited(bases)))
    ensures Create(name, bases, ns).value.fieldnames == OrderedMaps.Keys(Create(name, bases, ns).value.fields)
  {
    DiscoveredKeys(ns);
    OrderedMaps.UpdateKeys(Inherited(bases), Discovered(ns));
  }

  /** Declared fields override inherited ones; other names keep what the
      bases give them. */
  lemma CreateOverrides(name: string, bases: seq<Base>, ns: seq<(string, Attr)>, k: string)
    requires OrderedMaps.DistinctKeys(ns)
    requires Create(name, bases, ns).Success?
    ensures OrderedMaps.Get(Create(name, bases, ns).value.fields, k) ==
              if k in OrderedMaps.Keys(Discovered(ns)) then OrderedMaps.Get(Discovered(ns), k) else OrderedMaps.Get(Inherited(bases), k)
  {
    DiscoveredKeys(ns);
    OrderedMaps.UpdateGet(Inherited(bases), Discovered(ns), k);
  }

  /** Creation succeeds exactly when every field of the merged registry is
      named after its key. */
  lemma CreateSucceedsIff(name: string, bases: seq<Base>, ns: seq<(string, Attr)>)
    ensures Create(name, bases, ns).Success? <==>
              forall i :: 0 <= i < |AllFields(bases, ns)| ==> Name(AllFields(bases, ns)[i].1) == Some(AllFields(bases, ns)[i].0)
    ensures Create(name, bases, ns).Success? ==> OrderedMaps.DistinctKeys(Create(name, bases, ns).value.fields)
  {
    InheritedDistinct(bases);
    FieldsErrorIff(name, AllFields(bases, ns));
  }

  /** Two unnamed fields cannot clash: the one attribute that declares a field
      without a name names it after itself, and the class is accepted when the
      inherited fields are well named. */
  lemma UnnamedFieldsAccepted(name: string, bases: seq<Base>, ns: seq<(string, Attr)>)
    requires OrderedMaps.DistinctKeys(ns) && BasesDistinct(bases)
    requires forall i :: 0 <= i < |ns| && ns[i].1.FieldAttr? ==> Name(ns[i].1.field).None?
    requires forall i :: 0 <= i < |bases| && bases[i].SchemaBase? ==>
               forall j :: 0 <= j < |bases[i].fields| ==> Name(bases[i].fields[j].1) == Some(bases[i].fields[j].0)
    ensures Create(name, bases, ns).Success?
  {
    var all := AllFields(bases, ns);
    DiscoveredKeys(ns);
    DiscoveredEntries(ns);
    InheritedDistinct(bases);
    forall i | 0 <= i < |all| ensures Name(all[i].1) == Some(all[i].0) {
      var k := all[i].0;
      OrderedMaps.GetAt(all, i);
      OrderedMaps.UpdateGet(Inherited(bases), Discovered(ns), k);
      if k in OrderedMaps.Keys(Discovered(ns)) {
        var d := OrderedMaps.IndexOf(Discovered(ns), k).value;
        OrderedMaps.GetAt(Discovered(ns), d);
        assert Discovered(ns)[d] in Discovered(ns);
      } else {
        InheritedNamed(bases, k);
      }
    }
    CreateSucceedsIff(name, bases, ns);
  }

  /** Inherited fields are named after their keys when every base's are. */
  lemma {:induction false} InheritedNamed(bases: seq<Base>, k: string)
    requires BasesDistinct(bases)
    requires forall i :: 0 <= i < |bases| && bases[i].SchemaBase? ==>
               forall j :: 0 <= j < |bases[i].fields| ==> Name(bases[i].fields[j].1) == Some(bases[i].fields[j].0)
    ensures OrderedMaps.Get(Inherited(bases), k).Some? ==> Name(OrderedMaps.Get(Inherited(bases), k).value) == Some(k)
    decreases |bases|
  {
    if bases != [] {
      var init := bases[..|bases| - 1];
      var last := bases[|bases| - 1];
      BasesPrefix(bases);
      assert forall i :: 0 <= i < |init| ==> init[i] == bases[i];
      InheritedNamed(init, k);
      if last.SchemaBase? {
        OrderedMaps.UpdateGet(Inherited(init), last.fields, k);
        if k in OrderedMaps.Keys(last.fields) {
          var j := OrderedMaps.IndexOf(last.fields, k).value;
          OrderedMaps.GetAt(last.fields, j);
        }
      }
    }
  }
}
