/** `BoundField` and `FieldBindingFactory` (src/schematix/core/field.py): a
    source field bound to a target field, extracting from one object and
    assigning into another. */
module BoundFields {
  import opened Wrappers
  import opened Values
  import opened Errors
  import opened Paths
  import opened LeafField
  import opened Composites
  import OrderedMaps

  /** A binding. `target` is None when the target field is the source field
      itself (`targetfield or sourcefield`), so `is not` compares as the
      source does. */
  datatype Bound = Bound(source: Field, target: Option<Field>, name: Option<string>, transform: Option<Callable>)
  {
    /** The field that assigns. */
    function TargetField(): Field {
      if target.Some? then target.value else source
    }
  }

  /** `name or sourcefield.name`: an empty name counts as missing. */
  function BindingName(name: Option<string>, source: Field): (n: Option<string>)
    ensures name.Some? && name.value != "" ==> n == name
    ensures name.None? || name.value == "" ==> n == Name(source)
  {
    if name.Some? && name.value != "" then name else Name(source)
  }

  /** `BoundField(sourcefield, targetfield, name, transform)` with
      `_validatebinding`: the source field needs a source, and an explicit
      target field a target. */
  function MakeBound(source: Field, target: Option<Field>, name: Option<string>, transform: Option<Callable>): (r: Result<Bound, Error>)
    ensures r.Success? <==> SourceOf(source).Some? && (target.None? || TargetOf(target.value).Some?)
    ensures SourceOf(source).None? ==> r == Failure(NoSourceOnBinding(Name(source)))
    ensures SourceOf(source).Some? && target.Some? && TargetOf(target.value).None? ==>
              r == Failure(NoTargetOnBinding(Name(target.value)))
    ensures r.Success? ==> r.value.source == source && r.value.target == target
    ensures r.Success? ==> r.value.name == BindingName(name, source) && r.value.transform == transform
  {
    if SourceOf(source).None? then Failure(NoSourceOnBinding(Name(source)))
    else if target.Some? && TargetOf(target.value).None? then Failure(NoTargetOnBinding(Name(target.value)))
    else Success(Bound(source, target, BindingName(name, source), transform))
  }

  /** `a >> b`, `a.bind(b)`, `FieldBindingFactory.FromFields(a, b)`. */
  function Bind(a: Field, b: Field): (r: Result<Bound, Error>)
    ensures r.Success? <==> SourceOf(a).Some? && TargetOf(b).Some?
    ensures r.Success? ==> r.value.source == a && r.value.TargetField() == b && r.value.name == Name(a)
  {
    MakeBound(a, Some(b), None, None)
  }

  /** `FieldBindingFactory.FromField(f)`: the field binds to itself, so only
      its source is checked. */
  function FromField(f: Field): (r: Result<Bound, Error>)
    ensures r.Success? <==> SourceOf(f).Some?
    ensures r.Success? ==> r.value.TargetField() == f
  {
    MakeBound(f, None, None, None)
  }

  /** `extractonly`: extract through the source field, then the binding's transform. */
  function ExtractOnly(b: Bound, data: Value): (r: Result<Value, Error>)
    ensures b.transform.None? ==> r == Extract(b.source, data, None)
    ensures Extract(b.source, data, None).Failure? ==> r == Extract(b.source, data, None)
  {
    var v :- Extract(b.source, data, None);
    if b.transform.Some? then b.transform.value(v) else Success(v)
  }

  /** `assignonly`: assign through the target field. */
  function AssignOnly(b: Bound, root: Value, value: Value): (w: Written)
    ensures b.target.None? ==> w == Assign(b.source, root, value)
  {
    Assign(b.TargetField(), root, value)
  }

  /** `transformdata`: extract, transform, assign. */
  function TransformData(b: Bound, data: Value, root: Value): (w: Written)
  {
    match ExtractOnly(b, data)
    case Failure(e) => Written(root, Some(e))
    case Success(v) => AssignOnly(b, root, v)
  }

  /** `transformdata` is `extractonly` followed by `assignonly`, and a failed
      extraction leaves the target untouched. */
  lemma TransformDataComposes(b: Bound, data: Value, root: Value)
    ensures ExtractOnly(b, data).Failure? ==> TransformData(b, data, root) == Written(root, Some(ExtractOnly(b, data).error))
    ensures ExtractOnly(b, data).Success? ==> TransformData(b, data, root) == AssignOnly(b, root, ExtractOnly(b, data).value)
  {
  }

  /** `sourcepath`. */
  function SourcePath(b: Bound): (p: Option<string>)
    ensures p == SourceOf(b.source)
  {
    SourceOf(b.source)
  }

  /** `targetpath`. */
  function TargetPath(b: Bound): (p: Option<string>)
    ensures b.target.Some? ==> p == TargetOf(b.target.value)
    ensures b.target.None? ==> p == TargetOf(b.source)
  {
    TargetOf(b.TargetField())
  }

  /** `isrequired`: either side being required makes the binding required. */
  function IsRequired(b: Bound): (r: bool)
    ensures r <==> Required(b.source) || (b.target.Some? && Required(b.target.value))
  {
    Required(b.source) || Required(b.TargetField())
  }

  /** A binding that was validated has a source path, and a target path when
      its target field is explicit. */
  lemma MadeBoundHasPaths(source: Field, target: Option<Field>, name: Option<string>, transform: Option<Callable>)
    requires MakeBound(source, target, name, transform).Success?
    ensures SourcePath(MakeBound(source, target, name, transform).value).Some?
    ensures target.Some? ==> TargetPath(MakeBound(source, target, name, transform).value).Some?
  {
  }

  /** `withtransform`: the same binding with another transform, validated again. */
  function WithTransform(b: Bound, t: Callable): (r: Result<Bound, Error>)
    ensures MakeBound(b.source, b.target, b.name, b.transform).Success? ==>
              r.Success? && r.value.transform == Some(t) && r.value.source == b.source && r.value.target == b.target
  {
    MakeBound(b.source, b.target, b.name, Some(t))
  }

  /** `withname`: an empty name falls back to the source field's name. */
  function WithName(b: Bound, n: string): (r: Result<Bound, Error>)
    ensures MakeBound(b.source, b.target, b.name, b.transform).Success? ==>
              r.Success? && r.value.name == BindingName(Some(n), b.source) && r.value.transform == b.transform
  {
    MakeBound(b.source, b.target, Some(n), b.transform)
  }

  // ------------------------------------------------------------- FromMapping

  /** A value of the mapping given to `FromMapping`: a source path, a
      `(path, transform)` pair, or anything else (kept as its text). */
  datatype SourceConfig =
    | PathConfig(path: string)
    | PathTransform(pairPath: Option<string>, transform: Option<Callable>)
    | OtherConfig(text: string)

  /** The source field a configuration describes, or the error for an invalid one. */
  function SourceFieldFor(name: string, config: SourceConfig): (r: Result<Field, Error>)
    ensures r.Failure? <==> config.OtherConfig?
    ensures config.PathConfig? ==> r == Success(Plain(Simple(Some(name), Some(config.path), None)))
  {
    match config
    case PathConfig(p) => Success(Plain(Simple(Some(name), Some(p), None)))
    case PathTransform(p, t) => Success(Plain(Simple(Some(name), p, None).(transform := t)))
    case OtherConfig(text) => Failure(InvalidSourceConfig(name, text))
  }

  /** A configuration `FromMapping` can bind: a path, or a pair whose path is given. */
  predicate ValidConfig(config: SourceConfig) {
    config.PathConfig? || (config.PathTransform? && config.pairPath.Some?)
  }

  /** The binding for one entry: the source field to a field targeting `name`. */
  function BindEntry(name: string, config: SourceConfig): (r: Result<Bound, Error>)
    ensures r.Success? <==> ValidConfig(config)
    ensures r.Success? ==> r.value.name == Some(name) && TargetPath(r.value) == Some(name)
    ensures r.Success? ==> SourcePath(r.value) == Some(if config.PathConfig? then config.path else config.pairPath.value)
  {
    var source :- SourceFieldFor(name, config);
    MakeBound(source, Some(Plain(Simple(Some(name), None, Some(name)))), None, None)
  }

  /** `FieldBindingFactory.FromMapping` with `Field` as the field class. */
  function FromMapping(mapping: seq<(string, SourceConfig)>): (r: Result<seq<(string, Bound)>, Error>)
    ensures r.Success? ==> OrderedMaps.Keys(r.value) == OrderedMaps.Keys(mapping)
    ensures r.Success? ==> forall i :: 0 <= i < |mapping| ==> BindEntry(mapping[i].0, mapping[i].1) == Success(r.value[i].1)
    decreases |mapping|
  {
    if mapping == [] then Success([])
    else
      var b :- BindEntry(mapping[0].0, mapping[0].1);
      var rest :- FromMapping(mapping[1..]);
      Success([(mapping[0].0, b)] + rest)
  }

  /** `FromMapping` succeeds exactly when every configuration is bindable,
      and otherwise reports the first one that is not. */
  lemma {:induction false} FromMappingSucceedsIffValid(mapping: seq<(string, SourceConfig)>)
    ensures FromMapping(mapping).Success? <==> forall i :: 0 <= i < |mapping| ==> ValidConfig(mapping[i].1)
    ensures FromMapping(mapping).Failure? ==>
              exists i :: 0 <= i < |mapping| && !ValidConfig(mapping[i].1) &&
                FromMapping(mapping).error == BindEntry(mapping[i].0, mapping[i].1).error &&
                forall j :: 0 <= j < i ==> ValidConfig(mapping[j].1)
    decreases |mapping|
  {
    if mapping != [] {
      FromMappingSucceedsIffValid(mapping[1..]);
      assert forall i :: 1 <= i < |mapping| ==> mapping[1..][i - 1] == mapping[i];
      if ValidConfig(mapping[0].1) && FromMapping(mapping).Failure? {
        var rest := mapping[1..];
        var i :| 0 <= i < |rest| && !ValidConfig(rest[i].1) &&
          FromMapping(rest).error == BindEntry(rest[i].0, rest[i].1).error &&
          forall j :: 0 <= j < i ==> ValidConfig(rest[j].1);
        assert rest[i] == mapping[i + 1];
        forall j | 0 <= j < i + 1 ensures ValidConfig(mapping[j].1) {
          if j > 0 { assert rest[j - 1] == mapping[j]; }
        }
      }
    }
  }

  /** A binding made from a plain path moves the value at that path to the
      key named after the entry: after `transformdata` into a dict, reading
      the name gives what was at the path. */
  lemma MappedValueLands(name: string, path: string, data: Value, es: seq<(Value, Value)>)
    requires '.' !in name && '.' !in path
    requires Walk(data, [path]).Some?
    ensures BindEntry(name, PathConfig(path)).Success?
    ensures TransformData(BindEntry(name, PathConfig(path)).value, data, VDict(es)).raised.None?
    ensures SourceValue(Some(name), VNone, TransformData(BindEntry(name, PathConfig(path)).value, data, VDict(es)).target) ==
              Walk(data, [path]).value
  {
    var b := BindEntry(name, PathConfig(path)).value;
    var src := Simple(Some(name), Some(path), None);
    var tgt := Simple(Some(name), None, Some(name));
    assert b.source == Plain(src);
    PipelineOfPlainField(src, data);
    PathRead(path, data);
    var v := Walk(data, [path]).value;
    assert ExtractOnly(b, data) == Success(v);
    assert TransformData(b, data, VDict(es)) == AssignLeaf(tgt, VDict(es), v);
    ReadAfterWrite(name, Some(name), VDict(es), v, VNone);
  }

  /** An undotted source path reads what one step of a walk reads. */
  lemma PathRead(path: string, data: Value)
    requires '.' !in path && Walk(data, [path]).Some?
    ensures SourceValue(Some(path), VNone, data) == Walk(data, [path]).value
  {
    assert [path][1..] == [];
  }
}
