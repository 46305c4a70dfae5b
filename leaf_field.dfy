/** The value pipeline of a leaf `Field` (src/schematix/core/field.py, `Field`,
    over the helpers of src/schematix/core/bases/field.py): read the source,
    then transform -> type -> mapping -> choices -> validate -> required;
    conditional fields evaluate their conditions against already computed
    sibling values and run the pipeline under temporary overrides. */
module LeafField {
  import opened Wrappers
  import opened Values
  import opened Errors
  import opened Paths
  import OrderedMaps

  /** A `type=` argument: a constructor such as `int`, with its `__name__`. */
  datatype TypeSpec = TypeSpec(typename: string, cast: Callable)

  /** A `mapper=` argument, called as `mapper(value, mapping)`. */
  type Mapper = (Value, seq<(Value, Value)>) -> Result<Value, Error>

  /** What a condition evaluator returns: a plain value, or a function (with its name). */
  datatype Setting = Given(v: Value) | Fn(fname: string, f: Callable)

  /** A condition evaluator, called with the dependency values positionally. */
  type Evaluator = seq<Value> -> Result<Setting, Error>

  /** The attributes of a leaf field. `name`, `required`, `default`, `transform`,
      `source` and `target` are the constructor's own; the others travel in its
      extra keyword arguments. */
  datatype Config = Config(
    name: Option<string>,
    required: bool,
    default: Value,
    transform: Option<Callable>,
    source: Option<string>,
    target: Option<string>,
    ftype: Option<TypeSpec>,
    choices: Option<seq<Value>>,
    mapping: Option<seq<(Value, Value)>>,
    mapper: Option<Mapper>,
    validator: Option<Callable>,
    conditional: bool,
    dependencies: seq<string>,
    conditions: seq<(string, Evaluator)>,
    transient: bool)

  /** `Field(source=..., **options)` with every other option at its default. */
  function Simple(name: Option<string>, source: Option<string>, target: Option<string>): (c: Config)
    ensures c.name == name && c.source == source && c.target == target
    ensures !c.required && c.default == VNone && !c.conditional
  {
    Config(name, false, VNone, None, source, target, None, None, None, None, None, false, [], [], false)
  }

  // ---------------------------------------------------------------- stages

  /** `_applytransform`. */
  function ApplyTransform(transform: Option<Callable>, v: Value): (r: Result<Value, Error>)
    ensures transform.None? || v == VNone ==> r == Success(v)
  {
    if transform.Some? && v != VNone then transform.value(v) else Success(v)
  }

  /** The type stage: a failing constructor becomes "Cannot convert". */
  function ApplyType(ftype: Option<TypeSpec>, v: Value): (r: Result<Value, Error>)
    ensures ftype.None? || v == VNone ==> r == Success(v)
    ensures r.Failure? ==> r.error == CannotConvert(v, ftype.value.typename)
  {
    if ftype.None? || v == VNone then Success(v)
    else
      match ftype.value.cast(v)
      case Success(x) => Success(x)
      case Failure(_) => Failure(CannotConvert(v, ftype.value.typename))
  }

  function UnhashableError(v: Value): Error {
    Raised(TypeError, "unhashable type: '" + TypeName(v) + "'")
  }

  /** What a lookup miss falls back to: `default` when it is set, else an error. */
  function MissFallback(default: Value, v: Value): (r: Result<Value, Error>)
    ensures r.Success? <==> default != VNone
  {
    if default != VNone then Success(default) else Failure(NoMappingFound(v))
  }

  /** The mapping stage for one non-list value. */
  function LookUp(mapping: seq<(Value, Value)>, mapper: Option<Mapper>, default: Value, v: Value): (r: Result<Value, Error>)
    ensures Hashable(v) && DictGet(mapping, v).Some? ==> r == Success(DictGet(mapping, v).value)
    ensures Hashable(v) && DictGet(mapping, v).None? && mapper.None? ==> r == MissFallback(default, v)
  {
    if !Hashable(v) then Failure(UnhashableError(v))
    else
      match DictGet(mapping, v)
      case Some(x) => Success(x)
      case None =>
        if mapper.Some? then
          match mapper.value(v, mapping)
          case Success(x) => Success(x)
          case Failure(_) => MissFallback(default, v)
        else MissFallback(default, v)
  }

  /** The mapping stage: None passes, a list is mapped item by item, anything
      else is looked up. */
  function ApplyMapping(mapping: Option<seq<(Value, Value)>>, mapper: Option<Mapper>, default: Value, v: Value): (r: Result<Value, Error>)
    ensures mapping.None? || v == VNone ==> r == Success(v)
    ensures mapping.Some? && v.VList? && r.Success? ==>
      r.value.VList? && |r.value.items| == |v.items|
    decreases v, 1
  {
    if mapping.None? || v == VNone then Success(v)
    else if v.VList? then
      var items :- MapItems(mapping, mapper, default, v.items);
      Success(VList(items))
    else LookUp(mapping.value, mapper, default, v)
  }

  function MapItems(mapping: Option<seq<(Value, Value)>>, mapper: Option<Mapper>, default: Value, xs: seq<Value>): (r: Result<seq<Value>, Error>)
    ensures r.Success? ==> |r.value| == |xs|
    decreases xs
  {
    if xs == [] then Success([])
    else
      var head :- ApplyMapping(mapping, mapper, default, xs[0]);
      var tail :- MapItems(mapping, mapper, default, xs[1..]);
      Success([head] + tail)
  }

  /** A list is mapped item by item: it fails exactly when one of its items
      fails, and otherwise holds each item's own mapping, in order. */
  lemma {:induction false} MapItemsPointwise(mapping: Option<seq<(Value, Value)>>, mapper: Option<Mapper>, default: Value, xs: seq<Value>)
    ensures MapItems(mapping, mapper, default, xs).Failure? <==>
      exists i :: 0 <= i < |xs| && ApplyMapping(mapping, mapper, default, xs[i]).Failure?
    ensures MapItems(mapping, mapper, default, xs).Success? ==>
      forall i :: 0 <= i < |xs| ==> ApplyMapping(mapping, mapper, default, xs[i]) == Success(MapItems(mapping, mapper, default, xs).value[i])
  {
    var outs := ItemOutcomes(mapping, mapper, default, xs);
    MapItemsTraverse(mapping, mapper, default, xs);
    TraversePointwise(outs);
  }

  /** Each item's own mapping, in order. */
  function ItemOutcomes(mapping: Option<seq<(Value, Value)>>, mapper: Option<Mapper>, default: Value, xs: seq<Value>): (outs: seq<Result<Value, Error>>)
    ensures |outs| == |xs| && forall i :: 0 <= i < |xs| ==> outs[i] == ApplyMapping(mapping, mapper, default, xs[i])
  {
    seq(|xs|, i requires 0 <= i < |xs| => ApplyMapping(mapping, mapper, default, xs[i]))
  }

  /** The first failure among outcomes given in advance, or all their values. */
  function Traverse(outs: seq<Result<Value, Error>>): Result<seq<Value>, Error>
    decreases |outs|
  {
    if outs == [] then Success([])
    else
      var head :- outs[0];
      var tail :- Traverse(outs[1..]);
      Success([head] + tail)
  }

  lemma {:induction false} MapItemsTraverse(mapping: Option<seq<(Value, Value)>>, mapper: Option<Mapper>, default: Value, xs: seq<Value>)
    ensures MapItems(mapping, mapper, default, xs) == Traverse(ItemOutcomes(mapping, mapper, default, xs))
    decreases xs
  {
    if xs != [] {
      MapItemsTraverse(mapping, mapper, default, xs[1..]);
      var outs, rest := ItemOutcomes(mapping, mapper, default, xs), ItemOutcomes(mapping, mapper, default, xs[1..]);
      assert forall i :: 0 <= i < |rest| ==> outs[1..][i] == outs[i + 1] && xs[1..][i] == xs[i + 1];
      assert outs[1..] == rest;
    }
  }

  lemma {:induction false} TraversePointwise(outs: seq<Result<Value, Error>>)
    ensures Traverse(outs).Failure? <==> exists i :: 0 <= i < |outs| && outs[i].Failure?
    ensures Traverse(outs).Success? ==>
      |Traverse(outs).value| == |outs| && forall i :: 0 <= i < |outs| ==> outs[i] == Success(Traverse(outs).value[i])
    decreases |outs|
  {
    if outs != [] {
      TraversePointwise(outs[1..]);
      assert forall i :: 1 <= i < |outs| ==> outs[1..][i - 1] == outs[i];
    }
  }

  /** The choices stage: with a non-empty list of choices the value must be one of them. */
  function ValidateChoices(choices: Option<seq<Value>>, v: Value): (r: Result<Value, Error>)
    ensures r.Success? <==> choices.None? || choices.value == [] || v in choices.value
    ensures r.Success? ==> r.value == v
    ensures r.Failure? ==> r.error == NotInChoices(v, choices.value)
  {
    if choices.Some? && choices.value != [] && v !in choices.value then Failure(NotInChoices(v, choices.value))
    else Success(v)
  }

  /** The `validate` hook: a `validator` is called for its exception only, its
      return value is ignored; the value itself passes through. */
  function Validate(validator: Option<Callable>, v: Value): (r: Result<Value, Error>)
    ensures r.Success? ==> r.value == v
    ensures validator.None? ==> r == Success(v)
    ensures validator.Some? ==> (r.Failure? <==> validator.value(v).Failure?)
  {
    if validator.Some? && validator.value(v).Failure? then Failure(validator.value(v).error) else Success(v)
  }

  /** `_checkrequired`. */
  function CheckRequired(required: bool, name: Option<string>, v: Value): (r: Result<Value, Error>)
    ensures r.Failure? <==> required && v == VNone
    ensures r.Success? ==> r.value == v
    ensures r.Failure? ==> r.error == RequiredMissing(name)
  {
    if required && v == VNone then Failure(RequiredMissing(name)) else Success(v)
  }

  /** The non-conditional extraction pipeline of `Field.extract`. */
  function Pipeline(c: Config, data: Value): (r: Result<Value, Error>)
    ensures r.Success? && c.required ==> r.value != VNone
    ensures r.Success? && c.choices.Some? && c.choices.value != [] ==> r.value in c.choices.value
  {
    var raw := SourceValue(c.source, c.default, data);
    var transformed :- ApplyTransform(c.transform, raw);
    var typed :- ApplyType(c.ftype, transformed);
    var mapped :- ApplyMapping(c.mapping, c.mapper, c.default, typed);
    var chosen :- ValidateChoices(c.choices, mapped);
    var validated :- Validate(c.validator, chosen);
    CheckRequired(c.required, c.name, validated)
  }

  /** A field with only a source and a `required` flag yields the raw source
      value, or fails exactly when that value is None and the field is required. */
  lemma PipelineOfPlainField(c: Config, data: Value)
    requires c.transform.None? && c.ftype.None? && c.mapping.None? && c.choices.None? && c.validator.None?
    ensures Pipeline(c, data) ==
      var raw := SourceValue(c.source, c.default, data);
      if c.required && raw == VNone then Failure(RequiredMissing(c.name)) else Success(raw)
  {
  }

  // ---------------------------------------------------- an ordering example

  /** `str.strip`, raising TypeError on a non-string. */
  function StripFn(v: Value): Result<Value, Error> {
    if v.VStr? then Success(VStr(PyText.Strip(v.s)))
    else Failure(Raised(TypeError, "descriptor 'strip' for 'str' objects doesn't apply to a '" + TypeName(v) + "' object"))
  }

  /** `int(v)` on the closed value type: an int is itself, a bool is 0 or 1,
      a string is parsed; a malformed string raises ValueError and any other
      value TypeError. */
  function IntFn(v: Value): (r: Result<Value, Error>)
    ensures r.Success? ==> r.value.VInt?
    ensures r.Failure? ==> Class(r.error) == ValueError || Class(r.error) == TypeError
  {
    match v
    case VInt(_) => Success(v)
    case VBool(b) => Success(VInt(if b then 1 else 0))
    case VStr(s) =>
      (match PyText.ParseInt(s)
       case Some(i) => Success(VInt(i))
       case None => Failure(Raised(ValueError, "invalid literal for int() with base 10: " + Repr(v))))
    case _ => Failure(Raised(TypeError, "int() argument must be a string, a bytes-like object or a real number"))
  }

  function OneToFive(): seq<Value> {
    [VInt(1), VInt(2), VInt(3), VInt(4), VInt(5)]
  }

  /** `Field(source='rating', transform=str.strip, type=int, choices=[1..5])`. */
  function RatingField(): Config {
    Simple(None, Some("rating"), None).(transform := Some(StripFn), ftype := Some(TypeSpec("int", IntFn)), choices := Some(OneToFive()))
  }

  lemma StripPadded()
    ensures PyText.Strip("  3  ") == "3"
  {
    LStripPadded();
    RStripPadded();
  }

  lemma LStripPadded()
    ensures PyText.LStrip("  3  ") == "3  "
  {
    var s0 := "  3  ";
    var s1, s2 := s0[1..], s0[2..];
    assert s0[0] == ' ' && s1[0] == ' ' && s2[0] == '3' && s1[1..] == s2;
    assert PyText.IsSpace(' ') && !PyText.IsSpace('3');
    assert PyText.LStrip(s2) == s2;
    assert s2 == "3  ";
  }

  lemma RStripPadded()
    ensures PyText.RStrip("3  ") == "3"
  {
    var s2 := "3  ";
    var t1, t2 := s2[..2], s2[..1];
    assert s2[2] == ' ' && t1[1] == ' ' && t2[0] == '3' && t1[..1] == t2;
    assert PyText.IsSpace(' ') && !PyText.IsSpace('3');
    assert PyText.RStrip(t2) == t2;
    assert t2 == "3";
  }

  lemma ParseThree()
    ensures PyText.ParseInt("3") == Some(3)
  {
    ParseDigit('3');
    assert "3" == ['3'];
  }

  /** A single decimal digit parses as its value. */
  lemma ParseDigit(c: char)
    requires PyText.IsDigit(c)
    ensures PyText.ParseInt([c]) == Some(PyText.DigitValue(c))
  {
    WellFormedDigit(c);
    PyText.ParseUnsigned([c]);
    DigitRun(c);
  }

  lemma WellFormedDigit(c: char)
    requires PyText.IsDigit(c)
    ensures PyText.WellFormedDigits([c])
  {
  }

  lemma DigitRun(c: char)
    requires PyText.IsDigit(c)
    ensures PyText.RemoveUnderscores([c]) == [c]
    ensures PyText.DigitsValue([c]) == PyText.DigitValue(c)
  {
    assert [c][1..] == [] && [c][..0] == [];
  }

  /** A value that passes every stage comes out of the pipeline unchanged by the later stages. */
  lemma PipelineSucceeds(c: Config, data: Value, raw: Value, t: Value, ty: Value, m: Value)
    requires SourceValue(c.source, c.default, data) == raw
    requires ApplyTransform(c.transform, raw) == Success(t)
    requires ApplyType(c.ftype, t) == Success(ty)
    requires ApplyMapping(c.mapping, c.mapper, c.default, ty) == Success(m)
    requires ValidateChoices(c.choices, m).Success? && Validate(c.validator, m).Success?
    requires CheckRequired(c.required, c.name, m).Success?
    ensures Pipeline(c, data) == Success(m)
  {
  }

  lemma RatingTransformStep(c: Config)
    requires c == RatingField()
    ensures ApplyTransform(c.transform, VStr("  3  ")) == Success(VStr("3"))
  {
    StripPadded();
  }

  lemma RatingTypeStep(c: Config)
    requires c == RatingField()
    ensures ApplyType(c.ftype, VStr("3")) == Success(VInt(3))
  {
    IntOfThree();
    assert c.ftype == Some(TypeSpec("int", IntFn));
  }

  lemma IntOfThree()
    ensures IntFn(VStr("3")) == Success(VInt(3))
  {
    ParseThree();
  }

  lemma RatingLaterSteps(c: Config)
    requires c == RatingField()
    ensures ApplyMapping(c.mapping, c.mapper, c.default, VInt(3)) == Success(VInt(3))
    ensures ValidateChoices(c.choices, VInt(3)).Success? && Validate(c.validator, VInt(3)).Success?
    ensures CheckRequired(c.required, c.name, VInt(3)).Success?
  {
    assert OneToFive()[2] == VInt(3);
  }

  /** The stages run in the documented order: `"  3  "` is stripped, cast to
      3 and accepted among the choices 1..5 (stripping after the cast would
      raise, since `str.strip` does not apply to an int). */
  lemma StagesRunInOrder(c: Config, data: Value)
    requires c == RatingField()
    requires data == VDict([(VStr("rating"), VStr("  3  "))])
    ensures Pipeline(c, data) == Success(VInt(3))
    ensures StripFn(VInt(3)).Failure?
  {
    RatingSourceStep(c, data);
    RatingTransformStep(c);
    RatingTypeStep(c);
    RatingLaterSteps(c);
    PipelineSucceeds(c, data, VStr("  3  "), VStr("3"), VInt(3), VInt(3));
    StripIntFails();
  }

  lemma RatingSourceStep(c: Config, data: Value)
    requires c == RatingField()
    requires data == VDict([(VStr("rating"), VStr("  3  "))])
    ensures SourceValue(c.source, c.default, data) == VStr("  3  ")
  {
    assert DictGet(data.entries, VStr("rating")) == Some(VStr("  3  "));
  }

  lemma StripIntFails()
    ensures StripFn(VInt(3)).Failure?
  {
  }

  // ------------------------------------------------------ conditional fields

  /** The values of `deps`, in order, from `computed`; the first absent one is an error. */
  function DependencyValues(deps: seq<string>, computed: seq<(string, Value)>, name: Option<string>): (r: Result<seq<Value>, Error>)
    ensures r.Success? <==> forall i :: 0 <= i < |deps| ==> deps[i] in OrderedMaps.Keys(computed)
    ensures r.Success? ==> |r.value| == |deps|
    ensures r.Success? ==> forall i :: 0 <= i < |deps| ==> OrderedMaps.Get(computed, deps[i]) == Some(r.value[i])
    ensures r.Failure? ==> r.error.DependencyUnavailable? && r.error.dep in deps && r.error.dep !in OrderedMaps.Keys(computed)
  {
    if deps == [] then Success([])
    else
      var rest := DependencyValues(deps[1..], computed, name);
      AllKeysCons(deps, OrderedMaps.Keys(computed));
      match OrderedMaps.Get(computed, deps[0])
      case None => Failure(DependencyUnavailable(deps[0], name))
      case Some(v) =>
        if rest.Failure? then
          assert rest.error.dep in deps[1..];
          Failure(rest.error)
        else
          GetsCons(deps, computed, v, rest.value);
          Success([v] + rest.value)
  }

  lemma AllKeysCons(deps: seq<string>, keys: seq<string>)
    requires deps != []
    ensures (forall i :: 0 <= i < |deps| ==> deps[i] in keys) <==>
              deps[0] in keys && forall i :: 0 <= i < |deps[1..]| ==> deps[1..][i] in keys
  {
    assert forall i :: 1 <= i < |deps| ==> deps[1..][i - 1] == deps[i];
  }

  lemma GetsCons(deps: seq<string>, computed: seq<(string, Value)>, v: Value, vs: seq<Value>)
    requires deps != [] && OrderedMaps.Get(computed, deps[0]) == Some(v) && |vs| == |deps| - 1
    requires forall i :: 0 <= i < |deps[1..]| ==> OrderedMaps.Get(computed, deps[1..][i]) == Some(vs[i])
    ensures forall i :: 0 <= i < |deps| ==> OrderedMaps.Get(computed, deps[i]) == Some(([v] + vs)[i])
  {
    forall i | 1 <= i < |deps| ensures OrderedMaps.Get(computed, deps[i]) == Some(([v] + vs)[i]) {
      assert deps[1..][i - 1] == deps[i] && ([v] + vs)[i] == vs[i - 1];
    }
  }

  /** The evaluated map: each condition's result stored under its key, in order;
      the first evaluator that raises is reported with the condition's key. */
  function EvaluateFrom(conds: seq<(string, Evaluator)>, depvals: seq<Value>, name: Option<string>, acc: seq<(string, Setting)>): (r: Result<seq<(string, Setting)>, Error>)
    ensures r.Failure? <==> exists i :: 0 <= i < |conds| && conds[i].1(depvals).Failure?
    ensures r.Failure? ==> r.error.ConditionFailed? && r.error.field == name
  {
    if conds == [] then Success(acc)
    else
      match conds[0].1(depvals)
      case Failure(e) => Failure(ConditionFailed(conds[0].0, name, e))
      case Success(s) =>
        assert forall i :: 1 <= i < |conds| ==> conds[1..][i - 1] == conds[i];
        EvaluateFrom(conds[1..], depvals, name, OrderedMaps.Set(acc, conds[0].0, s))
  }

  /** With distinct condition keys, every key holds its own evaluator's result
      and the keys already in the accumulator are otherwise left alone. */
  lemma {:induction false} EvaluateFromGet(conds: seq<(string, Evaluator)>, depvals: seq<Value>, name: Option<string>, acc: seq<(string, Setting)>, k: string)
    requires OrderedMaps.DistinctKeys(conds)
    requires EvaluateFrom(conds, depvals, name, acc).Success?
    ensures OrderedMaps.Get(EvaluateFrom(conds, depvals, name, acc).value, k) ==
      match OrderedMaps.IndexOf(conds, k)
      case Some(i) => Some(conds[i].1(depvals).value)
      case None => OrderedMaps.Get(acc, k)
  {
    if conds != [] {
      var s := conds[0].1(depvals).value;
      OrderedMaps.HeadNotInTail(conds);
      var acc' := OrderedMaps.Set(acc, conds[0].0, s);
      EvaluateFromGet(conds[1..], depvals, name, acc', k);
      if k == conds[0].0 {
        assert OrderedMaps.IndexOf(conds, k) == Some(0);
      } else {
        OrderedMaps.IndexOfCons(conds, k);
        match OrderedMaps.IndexOf(conds[1..], k)
        case Some(j) =>
          assert conds[1..][j] == conds[j + 1];
        case None =>
      }
    }
  }

  /** `_evaluateconditions`. */
  function EvaluateConditions(c: Config, computed: seq<(string, Value)>): (r: Result<seq<(string, Setting)>, Error>)
    ensures c.dependencies == [] ==> r == Failure(NoDependencies(c.name))
    ensures c.dependencies != [] && c.conditions == [] ==> r == Failure(NoConditions(c.name))
    ensures (exists i :: 0 <= i < |c.dependencies| && c.dependencies[i] !in OrderedMaps.Keys(computed)) ==> r.Failure?
  {
    if c.dependencies == [] then Failure(NoDependencies(c.name))
    else if c.conditions == [] then Failure(NoConditions(c.name))
    else
      var depvals :- DependencyValues(c.dependencies, computed, c.name);
      EvaluateFrom(c.conditions, depvals, c.name, [])
  }

  /** With distinct condition keys, each key of the evaluated map holds the
      result of its own evaluator applied to the dependency values in order. */
  lemma EvaluatedValues(c: Config, computed: seq<(string, Value)>, i: nat)
    requires OrderedMaps.DistinctKeys(c.conditions) && i < |c.conditions|
    requires EvaluateConditions(c, computed).Success?
    ensures DependencyValues(c.dependencies, computed, c.name).Success?
    ensures OrderedMaps.Get(EvaluateConditions(c, computed).value, c.conditions[i].0) ==
      Some(c.conditions[i].1(DependencyValues(c.dependencies, computed, c.name).value).value)
  {
    var depvals := DependencyValues(c.dependencies, computed, c.name).value;
    EvaluateFromGet(c.conditions, depvals, c.name, [], c.conditions[i].0);
    var j := OrderedMaps.IndexOf(c.conditions, c.conditions[i].0).value;
    assert c.conditions[j].0 == c.conditions[i].0;
  }

  /** The value a `'value'` condition short-circuits with; a function is
      represented by an object carrying its name. */
  function SettingValue(s: Setting): Value {
    match s
    case Given(v) => v
    case Fn(n, _) => VObj([("__name__", VStr(n))])
  }

  /** `setattr(self, prop, value)` for one override. A setting whose shape does
      not fit the attribute, an attribute a leaf field does not have, and the
      two attributes no `Setting` can hold (a `conditions` dict of evaluators, a
      two-argument `mapper`) leave the configuration unchanged. */
  function Override(c: Config, prop: string, s: Setting): Config {
    match prop
    case "required" => c.(required := s.Fn? || Truthy(s.v))
    case "default" => if s.Given? then c.(default := s.v) else c
    case "transform" =>
      if s.Fn? then c.(transform := Some(s.f)) else if s.v == VNone then c.(transform := None) else c
    case "type" =>
      if s.Fn? then c.(ftype := Some(TypeSpec(s.fname, s.f))) else if s.v == VNone then c.(ftype := None) else c
    case "choices" =>
      if s == Given(VNone) then c.(choices := None)
      else if s.Given? && s.v.VList? then c.(choices := Some(s.v.items)) else c
    case "mapping" =>
      if s == Given(VNone) then c.(mapping := None)
      else if s.Given? && s.v.VDict? then c.(mapping := Some(s.v.entries)) else c
    case "mapper" => if s == Given(VNone) then c.(mapper := None) else c
    case "validator" =>
      if s.Fn? then c.(validator := Some(s.f)) else if s.v == VNone then c.(validator := None) else c
    case "name" => if s == Given(VNone) then c.(name := None) else if s.Given? && s.v.VStr? then c.(name := Some(s.v.s)) else c
    case "source" => if s == Given(VNone) then c.(source := None) else if s.Given? && s.v.VStr? then c.(source := Some(s.v.s)) else c
    case "target" => if s == Given(VNone) then c.(target := None) else if s.Given? && s.v.VStr? then c.(target := Some(s.v.s)) else c
    case "conditional" => c.(conditional := s.Fn? || Truthy(s.v))
    case "transient" => c.(transient := s.Fn? || Truthy(s.v))
    case "dependencies" =>
      if s.Given? && s.v.VList? && StrItems(s.v.items).Some? then c.(dependencies := StrItems(s.v.items).value) else c
    case _ => c
  }

  /** The texts of a list whose items are all strings. */
  function StrItems(xs: seq<Value>): (r: Option<seq<string>>)
    ensures r.Some? <==> forall i :: 0 <= i < |xs| ==> xs[i].VStr?
    ensures r.Some? ==> |r.value| == |xs| && forall i :: 0 <= i < |xs| ==> r.value[i] == xs[i].s
  {
    if xs == [] then Some([])
    else if !xs[0].VStr? then None
    else
      match StrItems(xs[1..])
      case None => None
      case Some(rest) => Some([xs[0].s] + rest)
  }

  /** Every override applied in order, skipping the key `'value'`. */
  function Overridden(c: Config, overrides: seq<(string, Setting)>): Config
    decreases |overrides|
  {
    if overrides == [] then c
    else
      var next := if overrides[0].0 == "value" then c else Override(c, overrides[0].0, overrides[0].1);
      Overridden(next, overrides[1..])
  }

  /** The six attributes `_extractwithoverrides` saves, put back on `after`. */
  function Restored(before: Config, after: Config): Config {
    after.(required := before.required, default := before.default, transform := before.transform,
           choices := before.choices, ftype := before.ftype, mapping := before.mapping)
  }

  predicate Restorable(prop: string) {
    prop in {"value", "required", "default", "transform", "choices", "type", "mapping"}
  }

  /** One override of a saved attribute is undone by the restore. */
  lemma RestoredOverride(c: Config, c': Config, prop: string, s: Setting)
    requires Restorable(prop) && Restored(c, c') == c
    ensures Restored(c, if prop == "value" then c' else Override(c', prop, s)) == c
  {
  }

  /** Overrides of the six saved attributes leave no trace once they are restored. */
  lemma {:induction false} RestoredWithoutLeak(c: Config, c': Config, overrides: seq<(string, Setting)>)
    requires forall i :: 0 <= i < |overrides| ==> Restorable(overrides[i].0)
    requires Restored(c, c') == c
    ensures Restored(c, Overridden(c', overrides)) == c
    decreases |overrides|
  {
    if overrides != [] {
      RestoredOverride(c, c', overrides[0].0, overrides[0].1);
      var next := if overrides[0].0 == "value" then c' else Override(c', overrides[0].0, overrides[0].1);
      RestoredWithoutLeak(c, next, overrides[1..]);
    }
  }

  /** An overridden `validator` is not among the six and stays on the field. */
  lemma ValidatorLeaks(c: Config, fname: string, f: Callable)
    ensures Restored(c, Overridden(c, [("validator", Fn(fname, f))])).validator == Some(f)
  {
    assert Overridden(c, [("validator", Fn(fname, f))]) == Overridden(Override(c, "validator", Fn(fname, f)), []);
  }

  /** An override of `dependencies` is not among the six saved attributes, so
      the new list outlives the extraction and drives the next condition
      evaluation. */
  lemma DependenciesLeak(c: Config, ds: seq<string>)
    ensures Restored(c, Overridden(c, [("dependencies", Given(StrList(ds)))])).dependencies == ds
  {
    assert Overridden(c, [("dependencies", Given(StrList(ds)))]) == Overridden(Override(c, "dependencies", Given(StrList(ds))), []);
    var r := StrItems(StrList(ds).items);
    assert r.Some?;
    assert r.value == ds;
  }

  /** `Field.extract(data, computed)` as a value: the result, ignoring what the
      overrides leave on the field (see `FieldObject`). */
  function ExtractLeaf(c: Config, data: Value, computed: Option<seq<(string, Value)>>): (r: Result<Value, Error>)
    ensures !c.conditional ==> r == Pipeline(c, data)
    ensures c.conditional && computed.None? ==> r == Failure(NoComputedValues(c.name))
  {
    if !c.conditional then Pipeline(c, data)
    else if computed.None? then Failure(NoComputedValues(c.name))
    else
      var evaluated :- EvaluateConditions(c, computed.value);
      match OrderedMaps.Get(evaluated, "value")
      case Some(s) => Success(SettingValue(s))
      case None => Pipeline(Overridden(c, evaluated), data)
  }

  /** A `'value'` condition decides the result without the source being read. */
  lemma ValueConditionShortCircuits(c: Config, data1: Value, data2: Value, computed: seq<(string, Value)>)
    requires c.conditional
    requires EvaluateConditions(c, computed).Success?
    requires "value" in OrderedMaps.Keys(EvaluateConditions(c, computed).value)
    ensures ExtractLeaf(c, data1, Some(computed)) == ExtractLeaf(c, data2, Some(computed))
    ensures ExtractLeaf(c, data1, Some(computed)).Success?
  {
  }

  /** The field's attributes after `extract`: only the override path changes
      anything, and then only what the restore does not cover. */
  function StateAfterExtract(c: Config, computed: Option<seq<(string, Value)>>): Config {
    if !c.conditional || computed.None? then c
    else
      match EvaluateConditions(c, computed.value)
      case Failure(_) => c
      case Success(evaluated) =>
        if "value" in OrderedMaps.Keys(evaluated) then c else Restored(c, Overridden(c, evaluated))
  }

  /** `Field.assign`: the validate hook, then the write at `target`. */
  function AssignLeaf(c: Config, root: Value, value: Value): (w: Written)
    ensures Validate(c.validator, value).Failure? ==> w == Written(root, Some(Validate(c.validator, value).error))
    ensures Validate(c.validator, value).Success? ==> w == ApplyTargetValue(c.target, c.name, root, value)
  {
    match Validate(c.validator, value)
    case Failure(e) => Written(root, Some(e))
    case Success(v) => ApplyTargetValue(c.target, c.name, root, v)
  }

  /** A leaf field object whose attributes are swapped in place during a
      conditional extraction, a fallback-source retry or a multi-target write. */
  class FieldObject {
    var config: Config

    constructor (c: Config)
      ensures config == c
    {
      config := c;
    }

    /** `_extractwithoverrides`: save the six attributes, set every override
        but `'value'`, run the pipeline, restore the six (also when it raises). */
    method ExtractWithOverrides(data: Value, overrides: seq<(string, Setting)>) returns (r: Result<Value, Error>)
      modifies this
      ensures r == Pipeline(Overridden(old(config), overrides), data)
      ensures config == Restored(old(config), Overridden(old(config), overrides))
    {
      var saved := config;
      var i := 0;
      while i < |overrides|
        invariant 0 <= i <= |overrides|
        invariant Overridden(saved, overrides) == Overridden(config, overrides[i..])
      {
        assert overrides[i..][0] == overrides[i] && overrides[i..][1..] == overrides[i + 1..];
        var (prop, setting) := overrides[i];
        if prop != "value" {
          config := Override(config, prop, setting);
        }
        i := i + 1;
      }
      r := Pipeline(config, data);
      config := config.(required := saved.required, default := saved.default, transform := saved.transform,
                        choices := saved.choices, ftype := saved.ftype, mapping := saved.mapping);
    }

    /** `Field.extract(data, computed)` on the object. */
    method Extract(data: Value, computed: Option<seq<(string, Value)>>) returns (r: Result<Value, Error>)
      modifies this
      ensures r == ExtractLeaf(old(config), data, computed)
      ensures config == StateAfterExtract(old(config), computed)
    {
      if !config.conditional {
        r := Pipeline(config, data);
        return;
      }
      if computed.None? {
        r := Failure(NoComputedValues(config.name));
        return;
      }
      var evaluated := EvaluateConditions(config, computed.value);
      if evaluated.Failure? {
        r := Failure(evaluated.error);
        return;
      }
      var short := OrderedMaps.Get(evaluated.value, "value");
      if short.Some? {
        r := Success(SettingValue(short.value));
        return;
      }
      r := ExtractWithOverrides(data, evaluated.value);
    }

    /** `SourceField._extractwithfallbacks`: each fallback path is tried as the
        source in turn and the source is put back after every attempt. */
    method ExtractWithFallbacks(data: Value, fallbacks: seq<string>) returns (r: Result<Value, Error>)
      modifies this
      ensures r == FallbackSources(old(config), fallbacks, data)
      ensures config == old(config)
    {
      var saved := config;
      var original := config.source;
      var i := 0;
      while i < |fallbacks|
        invariant 0 <= i <= |fallbacks|
        invariant config == saved
        invariant FirstFallback(saved, fallbacks, data) == FirstFallback(saved, fallbacks[i..], data)
      {
        config := config.(source := Some(fallbacks[i]));
        var attempt := ExtractLeaf(config, data, None);
        assert config == saved.(source := Some(fallbacks[i]));
        FallbackStepWith(saved, fallbacks, i, data, attempt);
        config := config.(source := original);
        if attempt.Success? {
          return attempt;
        }
        i := i + 1;
      }
      NoFallbackLeft(saved, fallbacks, i, data);
      if config.required {
        r := Failure(NotInAnySource(config.name, [original] + SomeAll(fallbacks)));
      } else {
        r := Success(config.default);
      }
    }

    /** `TargetField._assigntotarget`: the path is made the target for the
        write and the original target is put back afterwards. */
    method AssignToTarget(root: Value, path: Option<string>, value: Value, createstructure: bool) returns (w: Written)
      modifies this
      ensures w == TargetWrite(old(config), root, path, value, createstructure)
      ensures config == old(config)
    {
      if path.None? {
        return Written(root, Some(NullTargetPath));
      }
      var saved := config;
      var original := config.target;
      config := config.(target := path);
      var prepared := if createstructure then CreateStructure(root, path.value) else Written(root, None);
      if prepared.raised.Some? {
        w := prepared;
      } else {
        assert config.target == path && config.name == saved.name;
        w := ApplyTargetValue(config.target, config.name, prepared.target, value);
      }
      assert w == TargetWrite(saved, root, path, value, createstructure);
      config := config.(target := original);
    }
  }

  function SomeAll(xs: seq<string>): (r: seq<Option<string>>)
    ensures |r| == |xs| && forall i :: 0 <= i < |xs| ==> r[i] == Some(xs[i])
  {
    seq(|xs|, i requires 0 <= i < |xs| => Some(xs[i]))
  }

  // ------------------------------------------------------------ SourceField

  /** One extraction with `path` in place of the source. */
  function Attempt(c: Config, path: string, data: Value): Result<Value, Error> {
    ExtractLeaf(c.(source := Some(path)), data, None)
  }

  /** The value of the first fallback path that extracts without raising. */
  function FirstFallback(c: Config, fallbacks: seq<string>, data: Value): (r: Option<Value>)
    ensures r.None? <==> forall i :: 0 <= i < |fallbacks| ==> Attempt(c, fallbacks[i], data).Failure?
    decreases |fallbacks|
  {
    if fallbacks == [] then None
    else
      match Attempt(c, fallbacks[0], data)
      case Success(v) => Some(v)
      case Failure(_) =>
        assert forall i :: 1 <= i < |fallbacks| ==> fallbacks[1..][i - 1] == fallbacks[i];
        FirstFallback(c, fallbacks[1..], data)
  }

  /** Trying the fallback at position `i`. */
  lemma FallbackStep(c: Config, fallbacks: seq<string>, i: nat, data: Value)
    requires i < |fallbacks|
    ensures FirstFallback(c, fallbacks[i..], data) ==
              if Attempt(c, fallbacks[i], data).Success? then Some(Attempt(c, fallbacks[i], data).value)
              else FirstFallback(c, fallbacks[i + 1..], data)
  {
    assert fallbacks[i..][0] == fallbacks[i] && fallbacks[i..][1..] == fallbacks[i + 1..];
  }

  /** `FallbackStep` once the attempt at position `i` is known. */
  lemma FallbackStepWith(c: Config, fallbacks: seq<string>, i: nat, data: Value, attempt: Result<Value, Error>)
    requires i < |fallbacks| && attempt == ExtractLeaf(c.(source := Some(fallbacks[i])), data, None)
    ensures attempt.Success? ==> FirstFallback(c, fallbacks[i..], data) == Some(attempt.value)
    ensures attempt.Failure? ==> FirstFallback(c, fallbacks[i..], data) == FirstFallback(c, fallbacks[i + 1..], data)
  {
    FallbackStep(c, fallbacks, i, data);
  }

  lemma NoFallbackLeft(c: Config, fallbacks: seq<string>, i: nat, data: Value)
    requires i == |fallbacks|
    ensures FirstFallback(c, fallbacks[i..], data) == None
  {
    assert fallbacks[i..] == [];
  }

  /** The first fallback path that extracts gives the value, and every path before it raised. */
  lemma FirstFallbackIsFirst(c: Config, fallbacks: seq<string>, data: Value)
    requires FirstFallback(c, fallbacks, data).Some?
    ensures exists i :: 0 <= i < |fallbacks| && Attempt(c, fallbacks[i], data) == Success(FirstFallback(c, fallbacks, data).value) &&
                        forall j :: 0 <= j < i ==> Attempt(c, fallbacks[j], data).Failure?
  {
    var outs := AttemptOutcomes(c, fallbacks, data);
    FallbackOutcomes(c, fallbacks, data);
    FirstSuccessIsFirst(outs);
    var i :| 0 <= i < |outs| && outs[i] == Success(FirstSuccess(outs).value) && forall j :: 0 <= j < i ==> outs[j].Failure?;
    assert Attempt(c, fallbacks[i], data) == Success(FirstFallback(c, fallbacks, data).value);
  }

  /** Each fallback path's attempt, in order. */
  function AttemptOutcomes(c: Config, fallbacks: seq<string>, data: Value): (outs: seq<Result<Value, Error>>)
    ensures |outs| == |fallbacks| && forall i :: 0 <= i < |fallbacks| ==> outs[i] == Attempt(c, fallbacks[i], data)
  {
    seq(|fallbacks|, i requires 0 <= i < |fallbacks| => Attempt(c, fallbacks[i], data))
  }

  /** The first success among outcomes given in advance. */
  function FirstSuccess(outs: seq<Result<Value, Error>>): Option<Value>
    decreases |outs|
  {
    if outs == [] then None
    else if outs[0].Success? then Some(outs[0].value)
    else FirstSuccess(outs[1..])
  }

  lemma {:induction false} FallbackOutcomes(c: Config, fallbacks: seq<string>, data: Value)
    ensures FirstFallback(c, fallbacks, data) == FirstSuccess(AttemptOutcomes(c, fallbacks, data))
    decreases |fallbacks|
  {
    if fallbacks != [] {
      FallbackOutcomes(c, fallbacks[1..], data);
      var outs, rest := AttemptOutcomes(c, fallbacks, data), AttemptOutcomes(c, fallbacks[1..], data);
      assert forall i :: 0 <= i < |rest| ==> outs[1..][i] == outs[i + 1] && fallbacks[1..][i] == fallbacks[i + 1];
      assert outs[1..] == rest;
    }
  }

  lemma {:induction false} FirstSuccessIsFirst(outs: seq<Result<Value, Error>>)
    requires FirstSuccess(outs).Some?
    ensures exists i :: 0 <= i < |outs| && outs[i] == Success(FirstSuccess(outs).value) &&
                        forall j :: 0 <= j < i ==> outs[j].Failure?
    decreases |outs|
  {
    if outs[0].Failure? {
      var rest := outs[1..];
      FirstSuccessIsFirst(rest);
      var i :| 0 <= i < |rest| && rest[i] == Success(FirstSuccess(rest).value) && forall j :: 0 <= j < i ==> rest[j].Failure?;
      assert outs[i + 1] == rest[i];
      forall j | 0 <= j < i + 1 ensures outs[j].Failure? {
        if j > 0 { assert outs[j] == rest[j - 1]; }
      }
    }
  }


  /** The fallback sources tried in order: the first that extracts wins, and
      when none does the field raises if required and yields `default` if not. */
  function FallbackSources(c: Config, fallbacks: seq<string>, data: Value): (r: Result<Value, Error>)
    ensures (forall i :: 0 <= i < |fallbacks| ==> Attempt(c, fallbacks[i], data).Failure?) ==>
      r == (if c.required then Failure(NotInAnySource(c.name, [c.source] + SomeAll(fallbacks))) else Success(c.default))
    ensures FirstFallback(c, fallbacks, data).Some? ==> r == Success(FirstFallback(c, fallbacks, data).value)
  {
    match FirstFallback(c, fallbacks, data)
    case Some(v) => Success(v)
    case None => if c.required then Failure(NotInAnySource(c.name, [c.source] + SomeAll(fallbacks))) else Success(c.default)
  }

  /** `SourceField.extract`: a condition that does not hold yields `default`;
      otherwise the primary extraction is kept unless it equals `default` or
      raises ValueError, KeyError or AttributeError, in which case the
      fallbacks are tried. */
  function SourceExtract(c: Config, fallbacks: seq<string>, condition: Option<Predicate>, data: Value): (r: Result<Value, Error>)
    ensures condition.Some? && condition.value(data) == Success(false) ==> r == Success(c.default)
    ensures (condition.None? || condition.value(data) == Success(true)) &&
            ExtractLeaf(c, data, None).Success? && ExtractLeaf(c, data, None).value != c.default
            ==> r == ExtractLeaf(c, data, None)
  {
    if condition.Some? && condition.value(data).Failure? then Failure(condition.value(data).error)
    else if condition.Some? && !condition.value(data).value then Success(c.default)
    else
      match ExtractLeaf(c, data, None)
      case Success(v) => if v == c.default then FallbackSources(c, fallbacks, data) else Success(v)
      case Failure(e) =>
        if Class(e) in {ValueError, KeyError, AttributeError} then FallbackSources(c, fallbacks, data) else Failure(e)
  }

  // ------------------------------------------------------------ TargetField

  /** `_createnestedstructure`: `{}` at each missing intermediate dict key;
      it stops quietly at anything that is neither a dict nor an object
      having the attribute, but a list raises TypeError. */
  function CreateStructure(root: Value, path: string): (w: Written)
    ensures w.raised.Some? ==> w.target == root
  {
    if '.' !in path then Written(root, None)
    else
      var parts := DotParts(path);
      CreateAlong(root, parts[..|parts| - 1])
  }

  function CreateAlong(current: Value, parts: seq<string>): (w: Written)
    ensures w.raised.Some? ==> w.target == current
    ensures current.VDict? ==> w.target.VDict?
    ensures current.VObj? ==> w.target.VObj?
    decreases |parts|
  {
    if parts == [] then Written(current, None)
    else
      match current
      case VDict(es) =>
        var child := DictGet(es, VStr(parts[0])).GetOr(VDict([]));
        var w := CreateAlong(child, parts[1..]);
        if w.raised.Some? then Written(current, w.raised)
        else Written(VDict(OrderedMaps.Set(es, VStr(parts[0]), w.target)), None)
      case VList(_) => Written(current, Some(ListIndexError()))
      case VObj(attrs) =>
        if AttrGet(attrs, parts[0]).Some? then
          var w := CreateAlong(AttrGet(attrs, parts[0]).value, parts[1..]);
          if w.raised.Some? then Written(current, w.raised)
          else Written(VObj(OrderedMaps.Set(attrs, parts[0], w.target)), None)
        else Written(current, None)
      case _ => Written(current, None)
  }

  /** One write of `TargetField`: a None path raises, otherwise the structure
      is prepared when asked and the value written at the path. */
  function TargetWrite(c: Config, root: Value, path: Option<string>, value: Value, createstructure: bool): (w: Written)
    ensures path.None? ==> w == Written(root, Some(NullTargetPath))
    ensures path.Some? && !createstructure ==> w == ApplyTargetValue(path, c.name, root, value)
  {
    if path.None? then Written(root, Some(NullTargetPath))
    else
      var prepared := if createstructure then CreateStructure(root, path.value) else Written(root, None);
      if prepared.raised.Some? then prepared
      else ApplyTargetValue(path, c.name, prepared.target, value)
  }

  /** Writes to each additional target in turn, stopping at the first exception. */
  function WriteAll(c: Config, root: Value, paths: seq<string>, value: Value, createstructure: bool): (w: Written)
    ensures paths == [] ==> w == Written(root, None)
    decreases |paths|
  {
    if paths == [] then Written(root, None)
    else
      var first := TargetWrite(c, root, Some(paths[0]), value, createstructure);
      if first.raised.Some? then first else WriteAll(c, first.target, paths[1..], value, createstructure)
  }

  /** `TargetField.assign`: a condition that does not hold writes nothing;
      otherwise format, validate, write the primary target, then the others. */
  function TargetAssign(c: Config, formatter: Option<Callable>, condition: Option<Predicate>, additional: seq<string>,
                        createstructure: bool, root: Value, value: Value): (w: Written)
    ensures condition.Some? && condition.value(value) == Success(false) ==> w == Written(root, None)
    ensures c.target.None? && (condition.None? || condition.value(value) == Success(true)) &&
            formatter.None? && c.validator.None?
            ==> w == Written(root, Some(NullTargetPath))
  {
    if condition.Some? && condition.value(value).Failure? then Written(root, Some(condition.value(value).error))
    else if condition.Some? && !condition.value(value).value then Written(root, None)
    else
      var formatted := if formatter.Some? then formatter.value(value) else Success(value);
      if formatted.Failure? then Written(root, Some(formatted.error))
      else
        match Validate(c.validator, formatted.value)
        case Failure(e) => Written(root, Some(e))
        case Success(v) =>
          var first := TargetWrite(c, root, c.target, v, createstructure);
          if first.raised.Some? then first else WriteAll(c, first.target, additional, v, createstructure)
  }

  /** Preparing the structure below a fresh `{}` never raises. */
  lemma {:induction false} CreateAlongFresh(parts: seq<string>)
    ensures CreateAlong(VDict([]), parts).raised.None?
    decreases |parts|
  {
    if parts != [] {
      assert DictGet([], VStr(parts[0])) == None;
      CreateAlongFresh(parts[1..]);
    }
  }

  /** Preparing the structure keeps every other key of a dict root. */
  lemma CreateAlongKeepsSiblings(es: seq<(Value, Value)>, parts: seq<string>, k: Value)
    requires parts != [] && k != VStr(parts[0])
    ensures DictGet(CreateAlong(VDict(es), parts).target.entries, k) == DictGet(es, k)
  {
  }

  /** Preparing the intermediate containers of a path, then writing along it,
      is the plain nested write: the containers the preparation adds are the
      ones the write would add, and where the preparation raises, the write
      raises the same exception on the untouched root. */
  lemma {:induction false} CreateThenSet(root: Value, parts: seq<string>, value: Value, full: seq<string>)
    requires |parts| >= 1
    ensures var pre := CreateAlong(root, parts[..|parts| - 1]);
            pre.raised.None? ==> SetNested(pre.target, parts, value, full) == SetNested(root, parts, value, full)
    ensures var pre := CreateAlong(root, parts[..|parts| - 1]);
            pre.raised.Some? ==> SetNested(root, parts, value, full) == pre
    decreases |parts|, 2
  {
    if |parts| >= 2 {
      match root
      case VDict(es) => CreateThenSetDict(es, parts, value, full);
      case VObj(attrs) => CreateThenSetObj(attrs, parts, value, full);
      case VList(_) =>
        assert CreateAlong(root, parts[..|parts| - 1]) == Written(root, Some(ListIndexError()));
      case _ =>
        assert CreateAlong(root, parts[..|parts| - 1]) == Written(root, None);
    }
  }

  lemma {:induction false} CreateThenSetDict(es: seq<(Value, Value)>, parts: seq<string>, value: Value, full: seq<string>)
    requires |parts| >= 2
    ensures var pre := CreateAlong(VDict(es), parts[..|parts| - 1]);
            pre.raised.None? ==> SetNested(pre.target, parts, value, full) == SetNested(VDict(es), parts, value, full)
    ensures var pre := CreateAlong(VDict(es), parts[..|parts| - 1]);
            pre.raised.Some? ==> SetNested(VDict(es), parts, value, full) == pre
    decreases |parts|, 0
  {
    var k := VStr(parts[0]);
    var pre := parts[..|parts| - 1];
    assert pre[0] == parts[0] && pre[1..] == parts[1..][..|parts[1..]| - 1];
    var child := DictGet(es, k).GetOr(VDict([]));
    var cw := CreateAlong(child, pre[1..]);
    assert CreateAlong(VDict(es), pre) ==
      if cw.raised.Some? then Written(VDict(es), cw.raised) else Written(VDict(OrderedMaps.Set(es, k, cw.target)), None);
    var es1 := WithChild(es, parts[0]);
    assert DictGet(es1, k).value == child;
    var w := SetNested(child, parts[1..], value, full);
    SetNestedDictStep(es, parts, value, full);
    CreateThenSet(child, parts[1..], value, full);
    CreateAlongFresh(pre[1..]);
    if cw.raised.None? {
      var es2 := OrderedMaps.Set(es, k, cw.target);
      SetNestedDictStep(es2, parts, value, full);
      assert WithChild(es2, parts[0]) == es2;
      OrderedMaps.SetTwice(es, k, cw.target, w.target);
      OrderedMaps.SetTwice(es, k, VDict([]), w.target);
    } else {
      OrderedMaps.SetExisting(es, k);
    }
  }

  lemma {:induction false} CreateThenSetObj(attrs: seq<(string, Value)>, parts: seq<string>, value: Value, full: seq<string>)
    requires |parts| >= 2
    ensures var pre := CreateAlong(VObj(attrs), parts[..|parts| - 1]);
            pre.raised.None? ==> SetNested(pre.target, parts, value, full) == SetNested(VObj(attrs), parts, value, full)
    ensures var pre := CreateAlong(VObj(attrs), parts[..|parts| - 1]);
            pre.raised.Some? ==> SetNested(VObj(attrs), parts, value, full) == pre
    decreases |parts|, 1
  {
    var pre := parts[..|parts| - 1];
    assert pre[0] == parts[0] && pre[1..] == parts[1..][..|parts[1..]| - 1];
    CreateAlongObj(attrs, pre);
    if AttrGet(attrs, parts[0]).Some? {
      CreateThenSetAttr(attrs, parts, value, full);
    }
  }

  /** One object segment of `CreateAlong`. */
  lemma CreateAlongObj(attrs: seq<(string, Value)>, parts: seq<string>)
    requires parts != []
    ensures AttrGet(attrs, parts[0]).None? ==> CreateAlong(VObj(attrs), parts) == Written(VObj(attrs), None)
    ensures AttrGet(attrs, parts[0]).Some? ==>
      var cw := CreateAlong(AttrGet(attrs, parts[0]).value, parts[1..]);
      CreateAlong(VObj(attrs), parts) ==
        if cw.raised.Some? then Written(VObj(attrs), cw.raised) else Written(VObj(OrderedMaps.Set(attrs, parts[0], cw.target)), None)
  {
  }

  lemma {:induction false} CreateThenSetAttr(attrs: seq<(string, Value)>, parts: seq<string>, value: Value, full: seq<string>)
    requires |parts| >= 2 && AttrGet(attrs, parts[0]).Some?
    ensures var child := AttrGet(attrs, parts[0]).value;
            var cw := CreateAlong(child, parts[1..][..|parts[1..]| - 1]);
            cw.raised.None? ==> SetNested(VObj(OrderedMaps.Set(attrs, parts[0], cw.target)), parts, value, full) == SetNested(VObj(attrs), parts, value, full)
    ensures var child := AttrGet(attrs, parts[0]).value;
            var cw := CreateAlong(child, parts[1..][..|parts[1..]| - 1]);
            cw.raised.Some? ==> SetNested(VObj(attrs), parts, value, full) == Written(VObj(attrs), cw.raised)
    decreases |parts|, 0
  {
    var child := AttrGet(attrs, parts[0]).value;
    var cw := CreateAlong(child, parts[1..][..|parts[1..]| - 1]);
    var w := SetNested(child, parts[1..], value, full);
    SetNestedObjStep(attrs, parts, value, full);
    CreateThenSet(child, parts[1..], value, full);
    if cw.raised.None? {
      var attrs2 := OrderedMaps.Set(attrs, parts[0], cw.target);
      SetNestedObjStep(attrs2, parts, value, full);
      OrderedMaps.SetTwice(attrs, parts[0], cw.target, w.target);
    } else {
      OrderedMaps.SetExisting(attrs, parts[0]);
    }
  }

  /** `createstructure` changes nothing observable: a write with it is the
      write without it, whatever the root holds. */
  lemma TargetWriteIsApply(c: Config, root: Value, t: string, value: Value, createstructure: bool)
    ensures TargetWrite(c, root, Some(t), value, createstructure) == ApplyTargetValue(Some(t), c.name, root, value)
  {
    if createstructure && '.' in t {
      var parts := DotParts(t);
      var pre := CreateStructure(root, t);
      assert pre == CreateAlong(root, parts[..|parts| - 1]);
      CreateThenSet(root, parts, value, parts);
      ApplyDotted(t, c.name, root, value);
      if pre.raised.None? {
        ApplyDotted(t, c.name, pre.target, value);
      }
    }
  }

  lemma ApplyDotted(t: string, name: Option<string>, root: Value, value: Value)
    requires '.' in t
    ensures ApplyTargetValue(Some(t), name, root, value) == SetNested(root, DotParts(t), value, DotParts(t))
  {
  }

  /** After a successful write at `t`, extracting through `t` gives the value
      back (a None written under a dotted path reads as the default). */
  lemma TargetWriteReads(c: Config, root: Value, t: string, value: Value, createstructure: bool, default: Value)
    requires TargetWrite(c, root, Some(t), value, createstructure).raised.None?
    ensures SourceValue(Some(t), default, TargetWrite(c, root, Some(t), value, createstructure).target)
      == if '.' in t && value == VNone then default else value
  {
    TargetWriteIsApply(c, root, t, value, createstructure);
    ReadAfterWrite(t, c.name, root, value, default);
  }

  /** The first write of `WriteAll`; when all succeed, so did the first. */
  lemma WriteAllUnfold(c: Config, root: Value, paths: seq<string>, value: Value, createstructure: bool)
    requires paths != []
    requires WriteAll(c, root, paths, value, createstructure).raised.None?
    ensures ApplyTargetValue(Some(paths[0]), c.name, root, value).raised.None?
    ensures WriteAll(c, root, paths, value, createstructure)
      == WriteAll(c, ApplyTargetValue(Some(paths[0]), c.name, root, value).target, paths[1..], value, createstructure)
  {
    TargetWriteIsApply(c, root, paths[0], value, createstructure);
  }

  /** Writing the additional targets changes nothing that a path diverging
      from all of them reads. */
  lemma {:induction false} WriteAllFrame(c: Config, root: Value, paths: seq<string>, value: Value, createstructure: bool, p: seq<string>)
    requires WriteAll(c, root, paths, value, createstructure).raised.None?
    requires forall m :: 0 <= m < |paths| ==> Diverge(p, DotParts(paths[m]))
    ensures Walk(WriteAll(c, root, paths, value, createstructure).target, p) == Walk(root, p)
    decreases |paths|
  {
    if paths != [] {
      WriteAllUnfold(c, root, paths, value, createstructure);
      var first := ApplyTargetValue(Some(paths[0]), c.name, root, value);
      ApplyFrame(paths[0], c.name, root, value, p);
      forall m | 0 <= m < |paths[1..]| ensures Diverge(p, DotParts(paths[1..][m])) {
        assert paths[1..][m] == paths[m + 1];
      }
      WriteAllFrame(c, first.target, paths[1..], value, createstructure, p);
    }
  }

  /** After the additional targets are written, each one that diverges from
      every later one reads the value back. */
  lemma {:induction false} WriteAllReads(c: Config, root: Value, paths: seq<string>, value: Value, createstructure: bool, k: nat)
    requires WriteAll(c, root, paths, value, createstructure).raised.None?
    requires k < |paths|
    requires forall m :: k < m < |paths| ==> Diverge(DotParts(paths[k]), DotParts(paths[m]))
    ensures Walk(WriteAll(c, root, paths, value, createstructure).target, DotParts(paths[k])) == Found(value)
    decreases |paths|
  {
    WriteAllUnfold(c, root, paths, value, createstructure);
    var first := ApplyTargetValue(Some(paths[0]), c.name, root, value);
    if k == 0 {
      ApplyReads(paths[0], c.name, root, value);
      forall m | 0 <= m < |paths[1..]| ensures Diverge(DotParts(paths[0]), DotParts(paths[1..][m])) {
        assert paths[1..][m] == paths[m + 1];
      }
      WriteAllFrame(c, first.target, paths[1..], value, createstructure, DotParts(paths[0]));
    } else {
      forall m | k - 1 < m < |paths[1..]| ensures Diverge(DotParts(paths[1..][k - 1]), DotParts(paths[1..][m])) {
        assert paths[1..][m] == paths[m + 1];
      }
      WriteAllReads(c, first.target, paths[1..], value, createstructure, k - 1);
    }
  }

  /** A `TargetField.assign` whose condition holds and whose formatter
      returns `v` writes `v` at the primary target and at every additional
      target, as far as a later write does not overwrite it: the primary
      target and each additional target diverging from every later one read
      `v` back. */
  lemma TargetAssignWrites(c: Config, formatter: Option<Callable>, condition: Option<Predicate>, additional: seq<string>,
                           createstructure: bool, root: Value, value: Value, v: Value)
    requires condition.None? || condition.value(value) == Success(true)
    requires (if formatter.Some? then formatter.value(value) else Success(value)) == Success(v)
    requires TargetAssign(c, formatter, condition, additional, createstructure, root, value).raised.None?
    ensures c.target.Some?
    ensures (forall m :: 0 <= m < |additional| ==> Diverge(DotParts(c.target.value), DotParts(additional[m]))) ==>
      Walk(TargetAssign(c, formatter, condition, additional, createstructure, root, value).target, DotParts(c.target.value)) == Found(v)
    ensures forall k :: 0 <= k < |additional| && (forall m :: k < m < |additional| ==> Diverge(DotParts(additional[k]), DotParts(additional[m]))) ==>
      Walk(TargetAssign(c, formatter, condition, additional, createstructure, root, value).target, DotParts(additional[k])) == Found(v)
  {
    var first := TargetWrite(c, root, c.target, v, createstructure);
    var t := c.target.value;
    TargetWriteIsApply(c, root, t, v, createstructure);
    if forall m :: 0 <= m < |additional| ==> Diverge(DotParts(t), DotParts(additional[m])) {
      ApplyReads(t, c.name, root, v);
      WriteAllFrame(c, first.target, additional, v, createstructure, DotParts(t));
    }
    forall k | 0 <= k < |additional| && (forall m :: k < m < |additional| ==> Diverge(DotParts(additional[k]), DotParts(additional[m])))
      ensures Walk(WriteAll(c, first.target, additional, v, createstructure).target, DotParts(additional[k])) == Found(v)
    {
      WriteAllReads(c, first.target, additional, v, createstructure, k);
    }
  }
}
