/** The field algebra of src/schematix/core/field.py: leaf fields (`Field`,
    `SourceField`, `TargetField`) and the composites built by the operators
    of src/schematix/core/bases/field.py (`|` FallbackField, `&` CombinedField,
    `@` NestedField, `+` AccumulatedField). */
module Composites {
  import opened Wrappers
  import opened Values
  import opened Errors
  import opened Paths
  import opened LeafField
  import OrderedMaps
  import PyText

  datatype Field =
    | Plain(config: Config)
    | Source(config: Config, fallbacks: seq<string>, condition: Option<Predicate>)
    | Target(config: Config, formatter: Option<Callable>, condition: Option<Predicate>,
             additional: seq<string>, createstructure: bool)
    | Fallback(fname: Option<string>, primary: Field, fallback: Field)
    | Combined(fname: Option<string>, fields: seq<Field>)
    | Nested(fname: Option<string>, inner: Field, path: string)
    | Accumulated(fname: Option<string>, fields: seq<Field>, separator: string)
  {
    predicate IsLeaf() { Plain? || Source? || Target? }
  }

  /** `field.name`. */
  function Name(f: Field): Option<string> {
    if f.IsLeaf() then f.config.name else f.fname
  }

  /** The field with `name` set, as the schema metaclass does. */
  function WithName(f: Field, n: Option<string>): (g: Field)
    ensures Name(g) == n
  {
    if f.IsLeaf() then f.(config := f.config.(name := n)) else f.(fname := n)
  }

  function AnyRequired(fs: seq<Field>): (b: bool)
    ensures b <==> exists i :: 0 <= i < |fs| && Required(fs[i])
    decreases fs
  {
    if fs == [] then false
    else
      assert forall i :: 1 <= i < |fs| ==> fs[1..][i - 1] == fs[i];
      Required(fs[0]) || AnyRequired(fs[1..])
  }

  /** `field.required`: a fallback takes its primary's, a combination or
      accumulation is required when any child is, a nested field its inner field's. */
  function Required(f: Field): bool
    decreases f, 1
  {
    match f
    case Fallback(_, p, _) => Required(p)
    case Combined(_, fs) => AnyRequired(fs)
    case Nested(_, inner, _) => Required(inner)
    case Accumulated(_, fs, _) => AnyRequired(fs)
    case _ => f.config.required
  }

  /** `field.default`: a fallback takes its fallback's, a combination `{}`. */
  function Default(f: Field): Value {
    match f
    case Fallback(_, _, b) => Default(b)
    case Combined(_, _) => VDict([])
    case Nested(_, inner, _) => Default(inner)
    case Accumulated(_, _, _) => VNone
    case _ => f.config.default
  }

  /** `field.source`; a nested field copies its inner field's. */
  function SourceOf(f: Field): Option<string> {
    match f
    case Nested(_, inner, _) => SourceOf(inner)
    case Fallback(_, _, _) => None
    case Combined(_, _) => None
    case Accumulated(_, _, _) => None
    case _ => f.config.source
  }

  /** `field.target`; a nested field copies its inner field's. */
  function TargetOf(f: Field): Option<string> {
    match f
    case Nested(_, inner, _) => TargetOf(inner)
    case Fallback(_, _, _) => None
    case Combined(_, _) => None
    case Accumulated(_, _, _) => None
    case _ => f.config.target
  }

  /** Whether the field is a conditional leaf (composites have no `conditional`). */
  predicate IsConditional(f: Field) {
    f.IsLeaf() && f.config.conditional
  }

  // ------------------------------------------------------------- extraction

  /** `field.extract(data, computed)`. Composites pass no `computed` to their children. */
  function Extract(f: Field, data: Value, computed: Option<seq<(string, Value)>>): (r: Result<Value, Error>)
    decreases f, 2
  {
    match f
    case Plain(c) => ExtractLeaf(c, data, computed)
    case Target(c, _, _, _, _) => ExtractLeaf(c, data, computed)
    case Source(c, fbs, cond) => SourceExtract(c, fbs, cond, data)
    case Fallback(_, p, b) =>
      (match Extract(p, data, None)
       case Success(v) => if v == VNone && !Required(p) then Extract(b, data, None) else Success(v)
       case Failure(_) => Extract(b, data, None))
    case Combined(_, fs) =>
      var st := CombinedFold(fs, data, CombineState([], []));
      if st.errors != [] then Failure(CombinedFailed(st.errors)) else Success(VDict(st.result))
    case Nested(_, inner, path) =>
      (match Walk(data, DotParts(path))
       case None => if Required(inner) then Failure(NestedPathNotFound(path)) else Success(Default(inner))
       case Some(sub) => Extract(inner, sub, None))
    case Accumulated(_, fs, sep) =>
      var values :- Collect(fs, data);
      if values == [] then
        if AnyRequired(fs) then Failure(NoAccumulatedValues) else Success(VNone)
      else Success(Accumulate(values, sep))
  }

  // FallbackField

  /** A fallback field fails only when its fallback fails, and a primary value
      other than None, or one from a required primary, is kept. */
  lemma FallbackSemantics(n: Option<string>, p: Field, b: Field, data: Value, computed: Option<seq<(string, Value)>>)
    ensures Extract(Fallback(n, p, b), data, computed).Failure? ==> Extract(b, data, None).Failure?
    ensures Extract(p, data, None).Success? && (Extract(p, data, None).value != VNone || Required(p)) ==>
              Extract(Fallback(n, p, b), data, computed) == Extract(p, data, None)
    ensures Extract(p, data, None).Failure? || (Extract(p, data, None) == Success(VNone) && !Required(p)) ==>
              Extract(Fallback(n, p, b), data, computed) == Extract(b, data, None)
  {
  }

  // CombinedField

  datatype CombineState = CombineState(result: seq<(Value, Value)>, errors: seq<string>)

  /** A child name counts only when it is a non-empty string. */
  predicate Named(f: Field) {
    Name(f).Some? && Name(f).value != ""
  }

  function CombinedMessage(f: Field, e: Error): string {
    "Required field '" + NameText(Name(f)) + "' failed: " + Message(e)
  }

  /** One child of `CombinedField.extract`: a named child is stored under its
      name when its value is not None or it is required; an unnamed child's
      dict is merged in and any other value goes under `field<len(result)>`;
      a failure is recorded only for a required child. */
  function CombineStep(st: CombineState, f: Field, r: Result<Value, Error>): (st': CombineState)
    ensures r.Failure? && !Required(f) ==> st' == st
    ensures r.Failure? && Required(f) ==> st' == st.(errors := st.errors + [CombinedMessage(f, r.error)])
    ensures r.Success? ==> st'.errors == st.errors
  {
    match r
    case Failure(e) => if Required(f) then st.(errors := st.errors + [CombinedMessage(f, e)]) else st
    case Success(v) =>
      if Named(f) then
        if v != VNone || Required(f) then st.(result := OrderedMaps.Set(st.result, VStr(Name(f).value), v)) else st
      else if v.VDict? then st.(result := OrderedMaps.Update(st.result, v.entries))
      else st.(result := OrderedMaps.Set(st.result, VStr("field" + NatToString(|st.result|)), v))
  }

  function CombinedFold(fs: seq<Field>, data: Value, st: CombineState): CombineState
    decreases fs
  {
    if fs == [] then st
    else CombinedFold(fs[1..], data, CombineStep(st, fs[0], Extract(fs[0], data, None)))
  }

  /** The messages of the required children that fail, in order. */
  function RequiredFailures(fs: seq<Field>, data: Value): (ms: seq<string>)
    ensures ms == [] <==> forall i :: 0 <= i < |fs| ==> !(Required(fs[i]) && Extract(fs[i], data, None).Failure?)
    ensures |ms| <= |fs|
    decreases fs
  {
    if fs == [] then []
    else
      assert forall i :: 1 <= i < |fs| ==> fs[1..][i - 1] == fs[i];
      var r := Extract(fs[0], data, None);
      (if Required(fs[0]) && r.Failure? then [CombinedMessage(fs[0], r.error)] else []) + RequiredFailures(fs[1..], data)
  }

  /** The errors a combined extraction collects are exactly the required
      children's failures, in child order. */
  lemma CombinedFoldErrors(fs: seq<Field>, data: Value, st: CombineState)
    ensures CombinedFold(fs, data, st).errors == st.errors + RequiredFailures(fs, data)
  {
    var outs := ChildOutcomes(fs, data);
    CombinedFoldOver(fs, data, st);
    FailuresOver(fs, data);
    FoldOverErrors(fs, outs, st);
  }

  /** `CombinedFold` over outcomes given in advance. */
  function FoldOver(fs: seq<Field>, outs: seq<Result<Value, Error>>, st: CombineState): CombineState
    requires |outs| == |fs|
    decreases |fs|
  {
    if fs == [] then st else FoldOver(fs[1..], outs[1..], CombineStep(st, fs[0], outs[0]))
  }

  lemma FoldOverCons(fs: seq<Field>, outs: seq<Result<Value, Error>>, st: CombineState)
    requires |outs| == |fs| && fs != []
    ensures FoldOver(fs, outs, st) == FoldOver(fs[1..], outs[1..], CombineStep(st, fs[0], outs[0]))
  {
  }

  /** `FoldOver` from index `i` on: the whole sequence at 0, one step before
      the end, nothing left at the end. */
  lemma FoldOverAt(fs: seq<Field>, outs: seq<Result<Value, Error>>, i: nat, st: CombineState)
    requires |outs| == |fs| && i <= |fs|
    ensures i == 0 ==> FoldOver(fs[i..], outs[i..], st) == FoldOver(fs, outs, st)
    ensures i < |fs| ==> FoldOver(fs[i..], outs[i..], st) == FoldOver(fs[i + 1..], outs[i + 1..], CombineStep(st, fs[i], outs[i]))
    ensures i == |fs| ==> FoldOver(fs[i..], outs[i..], st) == st
  {
    assert fs[0..] == fs && outs[0..] == outs;
    if i < |fs| {
      FoldOverCons(fs[i..], outs[i..], st);
      assert fs[i..][0] == fs[i] && fs[i..][1..] == fs[i + 1..];
      assert outs[i..][0] == outs[i] && outs[i..][1..] == outs[i + 1..];
    } else {
      assert fs[i..] == [];
    }
  }

  /** What a combined field makes of its fold. */
  lemma CombinedUnfold(n: Option<string>, fs: seq<Field>, data: Value)
    ensures var st := CombinedFold(fs, data, CombineState([], []));
            Extract(Combined(n, fs), data, None) == if st.errors != [] then Failure(CombinedFailed(st.errors)) else Success(VDict(st.result))
  {
  }

  /** `RequiredFailures` over outcomes given in advance. */
  function Messages(fs: seq<Field>, outs: seq<Result<Value, Error>>): seq<string>
    requires |outs| == |fs|
    decreases |fs|
  {
    if fs == [] then []
    else (if Required(fs[0]) && outs[0].Failure? then [CombinedMessage(fs[0], outs[0].error)] else []) + Messages(fs[1..], outs[1..])
  }

  lemma {:induction false} CombinedFoldOver(fs: seq<Field>, data: Value, st: CombineState)
    ensures CombinedFold(fs, data, st) == FoldOver(fs, ChildOutcomes(fs, data), st)
    decreases fs
  {
    if fs != [] {
      CombinedFoldOver(fs[1..], data, CombineStep(st, fs[0], Extract(fs[0], data, None)));
      OutcomesTail(fs, data);
    }
  }

  lemma {:induction false} FailuresOver(fs: seq<Field>, data: Value)
    ensures RequiredFailures(fs, data) == Messages(fs, ChildOutcomes(fs, data))
    decreases fs
  {
    if fs != [] {
      FailuresOver(fs[1..], data);
      OutcomesTail(fs, data);
    }
  }

  lemma {:induction false} FoldOverErrors(fs: seq<Field>, outs: seq<Result<Value, Error>>, st: CombineState)
    requires |outs| == |fs|
    ensures FoldOver(fs, outs, st).errors == st.errors + Messages(fs, outs)
    decreases |fs|
  {
    if fs != [] {
      var st' := CombineStep(st, fs[0], outs[0]);
      FoldOverErrors(fs[1..], outs[1..], st');
      var m := if Required(fs[0]) && outs[0].Failure? then [CombinedMessage(fs[0], outs[0].error)] else [];
      assert st'.errors == st.errors + m;
      assert Messages(fs, outs) == m + Messages(fs[1..], outs[1..]);
      MessagesAssoc(st.errors, m, Messages(fs[1..], outs[1..]));
    }
  }

  lemma MessagesAssoc(a: seq<string>, b: seq<string>, c: seq<string>)
    ensures a + b + c == a + (b + c)
  {
  }

  /** A combined field raises exactly when some required child raises; every
      child runs first, and the error lists all such failures. */
  lemma CombinedFailsIffRequiredChildFails(n: Option<string>, fs: seq<Field>, data: Value, computed: Option<seq<(string, Value)>>)
    ensures Extract(Combined(n, fs), data, computed).Failure? <==>
              exists i :: 0 <= i < |fs| && Required(fs[i]) && Extract(fs[i], data, None).Failure?
    ensures Extract(Combined(n, fs), data, computed).Failure? ==>
              Extract(Combined(n, fs), data, computed).error == CombinedFailed(RequiredFailures(fs, data))
  {
    CombinedRaises(n, fs, data, computed);
  }

  lemma CombinedRaises(n: Option<string>, fs: seq<Field>, data: Value, computed: Option<seq<(string, Value)>>)
    ensures Extract(Combined(n, fs), data, computed).Failure? <==> RequiredFailures(fs, data) != []
    ensures Extract(Combined(n, fs), data, computed).Failure? ==>
              Extract(Combined(n, fs), data, computed).error == CombinedFailed(RequiredFailures(fs, data))
  {
    CombinedFoldErrors(fs, data, CombineState([], []));
  }

  /** `CombinedField.extract` as the loop it is. */
  method CombinedExtract(n: Option<string>, fs: seq<Field>, data: Value) returns (r: Result<Value, Error>)
    ensures r == Extract(Combined(n, fs), data, None)
  {
    var st := CombineState([], []);
    ghost var outs := ChildOutcomes(fs, data);
    CombinedFoldOver(fs, data, st);
    CombinedUnfold(n, fs, data);
    FoldOverAt(fs, outs, 0, st);
    var i := 0;
    while i < |fs|
      invariant 0 <= i <= |fs|
      invariant FoldOver(fs, outs, CombineState([], [])) == FoldOver(fs[i..], outs[i..], st)
    {
      var value := Extract(fs[i], data, None);
      assert value == outs[i];
      FoldOverAt(fs, outs, i, st);
      st := CombineStep(st, fs[i], value);
      i := i + 1;
    }
    FoldOverAt(fs, outs, i, st);
    if st.errors != [] {
      r := Failure(CombinedFailed(st.errors));
    } else {
      r := Success(VDict(st.result));
    }
  }

  // NestedField

  /** A nested field reads its inner field from the sub-object at its path,
      and an unreadable path gives the inner default or raises when required. */
  lemma NestedSemantics(n: Option<string>, inner: Field, path: string, data: Value)
    ensures Walk(data, DotParts(path)).Some? ==>
              Extract(Nested(n, inner, path), data, None) == Extract(inner, Walk(data, DotParts(path)).value, None)
    ensures Walk(data, DotParts(path)).None? ==>
              Extract(Nested(n, inner, path), data, None) ==
                (if Required(inner) then Failure(NestedPathNotFound(path)) else Success(Default(inner)))
  {
    var parts := DotParts(path);
    assert Extract(Nested(n, inner, path), data, None) ==
      match Walk(data, parts)
      case None => if Required(inner) then Failure(NestedPathNotFound(path)) else Success(Default(inner))
      case Some(sub) => Extract(inner, sub, None);
  }

  // AccumulatedField

  /** The values of an accumulation: None results and failures of optional
      children are skipped; the first required child that raises aborts. */
  function Collect(fs: seq<Field>, data: Value): (r: Result<seq<Value>, Error>)
    ensures r.Success? ==> forall i :: 0 <= i < |r.value| ==> r.value[i] != VNone
    ensures r.Success? ==> |r.value| <= |fs|
    decreases fs
  {
    if fs == [] then Success([])
    else
      match Extract(fs[0], data, None)
      case Failure(e) =>
        if Required(fs[0]) then Failure(AccumulationFailed(Name(fs[0]), e)) else Collect(fs[1..], data)
      case Success(v) =>
        var rest :- Collect(fs[1..], data);
        Success(if v == VNone then rest else [v] + rest)
  }

  /** The first required child that raises decides the error, and no child
      that raises while required is passed over. */
  lemma CollectFailsAtFirstRequired(fs: seq<Field>, data: Value)
    ensures Collect(fs, data).Failure? <==>
              exists i :: 0 <= i < |fs| && Required(fs[i]) && Extract(fs[i], data, None).Failure?
    ensures Collect(fs, data).Failure? ==>
              exists i :: 0 <= i < |fs| && Required(fs[i]) && Extract(fs[i], data, None).Failure? &&
                Collect(fs, data).error == AccumulationFailed(Name(fs[i]), Extract(fs[i], data, None).error) &&
                forall j :: 0 <= j < i ==> !(Required(fs[j]) && Extract(fs[j], data, None).Failure?)
  {
    var outs := ChildOutcomes(fs, data);
    var bs := Raising(fs, outs);
    CollectGather(fs, data);
    GatherFirst(fs, outs);
    if Collect(fs, data).Failure? {
      var i := FirstTrue(bs).value;
      assert Required(fs[i]) && Extract(fs[i], data, None).Failure?;
      forall j | 0 <= j < i ensures !(Required(fs[j]) && Extract(fs[j], data, None).Failure?) {
        assert !bs[j];
      }
    } else {
      forall i | 0 <= i < |fs| ensures !(Required(fs[i]) && Extract(fs[i], data, None).Failure?) {
        assert !bs[i];
      }
    }
  }

  /** The children's outcomes, in order. */
  function ChildOutcomes(fs: seq<Field>, data: Value): (outs: seq<Result<Value, Error>>)
    ensures |outs| == |fs| && forall i :: 0 <= i < |fs| ==> outs[i] == Extract(fs[i], data, None)
  {
    seq(|fs|, i requires 0 <= i < |fs| => Extract(fs[i], data, None))
  }

  /** `Collect` over outcomes given in advance. */
  function Gather(fs: seq<Field>, outs: seq<Result<Value, Error>>): Result<seq<Value>, Error>
    requires |outs| == |fs|
    decreases |fs|
  {
    if fs == [] then Success([])
    else
      match outs[0]
      case Failure(e) =>
        if Required(fs[0]) then Failure(AccumulationFailed(Name(fs[0]), e)) else Gather(fs[1..], outs[1..])
      case Success(v) =>
        var rest :- Gather(fs[1..], outs[1..]);
        Success(if v == VNone then rest else [v] + rest)
  }

  lemma {:induction false} CollectGather(fs: seq<Field>, data: Value)
    ensures Collect(fs, data) == Gather(fs, ChildOutcomes(fs, data))
    decreases fs
  {
    if fs != [] {
      CollectGather(fs[1..], data);
      OutcomesTail(fs, data);
    }
  }

  lemma OutcomesTail(fs: seq<Field>, data: Value)
    requires fs != []
    ensures ChildOutcomes(fs, data)[1..] == ChildOutcomes(fs[1..], data)
  {
    var outs, rest := ChildOutcomes(fs, data), ChildOutcomes(fs[1..], data);
    assert forall i :: 0 <= i < |rest| ==> outs[1..][i] == outs[i + 1] && fs[1..][i] == fs[i + 1];
  }

  /** Which children raise while required. */
  function Raising(fs: seq<Field>, outs: seq<Result<Value, Error>>): (bs: seq<bool>)
    requires |outs| == |fs|
    ensures |bs| == |fs|
    ensures forall i :: 0 <= i < |fs| ==> bs[i] == (Required(fs[i]) && outs[i].Failure?)
  {
    seq(|fs|, i requires 0 <= i < |fs| => Required(fs[i]) && outs[i].Failure?)
  }

  /** The index of the first true flag. */
  function FirstTrue(bs: seq<bool>): (r: Option<nat>)
    ensures r.Some? ==> r.value < |bs| && bs[r.value] && forall j :: 0 <= j < r.value ==> !bs[j]
    ensures r.None? ==> forall j :: 0 <= j < |bs| ==> !bs[j]
  {
    if bs == [] then None
    else if bs[0] then Some(0)
    else
      var r := FirstTrue(bs[1..]);
      if r.Some? then Some(r.value + 1) else None
  }

  /** Gathering fails at the first child that raises while required. */
  lemma {:induction false} GatherFirst(fs: seq<Field>, outs: seq<Result<Value, Error>>)
    requires |outs| == |fs|
    ensures Gather(fs, outs).Failure? <==> FirstTrue(Raising(fs, outs)).Some?
    ensures Gather(fs, outs).Failure? ==>
              var i := FirstTrue(Raising(fs, outs)).value;
              Gather(fs, outs).error == AccumulationFailed(Name(fs[i]), outs[i].error)
    decreases |fs|
  {
    if fs != [] {
      GatherFirst(fs[1..], outs[1..]);
      var bs := Raising(fs, outs);
      assert bs[1..] == Raising(fs[1..], outs[1..]);
      var r := FirstTrue(bs[1..]);
      if r.Some? {
        assert fs[1..][r.value] == fs[r.value + 1];
      }
    }
  }

  predicate IsNumber(v: Value) { v.VInt? || v.VBool? }

  /** A bool is an int in arithmetic. */
  function NumberValue(v: Value): int
    requires IsNumber(v)
  {
    if v.VInt? then v.i else if v.b then 1 else 0
  }

  /** `_combinevalues` over the closed value type: dicts merge with the right
      side winning, lists concatenate, numbers add, strings join with the
      separator, and anything else is joined as strings. */
  function CombineValues(left: Value, right: Value, sep: string): Value {
    if left.VDict? && right.VDict? then VDict(OrderedMaps.Update(left.entries, right.entries))
    else if left.VList? && right.VList? then VList(left.items + right.items)
    else if IsNumber(left) && IsNumber(right) then VInt(NumberValue(left) + NumberValue(right))
    else if left.VStr? && right.VStr? then VStr(left.s + sep + right.s)
    else VStr(PyStr(left) + sep + PyStr(right))
  }

  /** The left fold of `_accumulatevalues` from an accumulator. */
  function FoldFrom(acc: Value, vs: seq<Value>, sep: string): Value
    decreases |vs|
  {
    if vs == [] then acc else FoldFrom(CombineValues(acc, vs[0], sep), vs[1..], sep)
  }

  function Accumulate(vs: seq<Value>, sep: string): Value
    requires vs != []
  {
    FoldFrom(vs[0], vs[1..], sep)
  }

  predicate AllStrings(vs: seq<Value>) { forall i :: 0 <= i < |vs| ==> vs[i].VStr? }

  function Strs(vs: seq<Value>): (ss: seq<string>)
    requires AllStrings(vs)
    ensures |ss| == |vs| && forall i :: 0 <= i < |vs| ==> ss[i] == vs[i].s
  {
    seq(|vs|, i requires 0 <= i < |vs| => vs[i].s)
  }

  /** Accumulated strings are joined with the separator. */
  lemma {:induction false} AccumulateStrings(vs: seq<Value>, sep: string)
    requires vs != [] && AllStrings(vs)
    ensures Accumulate(vs, sep) == VStr(PyText.Join(sep, Strs(vs)))
  {
    FoldStrings(vs[0].s, vs[1..], sep);
    assert [vs[0].s] + Strs(vs[1..]) == Strs(vs);
  }

  lemma {:induction false} FoldStrings(acc: string, vs: seq<Value>, sep: string)
    requires AllStrings(vs)
    ensures FoldFrom(VStr(acc), vs, sep) == VStr(PyText.Join(sep, [acc] + Strs(vs)))
    decreases |vs|
  {
    if vs == [] {
      assert [acc] + Strs(vs) == [acc];
    } else {
      FoldStrings(acc + sep + vs[0].s, vs[1..], sep);
      JoinFront(sep, acc, vs[0].s, Strs(vs[1..]));
      assert [vs[0].s] + Strs(vs[1..]) == Strs(vs);
      assert [acc] + Strs(vs) == [acc] + ([vs[0].s] + Strs(vs[1..]));
    }
  }

  /** Joining the first two pieces first does not change a join. */
  lemma {:induction false} JoinFront(sep: string, a: string, b: string, rest: seq<string>)
    ensures PyText.Join(sep, [a + sep + b] + rest) == PyText.Join(sep, [a] + ([b] + rest))
    decreases |rest|
  {
    assert ([a] + ([b] + rest))[1..] == [b] + rest;
    if rest == [] {
      assert [a + sep + b] + rest == [a + sep + b];
      assert [b] + rest == [b];
    } else {
      assert ([a + sep + b] + rest)[1..] == rest;
      assert ([b] + rest)[1..] == rest;
    }
  }

  function Sum(vs: seq<Value>): int
    requires forall i :: 0 <= i < |vs| ==> vs[i].VInt?
  {
    if vs == [] then 0 else vs[0].i + Sum(vs[1..])
  }

  /** Accumulated integers are summed. */
  lemma AccumulateInts(vs: seq<Value>, sep: string)
    requires vs != [] && forall i :: 0 <= i < |vs| ==> vs[i].VInt?
    ensures Accumulate(vs, sep) == VInt(Sum(vs))
  {
    FoldInts(vs[0].i, vs[1..], sep);
  }

  lemma {:induction false} FoldInts(acc: int, vs: seq<Value>, sep: string)
    requires forall i :: 0 <= i < |vs| ==> vs[i].VInt?
    ensures FoldFrom(VInt(acc), vs, sep) == VInt(acc + Sum(vs))
    decreases |vs|
  {
    if vs != [] {
      FoldInts(acc + vs[0].i, vs[1..], sep);
    }
  }

  function Concat(vs: seq<Value>): seq<Value>
    requires forall i :: 0 <= i < |vs| ==> vs[i].VList?
  {
    if vs == [] then [] else vs[0].items + Concat(vs[1..])
  }

  /** Accumulated lists are concatenated in order. */
  lemma AccumulateLists(vs: seq<Value>, sep: string)
    requires vs != [] && forall i :: 0 <= i < |vs| ==> vs[i].VList?
    ensures Accumulate(vs, sep) == VList(Concat(vs))
  {
    FoldLists(vs[0].items, vs[1..], sep);
  }

  lemma {:induction false} FoldLists(acc: seq<Value>, vs: seq<Value>, sep: string)
    requires forall i :: 0 <= i < |vs| ==> vs[i].VList?
    ensures FoldFrom(VList(acc), vs, sep) == VList(acc + Concat(vs))
    decreases |vs|
  {
    if vs != [] {
      FoldLists(acc + vs[0].items, vs[1..], sep);
      assert acc + vs[0].items + Concat(vs[1..]) == acc + (vs[0].items + Concat(vs[1..]));
    }
  }

  /** Merging two dicts: a key of the right dict takes the right value, any
      other key keeps the left one. */
  lemma MergeRightWins(left: seq<(Value, Value)>, right: seq<(Value, Value)>, sep: string, k: Value)
    requires OrderedMaps.DistinctKeys(right)
    ensures CombineValues(VDict(left), VDict(right), sep).VDict?
    ensures DictGet(CombineValues(VDict(left), VDict(right), sep).entries, k) ==
              if k in OrderedMaps.Keys(right) then DictGet(right, k) else DictGet(left, k)
  {
    OrderedMaps.UpdateGet(left, right, k);
  }

  /** `vs` put in front of a collection that succeeded. */
  function Prepend(vs: seq<Value>, r: Result<seq<Value>, Error>): Result<seq<Value>, Error> {
    if r.Failure? then r else Success(vs + r.value)
  }

  /** One child of the collecting loop. */
  lemma CollectStep(fs: seq<Field>, data: Value, vs: seq<Value>, first: Result<Value, Error>)
    requires fs != [] && first == Extract(fs[0], data, None)
    ensures first.Failure? && Required(fs[0]) ==>
              Prepend(vs, Collect(fs, data)) == Failure(AccumulationFailed(Name(fs[0]), first.error))
    ensures first.Failure? && !Required(fs[0]) ==> Prepend(vs, Collect(fs, data)) == Prepend(vs, Collect(fs[1..], data))
    ensures first == Success(VNone) ==> Prepend(vs, Collect(fs, data)) == Prepend(vs, Collect(fs[1..], data))
    ensures first.Success? && first.value != VNone ==>
              Prepend(vs, Collect(fs, data)) == Prepend(vs + [first.value], Collect(fs[1..], data))
  {
    var rest := Collect(fs[1..], data);
    if first.Success? && first.value != VNone && rest.Success? {
      assert vs + ([first.value] + rest.value) == (vs + [first.value]) + rest.value;
    }
  }

  /** The collecting loop of `AccumulatedField.extract`. */
  method CollectValues(fs: seq<Field>, data: Value) returns (r: Result<seq<Value>, Error>)
    ensures r == Collect(fs, data)
  {
    var values: seq<Value> := [];
    ghost var outs := ChildOutcomes(fs, data);
    CollectGather(fs, data);
    GatherEnds(fs, outs, values);
    var i := 0;
    while i < |fs|
      invariant 0 <= i <= |fs|
      invariant Gather(fs, outs) == Prepend(values, Gather(fs[i..], outs[i..]))
    {
      var value := Extract(fs[i], data, None);
      assert value == outs[i];
      GatherStepAt(fs, outs, i, values);
      if value.Failure? {
        if Required(fs[i]) {
          return Failure(AccumulationFailed(Name(fs[i]), value.error));
        }
      } else if value.value != VNone {
        values := values + [value.value];
      }
      i := i + 1;
    }
    GatherEnds(fs, outs, values);
    r := Success(values);
  }

  /** The collecting loop's invariant at its first and last turn. */
  lemma GatherEnds(fs: seq<Field>, outs: seq<Result<Value, Error>>, vs: seq<Value>)
    requires |outs| == |fs|
    ensures vs == [] ==> Gather(fs, outs) == Prepend(vs, Gather(fs[0..], outs[0..]))
    ensures Prepend(vs, Gather(fs[|fs|..], outs[|fs|..])) == Success(vs)
  {
    assert fs[0..] == fs && outs[0..] == outs;
    assert fs[|fs|..] == [] && outs[|fs|..] == [] && vs + [] == vs;
    var g := Gather(fs, outs);
    if g.Success? {
      assert [] + g.value == g.value;
    }
  }

  /** `GatherStep` at index `i`. */
  lemma GatherStepAt(fs: seq<Field>, outs: seq<Result<Value, Error>>, i: nat, vs: seq<Value>)
    requires |outs| == |fs| && i < |fs|
    ensures outs[i].Failure? && Required(fs[i]) ==>
              Prepend(vs, Gather(fs[i..], outs[i..])) == Failure(AccumulationFailed(Name(fs[i]), outs[i].error))
    ensures outs[i].Failure? && !Required(fs[i]) ==> Prepend(vs, Gather(fs[i..], outs[i..])) == Prepend(vs, Gather(fs[i + 1..], outs[i + 1..]))
    ensures outs[i] == Success(VNone) ==> Prepend(vs, Gather(fs[i..], outs[i..])) == Prepend(vs, Gather(fs[i + 1..], outs[i + 1..]))
    ensures outs[i].Success? && outs[i].value != VNone ==>
              Prepend(vs, Gather(fs[i..], outs[i..])) == Prepend(vs + [outs[i].value], Gather(fs[i + 1..], outs[i + 1..]))
  {
    assert fs[i..][0] == fs[i] && fs[i..][1..] == fs[i + 1..];
    assert outs[i..][0] == outs[i] && outs[i..][1..] == outs[i + 1..];
    GatherStep(fs[i..], outs[i..], vs);
  }

  /** `CollectStep` over outcomes given in advance. */
  lemma GatherStep(fs: seq<Field>, outs: seq<Result<Value, Error>>, vs: seq<Value>)
    requires |outs| == |fs| && fs != []
    ensures outs[0].Failure? && Required(fs[0]) ==>
              Prepend(vs, Gather(fs, outs)) == Failure(AccumulationFailed(Name(fs[0]), outs[0].error))
    ensures outs[0].Failure? && !Required(fs[0]) ==> Prepend(vs, Gather(fs, outs)) == Prepend(vs, Gather(fs[1..], outs[1..]))
    ensures outs[0] == Success(VNone) ==> Prepend(vs, Gather(fs, outs)) == Prepend(vs, Gather(fs[1..], outs[1..]))
    ensures outs[0].Success? && outs[0].value != VNone ==>
              Prepend(vs, Gather(fs, outs)) == Prepend(vs + [outs[0].value], Gather(fs[1..], outs[1..]))
  {
    var rest := Gather(fs[1..], outs[1..]);
    if outs[0].Success? && outs[0].value != VNone && rest.Success? {
      assert vs + ([outs[0].value] + rest.value) == (vs + [outs[0].value]) + rest.value;
    }
  }

  /** The combining loop of `_accumulatevalues`. */
  method AccumulateValues(values: seq<Value>, sep: string) returns (acc: Value)
    requires values != []
    ensures acc == Accumulate(values, sep)
  {
    acc := values[0];
    var j := 1;
    while j < |values|
      invariant 1 <= j <= |values|
      invariant Accumulate(values, sep) == FoldFrom(acc, values[j..], sep)
    {
      assert values[j..][0] == values[j] && values[j..][1..] == values[j + 1..];
      acc := CombineValues(acc, values[j], sep);
      j := j + 1;
    }
  }

  /** `AccumulatedField.extract`: collect, then combine. */
  method AccumulatedExtract(n: Option<string>, fs: seq<Field>, sep: string, data: Value) returns (r: Result<Value, Error>)
    ensures r == Extract(Accumulated(n, fs, sep), data, None)
  {
    var collected := CollectValues(fs, data);
    AccumulatedUnfold(n, fs, sep, data);
    if collected.Failure? {
      return Failure(collected.error);
    }
    var values := collected.value;
    if values == [] {
      if AnyRequired(fs) {
        return Failure(NoAccumulatedValues);
      }
      return Success(VNone);
    }
    var acc := AccumulateValues(values, sep);
    r := Success(acc);
  }

  /** What an accumulated field makes of its collected values. */
  function AccumulatedOutcome(collected: Result<seq<Value>, Error>, fs: seq<Field>, sep: string): Result<Value, Error> {
    match collected
    case Failure(e) => Failure(e)
    case Success(values) =>
      if values == [] then
        if AnyRequired(fs) then Failure(NoAccumulatedValues) else Success(VNone)
      else Success(Accumulate(values, sep))
  }

  lemma AccumulatedUnfold(n: Option<string>, fs: seq<Field>, sep: string, data: Value)
    ensures Extract(Accumulated(n, fs, sep), data, None) == AccumulatedOutcome(Collect(fs, data), fs, sep)
  {
  }

  // ------------------------------------------------------------- assignment

  /** The key a combined child's value is looked up under: `field.name`, which may be None. */
  function NameKey(f: Field): Value {
    if Name(f).Some? then VStr(Name(f).value) else VNone
  }

  /** `field.assign(target, value)`: the target after the write, with the
      exception if one was raised (earlier writes stay). */
  function Assign(f: Field, root: Value, value: Value): (w: Written)
    decreases f, 0
  {
    match f
    case Plain(c) => AssignLeaf(c, root, value)
    case Source(c, _, _) => AssignLeaf(c, root, value)
    case Target(c, fmt, cond, add, cs) => TargetAssign(c, fmt, cond, add, cs, root, value)
    case Fallback(_, p, _) => Assign(p, root, value)
    case Combined(_, fs) =>
      if value.VDict? then AssignMatching(fs, root, value.entries) else AssignEach(fs, root, value)
    case Nested(_, inner, path) => AssignAt(inner, root, DotParts(path), value, path, TypeName(root))
    case Accumulated(_, fs, _) =>
      if fs == [] then Written(root, Some(Raised(IndexError, "list index out of range")))
      else Assign(fs[0], root, value)
  }

  /** A scalar given to a combined field is assigned through every child. */
  function AssignEach(fs: seq<Field>, root: Value, value: Value): (w: Written)
    ensures fs == [] ==> w == Written(root, None)
    decreases fs
  {
    if fs == [] then Written(root, None)
    else
      var first := Assign(fs[0], root, value);
      if first.raised.Some? then first else AssignEach(fs[1..], first.target, value)
  }

  /** A dict given to a combined field: each child whose name is a key gets that entry. */
  function AssignMatching(fs: seq<Field>, root: Value, entries: seq<(Value, Value)>): (w: Written)
    ensures fs == [] ==> w == Written(root, None)
    decreases fs
  {
    if fs == [] then Written(root, None)
    else
      match DictGet(entries, NameKey(fs[0]))
      case None => AssignMatching(fs[1..], root, entries)
      case Some(v) =>
        var first := Assign(fs[0], root, v);
        if first.raised.Some? then first else AssignMatching(fs[1..], first.target, entries)
  }

  /** Children that write through the leaf `assign` of a plain or source field. */
  predicate LeafWriters(fs: seq<Field>) {
    forall i :: 0 <= i < |fs| ==> fs[i].Plain? || fs[i].Source?
  }

  /** The segments of a leaf child's target (none when it has no target). */
  function TargetParts(f: Field): seq<string>
    requires f.IsLeaf()
  {
    if f.config.target.Some? then DotParts(f.config.target.value) else []
  }

  /** A leaf child's successful assign is the write at its target. */
  lemma LeafAssignWrites(f: Field, root: Value, value: Value)
    requires f.Plain? || f.Source?
    requires Assign(f, root, value).raised.None?
    ensures f.config.target.Some?
    ensures Assign(f, root, value) == ApplyTargetValue(f.config.target, f.config.name, root, value)
  {
  }

  lemma LeafWritersTail(fs: seq<Field>)
    requires fs != [] && LeafWriters(fs)
    ensures LeafWriters(fs[1..])
  {
    forall m | 0 <= m < |fs[1..]| ensures fs[1..][m].Plain? || fs[1..][m].Source? {
      assert fs[1..][m] == fs[m + 1];
    }
  }

  /** The first child of a successful `AssignEach`. */
  lemma AssignEachUnfold(fs: seq<Field>, root: Value, value: Value)
    requires fs != [] && (fs[0].Plain? || fs[0].Source?)
    requires AssignEach(fs, root, value).raised.None?
    ensures fs[0].config.target.Some?
    ensures ApplyTargetValue(fs[0].config.target, fs[0].config.name, root, value).raised.None?
    ensures AssignEach(fs, root, value)
      == AssignEach(fs[1..], ApplyTargetValue(fs[0].config.target, fs[0].config.name, root, value).target, value)
  {
    var first := Assign(fs[0], root, value);
    assert first.raised.None?;
    LeafAssignWrites(fs[0], root, value);
  }

  /** A scalar assigned through a combined field of leaf children changes
      nothing that a path diverging from every child's target reads. */
  lemma {:induction false} AssignEachFrame(fs: seq<Field>, root: Value, value: Value, p: seq<string>)
    requires LeafWriters(fs)
    requires AssignEach(fs, root, value).raised.None?
    requires forall m :: 0 <= m < |fs| ==> Diverge(p, TargetParts(fs[m]))
    ensures Walk(AssignEach(fs, root, value).target, p) == Walk(root, p)
    decreases |fs|
  {
    if fs != [] {
      var c := fs[0].config;
      AssignEachUnfold(fs, root, value);
      ApplyFrame(c.target.value, c.name, root, value, p);
      LeafWritersTail(fs);
      forall m | 0 <= m < |fs[1..]| ensures Diverge(p, TargetParts(fs[1..][m])) {
        assert fs[1..][m] == fs[m + 1];
      }
      AssignEachFrame(fs[1..], ApplyTargetValue(c.target, c.name, root, value).target, value, p);
    }
  }

  /** After a scalar is assigned through a combined field of leaf children,
      every child whose target diverges from the targets of the later
      children reads the scalar back. */
  lemma {:induction false} AssignEachReads(fs: seq<Field>, root: Value, value: Value, k: nat)
    requires LeafWriters(fs)
    requires AssignEach(fs, root, value).raised.None?
    requires k < |fs|
    requires forall m :: k < m < |fs| ==> Diverge(TargetParts(fs[k]), TargetParts(fs[m]))
    ensures Walk(AssignEach(fs, root, value).target, TargetParts(fs[k])) == Found(value)
    decreases |fs|
  {
    var c := fs[0].config;
    AssignEachUnfold(fs, root, value);
    LeafWritersTail(fs);
    var next := ApplyTargetValue(c.target, c.name, root, value).target;
    if k == 0 {
      ApplyReads(c.target.value, c.name, root, value);
      forall m | 0 <= m < |fs[1..]| ensures Diverge(TargetParts(fs[0]), TargetParts(fs[1..][m])) {
        assert fs[1..][m] == fs[m + 1];
      }
      AssignEachFrame(fs[1..], next, value, TargetParts(fs[0]));
    } else {
      forall m | k - 1 < m < |fs[1..]| ensures Diverge(TargetParts(fs[1..][k - 1]), TargetParts(fs[1..][m])) {
        assert fs[1..][m] == fs[m + 1];
      }
      AssignEachReads(fs[1..], next, value, k - 1);
    }
  }

  /** The first child of a successful `AssignMatching` that is named in the dict. */
  lemma AssignMatchingUnfold(fs: seq<Field>, root: Value, entries: seq<(Value, Value)>)
    requires fs != [] && (fs[0].Plain? || fs[0].Source?)
    requires AssignMatching(fs, root, entries).raised.None?
    requires DictGet(entries, NameKey(fs[0])).Some?
    ensures fs[0].config.target.Some?
    ensures ApplyTargetValue(fs[0].config.target, fs[0].config.name, root, DictGet(entries, NameKey(fs[0])).value).raised.None?
    ensures AssignMatching(fs, root, entries)
      == AssignMatching(fs[1..], ApplyTargetValue(fs[0].config.target, fs[0].config.name, root, DictGet(entries, NameKey(fs[0])).value).target, entries)
  {
    var first := Assign(fs[0], root, DictGet(entries, NameKey(fs[0])).value);
    assert first.raised.None?;
    LeafAssignWrites(fs[0], root, DictGet(entries, NameKey(fs[0])).value);
  }

  /** A dict assigned through a combined field of leaf children changes
      nothing that a path diverging from the target of every child named in
      the dict reads; a child not named writes nothing. */
  lemma {:induction false} AssignMatchingFrame(fs: seq<Field>, root: Value, entries: seq<(Value, Value)>, p: seq<string>)
    requires LeafWriters(fs)
    requires AssignMatching(fs, root, entries).raised.None?
    requires forall m :: 0 <= m < |fs| && DictGet(entries, NameKey(fs[m])).Some? ==> Diverge(p, TargetParts(fs[m]))
    ensures Walk(AssignMatching(fs, root, entries).target, p) == Walk(root, p)
    decreases |fs|
  {
    if fs != [] {
      LeafWritersTail(fs);
      forall m | 0 <= m < |fs[1..]| && DictGet(entries, NameKey(fs[1..][m])).Some?
        ensures Diverge(p, TargetParts(fs[1..][m]))
      {
        assert fs[1..][m] == fs[m + 1];
      }
      var c := fs[0].config;
      if DictGet(entries, NameKey(fs[0])).None? {
        AssignMatchingFrame(fs[1..], root, entries, p);
      } else {
        var v := DictGet(entries, NameKey(fs[0])).value;
        AssignMatchingUnfold(fs, root, entries);
        ApplyFrame(c.target.value, c.name, root, v, p);
        AssignMatchingFrame(fs[1..], ApplyTargetValue(c.target, c.name, root, v).target, entries, p);
      }
    }
  }

  /** After a dict is assigned through a combined field of leaf children,
      every child named in the dict whose target diverges from the targets
      of the later children reads its own entry back. */
  lemma {:induction false} AssignMatchingReads(fs: seq<Field>, root: Value, entries: seq<(Value, Value)>, k: nat)
    requires LeafWriters(fs)
    requires AssignMatching(fs, root, entries).raised.None?
    requires k < |fs| && DictGet(entries, NameKey(fs[k])).Some?
    requires forall m :: k < m < |fs| ==> Diverge(TargetParts(fs[k]), TargetParts(fs[m]))
    ensures Walk(AssignMatching(fs, root, entries).target, TargetParts(fs[k])) == Found(DictGet(entries, NameKey(fs[k])).value)
    decreases |fs|
  {
    if k == 0 {
      MatchingReadsFirst(fs, root, entries);
    } else {
      LeafWritersTail(fs);
      forall m | k - 1 < m < |fs[1..]| ensures Diverge(TargetParts(fs[1..][k - 1]), TargetParts(fs[1..][m])) {
        assert fs[1..][m] == fs[m + 1];
      }
      var next := AssignMatchingNext(fs, root, entries);
      AssignMatchingReads(fs[1..], next, entries, k - 1);
    }
  }

  /** The root the rest of the children of a successful `AssignMatching` write into. */
  lemma AssignMatchingNext(fs: seq<Field>, root: Value, entries: seq<(Value, Value)>) returns (next: Value)
    requires fs != [] && (fs[0].Plain? || fs[0].Source?)
    requires AssignMatching(fs, root, entries).raised.None?
    ensures AssignMatching(fs[1..], next, entries) == AssignMatching(fs, root, entries)
  {
    if DictGet(entries, NameKey(fs[0])).None? {
      next := root;
    } else {
      AssignMatchingUnfold(fs, root, entries);
      next := ApplyTargetValue(fs[0].config.target, fs[0].config.name, root, DictGet(entries, NameKey(fs[0])).value).target;
    }
  }

  lemma MatchingReadsFirst(fs: seq<Field>, root: Value, entries: seq<(Value, Value)>)
    requires LeafWriters(fs)
    requires AssignMatching(fs, root, entries).raised.None?
    requires |fs| > 0 && DictGet(entries, NameKey(fs[0])).Some?
    requires forall m :: 0 < m < |fs| ==> Diverge(TargetParts(fs[0]), TargetParts(fs[m]))
    ensures Walk(AssignMatching(fs, root, entries).target, TargetParts(fs[0])) == Found(DictGet(entries, NameKey(fs[0])).value)
  {
    LeafWritersTail(fs);
    var c := fs[0].config;
    var v := DictGet(entries, NameKey(fs[0])).value;
    AssignMatchingUnfold(fs, root, entries);
    ApplyReads(c.target.value, c.name, root, v);
    forall m | 0 <= m < |fs[1..]| && DictGet(entries, NameKey(fs[1..][m])).Some?
      ensures Diverge(TargetParts(fs[0]), TargetParts(fs[1..][m]))
    {
      assert fs[1..][m] == fs[m + 1];
    }
    AssignMatchingFrame(fs[1..], ApplyTargetValue(c.target, c.name, root, v).target, entries, TargetParts(fs[0]));
  }


  /** `_getorcreatenested` followed by the inner assignment: a missing dict key
      or object attribute along `parts` (the last one included) becomes `{}`,
      the inner field writes into the sub-object, and the change is visible
      from `current`. */
  function AssignAt(inner: Field, current: Value, parts: seq<string>, value: Value, path: string, rootType: string): (w: Written)
    decreases inner, 1, |parts|
  {
    if parts == [] then Assign(inner, current, value)
    else
      match current
      case VDict(es) =>
        var child := DictGet(es, VStr(parts[0])).GetOr(VDict([]));
        var w := AssignAt(inner, child, parts[1..], value, path, rootType);
        Written(VDict(OrderedMaps.Set(es, VStr(parts[0]), w.target)), w.raised)
      case VObj(attrs) =>
        var child := AttrGet(attrs, parts[0]).GetOr(VDict([]));
        var w := AssignAt(inner, child, parts[1..], value, path, rootType);
        Written(VObj(OrderedMaps.Set(attrs, parts[0], w.target)), w.raised)
      case VList(_) => Written(current, Some(ListIndexError()))
      case _ => Written(current, Some(CannotCreateNested(path, rootType)))
  }

  /** A dict along a nested path keeps its other keys, and gains the path's
      first segment only when it was missing. */
  lemma AssignAtKeepsSiblings(inner: Field, es: seq<(Value, Value)>, parts: seq<string>, value: Value, path: string, rootType: string, k: Value)
    requires parts != [] && k != VStr(parts[0])
    ensures AssignAt(inner, VDict(es), parts, value, path, rootType).target.VDict?
    ensures DictGet(AssignAt(inner, VDict(es), parts, value, path, rootType).target.entries, k) == DictGet(es, k)
    ensures OrderedMaps.Keys(AssignAt(inner, VDict(es), parts, value, path, rootType).target.entries) ==
              if VStr(parts[0]) in OrderedMaps.Keys(es) then OrderedMaps.Keys(es) else OrderedMaps.Keys(es) + [VStr(parts[0])]
  {
  }

  /** A field read back from where it was written: a leaf whose source and
      target are the same path reads `value` after a nested field assigns it
      under `parts`, when no pipeline stage changes it. */
  lemma {:induction false} NestedRoundTrip(c: Config, current: Value, parts: seq<string>, value: Value, path: string, rootType: string)
    requires c.source.Some? && c.target == c.source
    requires c.transform.None? && c.ftype.None? && c.mapping.None? && c.choices.None? && c.validator.None?
    requires !c.conditional && value != VNone
    requires AssignAt(Plain(c), current, parts, value, path, rootType).raised.None?
    ensures AssignAt(Plain(c), current, parts, value, path, rootType).target.VDict? ||
            AssignAt(Plain(c), current, parts, value, path, rootType).target.VObj?
    ensures Walk(AssignAt(Plain(c), current, parts, value, path, rootType).target, parts).Some?
    ensures Extract(Plain(c), Walk(AssignAt(Plain(c), current, parts, value, path, rootType).target, parts).value, None) == Success(value)
    decreases |parts|
  {
    var w := AssignAt(Plain(c), current, parts, value, path, rootType);
    if parts == [] {
      assert w == ApplyTargetValue(c.target, c.name, current, value);
      ReadAfterWrite(c.source.value, c.name, current, value, c.default);
      PipelineOfPlainField(c, w.target);
    } else {
      NestedStep(c, current, parts, value, path, rootType);
    }
  }

  /** The inductive step of `NestedRoundTrip`: the first segment leads to the
      rewritten child. */
  lemma {:induction false} NestedStep(c: Config, current: Value, parts: seq<string>, value: Value, path: string, rootType: string)
    requires c.source.Some? && c.target == c.source
    requires c.transform.None? && c.ftype.None? && c.mapping.None? && c.choices.None? && c.validator.None?
    requires !c.conditional && value != VNone
    requires parts != []
    requires AssignAt(Plain(c), current, parts, value, path, rootType).raised.None?
    ensures AssignAt(Plain(c), current, parts, value, path, rootType).target.VDict? ||
            AssignAt(Plain(c), current, parts, value, path, rootType).target.VObj?
    ensures Walk(AssignAt(Plain(c), current, parts, value, path, rootType).target, parts).Some?
    ensures Extract(Plain(c), Walk(AssignAt(Plain(c), current, parts, value, path, rootType).target, parts).value, None) == Success(value)
    decreases |parts|, 0
  {
    var child := if current.VDict? then DictGet(current.entries, VStr(parts[0])).GetOr(VDict([]))
                 else AttrGet(current.attrs, parts[0]).GetOr(VDict([]));
    AssignAtStep(Plain(c), current, parts, value, path, rootType);
    NestedRoundTrip(c, child, parts[1..], value, path, rootType);
  }

  /** A nested write that raises nothing makes the first segment lead to the
      rewritten child. */
  lemma AssignAtStep(inner: Field, current: Value, parts: seq<string>, value: Value, path: string, rootType: string)
    requires parts != []
    requires AssignAt(inner, current, parts, value, path, rootType).raised.None?
    ensures current.VDict? || current.VObj?
    ensures var child := if current.VDict? then DictGet(current.entries, VStr(parts[0])).GetOr(VDict([]))
                         else AttrGet(current.attrs, parts[0]).GetOr(VDict([]));
            var w := AssignAt(inner, current, parts, value, path, rootType);
            var cw := AssignAt(inner, child, parts[1..], value, path, rootType);
            (w.target.VDict? || w.target.VObj?) && cw.raised.None? &&
            Step(w.target, parts[0]) == Some(cw.target) &&
            (cw.target != VNone ==> Walk(w.target, parts) == Walk(cw.target, parts[1..]))
  {
    var w := AssignAt(inner, current, parts, value, path, rootType);
    var child := if current.VDict? then DictGet(current.entries, VStr(parts[0])).GetOr(VDict([]))
                 else AttrGet(current.attrs, parts[0]).GetOr(VDict([]));
    var cw := AssignAt(inner, child, parts[1..], value, path, rootType);
    if current.VDict? {
      assert w == Written(VDict(OrderedMaps.Set(current.entries, VStr(parts[0]), cw.target)), cw.raised);
      assert Step(w.target, parts[0]) == Some(cw.target);
    } else {
      assert w == Written(VObj(OrderedMaps.Set(current.attrs, parts[0], cw.target)), cw.raised);
      assert Step(w.target, parts[0]) == Some(cw.target);
    }
  }


  // ---------------------------------------------------------- construction

  /** `CombinedField(fields, name)`: at least one child is needed. */
  function MakeCombined(fields: seq<Field>, name: Option<string>): (r: Result<Field, Error>)
    ensures r.Success? <==> fields != []
    ensures r.Success? ==> r.value == Combined(name, fields) && Required(r.value) == AnyRequired(fields)
  {
    if fields == [] then Failure(EmptyCombined) else Success(Combined(name, fields))
  }

  /** `AccumulatedField(fields, separator, name)`: at least one child is needed. */
  function MakeAccumulated(fields: seq<Field>, sep: string, name: Option<string>): (r: Result<Field, Error>)
    ensures r.Success? <==> fields != []
    ensures r.Success? ==> r.value == Accumulated(name, fields, sep) && Default(r.value) == VNone
  {
    if fields == [] then Failure(EmptyAccumulated) else Success(Accumulated(name, fields, sep))
  }

  /** `a | b`, `a.fallback(b)`: named after the primary, required as the
      primary, defaulting as the fallback. */
  function OrElse(a: Field, b: Field): (f: Field)
    ensures f.Fallback? && f.primary == a && f.fallback == b
    ensures Name(f) == Name(a) && Required(f) == Required(a) && Default(f) == Default(b)
  {
    Fallback(Name(a), a, b)
  }

  /** `a & b`, `a.combine(b)`: a combined field on the left is extended (and
      loses its name), one on the right is flattened into it. */
  function Both(a: Field, b: Field): (f: Field)
    ensures f.Combined? && f.fname.None?
    ensures !a.Combined? ==> f.fields == [a, b]
    ensures a.Combined? && b.Combined? ==> f.fields == a.fields + b.fields
    ensures a.Combined? && !b.Combined? ==> f.fields == a.fields + [b]
  {
    if a.Combined? then
      if b.Combined? then Combined(None, a.fields + b.fields) else Combined(None, a.fields + [b])
    else Combined(None, [a, b])
  }

  /** `a @ path`, `a.nested(path)`. */
  function At(a: Field, path: string): (f: Field)
    ensures f == Nested(None, a, path)
    ensures Required(f) == Required(a) && Default(f) == Default(a) && SourceOf(f) == SourceOf(a) && TargetOf(f) == TargetOf(a)
  {
    Nested(None, a, path)
  }

  /** `a + b`, `a.accumulate(b)`: an accumulated field on the left is extended
      and keeps its separator; one on the right is flattened into it. */
  function Plus(a: Field, b: Field): (f: Field)
    ensures f.Accumulated? && f.fname.None?
    ensures !a.Accumulated? ==> f.fields == [a, b] && f.separator == " "
    ensures a.Accumulated? ==> f.separator == a.separator
    ensures a.Accumulated? ==> f.fields == a.fields + (if b.Accumulated? then b.fields else [b])
  {
    if a.Accumulated? then
      Accumulated(None, a.fields + (if b.Accumulated? then b.fields else [b]), a.separator)
    else Accumulated(None, [a, b], " ")
  }

  /** `&` flattens only from the left: extending a combination keeps every
      child's extraction, and a combination on the right stays one child. */
  lemma BothFlattensLeft(a: Field, b: Field, c: Field)
    requires !a.Combined? && !b.Combined? && !c.Combined?
    ensures Both(Both(a, b), c).fields == [a, b, c]
    ensures Both(a, Both(b, c)).fields == [a, Both(b, c)]
  {
  }

  /** `CombinedField.addfield`. */
  function AddField(f: Field, g: Field): (h: Field)
    requires f.Combined? || f.Accumulated?
    ensures (h.Combined? || h.Accumulated?) && h.fields == f.fields + [g] && Name(h) == Name(f)
    ensures f.Accumulated? ==> h.Accumulated? && h.separator == f.separator
    ensures f.Combined? ==> h.Combined?
  {
    f.(fields := f.fields + [g])
  }

  /** `AccumulatedField.withseparator`. */
  function WithSeparator(f: Field, sep: string): (h: Field)
    requires f.Accumulated?
    ensures h.Accumulated? && h.separator == sep && h.fields == f.fields && Name(h) == Name(f)
  {
    f.(separator := sep)
  }

  /** `NestedField.withpath`. */
  function WithPath(f: Field, path: string): (h: Field)
    requires f.Nested?
    ensures h.Nested? && h.path == path && h.inner == f.inner && Name(h) == Name(f)
  {
    f.(path := path)
  }

  /** `SourceField.addfallback`. */
  function AddFallback(f: Field, path: string): (h: Field)
    requires f.Source?
    ensures h.Source? && h.fallbacks == f.fallbacks + [path] && h.config == f.config
  {
    f.(fallbacks := f.fallbacks + [path])
  }

  /** `TargetField.addtarget`. */
  function AddTarget(f: Field, path: string): (h: Field)
    requires f.Target?
    ensures h.Target? && h.additional == f.additional + [path] && h.config == f.config
  {
    f.(additional := f.additional + [path])
  }
}
