/** The transform combinators (src/schematix/core/bases/transform.py) and
    the factories over them (src/schematix/core/transform.py): wrapped
    functions, pipelines (a left fold), fallbacks (try, else) and parallel
    transforms (map, then combine). */
module Transforms {
  import opened Wrappers
  import opened Values
  import opened Errors
  import PyText

  /** The context dict handed to context-aware functions. */
  type Context = seq<(Value, Value)>

  /** A wrapped Python function. Its second argument is `None` when it is
      called with the value alone and the context when it is called with two. */
  type Func = (Value, Option<Context>) -> Result<Value, Error>

  /** A function called with a list of positional arguments (`func(*args)`). */
  type Spread = seq<Value> -> Result<Value, Error>

  /** What a `Transform` calls: a user function, or one of the two closures
      the factories build (both context aware). */
  datatype Body =
    | Call(func: Func, contextaware: bool)
    | MultiField(fields: seq<string>, spread: Spread)
    | Conditional(condition: Predicate, whentrue: Transform, whenfalse: Option<Transform>)

  /** `Transform`, `PipelineTransform`, `FallbackTransform` and
      `ParallelTransform`. A parallel transform without a combiner returns
      its list of results. */
  datatype Transform =
    | Wrapped(body: Body, name: Option<string>, description: Option<string>)
    | Pipeline(transforms: seq<Transform>, name: Option<string>, description: Option<string>)
    | Fallback(primary: Transform, backup: Transform, name: Option<string>, description: Option<string>)
    | Parallel(transforms: seq<Transform>, combiner: Option<Callable>, name: Option<string>, description: Option<string>)

  // --------------------------------------------------------------- applying

  /** `context or {}`. */
  function Given(ctx: Option<Context>): (c: Context)
    ensures ctx.None? ==> c == []
    ensures ctx.Some? ==> c == ctx.value
  {
    if ctx.None? then [] else ctx.value
  }

  /** `context.get(field)` for each field, None for a missing one. */
  function FieldValues(fields: seq<string>, c: Context): (vs: seq<Value>)
    ensures |vs| == |fields|
    ensures forall i :: 0 <= i < |fields| && DictGet(c, VStr(fields[i])).None? ==> vs[i] == VNone
    ensures forall i :: 0 <= i < |fields| && DictGet(c, VStr(fields[i])).Some? ==> vs[i] == DictGet(c, VStr(fields[i])).value
  {
    seq(|fields|, i requires 0 <= i < |fields| => var g := DictGet(c, VStr(fields[i])); if g.Some? then g.value else VNone)
  }

  /** `t.apply(value, context)`; `validate` returns its value unchanged. */
  function Apply(t: Transform, v: Value, ctx: Option<Context>): Result<Value, Error>
    decreases t, 1
  {
    match t
    case Wrapped(body, _, _) => Invoke(body, v, ctx)
    case Pipeline(ts, _, _) => Chain(ts, v, ctx)
    case Fallback(p, b, _, _) =>
      (match Apply(p, v, ctx)
       case Success(r) => Success(r)
       case Failure(_) => Apply(b, v, ctx))
    case Parallel(ts, c, _, _) =>
      var rs :- Each(ts, v, ctx);
      Combine(c, rs)
  }

  /** `Transform.apply` past `validate`: a context-aware function gets
      `context or {}`, any other the value alone. */
  function Invoke(body: Body, v: Value, ctx: Option<Context>): Result<Value, Error>
    decreases body
  {
    match body
    case Call(f, aware) => if aware then f(v, Some(Given(ctx))) else f(v, None)
    case MultiField(fields, g) => g(FieldValues(fields, Given(ctx)))
    case Conditional(c, t, f) =>
      var holds :- c(v);
      if holds then Apply(t, v, Some(Given(ctx)))
      else if f.Some? then Apply(f.value, v, Some(Given(ctx)))
      else Success(v)
  }

  /** The pipeline's loop: each child applied to the previous result, with
      the same context; the first error propagates. */
  function Chain(ts: seq<Transform>, v: Value, ctx: Option<Context>): Result<Value, Error>
    decreases ts
  {
    if ts == [] then Success(v)
    else
      var r :- Apply(ts[0], v, ctx);
      Chain(ts[1..], r, ctx)
  }

  /** The parallel transform's loop: every child applied to the same value,
      results in child order; the first error propagates. */
  function Each(ts: seq<Transform>, v: Value, ctx: Option<Context>): Result<seq<Value>, Error>
    decreases ts
  {
    if ts == [] then Success([])
    else
      var r :- Apply(ts[0], v, ctx);
      var rest :- Each(ts[1..], v, ctx);
      Success([r] + rest)
  }

  /** `self.combiner(results)`, the default combiner returning the list. */
  function Combine(c: Option<Callable>, rs: seq<Value>): (r: Result<Value, Error>)
    ensures c.None? ==> r == Success(VList(rs))
    ensures c.Some? ==> r == c.value(VList(rs))
  {
    if c.None? then Success(VList(rs)) else c.value(VList(rs))
  }

  /** A missing context and an empty one are alike: every path that hands
      the context to a function passes `context or {}`. */
  lemma {:induction false} NoContextIsEmpty(t: Transform, v: Value)
    ensures Apply(t, v, None) == Apply(t, v, Some([]))
    decreases t, 1
  {
    match t
    case Wrapped(_, _, _) =>
    case Pipeline(ts, _, _) => ChainNoContext(ts, v);
    case Fallback(p, b, _, _) => NoContextIsEmpty(p, v); NoContextIsEmpty(b, v);
    case Parallel(ts, _, _, _) => EachNoContext(ts, v);
  }

  lemma {:induction false} ChainNoContext(ts: seq<Transform>, v: Value)
    ensures Chain(ts, v, None) == Chain(ts, v, Some([]))
    decreases ts
  {
    if ts != [] {
      NoContextIsEmpty(ts[0], v);
      if Apply(ts[0], v, None).Success? {
        ChainNoContext(ts[1..], Apply(ts[0], v, None).value);
      }
    }
  }

  lemma {:induction false} EachNoContext(ts: seq<Transform>, v: Value)
    ensures Each(ts, v, None) == Each(ts, v, Some([]))
    decreases ts
  {
    if ts != [] {
      NoContextIsEmpty(ts[0], v);
      EachNoContext(ts[1..], v);
    }
  }

  // ------------------------------------------------------------- pipelines

  /** Running the children of `a + b` runs those of `a`, then those of `b`
      on its result; an error in `a` stops there. */
  lemma {:induction false} ChainAppend(a: seq<Transform>, b: seq<Transform>, v: Value, ctx: Option<Context>)
    ensures Chain(a, v, ctx).Failure? ==> Chain(a + b, v, ctx) == Chain(a, v, ctx)
    ensures Chain(a, v, ctx).Success? ==> Chain(a + b, v, ctx) == Chain(b, Chain(a, v, ctx).value, ctx)
    decreases a
  {
    if a == [] {
      assert a + b == b;
    } else {
      assert (a + b)[0] == a[0] && (a + b)[1..] == a[1..] + b;
      if Apply(a[0], v, ctx).Success? {
        ChainAppend(a[1..], b, Apply(a[0], v, ctx).value, ctx);
      }
    }
  }

  /** `PipelineTransform.apply` as written: `result` reassigned in a loop. */
  method ApplyPipeline(t: Transform, v: Value, ctx: Option<Context>) returns (r: Result<Value, Error>)
    requires t.Pipeline?
    ensures r == Apply(t, v, ctx)
  {
    var ts := t.transforms;
    var result := v;
    var i := 0;
    assert ts[0..] == ts;
    while i < |ts|
      invariant 0 <= i <= |ts|
      invariant Chain(ts, v, ctx) == Chain(ts[i..], result, ctx)
    {
      assert ts[i..][0] == ts[i] && ts[i..][1..] == ts[i + 1..];
      var step := Apply(ts[i], result, ctx);
      if step.Failure? {
        return Failure(step.error);
      }
      result := step.value;
      i := i + 1;
    }
    r := Success(result);
  }

  /** `name or <default>`: an empty name counts as missing. */
  function NameOr(name: Option<string>, default: string): (n: Option<string>)
    ensures n.Some?
    ensures name.Some? && name.value != "" ==> n == name
    ensures name.None? || name.value == "" ==> n == Some(default)
  {
    if name.Some? && name.value != "" then name else Some(default)
  }

  /** `PipelineTransform(transforms, name, description)`: at least one child,
      named after the number of children by default. */
  function MakePipeline(ts: seq<Transform>, name: Option<string>, description: Option<string>): (r: Result<Transform, Error>)
    ensures r.Failure? <==> ts == []
    ensures r.Failure? ==> r.error == EmptyPipeline
    ensures r.Success? ==> r.value.Pipeline? && r.value.transforms == ts && r.value.description == description
    ensures r.Success? ==> r.value.name == NameOr(name, "Pipeline(" + NatToString(|ts|) + " transforms)")
  {
    if ts == [] then Failure(EmptyPipeline)
    else Success(Pipeline(ts, NameOr(name, "Pipeline(" + NatToString(|ts|) + " transforms)"), description))
  }

  /** A built pipeline applies its children left to right. */
  lemma PipelineFolds(ts: seq<Transform>, name: Option<string>, description: Option<string>, v: Value, ctx: Option<Context>)
    requires ts != []
    ensures Apply(MakePipeline(ts, name, description).value, v, ctx) == Chain(ts, v, ctx)
    ensures Apply(MakePipeline(ts, name, description).value, v, ctx).Success? ==>
              Apply(ts[0], v, ctx).Success? &&
              Apply(MakePipeline(ts, name, description).value, v, ctx) == Chain(ts[1..], Apply(ts[0], v, ctx).value, ctx)
  {
  }

  /** The children `>>` joins: a pipeline contributes its own. */
  function Stages(t: Transform): (ts: seq<Transform>)
    ensures t.Pipeline? ==> ts == t.transforms
    ensures !t.Pipeline? ==> ts == [t]
  {
    if t.Pipeline? then t.transforms else [t]
  }

  /** `p >> q` and `p.then(q)`: the base operator builds `[p, q]`; a pipeline
      on the left concatenates another pipeline's children or appends. The
      result has the default name and no description. */
  function Then(p: Transform, q: Transform): (r: Result<Transform, Error>)
    ensures r.Success? <==> !(p.Pipeline? && q.Pipeline? && p.transforms == [] && q.transforms == [])
    ensures r.Success? ==> r.value.Pipeline? && r.value.description == None
    ensures r.Success? ==> r.value.transforms == (if p.Pipeline? then Stages(p) + Stages(q) else [p, q])
  {
    if p.Pipeline? then MakePipeline(p.transforms + Stages(q), None, None)
    else MakePipeline([p, q], None, None)
  }

  /** Whatever the operands, `p >> q` applies `p`, then `q` to its result. */
  lemma ThenComposes(p: Transform, q: Transform, v: Value, ctx: Option<Context>)
    requires Then(p, q).Success?
    ensures Apply(p, v, ctx).Failure? ==> Apply(Then(p, q).value, v, ctx) == Apply(p, v, ctx)
    ensures Apply(p, v, ctx).Success? ==> Apply(Then(p, q).value, v, ctx) == Apply(q, Apply(p, v, ctx).value, ctx)
  {
    var r := Then(p, q).value;
    if p.Pipeline? {
      ChainAppend(p.transforms, Stages(q), v, ctx);
      if !q.Pipeline? && Apply(p, v, ctx).Success? {
        ChainSingle(q, Apply(p, v, ctx).value, ctx);
      }
    } else {
      ChainAppend([p], [q], v, ctx);
      ChainSingle(p, v, ctx);
      if Apply(p, v, ctx).Success? {
        ChainSingle(q, Apply(p, v, ctx).value, ctx);
      }
    }
  }

  /** A one-child chain is its child. */
  lemma ChainSingle(t: Transform, v: Value, ctx: Option<Context>)
    ensures Chain([t], v, ctx) == Apply(t, v, ctx)
  {
    assert [t][1..] == [];
  }

  /** `pipeline.add(t)`: a new pipeline with `t` appended, keeping the name
      and the description. */
  function Add(p: Transform, t: Transform): (r: Result<Transform, Error>)
    requires p.Pipeline?
    ensures r.Success? && r.value.Pipeline?
    ensures r.value.transforms == p.transforms + [t] && r.value.description == p.description
    ensures p.name.Some? && p.name.value != "" ==> r.value.name == p.name
  {
    MakePipeline(p.transforms + [t], p.name, p.description)
  }

  /** The added child runs last. */
  lemma AddRunsLast(p: Transform, t: Transform, v: Value, ctx: Option<Context>)
    requires p.Pipeline?
    ensures Apply(p, v, ctx).Failure? ==> Apply(Add(p, t).value, v, ctx) == Apply(p, v, ctx)
    ensures Apply(p, v, ctx).Success? ==> Apply(Add(p, t).value, v, ctx) == Apply(t, Apply(p, v, ctx).value, ctx)
  {
    ChainAppend(p.transforms, [t], v, ctx);
    if Apply(p, v, ctx).Success? {
      ChainSingle(t, Apply(p, v, ctx).value, ctx);
    }
  }

  // ------------------------------------------------------------- fallbacks

  /** `FallbackTransform(primary, backup, name, description)`, also `p | q`,
      `p.fallback(q)` and `fallback(p, q)`, which pass no name. The primary's
      result is kept whenever it does not raise, None included. */
  function MakeFallback(p: Transform, b: Transform, name: Option<string>, description: Option<string>): (r: Transform)
    ensures r.Fallback? && r.primary == p && r.backup == b && r.description == description
    ensures r.name == NameOr(name, "Fallback(" + NameText(p.name) + " | " + NameText(b.name) + ")")
    ensures forall v, ctx :: Apply(p, v, ctx).Success? ==> Apply(r, v, ctx) == Apply(p, v, ctx)
    ensures forall v, ctx :: Apply(p, v, ctx).Failure? ==> Apply(r, v, ctx) == Apply(b, v, ctx)
  {
    Fallback(p, b, NameOr(name, "Fallback(" + NameText(p.name) + " | " + NameText(b.name) + ")"), description)
  }

  /** A fallback fails only when both sides fail, and then with the backup's error. */
  lemma FallbackFailsIffBoth(p: Transform, b: Transform, v: Value, ctx: Option<Context>)
    ensures Apply(MakeFallback(p, b, None, None), v, ctx).Failure? <==> Apply(p, v, ctx).Failure? && Apply(b, v, ctx).Failure?
    ensures Apply(MakeFallback(p, b, None, None), v, ctx).Failure? ==>
              Apply(MakeFallback(p, b, None, None), v, ctx).error == Apply(b, v, ctx).error
  {
  }

  // -------------------------------------------------------------- parallel

  /** Every child succeeds exactly when the loop does; the results are the
      children's, in order; otherwise the first failing child's error. */
  lemma {:induction false} EachPointwise(ts: seq<Transform>, v: Value, ctx: Option<Context>)
    ensures Each(ts, v, ctx).Success? <==> forall i :: 0 <= i < |ts| ==> Apply(ts[i], v, ctx).Success?
    ensures Each(ts, v, ctx).Success? ==>
              |Each(ts, v, ctx).value| == |ts| &&
              forall i :: 0 <= i < |ts| ==> Each(ts, v, ctx).value[i] == Apply(ts[i], v, ctx).value
    ensures Each(ts, v, ctx).Failure? ==>
              exists i :: 0 <= i < |ts| && Apply(ts[i], v, ctx) == Failure(Each(ts, v, ctx).error) &&
                forall j :: 0 <= j < i ==> Apply(ts[j], v, ctx).Success?
    decreases ts
  {
    if ts != [] {
      EachPointwise(ts[1..], v, ctx);
      EachCons(ts, v, ctx);
      assert forall i :: 1 <= i < |ts| ==> ts[1..][i - 1] == ts[i];
      if Apply(ts[0], v, ctx).Success? && Each(ts, v, ctx).Failure? {
        var rest := ts[1..];
        var i :| 0 <= i < |rest| && Apply(rest[i], v, ctx) == Failure(Each(rest, v, ctx).error) &&
          forall j :: 0 <= j < i ==> Apply(rest[j], v, ctx).Success?;
        SuccessesBefore(ts, i, v, ctx);
      }
    }
  }

  /** Running the children of `a + b` in parallel gives the results of `a`
      followed by those of `b`. */
  lemma {:induction false} EachAppend(a: seq<Transform>, b: seq<Transform>, v: Value, ctx: Option<Context>)
    ensures Each(a, v, ctx).Failure? ==> Each(a + b, v, ctx) == Failure(Each(a, v, ctx).error)
    ensures Each(a, v, ctx).Success? && Each(b, v, ctx).Failure? ==> Each(a + b, v, ctx) == Failure(Each(b, v, ctx).error)
    ensures Each(a, v, ctx).Success? && Each(b, v, ctx).Success? ==>
              Each(a + b, v, ctx) == Success(Each(a, v, ctx).value + Each(b, v, ctx).value)
    decreases a
  {
    if a == [] {
      assert a + b == b;
      if Each(b, v, ctx).Success? {
        assert [] + Each(b, v, ctx).value == Each(b, v, ctx).value;
      }
    } else {
      assert (a + b)[0] == a[0] && (a + b)[1..] == a[1..] + b;
      EachAppend(a[1..], b, v, ctx);
      EachCons(a, v, ctx);
      EachCons(a + b, v, ctx);
      if Each(a, v, ctx).Success? && Each(b, v, ctx).Success? {
        var r := Apply(a[0], v, ctx).value;
        assert [r] + (Each(a[1..], v, ctx).value + Each(b, v, ctx).value) ==
               ([r] + Each(a[1..], v, ctx).value) + Each(b, v, ctx).value;
      }
    }
  }

  lemma SuccessesBefore(ts: seq<Transform>, i: nat, v: Value, ctx: Option<Context>)
    requires i + 1 < |ts| && Apply(ts[0], v, ctx).Success?
    requires forall j :: 0 <= j < i ==> Apply(ts[1..][j], v, ctx).Success?
    ensures ts[i + 1] == ts[1..][i]
    ensures forall j :: 0 <= j < i + 1 ==> Apply(ts[j], v, ctx).Success?
  {
    forall j | 0 <= j < i + 1 ensures Apply(ts[j], v, ctx).Success? {
      if j > 0 { assert ts[j] == ts[1..][j - 1]; }
    }
  }

  /** One unfolding of the loop over the children. */
  lemma EachCons(ts: seq<Transform>, v: Value, ctx: Option<Context>)
    requires ts != []
    ensures Each(ts, v, ctx) ==
              if Apply(ts[0], v, ctx).Failure? then Failure(Apply(ts[0], v, ctx).error)
              else if Each(ts[1..], v, ctx).Failure? then Failure(Each(ts[1..], v, ctx).error)
              else Success([Apply(ts[0], v, ctx).value] + Each(ts[1..], v, ctx).value)
  {
  }

  /** A single child gives a one-element list of results. */
  lemma EachSingle(t: Transform, v: Value, ctx: Option<Context>)
    ensures Apply(t, v, ctx).Failure? ==> Each([t], v, ctx) == Failure(Apply(t, v, ctx).error)
    ensures Apply(t, v, ctx).Success? ==> Each([t], v, ctx) == Success([Apply(t, v, ctx).value])
  {
    assert [t][1..] == [];
    if Apply(t, v, ctx).Success? {
      assert [Apply(t, v, ctx).value] + [] == [Apply(t, v, ctx).value];
    }
  }

  /** `ParallelTransform.apply` as written: `results` appended to in a loop,
      then the combiner. */
  method ApplyParallel(t: Transform, v: Value, ctx: Option<Context>) returns (r: Result<Value, Error>)
    requires t.Parallel?
    ensures r == Apply(t, v, ctx)
  {
    var ts := t.transforms;
    var results: seq<Value> := [];
    var i := 0;
    assert ts[..0] == [];
    while i < |ts|
      invariant 0 <= i <= |ts|
      invariant Each(ts[..i], v, ctx) == Success(results)
    {
      var step := Apply(ts[i], v, ctx);
      assert ts[..i + 1] == ts[..i] + [ts[i]];
      EachSingle(ts[i], v, ctx);
      EachAppend(ts[..i], [ts[i]], v, ctx);
      if step.Failure? {
        assert ts == ts[..i + 1] + ts[i + 1..];
        EachAppend(ts[..i + 1], ts[i + 1..], v, ctx);
        return Failure(step.error);
      }
      results := results + [step.value];
      i := i + 1;
    }
    assert ts[..i] == ts;
    r := Combine(t.combiner, results);
  }

  /** `ParallelTransform(transforms, combiner, name, description)`: at least
      one child, named after the number of children by default. */
  function MakeParallel(ts: seq<Transform>, combiner: Option<Callable>, name: Option<string>, description: Option<string>): (r: Result<Transform, Error>)
    ensures r.Failure? <==> ts == []
    ensures r.Failure? ==> r.error == EmptyParallel
    ensures r.Success? ==> r.value.Parallel? && r.value.transforms == ts && r.value.combiner == combiner
    ensures r.Success? ==> r.value.description == description
    ensures r.Success? ==> r.value.name == NameOr(name, "Parallel(" + NatToString(|ts|) + " transforms)")
  {
    if ts == [] then Failure(EmptyParallel)
    else Success(Parallel(ts, combiner, NameOr(name, "Parallel(" + NatToString(|ts|) + " transforms)"), description))
  }

  /** Without a combiner a built parallel transform returns the list of its
      children's results, one per child, in child order. */
  lemma ParallelDefaultList(ts: seq<Transform>, v: Value, ctx: Option<Context>)
    requires ts != []
    ensures Apply(MakeParallel(ts, None, None, None).value, v, ctx).Success? <==>
              forall i :: 0 <= i < |ts| ==> Apply(ts[i], v, ctx).Success?
    ensures Apply(MakeParallel(ts, None, None, None).value, v, ctx).Success? ==>
              var out := Apply(MakeParallel(ts, None, None, None).value, v, ctx).value;
              out.VList? && |out.items| == |ts| &&
              forall i :: 0 <= i < |ts| ==> out.items[i] == Apply(ts[i], v, ctx).value
  {
    EachPointwise(ts, v, ctx);
  }

  /** The children `&` joins: a parallel transform contributes its own. */
  function Branches(t: Transform): (ts: seq<Transform>)
    ensures t.Parallel? ==> ts == t.transforms
    ensures !t.Parallel? ==> ts == [t]
  {
    if t.Parallel? then t.transforms else [t]
  }

  /** `p & q` and `p.parallel(q)`: the base operator builds `[p, q]` with the
      default combiner; a parallel transform on the left flattens another
      one's children or appends, and keeps its own combiner. The result has
      the default name. */
  function And(p: Transform, q: Transform): (r: Result<Transform, Error>)
    ensures r.Success? <==> !(p.Parallel? && q.Parallel? && p.transforms == [] && q.transforms == [])
    ensures r.Success? ==> r.value.Parallel? && r.value.description == None
    ensures r.Success? ==> r.value.transforms == (if p.Parallel? then Branches(p) + Branches(q) else [p, q])
    ensures r.Success? ==> r.value.combiner == (if p.Parallel? then p.combiner else None)
  {
    if p.Parallel? then MakeParallel(p.transforms + Branches(q), p.combiner, None, None)
    else MakeParallel([p, q], None, None, None)
  }

  /** Joining two parallel transforms with `&` combines, with the left
      combiner, the results of the left's children followed by the right's. */
  lemma AndFlattens(p: Transform, q: Transform, v: Value, ctx: Option<Context>)
    requires p.Parallel? && q.Parallel? && p.transforms != []
    requires Each(p.transforms, v, ctx).Success? && Each(q.transforms, v, ctx).Success?
    ensures Apply(And(p, q).value, v, ctx) ==
              Combine(p.combiner, Each(p.transforms, v, ctx).value + Each(q.transforms, v, ctx).value)
  {
    EachAppend(p.transforms, q.transforms, v, ctx);
  }

  /** `parallel.add(t)`: a new parallel transform with `t` appended, keeping
      the combiner, the name and the description. */
  function AddBranch(p: Transform, t: Transform): (r: Result<Transform, Error>)
    requires p.Parallel?
    ensures r.Success? && r.value.Parallel?
    ensures r.value.transforms == p.transforms + [t] && r.value.combiner == p.combiner
    ensures r.value.description == p.description
    ensures p.name.Some? && p.name.value != "" ==> r.value.name == p.name
  {
    MakeParallel(p.transforms + [t], p.combiner, p.name, p.description)
  }

  /** The added child's result comes last. */
  lemma AddBranchResultsLast(p: Transform, t: Transform, v: Value, ctx: Option<Context>)
    requires p.Parallel?
    requires Each(p.transforms, v, ctx).Success? && Apply(t, v, ctx).Success?
    ensures Apply(AddBranch(p, t).value, v, ctx) == Combine(p.combiner, Each(p.transforms, v, ctx).value + [Apply(t, v, ctx).value])
  {
    EachAppend(p.transforms, [t], v, ctx);
    EachSingle(t, v, ctx);
  }

  // ------------------------------------------------------------- factories

  /** `Transform(func, contextaware, name, description)`, also `transform(f)`,
      `@transform` and `@transform(name=..)`: without a name the transform
      takes the function's `__name__` (`fname`, None when it has none). */
  function MakeTransform(func: Func, fname: Option<string>, contextaware: bool, name: Option<string>, description: Option<string>): (t: Transform)
    ensures t.Wrapped? && t.description == description
    ensures name.Some? ==> t.name == name
    ensures name.None? ==> t.name == fname
    ensures contextaware ==> forall v, ctx :: Apply(t, v, ctx) == func(v, Some(Given(ctx)))
    ensures !contextaware ==> forall v, ctx :: Apply(t, v, ctx) == func(v, None)
  {
    Wrapped(Call(func, contextaware), if name.None? then fname else name, description)
  }

  /** `multifield(fields, func)`: a context-aware transform that ignores its
      value and calls `func` with the context's entry for each field. */
  function MakeMultiField(fields: seq<string>, func: Spread): (t: Transform)
    ensures t.Wrapped? && t.name == Some("multifield(" + PyText.Join(", ", fields) + ")")
    ensures forall v, w, ctx :: Apply(t, v, ctx) == Apply(t, w, ctx)
    ensures forall v, ctx :: Apply(t, v, ctx) == func(FieldValues(fields, Given(ctx)))
  {
    Wrapped(MultiField(fields, func), Some("multifield(" + PyText.Join(", ", fields) + ")"), None)
  }

  /** `conditional(condition, whentrue, whenfalse)`: named after its branches,
      `identity` standing for a missing false branch. */
  function MakeConditional(c: Predicate, t: Transform, f: Option<Transform>): (r: Transform)
    ensures r.Wrapped? && r.body == Conditional(c, t, f)
    ensures r.name == Some("conditional(" + NameText(t.name) + ", " + (if f.Some? then NameText(f.value.name) else "identity") + ")")
  {
    Wrapped(Conditional(c, t, f), Some("conditional(" + NameText(t.name) + ", " + (if f.Some? then NameText(f.value.name) else "identity") + ")"), None)
  }

  /** A conditional transform applies the true branch when the condition
      holds, otherwise the false branch, or returns the value unchanged when
      there is none; an error from the condition propagates. */
  lemma ConditionalChoice(c: Predicate, t: Transform, f: Option<Transform>, v: Value, ctx: Option<Context>)
    ensures c(v).Failure? ==> Apply(MakeConditional(c, t, f), v, ctx) == Failure(c(v).error)
    ensures c(v) == Success(true) ==> Apply(MakeConditional(c, t, f), v, ctx) == Apply(t, v, ctx)
    ensures c(v) == Success(false) && f.None? ==> Apply(MakeConditional(c, t, f), v, ctx) == Success(v)
    ensures c(v) == Success(false) && f.Some? ==> Apply(MakeConditional(c, t, f), v, ctx) == Apply(f.value, v, ctx)
  {
    if ctx.None? {
      NoContextIsEmpty(t, v);
      if f.Some? {
        NoContextIsEmpty(f.value, v);
      }
    }
  }
}
