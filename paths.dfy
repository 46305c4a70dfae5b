/** Reading a value at a source path and writing one at a target path
    (src/schematix/core/bases/field.py). A path containing '.' is split into
    segments; dicts are navigated by key and objects by attribute. */
module Paths {
  import opened Wrappers
  import opened Values
  import opened Errors
  import OrderedMaps
  import PyText

  /** One segment of a read: a dict answers `get(part)` (None for an absent
      key), an object its attribute; `None` here means neither applies. */
  function Step(current: Value, part: string): Option<Value> {
    match current
    case VDict(es) => Some(DictGet(es, VStr(part)).GetOr(VNone))
    case VObj(attrs) => AttrGet(attrs, part)
    case _ => None
  }

  /** The value the segments lead to, or `None` when a segment cannot be read
      or a value along the way is None. */
  function Walk(data: Value, parts: seq<string>): (r: Option<Value>)
    ensures parts != [] && r.Some? ==> r.value != VNone
  {
    if parts == [] then Some(data)
    else
      match Step(data, parts[0])
      case None => None
      case Some(next) => if next == VNone then None else Walk(next, parts[1..])
  }

  /** Reading `p + q` is reading `q` from wherever `p` leads. */
  lemma {:induction false} WalkConcat(data: Value, p: seq<string>, q: seq<string>)
    ensures Walk(data, p + q) == match Walk(data, p) case None => None case Some(v) => Walk(v, q)
  {
    if p == [] {
      assert p + q == q;
    } else {
      assert (p + q)[0] == p[0] && (p + q)[1..] == p[1..] + q;
      match Step(data, p[0])
      case None =>
      case Some(next) =>
        if next != VNone {
          WalkConcat(next, p[1..], q);
        }
    }
  }

  /** `_getnestedvalue`: walks the segments, falling back to `default`. */
  method GetNestedValue(data: Value, parts: seq<string>, default: Value) returns (r: Value)
    ensures r == Walk(data, parts).GetOr(default)
  {
    var current := data;
    var i := 0;
    while i < |parts|
      invariant 0 <= i <= |parts|
      invariant Walk(data, parts) == Walk(current, parts[i..])
    {
      var next := Step(current, parts[i]);
      WalkUnfold(current, parts, i);
      if next.None? {
        return default;
      }
      current := next.value;
      if current == VNone {
        return default;
      }
      i := i + 1;
    }
    return current;
  }

  /** The segment at index `i` of `Walk`. */
  lemma WalkUnfold(current: Value, parts: seq<string>, i: nat)
    requires i < |parts|
    ensures Step(current, parts[i]).None? ==> Walk(current, parts[i..]) == None
    ensures Step(current, parts[i]) == Some(VNone) ==> Walk(current, parts[i..]) == None
    ensures Step(current, parts[i]).Some? && Step(current, parts[i]).value != VNone ==>
              Walk(current, parts[i..]) == Walk(Step(current, parts[i]).value, parts[i + 1..])
  {
    assert parts[i..][0] == parts[i] && parts[i..][1..] == parts[i + 1..];
  }

  function DotParts(path: string): seq<string> {
    PyText.Split(path, ".", -1)
  }

  /** `_getsourcevalue`: the raw value a field reads before its pipeline runs. */
  function SourceValue(source: Option<string>, default: Value, data: Value): (r: Value)
    ensures source.None? ==> r == default
    ensures source.Some? && '.' in source.value ==> r == Walk(data, DotParts(source.value)).GetOr(default)
    ensures source.Some? && '.' !in source.value && data.VDict? ==>
      r == DictGet(data.entries, VStr(source.value)).GetOr(default)
  {
    match source
    case None => default
    case Some(src) =>
      if '.' in src then Walk(data, DotParts(src)).GetOr(default)
      else
        match data
        case VDict(es) => DictGet(es, VStr(src)).GetOr(default)
        case VObj(attrs) => AttrGet(attrs, src).GetOr(default)
        case _ => default
  }

  /** The target after a write, and the exception if one was raised part-way;
      containers created before the exception stay in the target. */
  datatype Written = Written(target: Value, raised: Option<Error>)

  function ListIndexError(): Error {
    Raised(TypeError, "list indices must be integers or slices, not str")
  }

  function NoAttributeError(v: Value, key: string): Error {
    Raised(AttributeError, "'" + TypeName(v) + "' object has no attribute '" + key + "'")
  }

  /** The final `current[key] = value`, or `setattr(current, key, value)`. */
  function SetLast(current: Value, key: string, value: Value): (w: Written)
    ensures w.raised.None? <==> current.VDict? || current.VObj?
    ensures w.raised.Some? ==> w.target == current
  {
    match current
    case VDict(es) => Written(VDict(OrderedMaps.Set(es, VStr(key), value)), None)
    case VList(_) => Written(current, Some(ListIndexError()))
    case VObj(attrs) => Written(VObj(OrderedMaps.Set(attrs, key, value)), None)
    case _ => Written(current, Some(NoAttributeError(current, key)))
  }

  /** A dict lacking the segment's key gets `{}` under it. */
  function WithChild(es: seq<(Value, Value)>, part: string): (es1: seq<(Value, Value)>)
    ensures VStr(part) in OrderedMaps.Keys(es1)
    ensures forall k :: k != VStr(part) ==> DictGet(es1, k) == DictGet(es, k)
    ensures VStr(part) in OrderedMaps.Keys(es) ==> es1 == es
    ensures VStr(part) !in OrderedMaps.Keys(es) ==> OrderedMaps.Keys(es1) == OrderedMaps.Keys(es) + [VStr(part)]
  {
    if VStr(part) in OrderedMaps.Keys(es) then es else OrderedMaps.Set(es, VStr(part), VDict([]))
  }

  /** `_applynestedtargetvalue` from `current` on, for the remaining segments
      `parts` of the whole path `full`. A missing intermediate dict key gets
      `{}`; an object is descended by attribute. */
  function SetNested(current: Value, parts: seq<string>, value: Value, full: seq<string>): (w: Written)
    requires |parts| >= 1
    ensures current.VDict? ==> w.target.VDict?
    ensures current.VObj? ==> w.target.VObj?
    ensures !current.VDict? && !current.VObj? ==> w.target == current && w.raised.Some?
    decreases |parts|
  {
    if |parts| == 1 then SetLast(current, parts[0], value)
    else
      var part := parts[0];
      match current
      case VDict(es) =>
        var es1 := WithChild(es, part);
        var child := DictGet(es1, VStr(part)).value;
        var w := SetNested(child, parts[1..], value, full);
        Written(VDict(OrderedMaps.Set(es1, VStr(part), w.target)), w.raised)
      case VList(_) => Written(current, Some(ListIndexError()))
      case VObj(attrs) =>
        if AttrGet(attrs, part).Some? then
          var w := SetNested(AttrGet(attrs, part).value, parts[1..], value, full);
          Written(VObj(OrderedMaps.Set(attrs, part, w.target)), w.raised)
        else Written(current, Some(CannotNavigate(full)))
      case _ => Written(current, Some(CannotNavigate(full)))
  }

  /** `_applytargetvalue`: write `value` at `target` on `root`. A missing target
      raises; an undotted target sets the key or attribute, and a failing
      setattr is re-raised as ValueError. */
  function ApplyTargetValue(target: Option<string>, name: Option<string>, root: Value, value: Value): (w: Written)
    ensures target.None? ==> w == Written(root, Some(NoTargetDefined(name)))
    ensures target.Some? && '.' !in target.value && (root.VDict? || root.VObj?) ==> w.raised.None?
    ensures w.raised.None? ==> (root.VDict? && w.target.VDict?) || (root.VObj? && w.target.VObj?)
  {
    match target
    case None => Written(root, Some(NoTargetDefined(name)))
    case Some(t) =>
      if '.' in t then
        var parts := DotParts(t);
        SetNested(root, parts, value, parts)
      else
        match root
        case VDict(_) => SetLast(root, t, value)
        case VObj(_) => SetLast(root, t, value)
        case VList(_) => Written(root, Some(ListIndexError()))
        case _ => Written(root, Some(CannotSetTarget(t, TypeName(root), NoAttributeError(root, t))))
  }

  /** A write that succeeds can be read back along the same segments. */
  lemma {:induction false} ReadAfterSetNested(current: Value, parts: seq<string>, value: Value, full: seq<string>)
    requires |parts| >= 1
    requires SetNested(current, parts, value, full).raised.None?
    ensures Walk(SetNested(current, parts, value, full).target, parts) == if value == VNone then None else Some(value)
    decreases |parts|
  {
    if |parts| == 1 {
      ReadAfterSetLast(current, parts, value, full);
    } else {
      var child := StepAfterSetNested(current, parts, value, full);
      ReadAfterSetNested(child, parts[1..], value, full);
      WalkFirst(SetNested(current, parts, value, full).target, parts);
    }
  }

  lemma ReadAfterSetLast(current: Value, parts: seq<string>, value: Value, full: seq<string>)
    requires |parts| == 1
    requires SetNested(current, parts, value, full).raised.None?
    ensures Walk(SetNested(current, parts, value, full).target, parts) == if value == VNone then None else Some(value)
  {
    var w := SetLast(current, parts[0], value);
    assert SetNested(current, parts, value, full) == w;
    SetLastReads(current, parts[0], value);
    WalkFirst(w.target, parts);
    assert parts[1..] == [];
  }

  /** The final write can be read back by its key. */
  lemma SetLastReads(current: Value, key: string, value: Value)
    requires SetLast(current, key, value).raised.None?
    ensures Step(SetLast(current, key, value).target, key) == Some(value)
  {
    match current
    case VDict(es) =>
      assert DictGet(OrderedMaps.Set(es, VStr(key), value), VStr(key)) == Some(value);
    case VObj(attrs) =>
      assert AttrGet(OrderedMaps.Set(attrs, key, value), key) == Some(value);
  }

  /** The first segment of `Walk`. */
  lemma WalkFirst(v: Value, parts: seq<string>)
    requires parts != []
    ensures Step(v, parts[0]).Some? && Step(v, parts[0]).value != VNone ==> Walk(v, parts) == Walk(Step(v, parts[0]).value, parts[1..])
    ensures Step(v, parts[0]) == Some(VNone) ==> Walk(v, parts) == None
  {
  }

  /** One dict segment of `SetNested`. */
  lemma SetNestedDictStep(es: seq<(Value, Value)>, parts: seq<string>, value: Value, full: seq<string>)
    requires |parts| >= 2
    ensures var es1 := WithChild(es, parts[0]);
            var w := SetNested(DictGet(es1, VStr(parts[0])).value, parts[1..], value, full);
            SetNested(VDict(es), parts, value, full) == Written(VDict(OrderedMaps.Set(es1, VStr(parts[0]), w.target)), w.raised)
  {
  }

  /** One object segment of `SetNested`. */
  lemma SetNestedObjStep(attrs: seq<(string, Value)>, parts: seq<string>, value: Value, full: seq<string>)
    requires |parts| >= 2 && AttrGet(attrs, parts[0]).Some?
    ensures var w := SetNested(AttrGet(attrs, parts[0]).value, parts[1..], value, full);
            SetNested(VObj(attrs), parts, value, full) == Written(VObj(OrderedMaps.Set(attrs, parts[0], w.target)), w.raised)
  {
  }

  /** The first segment of a successful nested write leads to the rewritten child. */
  lemma StepAfterSetNested(current: Value, parts: seq<string>, value: Value, full: seq<string>) returns (child: Value)
    requires |parts| >= 2
    requires SetNested(current, parts, value, full).raised.None?
    ensures SetNested(child, parts[1..], value, full).raised.None?
    ensures Step(SetNested(current, parts, value, full).target, parts[0]) == Some(SetNested(child, parts[1..], value, full).target)
    ensures SetNested(child, parts[1..], value, full).target != VNone
    ensures Step(current, parts[0]) == Some(child) || (Step(current, parts[0]) == Some(VNone) && child == VDict([]))
  {
    match current
    case VDict(es) => child := StepAfterSetDict(es, parts, value, full);
    case VObj(attrs) => child := StepAfterSetObj(attrs, parts, value, full);
  }

  lemma StepAfterSetDict(es: seq<(Value, Value)>, parts: seq<string>, value: Value, full: seq<string>) returns (child: Value)
    requires |parts| >= 2
    requires SetNested(VDict(es), parts, value, full).raised.None?
    ensures SetNested(child, parts[1..], value, full).raised.None?
    ensures Step(SetNested(VDict(es), parts, value, full).target, parts[0]) == Some(SetNested(child, parts[1..], value, full).target)
    ensures SetNested(child, parts[1..], value, full).target != VNone
    ensures Step(VDict(es), parts[0]) == Some(child) || (Step(VDict(es), parts[0]) == Some(VNone) && child == VDict([]))
  {
    var es1 := WithChild(es, parts[0]);
    child := DictGet(es1, VStr(parts[0])).value;
    var w := SetNested(child, parts[1..], value, full);
    SetNestedDictStep(es, parts, value, full);
    assert DictGet(OrderedMaps.Set(es1, VStr(parts[0]), w.target), VStr(parts[0])) == Some(w.target);
  }

  lemma StepAfterSetObj(attrs: seq<(string, Value)>, parts: seq<string>, value: Value, full: seq<string>) returns (child: Value)
    requires |parts| >= 2
    requires SetNested(VObj(attrs), parts, value, full).raised.None?
    ensures SetNested(child, parts[1..], value, full).raised.None?
    ensures Step(SetNested(VObj(attrs), parts, value, full).target, parts[0]) == Some(SetNested(child, parts[1..], value, full).target)
    ensures SetNested(child, parts[1..], value, full).target != VNone
    ensures Step(VObj(attrs), parts[0]) == Some(child) || (Step(VObj(attrs), parts[0]) == Some(VNone) && child == VDict([]))
  {
    child := AttrGet(attrs, parts[0]).value;
    var w := SetNested(child, parts[1..], value, full);
    SetNestedObjStep(attrs, parts, value, full);
    assert AttrGet(OrderedMaps.Set(attrs, parts[0], w.target), parts[0]) == Some(w.target);
  }

  /** A nested write into a dict leaves every other key of that dict as it
      was, and adds a key only when the first segment was missing. */
  lemma SetNestedKeepsSiblings(es: seq<(Value, Value)>, parts: seq<string>, value: Value, full: seq<string>, k: Value)
    requires |parts| >= 1 && k != VStr(parts[0])
    ensures DictGet(SetNested(VDict(es), parts, value, full).target.entries, k) == DictGet(es, k)
    ensures VStr(parts[0]) in OrderedMaps.Keys(es) ==>
      OrderedMaps.Keys(SetNested(VDict(es), parts, value, full).target.entries) == OrderedMaps.Keys(es)
    ensures VStr(parts[0]) !in OrderedMaps.Keys(es) ==>
      OrderedMaps.Keys(SetNested(VDict(es), parts, value, full).target.entries) == OrderedMaps.Keys(es) + [VStr(parts[0])]
  {
    if |parts| >= 2 {
      SetNestedDictStep(es, parts, value, full);
    }
  }

  /** Assigning then extracting through the same path gives the value back
      (a None written under a dotted path reads as the default). */
  lemma ReadAfterWrite(t: string, name: Option<string>, root: Value, value: Value, default: Value)
    requires ApplyTargetValue(Some(t), name, root, value).raised.None?
    ensures SourceValue(Some(t), default, ApplyTargetValue(Some(t), name, root, value).target)
      == if '.' in t && value == VNone then default else value
  {
    var w := ApplyTargetValue(Some(t), name, root, value);
    if '.' in t {
      var parts := DotParts(t);
      assert w == SetNested(root, parts, value, parts);
      ReadAfterSetNested(root, parts, value, parts);
    } else {
      assert w == SetLast(root, t, value);
      if root.VDict? {
        assert DictGet(w.target.entries, VStr(t)) == Some(value);
      } else {
        assert AttrGet(w.target.attrs, t) == Some(value);
      }
    }
  }

  /** What reading a path finds once `value` is stored at its end: a stored
      None reads as nothing. */
  function Found(value: Value): (r: Option<Value>)
    ensures r.Some? <==> value != VNone
    ensures r.Some? ==> r.value == value
  {
    if value == VNone then None else Some(value)
  }

  /** Two paths part ways: at some segment, before either ends, they name
      different keys. A write along one never touches what the other reads. */
  predicate Diverge(p: seq<string>, q: seq<string>)
    decreases |p|
  {
    p != [] && q != [] && (p[0] != q[0] || Diverge(p[1..], q[1..]))
  }

  /** An empty dict has nothing under any path. */
  lemma WalkEmptyDict(parts: seq<string>)
    requires parts != []
    ensures Walk(VDict([]), parts) == None
  {
    assert DictGet([], VStr(parts[0])) == None;
  }

  /** A nested write leaves what any other first segment reads as it was. */
  lemma SetNestedOtherStep(current: Value, parts: seq<string>, value: Value, full: seq<string>, part: string)
    requires |parts| >= 1 && part != parts[0]
    ensures Step(SetNested(current, parts, value, full).target, part) == Step(current, part)
  {
    match current
    case VDict(es) => OtherStepDict(es, parts, value, full, part);
    case VObj(attrs) => OtherStepObj(attrs, parts, value, full, part);
    case _ =>
  }

  lemma OtherStepDict(es: seq<(Value, Value)>, parts: seq<string>, value: Value, full: seq<string>, part: string)
    requires |parts| >= 1 && part != parts[0]
    ensures DictGet(SetNested(VDict(es), parts, value, full).target.entries, VStr(part)) == DictGet(es, VStr(part))
  {
    if |parts| >= 2 {
      SetNestedDictStep(es, parts, value, full);
    }
  }

  lemma OtherStepObj(attrs: seq<(string, Value)>, parts: seq<string>, value: Value, full: seq<string>, part: string)
    requires |parts| >= 1 && part != parts[0]
    ensures AttrGet(SetNested(VObj(attrs), parts, value, full).target.attrs, part) == AttrGet(attrs, part)
  {
    if |parts| >= 2 && AttrGet(attrs, parts[0]).Some? {
      SetNestedObjStep(attrs, parts, value, full);
    }
  }

  /** A successful nested write changes nothing that a diverging path reads. */
  lemma {:induction false} SetNestedFrame(current: Value, q: seq<string>, value: Value, full: seq<string>, p: seq<string>)
    requires |q| >= 1 && Diverge(p, q)
    requires SetNested(current, q, value, full).raised.None?
    ensures Walk(SetNested(current, q, value, full).target, p) == Walk(current, p)
    decreases |q|
  {
    var t := SetNested(current, q, value, full).target;
    if p[0] != q[0] {
      SetNestedOtherStep(current, q, value, full, p[0]);
    } else {
      var child := StepAfterSetNested(current, q, value, full);
      SetNestedFrame(child, q[1..], value, full, p[1..]);
      WalkFirst(t, p);
      WalkFirst(current, p);
      if Step(current, p[0]) != Some(child) {
        WalkEmptyDict(p[1..]);
      }
    }
  }

  /** A path without '.' is its own single segment. */
  lemma UndottedParts(t: string)
    requires '.' !in t
    ensures DotParts(t) == [t]
  {
    match PyText.Find(t, ".")
    case None =>
    case Some(j) =>
      DotAt(t, j);
      assert false;
  }

  lemma DotAt(t: string, j: int)
    requires PyText.OccursAt(t, ".", j)
    ensures '.' in t
  {
    assert t[j] == t[j..j + 1][0];
  }

  /** Every successful `_applytargetvalue` is the nested write along the
      segments of its target. */
  lemma ApplyAsSetNested(t: string, name: Option<string>, root: Value, value: Value)
    requires ApplyTargetValue(Some(t), name, root, value).raised.None?
    ensures |DotParts(t)| >= 1
    ensures ApplyTargetValue(Some(t), name, root, value) == SetNested(root, DotParts(t), value, DotParts(t))
  {
    if '.' !in t {
      UndottedParts(t);
    }
  }

  /** After `_applytargetvalue` succeeds, its target path reads the value back. */
  lemma ApplyReads(t: string, name: Option<string>, root: Value, value: Value)
    requires ApplyTargetValue(Some(t), name, root, value).raised.None?
    ensures Walk(ApplyTargetValue(Some(t), name, root, value).target, DotParts(t)) == Found(value)
  {
    ApplyAsSetNested(t, name, root, value);
    ReadAfterSetNested(root, DotParts(t), value, DotParts(t));
  }

  /** `_applytargetvalue` changes nothing that a path diverging from its
      target reads. */
  lemma ApplyFrame(t: string, name: Option<string>, root: Value, value: Value, p: seq<string>)
    requires ApplyTargetValue(Some(t), name, root, value).raised.None?
    requires Diverge(p, DotParts(t))
    ensures Walk(ApplyTargetValue(Some(t), name, root, value).target, p) == Walk(root, p)
  {
    ApplyAsSetNested(t, name, root, value);
    SetNestedFrame(root, DotParts(t), value, DotParts(t), p);
  }
}
