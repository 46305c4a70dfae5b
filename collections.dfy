/** The collection helpers (src/schematix/transforms/collections.py): each is
    a `Transform` wrapping the function modelled here, over lists, dicts,
    strings and the values that cannot be iterated. */
module Collections {
  import opened Wrappers
  import opened Values
  import opened Errors
  import opened Slicing
  import OrderedMaps

  /** A Python index into a sequence of length n, negative counting from the end. */
  function PyIndex(xs: seq<Value>, i: int): (r: Option<Value>)
    ensures 0 <= i < |xs| ==> r == Some(xs[i])
    ensures i < 0 && 0 <= i + |xs| ==> r == Some(xs[i + |xs|])
    ensures r.None? <==> i >= |xs| || i + |xs| < 0
  {
    if 0 <= i < |xs| then Some(xs[i])
    else if i < 0 && 0 <= i + |xs| then Some(xs[i + |xs|])
    else None
  }

  /** What `first`, `last` and `nth` index: a dict's values, a string's
      characters, a list's items; None when the value cannot be iterated. */
  function Indexed(v: Value): (r: Option<seq<Value>>)
    ensures v.VDict? ==> r == Some(OrderedMaps.Values(v.entries))
    ensures !v.VDict? ==> r == Items(v)
  {
    if v.VDict? then Some(OrderedMaps.Values(v.entries)) else Items(v)
  }

  /** `first`: the first item, None for an empty collection, the value
      itself when it cannot be iterated. */
  function First(v: Value): (r: Value)
    ensures Indexed(v).None? ==> r == v
  {
    match v
    case VList(xs) => if xs == [] then VNone else xs[0]
    case VDict(es) => if es == [] then VNone else es[0].1
    case VStr(s) => if s == [] then VNone else VStr([s[0]])
    case _ => v
  }

  /** `last`: the last item, None for an empty collection, the value itself
      when it cannot be iterated. */
  function Last(v: Value): (r: Value)
    ensures Indexed(v).None? ==> r == v
  {
    match v
    case VList(xs) => if xs == [] then VNone else xs[|xs| - 1]
    case VDict(es) => if es == [] then VNone else es[|es| - 1].1
    case VStr(s) => if s == [] then VNone else VStr([s[|s| - 1]])
    case _ => v
  }

  /** `nth(index, default)`: Python indexing, `default` when the index is out
      of range or the value cannot be iterated. */
  function Nth(index: int, default: Value, v: Value): (r: Value)
    ensures Indexed(v).None? ==> r == default
  {
    match Indexed(v)
    case None => default
    case Some(xs) => PyIndex(xs, index).GetOr(default)
  }

  /** `first` and `last` are `nth(0)` and `nth(-1)`; all three give None (or
      the default) on an empty collection. */
  lemma FirstLastAreNth(v: Value, default: Value)
    requires Indexed(v).Some?
    ensures Indexed(v).value != [] ==> First(v) == Nth(0, default, v) && Last(v) == Nth(-1, default, v)
    ensures Indexed(v).value == [] ==> First(v) == VNone && Last(v) == VNone && Nth(0, default, v) == default
  {
  }

  /** A negative index reaches the same item as its positive counterpart. */
  lemma NthNegative(v: Value, default: Value, i: int)
    requires Indexed(v).Some? && 0 <= i < |Indexed(v).value|
    ensures Nth(i - |Indexed(v).value|, default, v) == Nth(i, default, v) == Indexed(v).value[i]
  {
  }

  /** `length`: `len`, 0 for an unsized value. */
  function Length(v: Value): (n: nat)
    ensures Len(v).Some? ==> n == Len(v).value
    ensures Len(v).None? ==> n == 0
  {
    if Len(v).Some? then Len(v).value else 0
  }

  /** `isempty`: `len(v) == 0`, True for an unsized value. */
  function IsEmpty(v: Value): (b: bool)
    ensures b <==> Length(v) == 0
  {
    if Len(v).Some? then Len(v).value == 0 else true
  }

  // ---------------------------------------------------------------- flatten

  /** A value `flatten` does not descend into. */
  predicate Atom(v: Value) {
    !v.VList? && !v.VDict?
  }

  /** The items `flatten` yields for one value: strings and values that
      cannot be iterated are atoms, lists and dicts (by key) are walked
      depth first. */
  function Flat(v: Value): (r: seq<Value>)
    ensures forall k :: 0 <= k < |r| ==> Atom(r[k])
    decreases v, 1
  {
    match v
    case VList(xs) => FlatAll(xs)
    case VDict(es) => FlatKeys(v, es)
    case _ => [v]
  }

  function FlatAll(xs: seq<Value>): (r: seq<Value>)
    ensures forall k :: 0 <= k < |r| ==> Atom(r[k])
    decreases xs
  {
    if xs == [] then [] else Flat(xs[0]) + FlatAll(xs[1..])
  }

  function FlatKeys(ghost parent: Value, es: seq<(Value, Value)>): (r: seq<Value>)
    requires parent.VDict? && forall e | e in es :: e in parent.entries
    ensures forall k :: 0 <= k < |r| ==> Atom(r[k])
    decreases parent, 0, |es|
  {
    if es == [] then []
    else
      assert es[0] in parent.entries;
      Flat(es[0].0) + FlatKeys(parent, es[1..])
  }

  /** `flatten`. */
  function Flatten(v: Value): (r: Value)
    ensures r.VList? && forall k :: 0 <= k < |r.items| ==> Atom(r.items[k])
  {
    VList(Flat(v))
  }

  /** Flattening a concatenation flattens each part in order. */
  lemma {:induction false} FlatAllAppend(a: seq<Value>, b: seq<Value>)
    ensures FlatAll(a + b) == FlatAll(a) + FlatAll(b)
    decreases a
  {
    if a == [] {
      assert a + b == b;
    } else {
      assert (a + b)[0] == a[0] && (a + b)[1..] == a[1..] + b;
      FlatAllAppend(a[1..], b);
    }
  }

  /** A list of atoms is already flat. */
  lemma {:induction false} FlatAllAtoms(xs: seq<Value>)
    requires forall k :: 0 <= k < |xs| ==> Atom(xs[k])
    ensures FlatAll(xs) == xs
    decreases xs
  {
    if xs != [] {
      FlatAllAtoms(xs[1..]);
      assert Flat(xs[0]) == [xs[0]];
    }
  }

  /** `flatten` is idempotent. */
  lemma FlattenIdempotent(v: Value)
    ensures Flatten(Flatten(v)) == Flatten(v)
  {
    FlatAllAtoms(Flat(v));
  }

  // ----------------------------------------------------------------- unique

  /** The items not yet seen, each the first time it appears. */
  function Dedup<T(==)>(xs: seq<T>, seen: set<T>): (r: seq<T>)
    decreases xs
  {
    if xs == [] then []
    else if xs[0] in seen then Dedup(xs[1..], seen)
    else [xs[0]] + Dedup(xs[1..], seen + {xs[0]})
  }

  /** Independently of any bookkeeping: the items from index i on that do
      not occur earlier. */
  function Firsts<T(==)>(xs: seq<T>, i: nat): (r: seq<T>)
    requires i <= |xs|
    decreases |xs| - i
  {
    if i == |xs| then []
    else (if xs[i] in xs[..i] then [] else [xs[i]]) + Firsts(xs, i + 1)
  }

  /** With the items before i as the seen set, deduplicating the rest keeps
      exactly the first occurrences. */
  lemma {:induction false} DedupFirsts<T>(xs: seq<T>, i: nat)
    requires i <= |xs|
    ensures Dedup(xs[i..], set x | x in xs[..i]) == Firsts(xs, i)
    decreases |xs| - i
  {
    var seen := set x | x in xs[..i];
    if i < |xs| {
      assert xs[i..][0] == xs[i] && xs[i..][1..] == xs[i + 1..];
      var pre := xs[..i + 1];
      var seen' := set x | x in pre;
      assert pre == xs[..i] + [xs[i]];
      assert seen' == seen + {xs[i]};
      DedupFirsts(xs, i + 1);
      if xs[i] in seen {
        assert seen' == seen;
      }
    } else {
      assert xs[i..] == [];
    }
  }

  /** What `unique` keeps: every item once, in the order of first occurrence. */
  lemma {:induction false} DedupFacts<T>(xs: seq<T>, seen: set<T>)
    ensures forall x :: x in Dedup(xs, seen) <==> x in xs && x !in seen
    ensures OrderedMaps.Distinct(Dedup(xs, seen))
    ensures OrderedMaps.Subsequence(Dedup(xs, seen), xs)
    decreases xs
  {
    if xs != [] {
      DedupFacts(xs[1..], seen);
      DedupFacts(xs[1..], seen + {xs[0]});
      if xs[0] !in seen {
        var r := Dedup(xs, seen);
        var rest := Dedup(xs[1..], seen + {xs[0]});
        assert r == [xs[0]] + rest && r[1..] == rest;
        forall i, j | 0 <= i < j < |r| ensures r[i] != r[j] {
          assert r[j] == rest[j - 1] && rest[j - 1] in rest;
          if i > 0 {
            assert r[i] == rest[i - 1];
          }
        }
      } else {
        SubsequenceSkip(Dedup(xs, seen), xs);
      }
      forall x ensures x in Dedup(xs, seen) <==> x in xs && x !in seen {
        assert x in xs <==> x == xs[0] || x in xs[1..];
      }
    }
  }

  lemma SubsequenceSkip<T>(sub: seq<T>, xs: seq<T>)
    requires xs != [] && OrderedMaps.Subsequence(sub, xs[1..])
    ensures OrderedMaps.Subsequence(sub, xs)
  {
  }

  /** `unique` on an iterable whose items are all hashable. */
  lemma UniqueKeepsFirsts(xs: seq<Value>)
    ensures Dedup(xs, {}) == Firsts(xs, 0)
    ensures forall x :: x in Dedup(xs, {}) <==> x in xs
    ensures OrderedMaps.Distinct(Dedup(xs, {}))
  {
    DedupFirsts(xs, 0);
    assert (set x | x in xs[..0]) == {};
    assert xs[0..] == xs;
    DedupFacts(xs, {});
  }

  /** `unique`'s loop as written, with the `seen` set and `result` list; None
      when an unhashable item makes `item not in seen` raise. */
  method UniqueItems(xs: seq<Value>) returns (r: Option<seq<Value>>)
    ensures r.None? <==> exists k :: 0 <= k < |xs| && !Hashable(xs[k])
    ensures r.Some? ==> r.value == Dedup(xs, {})
  {
    var seen: set<Value> := {};
    var result: seq<Value> := [];
    var i := 0;
    assert xs[0..] == xs;
    while i < |xs|
      invariant 0 <= i <= |xs|
      invariant forall k :: 0 <= k < i ==> Hashable(xs[k])
      invariant result + Dedup(xs[i..], seen) == Dedup(xs, {})
    {
      var item := xs[i];
      assert xs[i..][0] == item && xs[i..][1..] == xs[i + 1..];
      if !Hashable(item) {
        return None;
      }
      if item !in seen {
        seen := seen + {item};
        result := result + [item];
      }
      i := i + 1;
    }
    assert xs[i..] == [];
    r := Some(result);
  }

  /** `unique`: a dict's keys; an iterable's items once each in order of
      first occurrence; `[value]` when iteration or hashing raises, `[]` for None. */
  function Unique(v: Value): (r: Value)
    ensures r.VList?
    ensures v.VDict? ==> r.items == OrderedMaps.Keys(v.entries)
    ensures Items(v).None? ==> r.items == (if v == VNone then [] else [v])
  {
    match v
    case VDict(es) => VList(OrderedMaps.Keys(es))
    case VList(xs) => if exists k :: 0 <= k < |xs| && !Hashable(xs[k]) then VList([v]) else VList(Dedup(xs, {}))
    case VStr(s) => VList(Dedup(Chars(s), {}))
    case VNone => VList([])
    case _ => VList([v])
  }

  // ---------------------------------------------------------------- reverse

  /** `reverse`: a list reversed, a string read backwards (`value[::-1]`),
      a dict's keys reversed; anything else unchanged. */
  function Reverse(v: Value): (r: Value)
    ensures v.VList? ==> r == VList(Reversed(v.items))
    ensures v.VStr? ==> r == VStr(Slice(v.s, None, None, Some(-1)).value)
    ensures v.VDict? ==> r == VList(Reversed(OrderedMaps.Keys(v.entries)))
    ensures Items(v).None? ==> r == v
  {
    SliceReverses(if v.VStr? then v.s else "");
    match v
    case VList(xs) => VList(Reversed(xs))
    case VStr(s) => VStr(Reversed(s))
    case VDict(es) => VList(Reversed(OrderedMaps.Keys(es)))
    case _ => v
  }

  /** Reversing a list or a string twice gives it back. */
  lemma ReverseInvolution(v: Value)
    requires v.VList? || v.VStr?
    ensures Reverse(Reverse(v)) == v
  {
    if v.VList? { ReversedTwice(v.items); } else { ReversedTwice(v.s); }
  }

  // ---------------------------------------------------------- filter and map

  /** The errors the helpers catch around iterating. */
  predicate Caught(e: Error) {
    Class(e) == TypeError || Class(e) == AttributeError
  }

  /** The items the predicate keeps, in order; its first error propagates. */
  function KeepItems(p: Predicate, xs: seq<Value>): Result<seq<Value>, Error>
    decreases xs
  {
    if xs == [] then Success([])
    else
      var keep :- p(xs[0]);
      var rest :- KeepItems(p, xs[1..]);
      Success(if keep then [xs[0]] + rest else rest)
  }

  /** The entries whose value the predicate keeps, in order. */
  function KeepEntries(p: Predicate, es: seq<(Value, Value)>): Result<seq<(Value, Value)>, Error>
    decreases es
  {
    if es == [] then Success([])
    else
      var keep :- p(es[0].1);
      var rest :- KeepEntries(p, es[1..]);
      Success(if keep then [es[0]] + rest else rest)
  }

  /** `filter`'s fallback: `[value]` when it is not None and satisfies the predicate. */
  function KeepWhole(p: Predicate, v: Value): Result<Value, Error> {
    if v == VNone then Success(VList([]))
    else
      var keep :- p(v);
      Success(VList(if keep then [v] else []))
  }

  /** `filter(predicate)`: a dict keeps the entries whose value satisfies it,
      an iterable the items; a caught error retries on the whole value. */
  function Filter(p: Predicate, v: Value): (r: Result<Value, Error>)
    ensures Items(v).None? ==> r == KeepWhole(p, v)
    ensures v.VDict? && KeepEntries(p, v.entries).Success? ==> r == Success(VDict(KeepEntries(p, v.entries).value))
    ensures !v.VDict? && Items(v).Some? && KeepItems(p, Items(v).value).Success? ==>
              r == Success(VList(KeepItems(p, Items(v).value).value))
  {
    var attempt :=
      if v.VDict? then
        (match KeepEntries(p, v.entries)
         case Success(es) => Success(VDict(es))
         case Failure(e) => Failure(e))
      else if Items(v).None? then Failure(Raised(TypeError, "'" + TypeName(v) + "' object is not iterable"))
      else
        (match KeepItems(p, Items(v).value)
         case Success(xs) => Success(VList(xs))
         case Failure(e) => Failure(e));
    if attempt.Failure? && Caught(attempt.error) then KeepWhole(p, v) else attempt
  }

  /** `filter` keeps, in order, exactly the items that satisfy the predicate. */
  lemma {:induction false} KeepItemsFacts(p: Predicate, xs: seq<Value>)
    ensures KeepItems(p, xs).Success? <==> forall k :: 0 <= k < |xs| ==> p(xs[k]).Success?
    ensures KeepItems(p, xs).Success? ==> OrderedMaps.Subsequence(KeepItems(p, xs).value, xs)
    ensures KeepItems(p, xs).Success? ==> forall y :: y in KeepItems(p, xs).value ==> p(y) == Success(true)
    ensures KeepItems(p, xs).Success? ==>
              forall k :: 0 <= k < |xs| && p(xs[k]) == Success(true) ==> xs[k] in KeepItems(p, xs).value
    decreases xs
  {
    if xs != [] {
      KeepItemsFacts(p, xs[1..]);
      assert forall k :: 1 <= k < |xs| ==> xs[1..][k - 1] == xs[k];
      if KeepItems(p, xs).Success? {
        var r := KeepItems(p, xs).value;
        var rest := KeepItems(p, xs[1..]).value;
        if p(xs[0]) == Success(true) {
          assert r == [xs[0]] + rest && r[1..] == rest;
        } else {
          SubsequenceSkip(r, xs);
        }
      }
    }
  }

  /** Each item mapped; the first error propagates. */
  function MapAll(f: Callable, xs: seq<Value>): Result<seq<Value>, Error>
    decreases xs
  {
    if xs == [] then Success([])
    else
      var y :- f(xs[0]);
      var rest :- MapAll(f, xs[1..]);
      Success([y] + rest)
  }

  /** Each entry's value mapped, keys kept. */
  function MapEntries(f: Callable, es: seq<(Value, Value)>): Result<seq<(Value, Value)>, Error>
    decreases es
  {
    if es == [] then Success([])
    else
      var y :- f(es[0].1);
      var rest :- MapEntries(f, es[1..]);
      Success([(es[0].0, y)] + rest)
  }

  /** `map`'s fallback: `[func(value)]` unless the value is None. */
  function MapWhole(f: Callable, v: Value): Result<Value, Error> {
    if v == VNone then Success(VList([]))
    else
      var y :- f(v);
      Success(VList([y]))
  }

  /** `map(func)`: a dict's values mapped under the same keys, an iterable's
      items mapped in order; a caught error retries on the whole value. */
  function Map(f: Callable, v: Value): (r: Result<Value, Error>)
    ensures Items(v).None? ==> r == MapWhole(f, v)
    ensures v.VDict? && MapEntries(f, v.entries).Success? ==> r == Success(VDict(MapEntries(f, v.entries).value))
    ensures !v.VDict? && Items(v).Some? && MapAll(f, Items(v).value).Success? ==>
              r == Success(VList(MapAll(f, Items(v).value).value))
  {
    var attempt :=
      if v.VDict? then
        (match MapEntries(f, v.entries)
         case Success(es) => Success(VDict(es))
         case Failure(e) => Failure(e))
      else if Items(v).None? then Failure(Raised(TypeError, "'" + TypeName(v) + "' object is not iterable"))
      else
        (match MapAll(f, Items(v).value)
         case Success(xs) => Success(VList(xs))
         case Failure(e) => Failure(e));
    if attempt.Failure? && Caught(attempt.error) then MapWhole(f, v) else attempt
  }

  /** `map` gives one result per item, each the function applied to that item. */
  lemma {:induction false} MapAllPointwise(f: Callable, xs: seq<Value>)
    ensures MapAll(f, xs).Success? <==> forall k :: 0 <= k < |xs| ==> f(xs[k]).Success?
    ensures MapAll(f, xs).Success? ==>
              |MapAll(f, xs).value| == |xs| && forall k :: 0 <= k < |xs| ==> MapAll(f, xs).value[k] == f(xs[k]).value
    decreases xs
  {
    if xs != [] {
      MapAllPointwise(f, xs[1..]);
      assert forall k :: 1 <= k < |xs| ==> xs[1..][k - 1] == xs[k];
    }
  }

  /** Mapping a dict keeps its keys, in order, and maps each value. */
  lemma {:induction false} MapEntriesPointwise(f: Callable, es: seq<(Value, Value)>)
    ensures MapEntries(f, es).Success? ==>
              OrderedMaps.Keys(MapEntries(f, es).value) == OrderedMaps.Keys(es) &&
              forall k :: 0 <= k < |es| ==> f(es[k].1).Success? && MapEntries(f, es).value[k].1 == f(es[k].1).value
    decreases es
  {
    if es != [] {
      MapEntriesPointwise(f, es[1..]);
      assert forall k :: 1 <= k < |es| ==> es[1..][k - 1] == es[k];
    }
  }

  // ------------------------------------------------------ slicing and chunks

  /** `slice(start, stop, step)`: lists and strings are sliced; other
      iterables become the list of their items first; a value that cannot be
      iterated comes back unchanged; a zero step raises. */
  function SliceOf(start: Option<int>, stop: Option<int>, step: Option<int>, v: Value): (r: Result<Value, Error>)
    ensures r.Failure? <==> Items(v).Some? && step == Some(0)
    ensures r.Failure? ==> r.error == Raised(ValueError, "slice step cannot be zero")
    ensures Items(v).None? ==> r == Success(v)
    ensures v.VStr? && r.Success? ==> r.value == VStr(Slice(v.s, start, stop, step).value)
    ensures !v.VStr? && Items(v).Some? && r.Success? ==> r.value == VList(Slice(Items(v).value, start, stop, step).value)
  {
    if v.VStr? then
      match Slice(v.s, start, stop, step)
      case None => Failure(Raised(ValueError, "slice step cannot be zero"))
      case Some(s) => Success(VStr(s))
    else
      match Items(v)
      case None => Success(v)
      case Some(xs) =>
        match Slice(xs, start, stop, step)
        case None => Failure(Raised(ValueError, "slice step cannot be zero"))
        case Some(ys) => Success(VList(ys))
  }

  /** `itertools.islice` refuses a negative stop or start. */
  const StopMessage := "Stop argument for islice() must be None or an integer: 0 <= x <= sys.maxsize."
  const IndicesMessage := "Indices for islice() must be None or an integer: 0 <= x <= sys.maxsize."

  /** `take(count)`: the first `count` items as a list. */
  function Take(count: int, v: Value): (r: Result<Value, Error>)
    ensures r.Failure? <==> count < 0
    ensures count >= 0 && Items(v).Some? ==> r == Success(VList(Items(v).value[..if count <= |Items(v).value| then count else |Items(v).value|]))
    ensures count >= 0 && Items(v).None? ==> r == Success(VList(if v != VNone && count > 0 then [v] else []))
  {
    if count == -1 then Failure(Raised(ValueError, StopMessage))
    else if count < -1 then Failure(Raised(ValueError, IndicesMessage))
    else
      match Items(v)
      case None => Success(VList(if v != VNone && count > 0 then [v] else []))
      case Some(xs) => Success(VList(Prefix(xs, count)))
  }

  /** `skip(count)`: the items after the first `count`, as a list. */
  function Skip(count: int, v: Value): (r: Result<Value, Error>)
    ensures r.Failure? <==> count < 0
    ensures count >= 0 && Items(v).Some? ==> r == Success(VList(Items(v).value[if count <= |Items(v).value| then count else |Items(v).value|..]))
    ensures count >= 0 && Items(v).None? ==> r == Success(VList(if count == 0 && v != VNone then [v] else []))
  {
    if count < 0 then Failure(Raised(ValueError, IndicesMessage))
    else
      match Items(v)
      case None => Success(VList(if count > 0 then [] else if v != VNone then [v] else []))
      case Some(xs) => Success(VList(Suffix(xs, count)))
  }

  /** What is taken, followed by what is skipped, is the whole collection. */
  lemma TakeSkip(count: nat, v: Value)
    requires Items(v).Some?
    ensures Take(count, v).Success? && Skip(count, v).Success?
    ensures Take(count, v).value.items + Skip(count, v).value.items == Items(v).value
    ensures |Take(count, v).value.items| == if count <= |Items(v).value| then count else |Items(v).value|
  {
    PrefixSuffix(Items(v).value, count);
  }

  /** The comprehension `[items[i:i + size] for i in range(0, len(items), size)]`. */
  function Chunks(xs: seq<Value>, size: nat): (r: seq<seq<Value>>)
    requires size > 0
    decreases |xs|
  {
    if xs == [] then []
    else if |xs| <= size then [xs]
    else [xs[..size]] + Chunks(xs[size..], size)
  }

  /** One level of flattening: the chunks joined back together. */
  function Concat(xss: seq<seq<Value>>): seq<Value> {
    if xss == [] then [] else xss[0] + Concat(xss[1..])
  }

  /** Chunks join back into the input; all but the last have length `size`,
      and none is empty. */
  lemma {:induction false} ChunksFacts(xs: seq<Value>, size: nat)
    requires size > 0
    ensures Concat(Chunks(xs, size)) == xs
    ensures forall k :: 0 <= k < |Chunks(xs, size)| - 1 ==> |Chunks(xs, size)[k]| == size
    ensures forall k :: 0 <= k < |Chunks(xs, size)| ==> 0 < |Chunks(xs, size)[k]| <= size
    decreases |xs|
  {
    if |xs| > size {
      var rest := Chunks(xs[size..], size);
      ChunksFacts(xs[size..], size);
      var r := Chunks(xs, size);
      assert r == [xs[..size]] + rest;
      assert r[0] == xs[..size] && r[1..] == rest;
      assert Concat(r) == xs[..size] + Concat(rest);
      assert xs[..size] + xs[size..] == xs;
      forall k | 0 < k < |r| ensures r[k] == rest[k - 1] {
      }
    } else if xs != [] {
      assert Chunks(xs, size)[1..] == [];
    }
  }

  /** The chunk lists as values. */
  function AsLists(xss: seq<seq<Value>>): (r: seq<Value>)
    ensures |r| == |xss| && forall k :: 0 <= k < |xss| ==> r[k] == VList(xss[k])
  {
    seq(|xss|, k requires 0 <= k < |xss| => VList(xss[k]))
  }

  /** `chunk(size)`: the items in consecutive lists of `size`; a value that
      cannot be iterated becomes `[[value]]` (`[]` for None); a zero size
      makes `range` raise, a negative one gives no chunks. */
  function Chunk(size: int, v: Value): (r: Result<Value, Error>)
    ensures Items(v).None? ==> r == Success(VList(if v == VNone then [] else [VList([v])]))
    ensures Items(v).Some? && size == 0 ==> r == Failure(Raised(ValueError, "range() arg 3 must not be zero"))
    ensures Items(v).Some? && size < 0 ==> r == Success(VList([]))
    ensures Items(v).Some? && size > 0 ==> r == Success(VList(AsLists(Chunks(Items(v).value, size))))
  {
    match Items(v)
    case None => Success(VList(if v == VNone then [] else [VList([v])]))
    case Some(xs) =>
      if size == 0 then Failure(Raised(ValueError, "range() arg 3 must not be zero"))
      else if size < 0 then Success(VList([]))
      else Success(VList(AsLists(Chunks(xs, size))))
  }

  /** Flattening the chunks of a list of atoms gives the list back. */
  lemma ChunkThenFlatten(xs: seq<Value>, size: nat)
    requires size > 0 && forall k :: 0 <= k < |xs| ==> Atom(xs[k])
    ensures Flatten(Chunk(size, VList(xs)).value) == VList(xs)
  {
    ChunksFacts(xs, size);
    FlatChunks(Chunks(xs, size), xs);
  }

  lemma {:induction false} FlatChunks(xss: seq<seq<Value>>, xs: seq<Value>)
    requires Concat(xss) == xs && forall k :: 0 <= k < |xs| ==> Atom(xs[k])
    ensures FlatAll(AsLists(xss)) == xs
    decreases xss
  {
    if xss != [] {
      var head, rest := xss[0], Concat(xss[1..]);
      assert xs == head + rest;
      assert forall k :: 0 <= k < |head| ==> head[k] == xs[k];
      assert forall k :: 0 <= k < |rest| ==> rest[k] == xs[|head| + k];
      FlatChunks(xss[1..], rest);
      FlatAllAtoms(head);
      assert AsLists(xss)[1..] == AsLists(xss[1..]);
    }
  }

  // ------------------------------------------------------- dict operations

  /** `keys`: a dict's keys in order, `[]` for anything else. */
  function KeysOf(v: Value): (r: Value)
    ensures r.VList?
    ensures !v.VDict? ==> r.items == []
    ensures v.VDict? ==> |r.items| == |v.entries| && forall k :: 0 <= k < |v.entries| ==> r.items[k] == v.entries[k].0
  {
    if v.VDict? then VList(OrderedMaps.Keys(v.entries)) else VList([])
  }

  /** `values`: a dict's values in order, `[]` for anything else. */
  function ValuesOf(v: Value): (r: Value)
    ensures r.VList?
    ensures !v.VDict? ==> r.items == []
    ensures v.VDict? ==> |r.items| == |v.entries| && forall k :: 0 <= k < |v.entries| ==> r.items[k] == v.entries[k].1
  {
    if v.VDict? then VList(OrderedMaps.Values(v.entries)) else VList([])
  }

  /** `keys` and `values` pair up into the dict's entries. */
  lemma KeysValuesZip(es: seq<(Value, Value)>)
    ensures |KeysOf(VDict(es)).items| == |ValuesOf(VDict(es)).items|
    ensures forall k :: 0 <= k < |es| ==> (KeysOf(VDict(es)).items[k], ValuesOf(VDict(es)).items[k]) == es[k]
  {
  }

  /** `get(key, default)`: a dict's entry, an object's attribute, otherwise
      the default; an unhashable key or a non-string attribute name raises. */
  function GetKey(key: Value, default: Value, v: Value): (r: Result<Value, Error>)
    ensures v.VDict? && Hashable(key) ==> r == Success(DictGet(v.entries, key).GetOr(default))
    ensures v.VDict? && !Hashable(key) ==> r.Failure? && Class(r.error) == TypeError
    ensures !v.VDict? && !key.VStr? ==> r.Failure? && Class(r.error) == TypeError
  {
    if v.VDict? then
      if Hashable(key) then Success(DictGet(v.entries, key).GetOr(default))
      else Failure(Raised(TypeError, "unhashable type: '" + TypeName(key) + "'"))
    else if !key.VStr? then Failure(Raised(TypeError, "attribute name must be string"))
    else if v.VObj? && AttrGet(v.attrs, key.s).Some? then Success(AttrGet(v.attrs, key.s).value)
    else Success(default)
  }

  /** Reading a key just stored gives the stored value; a missing key the default. */
  lemma GetAfterSet(es: seq<(Value, Value)>, key: Value, x: Value, default: Value)
    requires Hashable(key)
    ensures GetKey(key, default, VDict(OrderedMaps.Set(es, key, x))) == Success(x)
    ensures key !in OrderedMaps.Keys(es) ==> GetKey(key, default, VDict(es)) == Success(default)
  {
  }

  // ------------------------------------------------------------ set algebra

  /** `{value}`, or the empty set for None; an unhashable value raises. */
  function Singleton(v: Value): (r: Result<set<Value>, Error>)
    ensures r.Success? <==> Hashable(v)
  {
    if v == VNone then Success({})
    else if Hashable(v) then Success({v})
    else Failure(Raised(TypeError, "unhashable type: '" + TypeName(v) + "'"))
  }

  /** `toset`: a dict's keys, an iterable's items, or the value alone; an
      unhashable item falls back to the value, which raises if unhashable too. */
  function ToSet(v: Value): (r: Result<set<Value>, Error>)
    ensures Items(v).Some? && (forall k :: 0 <= k < |Items(v).value| ==> Hashable(Items(v).value[k])) ==>
              r.Success? && forall x :: x in r.value <==> x in Items(v).value
    ensures r.Failure? ==> !Hashable(v)
  {
    match Items(v)
    case None => Singleton(v)
    case Some(xs) =>
      if forall k :: 0 <= k < |xs| ==> Hashable(xs[k]) then Success(set k | 0 <= k < |xs| :: xs[k])
      else Singleton(v)
  }

  /** `union(other)`: both sets joined; if either conversion raises, `toset(value)`. */
  function Union(other: Value, v: Value): (r: Result<set<Value>, Error>)
    ensures ToSet(v).Success? && ToSet(other).Success? ==> r.Success? && forall x :: x in r.value <==> x in ToSet(v).value || x in ToSet(other).value
    ensures ToSet(v).Failure? || ToSet(other).Failure? ==> r == ToSet(v)
  {
    if ToSet(v).Success? && ToSet(other).Success? then Success(ToSet(v).value + ToSet(other).value) else ToSet(v)
  }

  /** `intersection(other)`: the common items; the empty set if a conversion raises. */
  function Intersection(other: Value, v: Value): (r: Result<set<Value>, Error>)
    ensures r.Success?
    ensures ToSet(v).Success? && ToSet(other).Success? ==> forall x :: x in r.value <==> x in ToSet(v).value && x in ToSet(other).value
    ensures ToSet(v).Failure? || ToSet(other).Failure? ==> r.value == {}
  {
    if ToSet(v).Success? && ToSet(other).Success? then Success(ToSet(v).value * ToSet(other).value) else Success({})
  }

  /** `difference(other)`: the items of the value not in the other; if a
      conversion raises, `toset(value)`. */
  function Difference(other: Value, v: Value): (r: Result<set<Value>, Error>)
    ensures ToSet(v).Success? && ToSet(other).Success? ==> r.Success? && forall x :: x in r.value <==> x in ToSet(v).value && x !in ToSet(other).value
    ensures ToSet(v).Failure? || ToSet(other).Failure? ==> r == ToSet(v)
  {
    if ToSet(v).Success? && ToSet(other).Success? then Success(ToSet(v).value - ToSet(other).value) else ToSet(v)
  }

  /** The difference and the intersection split the value's set. */
  lemma DifferenceIntersectionSplit(other: Value, v: Value)
    requires ToSet(v).Success? && ToSet(other).Success?
    ensures Difference(other, v).value + Intersection(other, v).value == ToSet(v).value
    ensures Difference(other, v).value * Intersection(other, v).value == {}
  {
  }

  // ------------------------------------------------------ list modification

  /** `append(item)`: a fresh list of the items with `item` at the end. */
  function Append(item: Value, v: Value): (r: Value)
    ensures r.VList? && |r.items| >= 1 && r.items[|r.items| - 1] == item
    ensures Items(v).Some? ==> r.items == Items(v).value + [item]
    ensures Items(v).None? ==> r.items == (if v == VNone then [item] else [v, item])
  {
    match Items(v)
    case Some(xs) => VList(xs + [item])
    case None => VList(if v == VNone then [item] else [v, item])
  }

  /** `prepend(item)`: a fresh list of the items with `item` in front. */
  function Prepend(item: Value, v: Value): (r: Value)
    ensures r.VList? && |r.items| >= 1 && r.items[0] == item
    ensures Items(v).Some? ==> r.items == [item] + Items(v).value
    ensures Items(v).None? ==> r.items == (if v == VNone then [item] else [item, v])
  {
    match Items(v)
    case Some(xs) => VList([item] + xs)
    case None => VList(if v == VNone then [item] else [item, v])
  }

  /** `extend(other)`: the items followed by the other's; when either cannot
      be iterated, the fallbacks wrap the value, the other, or both. */
  function Extend(other: Value, v: Value): (r: Value)
    ensures r.VList?
    ensures Items(v).Some? && Items(other).Some? ==> r.items == Items(v).value + Items(other).value
    ensures Items(v).None? && Items(other).Some? ==> r.items == [v] + Items(other).value
    ensures Items(other).None? && v != VNone ==> r.items == [v, other]
    ensures Items(other).None? && v == VNone ==> r.items == [other]
  {
    match Items(v)
    case Some(xs) =>
      if Items(other).Some? then VList(xs + Items(other).value) else VList([v, other])
    case None =>
      if Items(other).Some? then VList([v] + Items(other).value)
      else VList(if v != VNone then [v, other] else [other])
  }

  /** Appending is extending by a one-item list, and prepending puts the item
      where appending to nothing would. */
  lemma AppendIsExtend(item: Value, v: Value)
    requires Items(v).Some?
    ensures Append(item, v) == Extend(VList([item]), v)
    ensures |Prepend(item, v).items| == |Append(item, v).items| == |Items(v).value| + 1
  {
  }
}
