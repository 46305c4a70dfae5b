/** `groupby` and `countby` (src/schematix/transforms/collections.py): a
    dict from each key value to the items that have it, or to how many do,
    keys in order of first appearance. */
module Grouping {
  import opened Wrappers
  import opened Values
  import opened Errors
  import opened Collections
  import OrderedMaps

  /** The `key` argument: an attribute name or a function. */
  datatype Key = AttrKey(attr: string) | FnKey(f: Callable)

  /** `keyfunc(item)`: for a name, the object's attribute, else the dict's
      entry, else None; a function is called. */
  function KeyOf(key: Key, x: Value): (r: Result<Value, Error>)
    ensures key.AttrKey? && x.VObj? && AttrGet(x.attrs, key.attr).Some? ==> r == Success(AttrGet(x.attrs, key.attr).value)
    ensures key.AttrKey? && x.VDict? ==> r == Success(DictGet(x.entries, VStr(key.attr)).GetOr(VNone))
    ensures key.FnKey? ==> r == key.f(x)
  {
    match key
    case FnKey(f) => f(x)
    case AttrKey(a) =>
      if x.VObj? && AttrGet(x.attrs, a).Some? then Success(AttrGet(x.attrs, a).value)
      else if x.VDict? then Success(DictGet(x.entries, VStr(a)).GetOr(VNone))
      else Success(VNone)
  }

  /** The key of every item, computed in item order. */
  function Outcomes(key: Key, xs: seq<Value>): (outs: seq<Result<Value, Error>>)
    ensures |outs| == |xs| && forall i :: 0 <= i < |xs| ==> outs[i] == KeyOf(key, xs[i])
  {
    seq(|xs|, i requires 0 <= i < |xs| => KeyOf(key, xs[i]))
  }

  /** Every key was computed and can be a dict key. */
  predicate AllKeyed(outs: seq<Result<Value, Error>>) {
    forall i :: 0 <= i < |outs| ==> outs[i].Success? && Hashable(outs[i].value)
  }

  function Unhashable(k: Value): Error {
    Raised(TypeError, "unhashable type: '" + TypeName(k) + "'")
  }

  /** `groups[k].append(x)` on a `defaultdict(list)`. */
  function AddTo<K(==,!new), X>(acc: seq<(K, seq<X>)>, k: K, x: X): seq<(K, seq<X>)> {
    OrderedMaps.Set(acc, k, OrderedMaps.Get(acc, k).GetOr([]) + [x])
  }

  /** `counter[k] += 1` on a `Counter`. */
  function Bump<K(==,!new)>(acc: seq<(K, nat)>, k: K): seq<(K, nat)> {
    OrderedMaps.Set(acc, k, CountOf(acc, k) + 1)
  }

  /** `counter[k]`: a `Counter` reads 0 for a missing key. */
  function CountOf<K(==)>(acc: seq<(K, nat)>, k: K): nat {
    match OrderedMaps.Get(acc, k)
    case Some(n) => n
    case None => 0
  }

  /** `groupby`'s loop over the items, given each item's key; the first key
      error, or unhashable key, stops it. */
  function Group(outs: seq<Result<Value, Error>>, xs: seq<Value>, acc: seq<(Value, seq<Value>)>): Result<seq<(Value, seq<Value>)>, Error>
    requires |outs| == |xs|
    decreases |xs|
  {
    if xs == [] then Success(acc)
    else if outs[0].Failure? then Failure(outs[0].error)
    else if !Hashable(outs[0].value) then Failure(Unhashable(outs[0].value))
    else Group(outs[1..], xs[1..], AddTo(acc, outs[0].value, xs[0]))
  }

  /** `countby`'s loop over the items, given each item's key. */
  function Tally(outs: seq<Result<Value, Error>>, acc: seq<(Value, nat)>): Result<seq<(Value, nat)>, Error>
    decreases |outs|
  {
    if outs == [] then Success(acc)
    else if outs[0].Failure? then Failure(outs[0].error)
    else if !Hashable(outs[0].value) then Failure(Unhashable(outs[0].value))
    else Tally(outs[1..], Bump(acc, outs[0].value))
  }

  /** The same loop once every key is known to be usable. */
  function Fold<K(==,!new), X>(ks: seq<K>, xs: seq<X>, acc: seq<(K, seq<X>)>): seq<(K, seq<X>)>
    requires |ks| == |xs|
    decreases |xs|
  {
    if xs == [] then acc else Fold(ks[1..], xs[1..], AddTo(acc, ks[0], xs[0]))
  }

  /** The key values of outcomes that all succeeded. */
  function KeyValues(outs: seq<Result<Value, Error>>): (ks: seq<Value>)
    requires AllKeyed(outs)
    ensures |ks| == |outs| && forall i :: 0 <= i < |outs| ==> ks[i] == outs[i].value
  {
    seq(|outs|, i requires 0 <= i < |outs| => outs[i].value)
  }

  /** When every key is usable, the loop never stops early. */
  lemma {:induction false} GroupKeyed(outs: seq<Result<Value, Error>>, xs: seq<Value>, acc: seq<(Value, seq<Value>)>)
    requires |outs| == |xs| && AllKeyed(outs)
    ensures Group(outs, xs, acc) == Success(Fold(KeyValues(outs), xs, acc))
    decreases |xs|
  {
    if xs != [] {
      assert AllKeyed(outs[1..]) by {
        forall i | 0 <= i < |outs[1..]| ensures outs[1..][i].Success? && Hashable(outs[1..][i].value) {
          assert outs[1..][i] == outs[i + 1];
        }
      }
      assert KeyValues(outs)[1..] == KeyValues(outs[1..]);
      GroupKeyed(outs[1..], xs[1..], AddTo(acc, outs[0].value, xs[0]));
    }
  }

  /** Independently of the loop: the items whose key is `k`, in order. */
  function Members<K(==), X>(ks: seq<K>, xs: seq<X>, k: K): seq<X>
    requires |ks| == |xs|
    decreases |xs|
  {
    if xs == [] then []
    else (if ks[0] == k then [xs[0]] else []) + Members(ks[1..], xs[1..], k)
  }

  /** Each group holds exactly the items of its key, in input order, after
      what the group held before. */
  lemma {:induction false} FoldMembers<K(!new), X>(ks: seq<K>, xs: seq<X>, acc: seq<(K, seq<X>)>, k: K)
    requires |ks| == |xs|
    ensures OrderedMaps.Get(Fold(ks, xs, acc), k) ==
              if OrderedMaps.Get(acc, k).None? && Members(ks, xs, k) == [] then None
              else Some(OrderedMaps.Get(acc, k).GetOr([]) + Members(ks, xs, k))
    decreases |xs|
  {
    if xs != [] {
      var acc' := AddTo(acc, ks[0], xs[0]);
      var rest := Members(ks[1..], xs[1..], k);
      FoldMembers(ks[1..], xs[1..], acc', k);
      assert Fold(ks, xs, acc) == Fold(ks[1..], xs[1..], acc');
      if k == ks[0] {
        assert Members(ks, xs, k) == [xs[0]] + rest;
        assert OrderedMaps.Get(acc', k) == Some(OrderedMaps.Get(acc, k).GetOr([]) + [xs[0]]);
        ConcatAssoc(OrderedMaps.Get(acc, k).GetOr([]), [xs[0]], rest);
      } else {
        assert Members(ks, xs, k) == [] + rest == rest;
        assert OrderedMaps.Get(acc', k) == OrderedMaps.Get(acc, k);
      }
    } else {
      assert OrderedMaps.Get(acc, k).GetOr([]) + [] == OrderedMaps.Get(acc, k).GetOr([]);
    }
  }

  /** The groups' keys are the earlier keys followed by the new keys in
      order of first appearance, and stay distinct. */
  lemma {:induction false} FoldKeys<K(!new), X>(ks: seq<K>, xs: seq<X>, acc: seq<(K, seq<X>)>)
    requires |ks| == |xs|
    ensures OrderedMaps.Keys(Fold(ks, xs, acc)) == OrderedMaps.Keys(acc) + Dedup(ks, set x | x in OrderedMaps.Keys(acc))
    ensures OrderedMaps.DistinctKeys(acc) ==> OrderedMaps.DistinctKeys(Fold(ks, xs, acc))
    decreases |xs|
  {
    if xs != [] {
      var acc' := AddTo(acc, ks[0], xs[0]);
      var r := Fold(ks, xs, acc);
      assert r == Fold(ks[1..], xs[1..], acc');
      FoldKeys(ks[1..], xs[1..], acc');
      DedupStep(ks, OrderedMaps.Keys(acc), OrderedMaps.Keys(acc'), OrderedMaps.Keys(r));
    }
  }

  /** One step of `FoldKeys`: adding the first key to the known keys. */
  lemma DedupStep<K>(ks: seq<K>, keys: seq<K>, keys': seq<K>, all: seq<K>)
    requires ks != []
    requires ks[0] in keys ==> keys' == keys
    requires ks[0] !in keys ==> keys' == keys + [ks[0]]
    requires all == keys' + Dedup(ks[1..], set x | x in keys')
    ensures all == keys + Dedup(ks, set x | x in keys)
  {
    var seen := set x | x in keys;
    var seen' := set x | x in keys';
    if ks[0] in keys {
      assert Dedup(ks, seen) == Dedup(ks[1..], seen);
    } else {
      assert seen' == seen + {ks[0]};
      assert Dedup(ks, seen) == [ks[0]] + Dedup(ks[1..], seen');
      ConcatAssoc(keys, [ks[0]], Dedup(ks[1..], seen'));
    }
  }

  lemma ConcatAssoc<T>(a: seq<T>, b: seq<T>, c: seq<T>)
    ensures a + b + c == a + (b + c)
  {
  }

  /** A count per group. */
  function Sizes<K, X>(gs: seq<(K, seq<X>)>): (cs: seq<(K, nat)>)
    ensures |cs| == |gs| && forall i :: 0 <= i < |gs| ==> cs[i] == (gs[i].0, |gs[i].1|)
  {
    seq(|gs|, i requires 0 <= i < |gs| => (gs[i].0, |gs[i].1|))
  }

  /** Counting one more item is sizing the group it joined. */
  lemma SizesBump<K(!new), X>(gs: seq<(K, seq<X>)>, k: K, x: X)
    ensures Bump(Sizes(gs), k) == Sizes(AddTo(gs, k, x))
  {
    OrderedMaps.IndexOfPointwise(gs, Sizes(gs), k);
    match OrderedMaps.IndexOf(gs, k)
    case Some(j) => SizesBumpAt(gs, j, k, x);
    case None => SizesBumpNew(gs, k, x);
  }

  lemma SizesBumpAt<K(!new), X>(gs: seq<(K, seq<X>)>, j: nat, k: K, x: X)
    requires OrderedMaps.IndexOf(gs, k) == Some(j) && OrderedMaps.IndexOf(Sizes(gs), k) == Some(j)
    ensures Bump(Sizes(gs), k) == Sizes(AddTo(gs, k, x))
  {
    AddToAt(gs, j, k, x);
    BumpAt(Sizes(gs), j, k, |gs[j].1 + [x]|);
    SizesUpdate(gs, j, k, gs[j].1 + [x]);
  }

  lemma AddToAt<K(!new), X>(gs: seq<(K, seq<X>)>, j: nat, k: K, x: X)
    requires OrderedMaps.IndexOf(gs, k) == Some(j)
    ensures AddTo(gs, k, x) == gs[j := (k, gs[j].1 + [x])]
  {
    assert OrderedMaps.Get(gs, k) == Some(gs[j].1);
    assert OrderedMaps.Set(gs, k, gs[j].1 + [x]) == gs[j := (k, gs[j].1 + [x])];
  }

  lemma BumpAt<K(!new)>(cs: seq<(K, nat)>, j: nat, k: K, n: nat)
    requires OrderedMaps.IndexOf(cs, k) == Some(j) && n == cs[j].1 + 1
    ensures Bump(cs, k) == cs[j := (k, n)]
  {
    BumpAtCount(cs, j, k);
    CountAt(cs, j, k);
    SameCount(cs, j, k, CountOf(cs, k) + 1, n);
  }

  lemma BumpAtCount<K(!new)>(cs: seq<(K, nat)>, j: nat, k: K)
    requires OrderedMaps.IndexOf(cs, k) == Some(j)
    ensures Bump(cs, k) == cs[j := (k, CountOf(cs, k) + 1)]
  {
    var r := Bump(cs, k);
    IndexedEntry(cs, j, k, CountOf(cs, k) + 1);
    assert r == OrderedMaps.Set(cs, k, CountOf(cs, k) + 1);
  }

  lemma SameCount<K>(cs: seq<(K, nat)>, j: nat, k: K, a: nat, b: nat)
    requires j < |cs| && a == b
    ensures cs[j := (k, a)] == cs[j := (k, b)]
  {
  }

  lemma IndexedEntry<K(!new), V>(m: seq<(K, V)>, j: nat, k: K, v: V)
    requires OrderedMaps.IndexOf(m, k) == Some(j)
    ensures OrderedMaps.Set(m, k, v) == m[j := (k, v)]
  {
  }

  lemma CountAt<K(!new)>(cs: seq<(K, nat)>, j: nat, k: K)
    requires OrderedMaps.IndexOf(cs, k) == Some(j)
    ensures CountOf(cs, k) == cs[j].1
  {
  }

  lemma SizesBumpNew<K(!new), X>(gs: seq<(K, seq<X>)>, k: K, x: X)
    requires OrderedMaps.IndexOf(gs, k) == None && OrderedMaps.IndexOf(Sizes(gs), k) == None
    ensures Bump(Sizes(gs), k) == Sizes(AddTo(gs, k, x))
  {
    var nx: seq<X> := [];
    assert nx + [x] == [x];
    assert AddTo(gs, k, x) == gs + [(k, [x])];
    assert Bump(Sizes(gs), k) == Sizes(gs) + [(k, 1)];
    SizesAppend(gs, k, [x]);
  }

  lemma SizesUpdate<K, X>(gs: seq<(K, seq<X>)>, j: nat, k: K, g: seq<X>)
    requires j < |gs|
    ensures Sizes(gs[j := (k, g)]) == Sizes(gs)[j := (k, |g|)]
  {
  }

  lemma SizesAppend<K, X>(gs: seq<(K, seq<X>)>, k: K, g: seq<X>)
    ensures Sizes(gs + [(k, g)]) == Sizes(gs) + [(k, |g|)]
  {
  }

  /** `countby` counts what `groupby` collects: the same keys in the same
      order, each with its group's size, and the same error otherwise. */
  lemma {:induction false} TallySizes(outs: seq<Result<Value, Error>>, xs: seq<Value>, acc: seq<(Value, seq<Value>)>)
    requires |outs| == |xs|
    ensures Group(outs, xs, acc).Success? ==> Tally(outs, Sizes(acc)) == Success(Sizes(Group(outs, xs, acc).value))
    ensures Group(outs, xs, acc).Failure? ==> Tally(outs, Sizes(acc)) == Failure(Group(outs, xs, acc).error)
    decreases |xs|
  {
    if xs != [] && outs[0].Success? && Hashable(outs[0].value) {
      SizesBump(acc, outs[0].value, xs[0]);
      TallySizes(outs[1..], xs[1..], AddTo(acc, outs[0].value, xs[0]));
    }
  }

  /** The groups as a dict value. */
  function GroupDict(gs: seq<(Value, seq<Value>)>): (r: Value)
    ensures r.VDict? && OrderedMaps.Keys(r.entries) == OrderedMaps.Keys(gs)
    ensures forall i :: 0 <= i < |gs| ==> r.entries[i].1 == VList(gs[i].1)
  {
    VDict(seq(|gs|, i requires 0 <= i < |gs| => (gs[i].0, VList(gs[i].1))))
  }

  /** The counts as a dict value. */
  function CountDict(cs: seq<(Value, nat)>): (r: Value)
    ensures r.VDict? && OrderedMaps.Keys(r.entries) == OrderedMaps.Keys(cs)
    ensures forall i :: 0 <= i < |cs| ==> r.entries[i].1 == VInt(cs[i].1)
  {
    VDict(seq(|cs|, i requires 0 <= i < |cs| => (cs[i].0, VInt(cs[i].1))))
  }

  /** `groupby(key)`: the groups, or `{}` when iterating, a key function or
      hashing raises a caught error; other errors propagate. */
  function GroupBy(key: Key, v: Value): (r: Result<Value, Error>)
    ensures Items(v).None? ==> r == Success(VDict([]))
  {
    match Items(v)
    case None => Success(VDict([]))
    case Some(xs) =>
      match Group(Outcomes(key, xs), xs, [])
      case Success(gs) => Success(GroupDict(gs))
      case Failure(e) => if Caught(e) then Success(VDict([])) else Failure(e)
  }

  /** `countby(key)`: the counts, with the same error handling. */
  function CountBy(key: Key, v: Value): (r: Result<Value, Error>)
    ensures Items(v).None? ==> r == Success(VDict([]))
  {
    match Items(v)
    case None => Success(VDict([]))
    case Some(xs) =>
      match Tally(Outcomes(key, xs), [])
      case Success(cs) => Success(CountDict(cs))
      case Failure(e) => if Caught(e) then Success(VDict([])) else Failure(e)
  }

  /** When every item has a hashable key, `groupby` and `countby` are the
      fold's groups and their sizes. */
  lemma GroupByFold(key: Key, xs: seq<Value>)
    requires AllKeyed(Outcomes(key, xs))
    ensures GroupBy(key, VList(xs)) == Success(GroupDict(Fold(KeyValues(Outcomes(key, xs)), xs, [])))
    ensures CountBy(key, VList(xs)) == Success(CountDict(Sizes(Fold(KeyValues(Outcomes(key, xs)), xs, []))))
  {
    var outs := Outcomes(key, xs);
    var empty: seq<(Value, seq<Value>)> := [];
    GroupKeyed(outs, xs, empty);
    TallySizes(outs, xs, empty);
    assert Sizes(empty) == [];
  }

  /** When every item has a hashable key, `groupby` and `countby` succeed
      with the keys in order of first appearance. */
  lemma GroupByKeys(key: Key, xs: seq<Value>)
    requires AllKeyed(Outcomes(key, xs))
    ensures GroupBy(key, VList(xs)).Success? && CountBy(key, VList(xs)).Success?
    ensures OrderedMaps.Keys(GroupBy(key, VList(xs)).value.entries) == Dedup(KeyValues(Outcomes(key, xs)), {})
    ensures OrderedMaps.Keys(CountBy(key, VList(xs)).value.entries) == Dedup(KeyValues(Outcomes(key, xs)), {})
  {
    var ks := KeyValues(Outcomes(key, xs));
    var empty: seq<(Value, seq<Value>)> := [];
    GroupByFold(key, xs);
    FoldKeys(ks, xs, empty);
    assert (set x | x in OrderedMaps.Keys(empty)) == {};
    var gs := Fold(ks, xs, empty);
    assert OrderedMaps.Keys(Sizes(gs)) == OrderedMaps.Keys(gs);
  }

  /** When every item has a hashable key, `groupby` maps each key to exactly
      the items that have it, in input order, `countby` maps it to how many
      there are, and a key no item has is absent from both. */
  lemma GroupByMembers(key: Key, xs: seq<Value>, k: Value)
    requires AllKeyed(Outcomes(key, xs))
    ensures GroupBy(key, VList(xs)).Success? && CountBy(key, VList(xs)).Success?
    ensures Members(KeyValues(Outcomes(key, xs)), xs, k) != [] ==>
              DictGet(GroupBy(key, VList(xs)).value.entries, k) == Some(VList(Members(KeyValues(Outcomes(key, xs)), xs, k))) &&
              DictGet(CountBy(key, VList(xs)).value.entries, k) == Some(VInt(|Members(KeyValues(Outcomes(key, xs)), xs, k)|))
    ensures Members(KeyValues(Outcomes(key, xs)), xs, k) == [] ==>
              DictGet(GroupBy(key, VList(xs)).value.entries, k).None? && DictGet(CountBy(key, VList(xs)).value.entries, k).None?
  {
    var ks := KeyValues(Outcomes(key, xs));
    var empty: seq<(Value, seq<Value>)> := [];
    GroupByFold(key, xs);
    FoldMembers(ks, xs, empty, k);
    var gs := Fold(ks, xs, empty);
    var d := GroupDict(gs);
    var c := CountDict(Sizes(gs));
    OrderedMaps.IndexOfPointwise(gs, d.entries, k);
    OrderedMaps.IndexOfPointwise(gs, c.entries, k);
    if Members(ks, xs, k) != [] {
      assert [] + Members(ks, xs, k) == Members(ks, xs, k);
    }
  }

  /** `groupby`'s loop as written: `groups[keyval].append(item)`. */
  method GroupItems(key: Key, xs: seq<Value>) returns (r: Result<seq<(Value, seq<Value>)>, Error>)
    ensures r == Group(Outcomes(key, xs), xs, [])
  {
    ghost var outs := Outcomes(key, xs);
    var groups: seq<(Value, seq<Value>)> := [];
    var i := 0;
    assert outs[0..] == outs && xs[0..] == xs;
    while i < |xs|
      invariant 0 <= i <= |xs|
      invariant Group(outs, xs, []) == Group(outs[i..], xs[i..], groups)
    {
      assert outs[i..][0] == outs[i] && outs[i..][1..] == outs[i + 1..];
      assert xs[i..][0] == xs[i] && xs[i..][1..] == xs[i + 1..];
      var keyval := KeyOf(key, xs[i]);
      if keyval.Failure? {
        return Failure(keyval.error);
      }
      if !Hashable(keyval.value) {
        return Failure(Unhashable(keyval.value));
      }
      groups := AddTo(groups, keyval.value, xs[i]);
      i := i + 1;
    }
    r := Success(groups);
  }

  /** `countby`'s loop as written: `counter[keyval] += 1`. */
  method CountItems(key: Key, xs: seq<Value>) returns (r: Result<seq<(Value, nat)>, Error>)
    ensures r == Tally(Outcomes(key, xs), [])
  {
    ghost var outs := Outcomes(key, xs);
    var counter: seq<(Value, nat)> := [];
    var i := 0;
    assert outs[0..] == outs;
    while i < |xs|
      invariant 0 <= i <= |xs|
      invariant Tally(outs, []) == Tally(outs[i..], counter)
    {
      assert outs[i..][0] == outs[i] && outs[i..][1..] == outs[i + 1..];
      var keyval := KeyOf(key, xs[i]);
      if keyval.Failure? {
        return Failure(keyval.error);
      }
      if !Hashable(keyval.value) {
        return Failure(Unhashable(keyval.value));
      }
      counter := Bump(counter, keyval.value);
      i := i + 1;
    }
    r := Success(counter);
  }
}
