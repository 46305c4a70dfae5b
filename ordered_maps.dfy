/** Python dictionaries as insertion-ordered association lists.
    `Set` is `d[k] = v` (an existing key keeps its position, a new key is
    appended) and `Update` is `d.update(other)`, which is also what `{**a, **b}`
    builds. */
module OrderedMaps {
  import opened Wrappers

  function Keys<K, V>(m: seq<(K, V)>): (ks: seq<K>)
    ensures |ks| == |m|
    ensures forall i :: 0 <= i < |m| ==> ks[i] == m[i].0
  {
    if m == [] then [] else [m[0].0] + Keys(m[1..])
  }

  function Values<K, V>(m: seq<(K, V)>): (vs: seq<V>)
    ensures |vs| == |m|
    ensures forall i :: 0 <= i < |m| ==> vs[i] == m[i].1
  {
    if m == [] then [] else [m[0].1] + Values(m[1..])
  }

  /** The keys of a dictionary are pairwise distinct. */
  predicate DistinctKeys<K(==), V>(m: seq<(K, V)>) {
    forall i, j :: 0 <= i < j < |m| ==> m[i].0 != m[j].0
  }

  predicate Distinct<T(==)>(s: seq<T>) {
    forall i, j :: 0 <= i < j < |s| ==> s[i] != s[j]
  }

  /** Position of key `k`, if present. */
  function IndexOf<K(==), V>(m: seq<(K, V)>, k: K): (r: Option<nat>)
    ensures r.Some? ==> r.value < |m| && m[r.value].0 == k
    ensures r.Some? ==> forall j :: 0 <= j < r.value ==> m[j].0 != k
    ensures r.None? <==> k !in Keys(m)
  {
    if m == [] then None
    else if m[0].0 == k then Some(0)
    else
      var r := IndexOf(m[1..], k);
      if r.Some? then Some(r.value + 1) else None
  }

  /** `d.get(k)` with `None` standing for an absent key. */
  function Get<K(==), V>(m: seq<(K, V)>, k: K): (r: Option<V>)
    ensures r.Some? <==> k in Keys(m)
  {
    match IndexOf(m, k)
    case Some(i) => Some(m[i].1)
    case None => None
  }

  lemma GetAt<K, V>(m: seq<(K, V)>, i: nat)
    requires DistinctKeys(m) && i < |m|
    ensures Get(m, m[i].0) == Some(m[i].1)
  {
    var r := IndexOf(m, m[i].0);
    assert m[i].0 in Keys(m);
  }

  /** `d[k] = v`. */
  function Set<K(==,!new), V>(m: seq<(K, V)>, k: K, v: V): (r: seq<(K, V)>)
    ensures k in Keys(m) ==> Keys(r) == Keys(m)
    ensures k !in Keys(m) ==> Keys(r) == Keys(m) + [k]
    ensures Get(r, k) == Some(v)
    ensures forall k' :: k' != k ==> Get(r, k') == Get(m, k')
    ensures DistinctKeys(m) ==> DistinctKeys(r)
  {
    match IndexOf(m, k)
    case Some(i) =>
      SetAt(m, i, k, v);
      m[i := (k, v)]
    case None =>
      SetNew(m, k, v);
      m + [(k, v)]
  }

  /** Overwriting the entry of a present key keeps every key in place. */
  lemma SetAt<K(!new), V>(m: seq<(K, V)>, i: nat, k: K, v: V)
    requires i < |m| && IndexOf(m, k) == Some(i)
    ensures Keys(m[i := (k, v)]) == Keys(m)
    ensures Get(m[i := (k, v)], k) == Some(v)
    ensures forall k' :: k' != k ==> Get(m[i := (k, v)], k') == Get(m, k')
    ensures DistinctKeys(m) ==> DistinctKeys(m[i := (k, v)])
  {
    var r := m[i := (k, v)];
    assert forall j :: 0 <= j < |m| ==> r[j].0 == m[j].0;
    forall k' ensures IndexOf(r, k') == IndexOf(m, k') {
      IndexOfPointwise(m, r, k');
    }
    assert Keys(r) == Keys(m);
  }

  /** Setting an absent key appends its entry. */
  lemma SetNew<K(!new), V>(m: seq<(K, V)>, k: K, v: V)
    requires k !in Keys(m)
    ensures Keys(m + [(k, v)]) == Keys(m) + [k]
    ensures Get(m + [(k, v)], k) == Some(v)
    ensures forall k' :: k' != k ==> Get(m + [(k, v)], k') == Get(m, k')
    ensures DistinctKeys(m) ==> DistinctKeys(m + [(k, v)])
  {
    var r := m + [(k, v)];
    IndexOfAppendAbsent(m, k, v);
    forall k' | k' != k ensures IndexOf(r, k') == IndexOf(m, k') {
      IndexOfAppendOther(m, k, v, k');
    }
    assert Keys(r) == Keys(m) + [k];
    if DistinctKeys(m) {
      AppendDistinct(m, k, v);
    }
  }

  /** Setting a key twice is setting it once to the second value. */
  lemma SetTwice<K(!new), V>(m: seq<(K, V)>, k: K, x: V, y: V)
    ensures Set(Set(m, k, x), k, y) == Set(m, k, y)
  {
    match IndexOf(m, k)
    case Some(i) => SetTwiceAt(m, i, k, x, y);
    case None => SetTwiceNew(m, k, x, y);
  }

  lemma SetTwiceAt<K(!new), V>(m: seq<(K, V)>, i: nat, k: K, x: V, y: V)
    requires i < |m| && IndexOf(m, k) == Some(i)
    ensures Set(Set(m, k, x), k, y) == Set(m, k, y)
  {
    var r := m[i := (k, x)];
    SetPresent(m, i, k, x);
    IndexOfPointwise(m, r, k);
    SetPresent(r, i, k, y);
    SetPresent(m, i, k, y);
    UpdateTwice(m, i, (k, x), (k, y));
  }

  lemma UpdateTwice<T>(s: seq<T>, i: nat, a: T, b: T)
    requires i < |s|
    ensures s[i := a][i := b] == s[i := b]
  {
  }

  lemma SetPresent<K(!new), V>(m: seq<(K, V)>, i: nat, k: K, x: V)
    requires i < |m| && IndexOf(m, k) == Some(i)
    ensures Set(m, k, x) == m[i := (k, x)]
  {
  }

  lemma SetTwiceNew<K(!new), V>(m: seq<(K, V)>, k: K, x: V, y: V)
    requires IndexOf(m, k).None?
    ensures Set(Set(m, k, x), k, y) == Set(m, k, y)
  {
    var r := m + [(k, x)];
    assert Set(m, k, x) == r;
    IndexOfAppendAbsent(m, k, x);
    assert Set(r, k, y) == r[|m| := (k, y)];
    assert r[|m| := (k, y)] == m + [(k, y)];
  }

  /** Setting a present key to the value it already has changes nothing. */
  lemma SetExisting<K(!new), V>(m: seq<(K, V)>, k: K)
    requires k in Keys(m)
    ensures Set(m, k, Get(m, k).value) == m
  {
    var i := IndexOf(m, k).value;
    assert m[i := (k, m[i].1)] == m;
  }

  lemma AppendDistinct<K, V>(m: seq<(K, V)>, k: K, v: V)
    requires k !in Keys(m) && DistinctKeys(m)
    ensures DistinctKeys(m + [(k, v)])
  {
    var r := m + [(k, v)];
    forall i, j | 0 <= i < j < |r| ensures r[i].0 != r[j].0 {
      if j == |m| {
        assert Keys(m)[i] == m[i].0;
      } else {
        assert r[i] == m[i] && r[j] == m[j];
      }
    }
  }

  lemma {:induction false} IndexOfPointwise<K, V, W>(m: seq<(K, V)>, r: seq<(K, W)>, k: K)
    requires |m| == |r|
    requires forall j :: 0 <= j < |m| ==> (m[j].0 == k <==> r[j].0 == k)
    ensures IndexOf(r, k) == IndexOf(m, k)
  {
    if m != [] {
      IndexOfPointwise(m[1..], r[1..], k);
    }
  }

  lemma {:induction false} IndexOfAppendAbsent<K, V>(m: seq<(K, V)>, k: K, v: V)
    requires k !in Keys(m)
    ensures IndexOf(m + [(k, v)], k) == Some(|m|)
  {
    if m != [] {
      assert (m + [(k, v)])[1..] == m[1..] + [(k, v)];
      assert Keys(m) == [m[0].0] + Keys(m[1..]);
      IndexOfAppendAbsent(m[1..], k, v);
    } else {
      assert (m + [(k, v)])[0].0 == k;
    }
  }

  lemma HeadNotInTail<K, V>(n: seq<(K, V)>)
    requires n != [] && DistinctKeys(n)
    ensures n[0].0 !in Keys(n[1..])
    ensures DistinctKeys(n[1..])
  {
    forall j | 0 <= j < |n[1..]| ensures Keys(n[1..])[j] != n[0].0 {
      assert n[1..][j] == n[j + 1];
    }
  }

  lemma {:induction false} IndexOfAppendOther<K, V>(m: seq<(K, V)>, k: K, v: V, k': K)
    requires k' != k
    ensures IndexOf(m + [(k, v)], k') == IndexOf(m, k')
  {
    if m != [] {
      assert (m + [(k, v)])[1..] == m[1..] + [(k, v)];
      IndexOfAppendOther(m[1..], k, v, k');
    } else {
      assert IndexOf([(k, v)][1..], k') == None;
    }
  }

  /** The keys of `ks` that are not in `seen`, in order. */
  function FreshKeys<K(==)>(ks: seq<K>, seen: seq<K>): (r: seq<K>)
    ensures |r| <= |ks|
  {
    if ks == [] then []
    else if ks[0] in seen then FreshKeys(ks[1..], seen)
    else [ks[0]] + FreshKeys(ks[1..], seen)
  }

  /** `m.update(n)`: every entry of `n` is set on `m` in order. */
  function Update<K(==,!new), V>(m: seq<(K, V)>, n: seq<(K, V)>): (r: seq<(K, V)>)
    ensures DistinctKeys(m) ==> DistinctKeys(r)
    decreases |n|
  {
    if n == [] then m else Update(Set(m, n[0].0, n[0].1), n[1..])
  }

  /** Reading after an update: keys of `n` take `n`'s value, every other key keeps `m`'s. */
  lemma {:induction false} UpdateGet<K(!new), V>(m: seq<(K, V)>, n: seq<(K, V)>, k: K)
    requires DistinctKeys(n)
    ensures Get(Update(m, n), k) == if k in Keys(n) then Get(n, k) else Get(m, k)
    decreases |n|
  {
    if n != [] {
      var m' := Set(m, n[0].0, n[0].1);
      HeadNotInTail(n);
      UpdateGet(m', n[1..], k);
      assert Update(m, n) == Update(m', n[1..]);
      if k == n[0].0 {
        GetHead(n);
      } else {
        GetTail(n, k);
      }
    }
  }

  /** Looking past the head. */
  lemma IndexOfCons<K, V>(m: seq<(K, V)>, k: K)
    requires m != [] && k != m[0].0
    ensures IndexOf(m[1..], k).Some? ==> IndexOf(m, k) == Some(IndexOf(m[1..], k).value + 1)
    ensures IndexOf(m[1..], k).None? ==> IndexOf(m, k).None?
  {
  }

  /** The head's key reads the head's value. */
  lemma GetHead<K, V>(n: seq<(K, V)>)
    requires n != []
    ensures n[0].0 in Keys(n) && Get(n, n[0].0) == Some(n[0].1)
  {
    assert Keys(n)[0] == n[0].0;
  }

  /** Any other key reads what the tail gives it. */
  lemma GetTail<K, V>(n: seq<(K, V)>, k: K)
    requires n != [] && k != n[0].0
    ensures (k in Keys(n)) == (k in Keys(n[1..])) && Get(n, k) == Get(n[1..], k)
  {
    assert Keys(n) == [n[0].0] + Keys(n[1..]);
  }

  /** Setting a new key appends it. */
  lemma SetAbsent<K(!new), V>(m: seq<(K, V)>, k: K, v: V)
    requires k !in Keys(m)
    ensures Set(m, k, v) == m + [(k, v)]
  {
    assert IndexOf(m, k) == None;
  }

  lemma FreshTail<K(!new), V>(m: seq<(K, V)>, n: seq<(K, V)>)
    requires n != [] && DistinctKeys(n) && forall j :: 0 <= j < |n| ==> n[j].0 !in Keys(m)
    ensures forall j :: 0 <= j < |n[1..]| ==> n[1..][j].0 !in Keys(m + [n[0]])
  {
    forall j | 0 <= j < |n[1..]| ensures n[1..][j].0 !in Keys(m + [n[0]]) {
      assert n[1..][j] == n[j + 1];
      assert Keys(m + [n[0]]) == Keys(m) + [n[0].0];
    }
  }

  /** Updating with entries whose keys are all new appends them. */
  lemma {:induction false} UpdateFresh<K(!new), V>(m: seq<(K, V)>, n: seq<(K, V)>)
    requires DistinctKeys(n) && forall j :: 0 <= j < |n| ==> n[j].0 !in Keys(m)
    ensures Update(m, n) == m + n
    decreases |n|
  {
    if n != [] {
      var m' := m + [n[0]];
      calc {
        Update(m, n);
        Update(Set(m, n[0].0, n[0].1), n[1..]);
        { SetAbsent(m, n[0].0, n[0].1); }
        Update(m', n[1..]);
        { HeadNotInTail(n); FreshTail(m, n); UpdateFresh(m', n[1..]); }
        m' + n[1..];
        { assert m' + n[1..] == m + n; }
        m + n;
      }
    }
  }

  /** Key order after an update: `m`'s keys keep their positions (an overriding
      entry keeps the position of the entry it replaces), then the new keys of
      `n` follow in `n`'s order. */
  lemma {:induction false} UpdateKeys<K(!new), V>(m: seq<(K, V)>, n: seq<(K, V)>)
    requires DistinctKeys(n)
    ensures Keys(Update(m, n)) == Keys(m) + FreshKeys(Keys(n), Keys(m))
    decreases |n|
  {
    if n != [] {
      var k0 := n[0].0;
      var m' := Set(m, k0, n[0].1);
      HeadNotInTail(n);
      UpdateKeys(m', n[1..]);
      var ks := Keys(n);
      assert ks[0] == k0 && ks[1..] == Keys(n[1..]);
      if k0 in Keys(m) {
        UpdateKeysPresent(m, m', Keys(n[1..]), ks, Keys(Update(m', n[1..])));
      } else {
        FreshKeysIgnores(Keys(n[1..]), Keys(m), k0);
        UpdateKeysAbsent(Keys(m), Keys(m'), Keys(n[1..]), ks, Keys(Update(m', n[1..])));
      }
    }
  }

  lemma UpdateKeysPresent<K, V>(m: seq<(K, V)>, m': seq<(K, V)>, rest: seq<K>, ks: seq<K>, after: seq<K>)
    requires ks != [] && ks[0] in Keys(m) && ks[1..] == rest
    requires Keys(m') == Keys(m)
    requires after == Keys(m') + FreshKeys(rest, Keys(m'))
    ensures after == Keys(m) + FreshKeys(ks, Keys(m))
  {
  }

  lemma UpdateKeysAbsent<K>(km: seq<K>, km': seq<K>, rest: seq<K>, ks: seq<K>, after: seq<K>)
    requires ks != [] && ks[0] !in km && ks[1..] == rest
    requires km' == km + [ks[0]]
    requires FreshKeys(rest, km') == FreshKeys(rest, km)
    requires after == km' + FreshKeys(rest, km')
    ensures after == km + FreshKeys(ks, km)
  {
    assert FreshKeys(ks, km) == [ks[0]] + FreshKeys(rest, km);
  }

  lemma {:induction false} FreshKeysIgnores<K>(ks: seq<K>, seen: seq<K>, x: K)
    requires x !in ks
    ensures FreshKeys(ks, seen + [x]) == FreshKeys(ks, seen)
  {
    if ks != [] {
      FreshKeysIgnores(ks[1..], seen, x);
    }
  }

  /** The entries whose key satisfies `keep`, in order. */
  function FilterKeys<K(==,!new), V(!new)>(m: seq<(K, V)>, keep: K -> bool): (r: seq<(K, V)>)
    ensures forall e :: e in r <==> e in m && keep(e.0)
    ensures |r| <= |m|
  {
    if m == [] then []
    else if keep(m[0].0) then [m[0]] + FilterKeys(m[1..], keep)
    else FilterKeys(m[1..], keep)
  }

  /** An entry's key is among the keys. */
  lemma KeyOfEntry<K, V>(m: seq<(K, V)>, e: (K, V))
    requires e in m
    ensures e.0 in Keys(m)
  {
    var p :| 0 <= p < |m| && m[p] == e;
    assert Keys(m)[p] == e.0;
  }

  lemma TailDistinct<K, V>(m: seq<(K, V)>)
    requires m != [] && DistinctKeys(m)
    ensures DistinctKeys(m[1..])
  {
    forall i, j | 0 <= i < j < |m[1..]| ensures m[1..][i].0 != m[1..][j].0 {
      assert m[1..][i] == m[i + 1] && m[1..][j] == m[j + 1];
    }
  }

  /** The entries kept from the tail do not carry the head's key. */
  lemma FilterTail<K(!new), V(!new)>(m: seq<(K, V)>, keep: K -> bool)
    requires m != [] && DistinctKeys(m)
    ensures forall e :: e in FilterKeys(m[1..], keep) ==> e.0 != m[0].0
  {
    var t := m[1..];
    forall e | e in FilterKeys(t, keep) ensures e.0 != m[0].0 {
      var p :| 0 <= p < |t| && t[p] == e;
      assert t[p] == m[p + 1];
    }
  }

  /** Filtering a dictionary keeps its keys distinct. */
  lemma {:induction false} FilterKeysDistinct<K(!new), V(!new)>(m: seq<(K, V)>, keep: K -> bool)
    requires DistinctKeys(m)
    ensures DistinctKeys(FilterKeys(m, keep))
    decreases |m|
  {
    if m != [] {
      TailDistinct(m);
      FilterKeysDistinct(m[1..], keep);
      if keep(m[0].0) {
        FilterTail(m, keep);
        ConsDistinct(m[0], FilterKeys(m[1..], keep));
      }
    }
  }

  /** An entry whose key the rest lacks can go in front of distinct entries. */
  lemma ConsDistinct<K, V>(e: (K, V), rest: seq<(K, V)>)
    requires DistinctKeys(rest) && forall x :: x in rest ==> x.0 != e.0
    ensures DistinctKeys([e] + rest)
  {
    var r := [e] + rest;
    forall i, j | 0 <= i < j < |r| ensures r[i].0 != r[j].0 {
      assert r[j] == rest[j - 1] && rest[j - 1] in rest;
      if i > 0 {
        assert r[i] == rest[i - 1];
      }
    }
  }

  /** `sub` is `m` with some entries dropped: the entries it keeps stay in
      the order `m` has them. */
  ghost predicate Subsequence<T>(sub: seq<T>, m: seq<T>)
    decreases |m|
  {
    if sub == [] then true
    else if m == [] then false
    else (sub[0] == m[0] && Subsequence(sub[1..], m[1..])) || Subsequence(sub, m[1..])
  }

  /** Filtering keeps the order of `m`. */
  lemma {:induction false} FilterKeysOrder<K(!new), V(!new)>(m: seq<(K, V)>, keep: K -> bool)
    ensures Subsequence(FilterKeys(m, keep), m)
    decreases |m|
  {
    if m != [] {
      FilterKeysOrder(m[1..], keep);
      if keep(m[0].0) {
        assert FilterKeys(m, keep)[1..] == FilterKeys(m[1..], keep);
      }
    }
  }
}
