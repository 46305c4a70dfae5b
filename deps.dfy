/** `DependencyResolver` (src/schematix/core/deps.py): a conditional field
    depends on the fields named in its `dependencies`; the resolver rejects a
    dependency that is not a field, orders the fields so that dependencies
    come first (Kahn's algorithm), and on a cycle reports one found by a
    depth-first search. */
module Deps {
  import opened Wrappers
  import opened Errors
  import opened Composites
  import OrderedMaps

  /** Field names in mapping order, each with the names it depends on. */
  type Graph = seq<(string, seq<string>)>

  /** Only a conditional field's dependencies count. */
  function DepsOf(f: Field): seq<string> {
    if IsConditional(f) then f.config.dependencies else []
  }

  function GraphOf(fields: seq<(string, Field)>): (g: Graph)
    ensures |g| == |fields|
    ensures forall i :: 0 <= i < |fields| ==> g[i] == (fields[i].0, DepsOf(fields[i].1))
  {
    seq(|fields|, i requires 0 <= i < |fields| => (fields[i].0, DepsOf(fields[i].1)))
  }

  function Deps(g: Graph, n: string): seq<string> {
    OrderedMaps.Get(g, n).GetOr([])
  }

  /** Every dependency names a field. */
  predicate Closed(g: Graph) {
    forall i, d :: 0 <= i < |g| && d in g[i].1 ==> d in OrderedMaps.Keys(g)
  }

  lemma DepsAt(g: Graph, i: nat)
    requires OrderedMaps.DistinctKeys(g) && i < |g|
    ensures Deps(g, g[i].0) == g[i].1
  {
    OrderedMaps.GetAt(g, i);
  }

  /** The position of a field name. */
  function Index(g: Graph, n: string): (k: nat)
    requires n in OrderedMaps.Keys(g)
    ensures k < |g| && g[k].0 == n
  {
    OrderedMaps.IndexOf(g, n).value
  }

  // ------------------------------------------------------------- validation

  function MissingIn(name: string, ds: seq<string>, keys: seq<string>): (r: Option<Error>)
    ensures r.None? <==> forall d :: d in ds ==> d in keys
    ensures r.Some? ==> r.value.MissingDependency? && r.value.dependent == name &&
                        r.value.dep in ds && r.value.dep !in keys
  {
    if ds == [] then None
    else if ds[0] !in keys then Some(MissingDependency(name, ds[0]))
    else MissingIn(name, ds[1..], keys)
  }

  function FirstMissing(g: Graph, keys: seq<string>): (r: Option<Error>)
    ensures r.None? <==> forall i, d :: 0 <= i < |g| && d in g[i].1 ==> d in keys
    ensures r.Some? ==> r.value.MissingDependency? && r.value.dep !in keys &&
                        exists i :: 0 <= i < |g| && g[i].0 == r.value.dependent && r.value.dep in g[i].1
    decreases |g|
  {
    if g == [] then None
    else
      match MissingIn(g[0].0, g[0].1, keys)
      case Some(e) => Some(e)
      case None =>
        var r := FirstMissing(g[1..], keys);
        assert forall i :: 1 <= i < |g| ==> g[1..][i - 1] == g[i];
        r
  }

  /** `_validatedependencies`: the first conditional field, in mapping order,
      naming a dependency that is not a field, and the first such name. */
  function Validate(fields: seq<(string, Field)>): (r: Option<Error>)
    ensures r.None? <==> Closed(GraphOf(fields))
    ensures r.Some? ==> r.value.MissingDependency? && r.value.dep !in OrderedMaps.Keys(fields)
  {
    var g := GraphOf(fields);
    assert OrderedMaps.Keys(g) == OrderedMaps.Keys(fields);
    FirstMissing(g, OrderedMaps.Keys(fields))
  }

  // ------------------------------------------------------ orders and cycles

  /** Each name in `w` is followed by one of its dependencies. */
  ghost predicate IsWalk(g: Graph, w: seq<string>) {
    forall i :: 0 <= i < |w| - 1 ==> w[i + 1] in Deps(g, w[i])
  }

  /** A walk of fields that comes back to where it started. */
  ghost predicate IsCycle(g: Graph, c: seq<string>) {
    |c| >= 2 && c[0] == c[|c| - 1] && IsWalk(g, c) && forall x :: x in c ==> x in OrderedMaps.Keys(g)
  }

  ghost predicate Acyclic(g: Graph) {
    forall c :: !IsCycle(g, c)
  }

  /** Every dependency of a name appears before it. */
  ghost predicate Precedes(g: Graph, order: seq<string>) {
    forall p, d :: 0 <= p < |order| && d in Deps(g, order[p]) ==> d in order[..p]
  }

  /** The names with no dependencies, in mapping order. */
  function ZeroDeps(g: Graph): (z: seq<string>)
    ensures |z| <= |g|
  {
    if g == [] then []
    else ZeroDeps(g[..|g| - 1]) + (if g[|g| - 1].1 == [] then [g[|g| - 1].0] else [])
  }

  lemma ZeroDepsFacts(g: Graph)
    requires OrderedMaps.DistinctKeys(g)
    ensures OrderedMaps.Distinct(ZeroDeps(g))
    ensures forall x :: x in ZeroDeps(g) ==> x in OrderedMaps.Keys(g)
    ensures forall k :: 0 <= k < |g| ==> (g[k].0 in ZeroDeps(g) <==> g[k].1 == [])
  {
    ZeroDepsMembers(g);
    ZeroDepsDistinct(g);
  }

  lemma {:induction false} ZeroDepsMembers(g: Graph)
    requires OrderedMaps.DistinctKeys(g)
    ensures forall x :: x in ZeroDeps(g) ==> x in OrderedMaps.Keys(g)
    ensures forall k :: 0 <= k < |g| ==> (g[k].0 in ZeroDeps(g) <==> g[k].1 == [])
    decreases |g|
  {
    if g != [] {
      var h := g[..|g| - 1];
      ZeroDepsMembers(h);
      ZeroDepsLast(g, h);
    }
  }

  /** The step of `ZeroDepsMembers`: the last field joins the names of the others. */
  lemma ZeroDepsLast(g: Graph, h: Graph)
    requires OrderedMaps.DistinctKeys(g) && g != [] && h == g[..|g| - 1]
    requires forall x :: x in ZeroDeps(h) ==> x in OrderedMaps.Keys(h)
    requires forall k :: 0 <= k < |h| ==> (h[k].0 in ZeroDeps(h) <==> h[k].1 == [])
    ensures forall x :: x in ZeroDeps(g) ==> x in OrderedMaps.Keys(g)
    ensures forall k :: 0 <= k < |g| ==> (g[k].0 in ZeroDeps(g) <==> g[k].1 == [])
  {
    var last := g[|g| - 1];
    var z, tail := ZeroDeps(h), if last.1 == [] then [last.0] else [];
    assert ZeroDeps(g) == z + tail;
    EarlierKeys(g, h, z);
    forall x | x in z + tail ensures x in OrderedMaps.Keys(g) {
      if x !in z {
        assert OrderedMaps.Keys(g)[|g| - 1] == x;
      }
    }
    LastIff(g, h, z, tail);
  }

  lemma EarlierKeys(g: Graph, h: Graph, z: seq<string>)
    requires OrderedMaps.DistinctKeys(g) && g != [] && h == g[..|g| - 1]
    requires forall x :: x in z ==> x in OrderedMaps.Keys(h)
    ensures forall x :: x in z ==> x != g[|g| - 1].0 && x in OrderedMaps.Keys(g)
  {
    forall x | x in z ensures x != g[|g| - 1].0 && x in OrderedMaps.Keys(g) {
      var k := Index(h, x);
      assert g[k].0 == x;
      assert OrderedMaps.Keys(g)[k] == x;
    }
  }

  lemma LastIff(g: Graph, h: Graph, z: seq<string>, tail: seq<string>)
    requires OrderedMaps.DistinctKeys(g) && g != [] && h == g[..|g| - 1]
    requires tail == if g[|g| - 1].1 == [] then [g[|g| - 1].0] else []
    requires forall x :: x in z ==> x != g[|g| - 1].0
    requires forall k :: 0 <= k < |h| ==> (h[k].0 in z <==> h[k].1 == [])
    ensures forall k :: 0 <= k < |g| ==> (g[k].0 in z + tail <==> g[k].1 == [])
  {
    forall k | 0 <= k < |g| ensures g[k].0 in z + tail <==> g[k].1 == [] {
      if k < |h| {
        assert g[k] == h[k];
        assert g[k].0 != g[|g| - 1].0;
      }
    }
  }

  lemma {:induction false} ZeroDepsDistinct(g: Graph)
    requires OrderedMaps.DistinctKeys(g)
    ensures OrderedMaps.Distinct(ZeroDeps(g))
    decreases |g|
  {
    if g != [] {
      var h := g[..|g| - 1];
      ZeroDepsDistinct(h);
      ZeroDepsMembers(h);
      var last := g[|g| - 1];
      assert ZeroDeps(g) == ZeroDeps(h) + (if last.1 == [] then [last.0] else []);
      forall x | x in ZeroDeps(h) ensures x != last.0 {
        var k := Index(h, x);
        assert g[k].0 == x;
      }
      forall i, j | 0 <= i < j < |ZeroDeps(g)| ensures ZeroDeps(g)[i] != ZeroDeps(g)[j] {
        if j >= |ZeroDeps(h)| {
          assert ZeroDeps(g)[j] == last.0;
          assert ZeroDeps(g)[i] in ZeroDeps(h);
        }
      }
    }
  }

  /** What Kahn's algorithm promises of a complete order: a permutation of the
      field names in which dependencies come first and the fields without
      dependencies lead, in mapping order. */
  ghost predicate IsResolution(g: Graph, order: seq<string>) {
    && OrderedMaps.Distinct(order)
    && |order| == |g|
    && (forall n :: n in order <==> n in OrderedMaps.Keys(g))
    && Precedes(g, order)
    && |ZeroDeps(g)| <= |order| && order[..|ZeroDeps(g)|] == ZeroDeps(g)
  }

  // ----------------------------------------------------------- counting

  function Occ(x: string, s: seq<string>): nat {
    if s == [] then 0 else (if s[0] == x then 1 else 0) + Occ(x, s[1..])
  }

  lemma {:induction false} OccAppend(x: string, a: seq<string>, b: seq<string>)
    ensures Occ(x, a + b) == Occ(x, a) + Occ(x, b)
    decreases |a|
  {
    if a == [] {
      assert a + b == b;
    } else {
      assert (a + b)[1..] == a[1..] + b;
      OccAppend(x, a[1..], b);
    }
  }

  lemma OccPositive(x: string, s: seq<string>)
    requires x in s
    ensures Occ(x, s) >= 1
  {
  }

  /** The number of entries of `ds` not yet in `done`: the in-degree Kahn's
      algorithm keeps for a field. */
  function Remaining(ds: seq<string>, done: seq<string>): nat {
    if ds == [] then 0 else (if ds[0] in done then 0 else 1) + Remaining(ds[1..], done)
  }

  lemma RemainingZero(ds: seq<string>, done: seq<string>)
    ensures Remaining(ds, done) == 0 <==> forall d :: d in ds ==> d in done
  {
  }

  lemma RemainingNone(ds: seq<string>)
    ensures Remaining(ds, []) == |ds|
  {
  }

  /** Marking `c` done lowers a count by the occurrences of `c`. */
  lemma {:induction false} RemainingDone(ds: seq<string>, done: seq<string>, c: string)
    requires c !in done
    ensures Remaining(ds, done) == Remaining(ds, done + [c]) + Occ(c, ds)
    decreases |ds|
  {
    if ds != [] {
      RemainingDone(ds[1..], done, c);
    }
  }

  function Repeat(x: string, k: nat): (s: seq<string>)
    ensures |s| == k && forall y :: y in s ==> y == x
  {
    if k == 0 then [] else Repeat(x, k - 1) + [x]
  }

  lemma OccRepeat(y: string, x: string, k: nat)
    ensures Occ(y, Repeat(x, k)) == if y == x then k else 0
  {
    if k > 0 {
      OccAppend(y, Repeat(x, k - 1), [x]);
    }
  }

  /** `graph[c]` after building from the first `m` fields: each field that
      depends on `c`, once per mention, in mapping order. */
  function DependentsUpTo(g: Graph, c: string, m: nat): (s: seq<string>)
    requires m <= |g|
    ensures forall x :: x in s ==> x in OrderedMaps.Keys(g)
  {
    if m == 0 then []
    else
      assert g[m - 1].0 == OrderedMaps.Keys(g)[m - 1];
      DependentsUpTo(g, c, m - 1) + Repeat(g[m - 1].0, Occ(c, g[m - 1].1))
  }

  lemma {:induction false} OccDependents(g: Graph, c: string, m: nat, k: nat)
    requires OrderedMaps.DistinctKeys(g) && m <= |g| && k < |g|
    ensures Occ(g[k].0, DependentsUpTo(g, c, m)) == if k < m then Occ(c, g[k].1) else 0
    decreases m
  {
    if m > 0 {
      OccDependents(g, c, m - 1, k);
      OccAppend(g[k].0, DependentsUpTo(g, c, m - 1), Repeat(g[m - 1].0, Occ(c, g[m - 1].1)));
      OccRepeat(g[k].0, g[m - 1].0, Occ(c, g[m - 1].1));
    }
  }

  function Look(m: map<string, seq<string>>, c: string): seq<string> {
    if c in m then m[c] else []
  }

  // ------------------------------------------------------------ cardinality

  ghost function Elems(s: seq<string>): set<string> {
    set x | x in s
  }

  lemma {:induction false} DistinctCard(s: seq<string>)
    requires OrderedMaps.Distinct(s)
    ensures |Elems(s)| == |s|
    decreases |s|
  {
    if s != [] {
      var h := s[..|s| - 1];
      DistinctCard(h);
      assert Elems(s) == Elems(h) + {s[|s| - 1]};
      assert s[|s| - 1] !in Elems(h);
    }
  }

  lemma SubsetCard(a: set<string>, b: set<string>)
    requires a <= b
    ensures |a| <= |b|
    ensures |a| == |b| ==> a == b
  {
    assert b == a + (b - a);
  }

  /** A repetition-free sequence of field names is at most as long as the fields. */
  lemma DistinctBound(s: seq<string>, keys: seq<string>)
    requires OrderedMaps.Distinct(s) && forall x :: x in s ==> x in keys
    ensures |s| <= |keys|
  {
    DistinctCard(s);
    KeysCard(keys);
    SubsetCard(Elems(s), Elems(keys));
  }

  lemma {:induction false} KeysCard(keys: seq<string>)
    ensures |Elems(keys)| <= |keys|
    decreases |keys|
  {
    if keys != [] {
      var h := keys[..|keys| - 1];
      KeysCard(h);
      assert Elems(keys) == Elems(h) + {keys[|keys| - 1]};
    }
  }

  lemma KeysDistinct(g: Graph)
    requires OrderedMaps.DistinctKeys(g)
    ensures OrderedMaps.Distinct(OrderedMaps.Keys(g))
  {
  }

  /** A repetition-free order of field names as long as the fields holds them all. */
  lemma FullOrder(order: seq<string>, g: Graph)
    requires OrderedMaps.DistinctKeys(g) && OrderedMaps.Distinct(order) && |order| == |g|
    requires forall x :: x in order ==> x in OrderedMaps.Keys(g)
    ensures forall n :: n in OrderedMaps.Keys(g) ==> n in order
  {
    var keys := OrderedMaps.Keys(g);
    KeysDistinct(g);
    DistinctCard(order);
    DistinctCard(keys);
    assert Elems(order) <= Elems(keys);
    SubsetCard(Elems(order), Elems(keys));
    forall n | n in keys ensures n in order {
      assert n in Elems(keys);
    }
  }

  /** A shorter repetition-free order misses some field name. */
  lemma PartialOrder(order: seq<string>, g: Graph)
    requires OrderedMaps.DistinctKeys(g) && OrderedMaps.Distinct(order) && |order| < |g|
    ensures exists k :: 0 <= k < |g| && g[k].0 !in order
  {
    var keys := OrderedMaps.Keys(g);
    if forall k :: 0 <= k < |g| ==> g[k].0 in order {
      KeysDistinct(g);
      DistinctCard(order);
      DistinctCard(keys);
      assert Elems(keys) <= Elems(order);
      SubsetCard(Elems(keys), Elems(order));
      assert false;
    }
  }

  // ------------------------------------------------- order versus cycle

  function Position(s: seq<string>, x: string): (p: nat)
    requires x in s
    ensures p < |s| && s[p] == x && x !in s[..p]
  {
    if s[0] == x then 0 else 1 + Position(s[1..], x)
  }

  lemma PositionFirst(s: seq<string>, x: string, q: nat)
    requires q < |s| && s[q] == x
    ensures Position(s, x) <= q
  {
    if s[0] != x {
      PositionFirst(s[1..], x, q - 1);
    }
  }

  /** In an order where dependencies come first, a dependency sits strictly
      earlier than its dependent. */
  lemma EdgeDecreases(g: Graph, order: seq<string>, a: string, b: string)
    requires Precedes(g, order) && a in order && b in Deps(g, a)
    ensures b in order && Position(order, b) < Position(order, a)
  {
    var p := Position(order, a);
    assert b in order[..p];
    var q :| 0 <= q < p && order[..p][q] == b;
    PositionFirst(order, b, q);
  }

  /** So following a walk moves strictly earlier. */
  lemma {:induction false} PositionsDecrease(g: Graph, order: seq<string>, w: seq<string>)
    requires |w| >= 2 && IsWalk(g, w)
    requires Precedes(g, order) && w[0] in order
    ensures w[|w| - 1] in order && Position(order, w[|w| - 1]) < Position(order, w[0])
    decreases |w|
  {
    assert w[1] in Deps(g, w[0]);
    EdgeDecreases(g, order, w[0], w[1]);
    if |w| > 2 {
      var v := w[1..];
      assert IsWalk(g, v) by {
        forall t | 0 <= t < |v| - 1 ensures v[t + 1] in Deps(g, v[t]) {
          assert v[t] == w[t + 1] && v[t + 1] == w[t + 2];
        }
      }
      PositionsDecrease(g, order, v);
    }
  }

  /** So a cycle has no such order. */
  lemma NoCycleInOrder(g: Graph, order: seq<string>, c: seq<string>)
    requires Precedes(g, order) && forall n :: n in OrderedMaps.Keys(g) ==> n in order
    ensures !IsCycle(g, c)
  {
    if |c| >= 2 && IsWalk(g, c) && forall x :: x in c ==> x in OrderedMaps.Keys(g) {
      assert c[0] in OrderedMaps.Keys(g);
      PositionsDecrease(g, order, c);
    }
  }

  /** `n` depends on some name in `u`. */
  ghost predicate HasDepIn(g: Graph, n: string, u: set<string>) {
    exists d :: d in Deps(g, n) && d in u
  }

  /** A walk of length `n` that stays inside `u`, which it can when each
      member of `u` has a dependency in `u`. */
  lemma LongWalk(g: Graph, u: set<string>, n: nat) returns (w: seq<string>)
    requires u != {}
    requires forall x {:trigger HasDepIn(g, x, u)} :: x in u ==> HasDepIn(g, x, u)
    ensures |w| == n + 1 && IsWalk(g, w) && forall x :: x in w ==> x in u
  {
    var x :| x in u;
    w := [x];
    while |w| <= n
      invariant 1 <= |w| <= n + 1 && IsWalk(g, w) && forall x :: x in w ==> x in u
    {
      var last := w[|w| - 1];
      assert last in u;
      assert HasDepIn(g, last, u);
      var d :| d in Deps(g, last) && d in u;
      w := w + [d];
    }
  }

  /** A walk that repeats a name contains a cycle. */
  lemma CycleBetween(g: Graph, w: seq<string>, i: nat, j: nat)
    requires i < j < |w| && w[i] == w[j] && IsWalk(g, w) && forall x :: x in w ==> x in OrderedMaps.Keys(g)
    ensures IsCycle(g, w[i..j + 1])
  {
    var c := w[i..j + 1];
    forall t | 0 <= t < |c| - 1 ensures c[t + 1] in Deps(g, c[t]) {
      assert c[t] == w[i + t] && c[t + 1] == w[i + t + 1];
    }
  }

  /** When every field left over has a dependency that is left over too,
      following those dependencies must repeat a field: there is a cycle. */
  lemma BlockedHasCycle(g: Graph, u: set<string>)
    requires u != {} && forall n :: n in u ==> n in OrderedMaps.Keys(g)
    requires forall n {:trigger HasDepIn(g, n, u)} :: n in u ==> HasDepIn(g, n, u)
    ensures !Acyclic(g)
  {
    var w := LongWalk(g, u, |u|);
    var i, j := Repeated(w, u);
    assert forall x :: x in w ==> x in OrderedMaps.Keys(g);
    CycleBetween(g, w, i, j);
    var c := w[i..j + 1];
    assert IsCycle(g, c);
  }

  /** A sequence longer than the set it draws from repeats an element. */
  lemma Repeated(w: seq<string>, u: set<string>) returns (i: nat, j: nat)
    requires |w| > |u| && forall x :: x in w ==> x in u
    ensures i < j < |w| && w[i] == w[j]
  {
    if OrderedMaps.Distinct(w) {
      DistinctCard(w);
      assert Elems(w) <= u;
      SubsetCard(Elems(w), u);
      assert false;
    }
    i, j :| 0 <= i < j < |w| && w[i] == w[j];
  }

  lemma PrecedesSnoc(g: Graph, order: seq<string>, x: string)
    requires Precedes(g, order) && forall d :: d in Deps(g, x) ==> d in order
    ensures Precedes(g, order + [x])
  {
    var o := order + [x];
    forall p, d | 0 <= p < |o| && d in Deps(g, o[p]) ensures d in o[..p] {
      if p < |order| {
        assert o[..p] == order[..p];
      } else {
        assert o[..p] == order;
      }
    }
  }

  // ------------------------------------------------------- Kahn's algorithm

  /** `degree[name] = 0` for every field. */
  method ZeroDegrees(g: Graph) returns (degree: map<string, int>)
    ensures forall k :: 0 <= k < |g| ==> g[k].0 in degree && degree[g[k].0] == 0
  {
    degree := map[];
    var i := 0;
    while i < |g|
      invariant 0 <= i <= |g|
      invariant forall k :: 0 <= k < i ==> g[k].0 in degree && degree[g[k].0] == 0
    {
      degree := degree[g[i].0 := 0];
      i := i + 1;
    }
  }

  /** The edges built so far from the first `i` fields. */
  ghost predicate Built(g: Graph, i: nat, dependents: map<string, seq<string>>, degree: map<string, int>)
    requires i <= |g|
  {
    && (forall c :: Look(dependents, c) == DependentsUpTo(g, c, i))
    && (forall k :: 0 <= k < |g| ==> g[k].0 in degree)
    && (forall k :: 0 <= k < |g| ==> degree[g[k].0] == if k < i then |g[k].1| else 0)
  }

  /** Recording one more mention `ds[j]` by `name`. */
  lemma AddMention(g: Graph, i: nat, name: string, ds: seq<string>, j: nat, m: map<string, seq<string>>)
    requires i <= |g| && j < |ds|
    requires forall c :: Look(m, c) == DependentsUpTo(g, c, i) + Repeat(name, Occ(c, ds[..j]))
    ensures forall c :: Look(m[ds[j] := Look(m, ds[j]) + [name]], c) ==
                        DependentsUpTo(g, c, i) + Repeat(name, Occ(c, ds[..j + 1]))
  {
    var dep := ds[j];
    var m' := m[dep := Look(m, dep) + [name]];
    assert ds[..j + 1] == ds[..j] + [dep];
    forall c ensures Look(m', c) == DependentsUpTo(g, c, i) + Repeat(name, Occ(c, ds[..j + 1])) {
      OccSnoc(c, ds[..j], dep);
      if c == dep {
        assert Look(m', c) == Look(m, c) + [name];
      } else {
        assert Look(m', c) == Look(m, c);
      }
    }
  }

  lemma OccSnoc(c: string, s: seq<string>, x: string)
    ensures Occ(c, s + [x]) == Occ(c, s) + (if c == x then 1 else 0)
  {
    OccAppend(c, s, [x]);
    assert [x][1..] == [];
  }

  /** The inner building loop for field `i`: each dependency `dep` gets the
      field appended to `graph[dep]`, and the field's in-degree rises. */
  method AddEdges(g: Graph, i: nat, dependents: map<string, seq<string>>, degree: map<string, int>)
    returns (dependents': map<string, seq<string>>, degree': map<string, int>)
    requires OrderedMaps.DistinctKeys(g) && i < |g|
    requires Built(g, i, dependents, degree)
    ensures Built(g, i + 1, dependents', degree')
  {
    var name := g[i].0;
    var ds := g[i].1;
    dependents', degree' := dependents, degree;
    var j := 0;
    assert ds[..0] == [];
    while j < |ds|
      invariant 0 <= j <= |ds|
      invariant forall c :: Look(dependents', c) == DependentsUpTo(g, c, i) + Repeat(name, Occ(c, ds[..j]))
      invariant forall k :: 0 <= k < |g| ==> g[k].0 in degree'
      invariant forall k :: 0 <= k < |g| ==> degree'[g[k].0] == if k < i then |g[k].1| else if k == i then j else 0
    {
      var dep := ds[j];
      AddMention(g, i, name, ds, j, dependents');
      BumpDegree(g, i, j, degree');
      dependents' := dependents'[dep := Look(dependents', dep) + [name]];
      degree' := degree'[name := degree'[name] + 1];
      j := j + 1;
    }
    EdgesAdded(g, i, dependents', degree');
  }

  /** One more dependency counted for field `i`. */
  lemma BumpDegree(g: Graph, i: nat, j: nat, degree: map<string, int>)
    requires OrderedMaps.DistinctKeys(g) && i < |g|
    requires forall k :: 0 <= k < |g| ==> g[k].0 in degree
    requires forall k :: 0 <= k < |g| ==> degree[g[k].0] == if k < i then |g[k].1| else if k == i then j else 0
    ensures forall k :: 0 <= k < |g| ==> g[k].0 in degree[g[i].0 := degree[g[i].0] + 1]
    ensures forall k :: 0 <= k < |g| ==>
      degree[g[i].0 := degree[g[i].0] + 1][g[k].0] == if k < i then |g[k].1| else if k == i then j + 1 else 0
  {
    var d := degree[g[i].0 := degree[g[i].0] + 1];
    forall k | 0 <= k < |g| ensures d[g[k].0] == if k < i then |g[k].1| else if k == i then j + 1 else 0 {
      if k != i {
        assert g[k].0 != g[i].0;
      }
    }
  }

  /** The inner loop's end state is the building state for `i + 1`. */
  lemma EdgesAdded(g: Graph, i: nat, dependents: map<string, seq<string>>, degree: map<string, int>)
    requires i < |g|
    requires forall c :: Look(dependents, c) == DependentsUpTo(g, c, i) + Repeat(g[i].0, Occ(c, g[i].1[..|g[i].1|]))
    requires forall k :: 0 <= k < |g| ==> g[k].0 in degree
    requires forall k :: 0 <= k < |g| ==>
      degree[g[k].0] == if k < i then |g[k].1| else if k == i then |g[i].1| else 0
    ensures Built(g, i + 1, dependents, degree)
  {
    assert g[i].1[..|g[i].1|] == g[i].1;
  }

  /** The graph-building loops of `resolveorder`. */
  method BuildEdges(g: Graph) returns (dependents: map<string, seq<string>>, degree: map<string, int>)
    requires OrderedMaps.DistinctKeys(g)
    ensures forall c :: Look(dependents, c) == DependentsUpTo(g, c, |g|)
    ensures forall k :: 0 <= k < |g| ==> g[k].0 in degree && degree[g[k].0] == |g[k].1|
  {
    degree := ZeroDegrees(g);
    dependents := map[];
    BuiltStart(g, degree);
    var i := 0;
    while i < |g|
      invariant 0 <= i <= |g|
      invariant Built(g, i, dependents, degree)
    {
      dependents, degree := AddEdges(g, i, dependents, degree);
      i := i + 1;
    }
  }

  lemma BuiltStart(g: Graph, degree: map<string, int>)
    requires forall k :: 0 <= k < |g| ==> g[k].0 in degree && degree[g[k].0] == 0
    ensures Built(g, 0, map[], degree)
  {
  }

  /** The initial queue: the names whose in-degree is zero, in mapping order. */
  method Seed(g: Graph, degree: map<string, int>) returns (q: seq<string>)
    requires forall k :: 0 <= k < |g| ==> g[k].0 in degree && degree[g[k].0] == |g[k].1|
    ensures q == ZeroDeps(g)
  {
    q := [];
    var i := 0;
    while i < |g|
      invariant 0 <= i <= |g|
      invariant q == ZeroDeps(g[..i])
    {
      assert g[..i + 1][..i] == g[..i];
      if degree[g[i].0] == 0 {
        q := q + [g[i].0];
      }
      i := i + 1;
    }
    assert g[..|g|] == g;
  }

  /** Every name met is a field and is met once, and the seed leads. */
  ghost predicate MetWell(g: Graph, met: seq<string>) {
    && (forall x :: x in met ==> x in OrderedMaps.Keys(g))
    && OrderedMaps.Distinct(met)
    && |ZeroDeps(g)| <= |met| && met[..|ZeroDeps(g)|] == ZeroDeps(g)
  }

  /** In-degrees count the dependencies not yet output, plus those of
      `pending` still to be released. */
  ghost predicate Counted(g: Graph, degree: map<string, int>, result: seq<string>, pending: seq<string>) {
    forall k :: 0 <= k < |g| ==> g[k].0 in degree && degree[g[k].0] == Remaining(g[k].1, result) + Occ(g[k].0, pending)
  }

  /** A name has been met exactly when its in-degree is zero. */
  ghost predicate ZeroIsMet(g: Graph, degree: map<string, int>, met: seq<string>) {
    forall k :: 0 <= k < |g| ==> g[k].0 in degree && (g[k].0 in met <==> degree[g[k].0] == 0)
  }

  /** What the queue loop keeps. */
  ghost predicate KahnInvariant(g: Graph, degree: map<string, int>, q: seq<string>, result: seq<string>, pending: seq<string>) {
    MetWell(g, result + q) && Counted(g, degree, result, pending) && ZeroIsMet(g, degree, result + q) && Precedes(g, result)
  }

  /** Releasing one mention of `nb`. */
  lemma ReleaseOne(g: Graph, degree: map<string, int>, met: seq<string>, result: seq<string>, nb: string, rest: seq<string>)
    requires OrderedMaps.DistinctKeys(g) && nb in OrderedMaps.Keys(g)
    requires MetWell(g, met) && Counted(g, degree, result, [nb] + rest) && ZeroIsMet(g, degree, met)
    ensures nb in degree && degree[nb] >= 1
    ensures Counted(g, degree[nb := degree[nb] - 1], result, rest)
    ensures degree[nb] == 1 ==> nb !in met && MetWell(g, met + [nb]) && ZeroIsMet(g, degree[nb := 0], met + [nb])
    ensures degree[nb] != 1 ==> ZeroIsMet(g, degree[nb := degree[nb] - 1], met)
  {
    var kn := Index(g, nb);
    assert ([nb] + rest)[1..] == rest;
    assert degree[nb] == Remaining(g[kn].1, result) + 1 + Occ(nb, rest);
    var d' := degree[nb := degree[nb] - 1];
    forall k | 0 <= k < |g| ensures g[k].0 in d' && d'[g[k].0] == Remaining(g[k].1, result) + Occ(g[k].0, rest) {
      if k != kn {
        assert g[k].0 != nb;
      }
    }
    if degree[nb] == 1 {
      assert (met + [nb])[..|ZeroDeps(g)|] == met[..|ZeroDeps(g)|];
      forall k | 0 <= k < |g| ensures g[k].0 in d' && (g[k].0 in met + [nb] <==> d'[g[k].0] == 0) {
        if k != kn {
          assert g[k].0 != nb;
        }
      }
    } else {
      forall k | 0 <= k < |g| ensures g[k].0 in d' && (g[k].0 in met <==> d'[g[k].0] == 0) {
        if k != kn {
          assert g[k].0 != nb;
        }
      }
    }
  }

  /** The inner loop of `resolveorder`: lower the in-degree of each dependent
      of the node just output, queueing those that reach zero. */
  method Release(g: Graph, neighbors: seq<string>, degree: map<string, int>, q: seq<string>, result: seq<string>)
    returns (degree': map<string, int>, q': seq<string>)
    requires OrderedMaps.DistinctKeys(g)
    requires forall x :: x in neighbors ==> x in OrderedMaps.Keys(g)
    requires KahnInvariant(g, degree, q, result, neighbors)
    ensures KahnInvariant(g, degree', q', result, [])
  {
    degree', q' := degree, q;
    var j := 0;
    assert neighbors[0..] == neighbors;
    while j < |neighbors|
      invariant 0 <= j <= |neighbors|
      invariant KahnInvariant(g, degree', q', result, neighbors[j..])
    {
      var nb := neighbors[j];
      SplitAt(neighbors, j);
      ReleaseOne(g, degree', result + q', result, nb, neighbors[j + 1..]);
      degree' := degree'[nb := degree'[nb] - 1];
      if degree'[nb] == 0 {
        SnocAssoc(result, q', nb);
        q' := q' + [nb];
      }
      j := j + 1;
    }
  }

  lemma SplitAt(s: seq<string>, j: nat)
    requires j < |s|
    ensures s[j..] == [s[j]] + s[j + 1..]
  {
  }

  lemma SnocAssoc(a: seq<string>, b: seq<string>, x: string)
    ensures a + (b + [x]) == a + b + [x]
  {
  }

  lemma HeadNotMet(result: seq<string>, q: seq<string>)
    requires q != [] && OrderedMaps.Distinct(result + q)
    ensures q[0] !in result
  {
    forall i | 0 <= i < |result| ensures result[i] != q[0] {
      assert (result + q)[i] == result[i] && (result + q)[|result|] == q[0];
    }
  }

  /** One turn of the queue loop: output the head of the queue. */
  method Visit(g: Graph, dependents: map<string, seq<string>>, degree: map<string, int>, q: seq<string>, result: seq<string>)
    returns (degree': map<string, int>, q': seq<string>, result': seq<string>)
    requires OrderedMaps.DistinctKeys(g) && q != []
    requires forall c :: Look(dependents, c) == DependentsUpTo(g, c, |g|)
    requires KahnInvariant(g, degree, q, result, [])
    ensures KahnInvariant(g, degree', q', result', [])
    ensures |result'| == |result| + 1
  {
    var current := q[0];
    Output(g, degree, q, result);
    result' := result + [current];
    degree', q' := Release(g, Look(dependents, current), degree, q[1..], result');
  }

  /** Moving the head of the queue to the output leaves its dependents'
      mentions to be released. */
  lemma Output(g: Graph, degree: map<string, int>, q: seq<string>, result: seq<string>)
    requires OrderedMaps.DistinctKeys(g) && q != []
    requires KahnInvariant(g, degree, q, result, [])
    ensures forall x :: x in DependentsUpTo(g, q[0], |g|) ==> x in OrderedMaps.Keys(g)
    ensures KahnInvariant(g, degree, q[1..], result + [q[0]], DependentsUpTo(g, q[0], |g|))
  {
    var current := q[0];
    HeadNotMet(result, q);
    assert current in result + q;
    var kc := Index(g, current);
    DepsAt(g, kc);
    RemainingZero(g[kc].1, result);
    PrecedesSnoc(g, result, current);
    var result' := result + [current];
    MoveHead(result, q);
    assert MetWell(g, result' + q[1..]) && ZeroIsMet(g, degree, result' + q[1..]);
    CountedAfter(g, degree, result, current);
  }

  lemma MoveHead(result: seq<string>, q: seq<string>)
    requires q != []
    ensures result + [q[0]] + q[1..] == result + q
  {
    assert q == [q[0]] + q[1..];
  }

  /** Outputting `current` moves its count to the mentions to release. */
  lemma CountedAfter(g: Graph, degree: map<string, int>, result: seq<string>, current: string)
    requires OrderedMaps.DistinctKeys(g) && current !in result
    requires Counted(g, degree, result, [])
    ensures Counted(g, degree, result + [current], DependentsUpTo(g, current, |g|))
  {
    forall k | 0 <= k < |g|
      ensures g[k].0 in degree
      ensures degree[g[k].0] == Remaining(g[k].1, result + [current]) + Occ(g[k].0, DependentsUpTo(g, current, |g|))
    {
      RemainingDone(g[k].1, result, current);
      OccDependents(g, current, |g|, k);
    }
  }

  /** `resolveorder` up to the final length check: the output of Kahn's
      algorithm, which stops early exactly on the fields blocked by a cycle. */
  method Kahn(g: Graph) returns (order: seq<string>)
    requires OrderedMaps.DistinctKeys(g)
    ensures OrderedMaps.Distinct(order) && forall x :: x in order ==> x in OrderedMaps.Keys(g)
    ensures Precedes(g, order)
    ensures |ZeroDeps(g)| <= |order| && order[..|ZeroDeps(g)|] == ZeroDeps(g)
    ensures forall k :: 0 <= k < |g| && g[k].0 !in order ==> exists d :: d in g[k].1 && d !in order
  {
    var dependents, degree := BuildEdges(g);
    var q := Seed(g, degree);
    ZeroDepsFacts(g);
    forall k | 0 <= k < |g| ensures Remaining(g[k].1, []) == |g[k].1| {
      RemainingNone(g[k].1);
    }
    var result: seq<string> := [];
    assert result + q == q;
    assert q[..|ZeroDeps(g)|] == q;
    while q != []
      invariant KahnInvariant(g, degree, q, result, [])
      decreases |g| - |result|
    {
      DistinctBound(result + q, OrderedMaps.Keys(g));
      degree, q, result := Visit(g, dependents, degree, q, result);
    }
    assert result + q == result;
    order := result;
    forall k | 0 <= k < |g| && g[k].0 !in order ensures exists d :: d in g[k].1 && d !in order {
      RemainingZero(g[k].1, order);
    }
  }

  // ---------------------------------------------------------- the resolver

  /** The depth-first search of `_detectcycle`: `visited` and the recursion
      `stack` are the sets the nested `dfs` closes over. */
  class CycleSearch {
    const g: Graph
    var visited: set<string>
    var stack: set<string>

    constructor(g: Graph)
      ensures this.g == g && visited == {} && stack == {}
    {
      this.g := g;
      visited := {};
      stack := {};
    }

    /** `dfs(node, path)`: a name met again while still on the stack closes
        a cycle, cut from the path at its first occurrence. */
    method Dfs(node: string, path: seq<string>) returns (cycle: Option<seq<string>>)
      requires OrderedMaps.DistinctKeys(g) && Closed(g)
      requires node in OrderedMaps.Keys(g) && forall x :: x in path ==> x in OrderedMaps.Keys(g)
      requires IsWalk(g, path + [node])
      requires stack == Elems(path) && stack <= visited
      modifies this
      ensures cycle.Some? ==> IsCycle(g, cycle.value)
      ensures cycle.None? ==> stack == old(stack)
      ensures old(visited) <= visited
      decreases Elems(OrderedMaps.Keys(g)) - visited
    {
      var walk := path + [node];
      if node in stack {
        var start := Position(path, node);
        cycle := Some(walk[start..]);
        assert walk[start..] == path[start..] + [node];
        assert IsWalk(g, walk[start..]) by {
          forall t | 0 <= t < |walk[start..]| - 1 ensures walk[start..][t + 1] in Deps(g, walk[start..][t]) {
            assert walk[start..][t] == walk[start + t];
          }
        }
        return;
      }
      if node in visited {
        return None;
      }
      visited := visited + {node};
      stack := stack + {node};
      var kn := Index(g, node);
      DepsAt(g, kn);
      var ds := Deps(g, node);
      var i := 0;
      while i < |ds|
        invariant 0 <= i <= |ds|
        invariant stack == old(stack) + {node} && old(visited) + {node} <= visited
      {
        assert ds[i] in OrderedMaps.Keys(g);
        assert IsWalk(g, walk + [ds[i]]) by {
          var w := walk + [ds[i]];
          forall t | 0 <= t < |w| - 1 ensures w[t + 1] in Deps(g, w[t]) {
            if t < |walk| - 1 {
              assert w[t] == walk[t] && w[t + 1] == walk[t + 1];
            }
          }
        }
        assert stack == Elems(walk);
        var c := Dfs(ds[i], walk);
        if c.Some? {
          return c;
        }
        i := i + 1;
      }
      stack := stack - {node};
      cycle := None;
    }
  }

  /** `DependencyResolver`: built only over fields whose dependencies all exist. */
  class DependencyResolver {
    const fields: seq<(string, Field)>
    const graph: Graph

    ghost predicate Valid() {
      graph == GraphOf(fields) && OrderedMaps.DistinctKeys(graph) && Closed(graph)
    }

    constructor(fields: seq<(string, Field)>)
      requires OrderedMaps.DistinctKeys(fields) && Validate(fields).None?
      ensures this.fields == fields && Valid()
    {
      this.fields := fields;
      graph := GraphOf(fields);
    }

    /** `_detectcycle`: the first cycle the search finds from the fields in
        mapping order, or `["unknown cycle"]`. */
    method DetectCycle() returns (cycle: seq<string>)
      requires Valid()
      ensures cycle == ["unknown cycle"] || IsCycle(graph, cycle)
    {
      var search := new CycleSearch(graph);
      var keys := OrderedMaps.Keys(graph);
      var i := 0;
      while i < |keys|
        invariant 0 <= i <= |keys|
        invariant search.g == graph && search.stack == {}
      {
        if keys[i] !in search.visited {
          var c := search.Dfs(keys[i], []);
          if c.Some? {
            return c.value;
          }
        }
        i := i + 1;
      }
      return ["unknown cycle"];
    }

    /** `resolveorder`: a dependency-safe order of all fields exactly when
        the dependencies have no cycle; otherwise the cycle error. */
    method ResolveOrder() returns (r: Result<seq<string>, Error>)
      requires Valid()
      ensures r.Success? <==> Acyclic(graph)
      ensures r.Success? ==> IsResolution(graph, r.value)
      ensures r.Failure? ==> r.error.CircularDependency? &&
                             (r.error.cycle == ["unknown cycle"] || IsCycle(graph, r.error.cycle))
    {
      var order := Kahn(graph);
      if |order| != |graph| {
        DistinctBound(order, OrderedMaps.Keys(graph));
        PartialOrder(order, graph);
        BlockedCycle(graph, order);
        var cycle := DetectCycle();
        return Failure(CircularDependency(cycle));
      }
      FullOrder(order, graph);
      forall c ensures !IsCycle(graph, c) {
        NoCycleInOrder(graph, order, c);
      }
      return Success(order);
    }
  }

  /** The fields an order leaves out. */
  ghost function LeftOut(g: Graph, order: seq<string>): set<string> {
    set k | 0 <= k < |g| && g[k].0 !in order :: g[k].0
  }

  /** A left-out field waiting on a left-out dependency. */
  lemma WaitsOnLeftOut(g: Graph, order: seq<string>, k: nat, d: string)
    requires OrderedMaps.DistinctKeys(g) && Closed(g)
    requires k < |g| && g[k].0 !in order && d in g[k].1 && d !in order
    ensures HasDepIn(g, g[k].0, LeftOut(g, order))
  {
    DepsAt(g, k);
    var kd := Index(g, d);
    assert d in LeftOut(g, order);
  }

  /** The fields Kahn's algorithm leaves out all wait on one another. */
  lemma BlockedCycle(g: Graph, order: seq<string>)
    requires OrderedMaps.DistinctKeys(g) && Closed(g)
    requires exists k :: 0 <= k < |g| && g[k].0 !in order
    requires forall k :: 0 <= k < |g| && g[k].0 !in order ==> exists d :: d in g[k].1 && d !in order
    ensures !Acyclic(g)
  {
    var k0 :| 0 <= k0 < |g| && g[k0].0 !in order;
    LeftOutWaits(g, order);
    LeftOutHas(g, order, k0);
    BlockedHasCycle(g, LeftOut(g, order));
  }

  lemma LeftOutHas(g: Graph, order: seq<string>, k: nat)
    requires k < |g| && g[k].0 !in order
    ensures LeftOut(g, order) != {}
  {
    assert g[k].0 in LeftOut(g, order);
  }

  /** Each left-out field is a field waiting on a left-out field. */
  lemma LeftOutWaits(g: Graph, order: seq<string>)
    requires OrderedMaps.DistinctKeys(g) && Closed(g)
    requires forall k :: 0 <= k < |g| && g[k].0 !in order ==> exists d :: d in g[k].1 && d !in order
    ensures forall n :: n in LeftOut(g, order) ==> n in OrderedMaps.Keys(g)
    ensures forall n :: n in LeftOut(g, order) ==> HasDepIn(g, n, LeftOut(g, order))
  {
    var u := LeftOut(g, order);
    forall n | n in u ensures HasDepIn(g, n, u) && n in OrderedMaps.Keys(g) {
      var k :| 0 <= k < |g| && g[k].0 == n && n !in order;
      var d :| d in g[k].1 && d !in order;
      WaitsOnLeftOut(g, order, k, d);
      assert OrderedMaps.Keys(g)[k] == n;
    }
  }

  /** `DependencyResolver(fields)`: raises for a missing dependency. */
  method NewResolver(fields: seq<(string, Field)>) returns (r: Result<DependencyResolver, Error>)
    requires OrderedMaps.DistinctKeys(fields)
    ensures r.Failure? <==> Validate(fields).Some?
    ensures r.Failure? ==> r.error == Validate(fields).value
    ensures r.Success? ==> r.value.fields == fields && r.value.Valid()
  {
    match Validate(fields)
    case Some(e) =>
      r := Failure(e);
    case None =>
      var resolver := new DependencyResolver(fields);
      r := Success(resolver);
  }
}
