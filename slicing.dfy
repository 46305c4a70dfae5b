/** Python's slicing `xs[start:stop:step]` over any sequence, as lists,
    tuples and strings share it, with the index adjustment of CPython's
    `PySlice_AdjustIndices`. */
module Slicing {
  import opened Wrappers

  /** One explicit bound after adjustment: a negative index counts from the
      end, then the index is clamped to the range a walk in that direction
      can start or stop at. */
  function Adjust(i: int, n: nat, backwards: bool): (j: int)
    ensures backwards ==> -1 <= j <= n - 1
    ensures !backwards ==> 0 <= j <= n
    ensures 0 <= i < n ==> j == i
    ensures i < 0 && 0 <= i + n ==> j == i + n
  {
    var k := if i < 0 then i + n else i;
    if k < 0 then (if backwards then -1 else 0)
    else if k >= n then (if backwards then n - 1 else n)
    else k
  }

  /** The items at `i, i + step, ...` below `stop`. */
  function Forward<T>(xs: seq<T>, i: int, stop: int, step: nat): (r: seq<T>)
    requires step > 0 && 0 <= i && stop <= |xs|
    decreases stop - i
  {
    if i >= stop then [] else [xs[i]] + Forward(xs, i + step, stop, step)
  }

  /** The items at `i, i - step, ...` above `stop`. */
  function Backward<T>(xs: seq<T>, i: int, stop: int, step: nat): (r: seq<T>)
    requires step > 0 && -1 <= stop && i < |xs|
    decreases i - stop
  {
    if i <= stop then [] else [xs[i]] + Backward(xs, i - step, stop, step)
  }

  /** `xs[start:stop:step]`; None stands for the ValueError a zero step raises. */
  function Slice<T>(xs: seq<T>, start: Option<int>, stop: Option<int>, step: Option<int>): (r: Option<seq<T>>)
    ensures r.None? <==> step == Some(0)
  {
    var st := if step.None? then 1 else step.value;
    if st == 0 then None
    else if st > 0 then
      var a := if start.None? then 0 else Adjust(start.value, |xs|, false);
      var b := if stop.None? then |xs| else Adjust(stop.value, |xs|, false);
      Some(Forward(xs, a, b, st))
    else
      var a := if start.None? then |xs| - 1 else Adjust(start.value, |xs|, true);
      var b := if stop.None? then -1 else Adjust(stop.value, |xs|, true);
      Some(Backward(xs, a, b, -st))
  }

  /** A forward walk picks every `step`-th item from `i`, all below `stop`. */
  lemma {:induction false} ForwardPicks<T>(xs: seq<T>, i: int, stop: int, step: nat)
    requires step > 0 && 0 <= i && stop <= |xs|
    ensures forall k :: 0 <= k < |Forward(xs, i, stop, step)| ==>
              i + k * step < stop && Forward(xs, i, stop, step)[k] == xs[i + k * step]
    ensures i < stop ==> Forward(xs, i, stop, step) != []
    decreases stop - i
  {
    if i < stop {
      ForwardPicks(xs, i + step, stop, step);
      var r := Forward(xs, i, stop, step);
      var rest := Forward(xs, i + step, stop, step);
      assert r == [xs[i]] + rest;
      forall k | 0 <= k < |r| ensures i + k * step < stop && r[k] == xs[i + k * step] {
        if k > 0 {
          assert r[k] == rest[k - 1];
          assert i + step + (k - 1) * step == i + k * step;
        }
      }
    }
  }

  /** With a unit step, a forward walk is the plain subsequence. */
  lemma {:induction false} ForwardUnit<T>(xs: seq<T>, i: int, stop: int)
    requires 0 <= i && stop <= |xs|
    ensures Forward(xs, i, stop, 1) == if i < stop then xs[i..stop] else []
    decreases stop - i
  {
    if i < stop {
      ForwardUnit(xs, i + 1, stop);
      assert xs[i..stop] == [xs[i]] + xs[i + 1..stop];
    }
  }

  /** `xs[::-1]`. */
  function Reversed<T>(xs: seq<T>): (r: seq<T>)
    ensures |r| == |xs|
    ensures forall k :: 0 <= k < |xs| ==> r[k] == xs[|xs| - 1 - k]
  {
    if xs == [] then [] else Reversed(xs[1..]) + [xs[0]]
  }

  /** Reversing twice gives the sequence back. */
  lemma ReversedTwice<T>(xs: seq<T>)
    ensures Reversed(Reversed(xs)) == xs
  {
    var r := Reversed(Reversed(xs));
    assert |r| == |xs|;
    forall k | 0 <= k < |xs| ensures r[k] == xs[k] {
    }
  }

  /** A backward walk from the last item down to the start visits everything, last first. */
  lemma {:induction false} BackwardAll<T>(xs: seq<T>, i: int)
    requires -1 <= i < |xs|
    ensures Backward(xs, i, -1, 1) == Reversed(xs[..i + 1])
    decreases i + 1
  {
    if i >= 0 {
      BackwardAll(xs, i - 1);
      var r := Backward(xs, i, -1, 1);
      assert r == [xs[i]] + Reversed(xs[..i]);
      var e := Reversed(xs[..i + 1]);
      assert |r| == |e|;
      forall k | 0 <= k < |r| ensures r[k] == e[k] {
        if k > 0 {
          assert r[k] == Reversed(xs[..i])[k - 1];
        }
      }
    }
  }

  /** `xs[::-1]` is the reversal. */
  lemma SliceReverses<T>(xs: seq<T>)
    ensures Slice(xs, None, None, Some(-1)) == Some(Reversed(xs))
  {
    BackwardAll(xs, |xs| - 1);
    assert xs[..|xs|] == xs;
  }

  /** `xs[:n]`. */
  function Prefix<T>(xs: seq<T>, n: int): (r: seq<T>)
    ensures 0 <= n ==> r == xs[..if n <= |xs| then n else |xs|]
    ensures n < 0 ==> r == xs[..if -n <= |xs| then |xs| + n else 0]
  {
    var b := Adjust(n, |xs|, false);
    ForwardUnit(xs, 0, b);
    Slice(xs, None, Some(n), None).value
  }

  /** `xs[n:]`. */
  function Suffix<T>(xs: seq<T>, n: int): (r: seq<T>)
    ensures 0 <= n ==> r == xs[if n <= |xs| then n else |xs|..]
    ensures n < 0 ==> r == xs[if -n <= |xs| then |xs| + n else 0..]
  {
    var a := Adjust(n, |xs|, false);
    ForwardUnit(xs, a, |xs|);
    assert xs[|xs|..] == [] && xs[a..|xs|] == xs[a..];
    Slice(xs, Some(n), None, None).value
  }

  /** A prefix and the suffix from the same index put the sequence back together. */
  lemma PrefixSuffix<T>(xs: seq<T>, n: int)
    ensures Prefix(xs, n) + Suffix(xs, n) == xs
  {
    var k := Adjust(n, |xs|, false);
    assert xs[..k] + xs[k..] == xs;
  }
}
