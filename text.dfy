/** The string helpers of src/schematix/transforms/text.py. Every helper
    first turns its input into text with `str(value)`. */
module Text {
  import opened Wrappers
  import opened Values
  import opened Errors
  import opened Slicing
  import PyText

  // ---------------------------------------------------------------- replace

  /** The remaining budget after one replacement; a negative count means no limit. */
  function Less(count: int): int {
    if count < 0 then count else count - 1
  }

  /** `s.replace(target, repl, count)`: the first `count` occurrences of `target`,
      left to right and without overlap, become `repl`; an empty `target`
      matches before every character and at the end. */
  function ReplaceAll(s: string, target: string, repl: string, count: int): (r: string)
    decreases |s|
  {
    if count == 0 then s
    else if target == [] then
      if s == [] then repl else repl + [s[0]] + ReplaceAll(s[1..], target, repl, Less(count))
    else
      match PyText.Find(s, target)
      case None => s
      case Some(i) => s[..i] + repl + ReplaceAll(s[i + |target|..], target, repl, Less(count))
  }

  /** `replace(target, repl, count)`. */
  function Replace(target: string, repl: string, count: int, v: Value): (r: string)
    ensures |target| > 0 && !PyText.Contains(PyStr(v), target) ==> r == PyStr(v)
  {
    if |target| > 0 then
      PyText.FindContains(PyStr(v), target);
      ReplaceAll(PyStr(v), target, repl, count)
    else
      ReplaceAll(PyStr(v), target, repl, count)
  }

  /** With a non-empty `target`, replacing is splitting on `target` with the same
      limit and joining the pieces with `repl`. */
  lemma {:induction false} ReplaceIsSplitJoin(s: string, target: string, repl: string, count: int)
    requires |target| > 0
    ensures ReplaceAll(s, target, repl, count) == PyText.Join(repl, PyText.Split(s, target, count))
    decreases |s|
  {
    if count != 0 {
      match PyText.Find(s, target)
      case None =>
      case Some(i) =>
        var tail := s[i + |target|..];
        var rest := PyText.Split(tail, target, Less(count));
        ReplaceIsSplitJoin(tail, target, repl, Less(count));
        var parts := [s[..i]] + rest;
        assert PyText.Split(s, target, count) == parts;
        assert |parts| >= 2 && parts[0] == s[..i] && parts[1..] == rest;
    }
  }

  /** Replacing a substring by itself changes nothing. */
  lemma {:induction false} ReplaceSelf(s: string, target: string, count: int)
    ensures ReplaceAll(s, target, target, count) == s
    decreases |s|
  {
    if count != 0 {
      if target == [] {
        if s != [] {
          ReplaceSelf(s[1..], target, Less(count));
          assert [s[0]] + s[1..] == s;
        }
      } else {
        ReplaceIsSplitJoin(s, target, target, count);
        PyText.JoinSplit(s, target, count);
      }
    }
  }

  // ------------------------------------------------------ prefix and suffix

  /** `removeprefix(prefix)`: the text after `prefix` when it starts with it,
      otherwise the text unchanged. */
  function RemovePrefix(prefix: string, v: Value): (r: string)
    ensures PyText.IsPrefix(prefix, PyStr(v)) ==> prefix + r == PyStr(v)
    ensures !PyText.IsPrefix(prefix, PyStr(v)) ==> r == PyStr(v)
  {
    var s := PyStr(v);
    if PyText.IsPrefix(prefix, s) then
      assert s == s[..|prefix|] + s[|prefix|..];
      s[|prefix|..]
    else s
  }

  /** The prefix comes off exactly once. */
  lemma RemovePrefixAdded(prefix: string, t: string)
    ensures RemovePrefix(prefix, VStr(prefix + t)) == t
  {
    assert (prefix + t)[..|prefix|] == prefix;
  }

  /** `removesuffix(suffix)` as `str.removesuffix` does it: the text before a
      non-empty `suffix` when it ends with it, otherwise the text unchanged. */
  function RemoveSuffix(suffix: string, v: Value): (r: string)
    ensures suffix != [] && PyText.IsSuffix(suffix, PyStr(v)) ==> r + suffix == PyStr(v)
    ensures suffix == [] || !PyText.IsSuffix(suffix, PyStr(v)) ==> r == PyStr(v)
  {
    var s := PyStr(v);
    if suffix != [] && PyText.IsSuffix(suffix, s) then
      assert s == s[..|s| - |suffix|] + s[|s| - |suffix|..];
      s[..|s| - |suffix|]
    else s
  }

  /** The suffix comes off exactly once, the empty suffix included. */
  lemma RemoveSuffixAdded(suffix: string, t: string)
    ensures RemoveSuffix(suffix, VStr(t + suffix)) == t
  {
    var s := t + suffix;
    assert s[|s| - |suffix|..] == suffix;
    if suffix == [] {
      assert s == t;
    } else {
      assert s[..|s| - |suffix|] == t;
    }
  }

  /** The branch taken where `str` has no `removesuffix`: `s[:-len(suffix)]`
      when the text ends with `suffix`. */
  function RemoveSuffixFallback(suffix: string, v: Value): (r: string)
    ensures suffix != [] ==> r == RemoveSuffix(suffix, v)
  {
    var s := PyStr(v);
    if PyText.IsSuffix(suffix, s) then Prefix(s, -|suffix|) else s
  }

  /** With an empty suffix the fallback branch empties the text: `s[:-0]` is `s[:0]`. */
  lemma RemoveSuffixFallbackEmpties()
    ensures RemoveSuffixFallback("", VStr("abc")) == ""
    ensures RemoveSuffix("", VStr("abc")) == "abc"
  {
  }

  // ------------------------------------------------------------- truncation

  /** `truncate(length, suffix)`: the text when it fits, otherwise
      `s[:length - len(suffix)] + suffix`. */
  function Truncate(length: int, suffix: string, v: Value): (r: string)
    ensures |PyStr(v)| <= length ==> r == PyStr(v)
    ensures |PyStr(v)| > length && length >= |suffix| ==>
              |r| == length && r == PyStr(v)[..length - |suffix|] + suffix
  {
    var s := PyStr(v);
    if |s| <= length then s else Prefix(s, length - |suffix|) + suffix
  }

  /** When the suffix is longer than `length`, the negative cut counts from
      the end: the result is longer than the input it was meant to shorten. */
  lemma TruncateOverlong()
    ensures Truncate(2, "...", VStr("abcdef")) == "abcde..."
    ensures |Truncate(2, "...", VStr("abcdef"))| > |"abcdef"|
  {
    assert Prefix("abcdef", -1) == "abcde";
  }

  /** `truncate` with the cut clamped at the start of the text. */
  function TruncateClamped(length: int, suffix: string, v: Value): (r: string)
    ensures |PyStr(v)| <= length ==> r == PyStr(v)
    ensures |PyStr(v)| > length ==> PyText.IsSuffix(suffix, r) && PyText.IsPrefix(r[..|r| - |suffix|], PyStr(v))
  {
    var s := PyStr(v);
    if |s| <= length then s
    else
      var cut := if length - |suffix| < 0 then 0 else length - |suffix|;
      var r := s[..cut] + suffix;
      assert r[..|r| - |suffix|] == s[..cut] && r[|r| - |suffix|..] == suffix;
      r
  }

  /** A clamped truncation is never longer than `length`, or than the suffix
      alone when the suffix does not fit. */
  lemma TruncateClampedBound(length: int, suffix: string, v: Value)
    ensures |TruncateClamped(length, suffix, v)| <= if length < |suffix| then |suffix| else length
    ensures |PyStr(v)| > length ==> |TruncateClamped(length, suffix, v)| == if length < |suffix| then |suffix| else length
  {
  }

  // ---------------------------------------------------------------- padding

  const FillError := Raised(TypeError, "The fill character must be exactly one character long")

  /** The larger of a requested width and the text's length. */
  function Width(width: int, s: string): nat {
    if width <= |s| then |s| else width
  }

  /** `padleft(width, fillchar)` (`str.rjust`): the text right-aligned in
      `width` characters of `fillchar`. */
  function PadLeft(width: int, fillchar: string, v: Value): (r: Result<string, Error>)
    ensures r.Failure? <==> |fillchar| != 1
    ensures r.Failure? ==> r.error == FillError
    ensures r.Success? ==>
              |r.value| == Width(width, PyStr(v)) && PyText.IsSuffix(PyStr(v), r.value) &&
              forall k :: 0 <= k < |r.value| - |PyStr(v)| ==> r.value[k] == fillchar[0]
  {
    var s := PyStr(v);
    if |fillchar| != 1 then Failure(FillError)
    else if width <= |s| then Success(s)
    else
      var r := PyText.Repeat(fillchar[0], width - |s|) + s;
      assert r[|r| - |s|..] == s;
      Success(r)
  }

  /** `padright(width, fillchar)` (`str.ljust`): the text left-aligned in
      `width` characters of `fillchar`. */
  function PadRight(width: int, fillchar: string, v: Value): (r: Result<string, Error>)
    ensures r.Failure? <==> |fillchar| != 1
    ensures r.Failure? ==> r.error == FillError
    ensures r.Success? ==>
              |r.value| == Width(width, PyStr(v)) && PyText.IsPrefix(PyStr(v), r.value) &&
              forall k :: |PyStr(v)| <= k < |r.value| ==> r.value[k] == fillchar[0]
  {
    var s := PyStr(v);
    if |fillchar| != 1 then Failure(FillError)
    else if width <= |s| then Success(s)
    else
      var r := s + PyText.Repeat(fillchar[0], width - |s|);
      assert r[..|s|] == s;
      Success(r)
  }

  /** `center(width, fillchar)` (`str.center`): the text between two runs
      of `fillchar` that differ by at most one character; the extra one
      goes left when both the margin and the width are odd. */
  function Center(width: int, fillchar: string, v: Value): (r: Result<string, Error>)
    ensures r.Failure? <==> |fillchar| != 1
    ensures r.Failure? ==> r.error == FillError
    ensures r.Success? ==> |r.value| == Width(width, PyStr(v))
    ensures r.Success? ==>
              exists left: nat, right: nat ::
                left + |PyStr(v)| + right == Width(width, PyStr(v)) && -1 <= left - right <= 1 &&
                r.value == PyText.Repeat(fillchar[0], left) + PyStr(v) + PyText.Repeat(fillchar[0], right)
  {
    var s := PyStr(v);
    if |fillchar| != 1 then Failure(FillError)
    else if width <= |s| then
      assert s == PyText.Repeat(fillchar[0], 0) + s + PyText.Repeat(fillchar[0], 0);
      Success(s)
    else
      var marg := width - |s|;
      var left := marg / 2 + (if marg % 2 == 1 && width % 2 == 1 then 1 else 0);
      Success(PyText.Repeat(fillchar[0], left) + s + PyText.Repeat(fillchar[0], marg - left))
  }

  /** `zfill(width)` (`str.zfill`): zeros on the left up to `width`, placed
      after a leading sign. */
  function Zfill(width: int, v: Value): (r: string)
    ensures |r| == Width(width, PyStr(v))
    ensures width <= |PyStr(v)| ==> r == PyStr(v)
  {
    var s := PyStr(v);
    if width <= |s| then s
    else
      var zeros := PyText.Repeat('0', width - |s|);
      if s != [] && (s[0] == '+' || s[0] == '-') then [s[0]] + zeros + s[1..] else zeros + s
  }

  /** The sign of a signed text stays first, and taking the inserted zeros
      out of a zero-filled text gives the text back. */
  lemma ZfillInserts(width: int, v: Value)
    ensures var s := PyStr(v);
            var r := Zfill(width, v);
            var at := if s != [] && (s[0] == '+' || s[0] == '-') then 1 else 0;
            var n := |r| - |s|;
            r[..at] + r[at + n..] == s && forall k :: at <= k < at + n ==> r[k] == '0'
  {
    var s := PyStr(v);
    var r := Zfill(width, v);
    var at := if s != [] && (s[0] == '+' || s[0] == '-') then 1 else 0;
    if width <= |s| {
      assert r[..at] + r[at..] == s;
    } else if at == 1 {
      assert r[..at] == [s[0]] && r[at + |r| - |s|..] == s[1..];
      assert [s[0]] + s[1..] == s;
    } else {
      assert r[|r| - |s|..] == s;
    }
  }

  // --------------------------------------------------------- split and join

  /** `split(sep, maxsplit)`: the pieces as a list of strings; an empty
      separator is a ValueError and no separator splits on whitespace runs. */
  function Split(sep: Option<string>, maxsplit: int, v: Value): (r: Result<Value, Error>)
    ensures r.Failure? <==> sep == Some("")
    ensures r.Failure? ==> r.error == Raised(ValueError, "empty separator")
    ensures r.Success? ==> r.value.VList? && forall k :: 0 <= k < |r.value.items| ==> r.value.items[k].VStr?
    ensures sep.Some? && sep.value != [] ==> r == Success(StrList(PyText.Split(PyStr(v), sep.value, maxsplit)))
    ensures sep.None? ==> r == Success(StrList(PyText.SplitWhitespace(PyStr(v), maxsplit)))
  {
    match sep
    case None => Success(StrList(PyText.SplitWhitespace(PyStr(v), maxsplit)))
    case Some(t) =>
      if t == [] then Failure(Raised(ValueError, "empty separator"))
      else Success(StrList(PyText.Split(PyStr(v), t, maxsplit)))
  }

  function Texts(xs: seq<Value>): (ts: seq<string>)
    ensures |ts| == |xs| && forall k :: 0 <= k < |xs| ==> ts[k] == PyStr(xs[k])
  {
    seq(|xs|, k requires 0 <= k < |xs| => PyStr(xs[k]))
  }

  /** `join(sep)`: a string is returned as it is, an iterable's items are
      joined as text with `sep`, and anything else is its text. */
  function Join(sep: string, v: Value): (r: string)
    ensures v.VStr? ==> r == v.s
    ensures v.VList? ==> r == PyText.Join(sep, Texts(v.items))
    ensures Items(v).None? ==> r == PyStr(v)
  {
    if v.VStr? then v.s
    else
      match Items(v)
      case Some(xs) => PyText.Join(sep, Texts(xs))
      case None => PyStr(v)
  }

  /** Joining what a split on a non-empty separator produced, with the same
      separator, gives the text back, whatever the limit. */
  lemma JoinAfterSplit(sep: string, maxsplit: int, v: Value)
    requires sep != []
    ensures Split(Some(sep), maxsplit, v).Success?
    ensures Join(sep, Split(Some(sep), maxsplit, v).value) == PyStr(v)
  {
    var parts := PyText.Split(PyStr(v), sep, maxsplit);
    assert Texts(StrList(parts).items) == parts;
    PyText.JoinSplit(PyStr(v), sep, maxsplit);
  }

  // ---------------------------------------------------------------- reverse

  /** `reverse`: `str(value)[::-1]`. */
  function Reverse(v: Value): (r: string)
    ensures Slice(PyStr(v), None, None, Some(-1)) == Some(r)
    ensures |r| == |PyStr(v)| && forall k :: 0 <= k < |r| ==> r[k] == PyStr(v)[|r| - 1 - k]
  {
    SliceReverses(PyStr(v));
    Reversed(PyStr(v))
  }

  /** Reversing the reversed text gives the text back. */
  lemma ReverseTwice(v: Value)
    ensures Reverse(VStr(Reverse(v))) == PyStr(v)
  {
    ReversedTwice(PyStr(v));
  }

  // ------------------------------------------------------------------ tests

  /** `p` starts `s` exactly when `s` is `p` followed by something. */
  lemma PrefixSplits(p: string, s: string)
    ensures PyText.IsPrefix(p, s) <==> exists t :: s == p + t
  {
    if PyText.IsPrefix(p, s) {
      assert s == p + s[|p|..];
    }
    if exists t :: s == p + t {
      var t :| s == p + t;
      assert s[..|p|] == p;
    }
  }

  /** `p` ends `s` exactly when `s` is something followed by `p`. */
  lemma SuffixSplits(p: string, s: string)
    ensures PyText.IsSuffix(p, s) <==> exists t :: s == t + p
  {
    if PyText.IsSuffix(p, s) {
      assert s == s[..|s| - |p|] + p;
    }
    if exists t :: s == t + p {
      var t :| s == t + p;
      assert s[|s| - |p|..] == p;
    }
  }

  /** `startswith(prefix)`. */
  function StartsWith(prefix: string, v: Value): (b: bool)
    ensures b <==> exists t :: PyStr(v) == prefix + t
  {
    PrefixSplits(prefix, PyStr(v));
    PyText.IsPrefix(prefix, PyStr(v))
  }

  /** `endswith(suffix)`. */
  function EndsWith(suffix: string, v: Value): (b: bool)
    ensures b <==> exists t :: PyStr(v) == t + suffix
  {
    SuffixSplits(suffix, PyStr(v));
    PyText.IsSuffix(suffix, PyStr(v))
  }

  /** `sub` occurs in `s` exactly when `s` is something, then `sub`, then something. */
  lemma ContainsSplits(s: string, sub: string)
    ensures PyText.Contains(s, sub) <==> exists a, c :: s == a + sub + c
  {
    if PyText.Contains(s, sub) {
      var j :| 0 <= j <= |s| - |sub| && PyText.OccursAt(s, sub, j);
      assert s == s[..j] + sub + s[j + |sub|..];
    }
    if exists a, c :: s == a + sub + c {
      var a, c :| s == a + sub + c;
      assert PyText.OccursAt(s, sub, |a|) by {
        assert s[|a|..|a| + |sub|] == sub;
      }
    }
  }

  /** `contains(substring, casesensitive)`: a substring test, on the
      lowercased texts when it is not case-sensitive. */
  function ContainsText(substring: string, casesensitive: bool, v: Value): (b: bool)
    ensures casesensitive ==> (b <==> exists a, c :: PyStr(v) == a + substring + c)
    ensures !casesensitive ==> (b <==> exists a, c :: PyText.LowerAscii(PyStr(v)) == a + PyText.LowerAscii(substring) + c)
  {
    var text := if casesensitive then PyStr(v) else PyText.LowerAscii(PyStr(v));
    var search := if casesensitive then substring else PyText.LowerAscii(substring);
    ContainsSplits(text, search);
    PyText.Contains(text, search)
  }
}
