/** The checks of src/schematix/transforms/validation.py that do not rely on
    regular expressions or floating point: predicates over a value's text,
    length, items and integer value, and `require`, which passes a value
    through or raises. */
module Validation {
  import opened Wrappers
  import opened Values
  import opened Errors
  import LeafField
  import PyText
  import Text
  import OrderedMaps

  // ------------------------------------------------------------- has.*

  /** `has.length(minlen, maxlen)` on the value's text. */
  function HasLength(minlen: int, maxlen: Option<int>, v: Value): (b: bool)
    ensures maxlen.None? ==> (b <==> |PyStr(v)| >= minlen)
    ensures maxlen.Some? ==> (b <==> minlen <= |PyStr(v)| <= maxlen.value)
  {
    var text := PyStr(v);
    if maxlen.None? then |text| >= minlen else minlen <= |text| <= maxlen.value
  }

  /** An upper bound only narrows `has.length`, and on a string it is
      `collection.minlength` / `maxlength` together. */
  lemma HasLengthBounds(minlen: int, maxlen: int, v: Value)
    ensures HasLength(minlen, Some(maxlen), v) ==> HasLength(minlen, None, v)
    ensures v.VStr? ==> HasLength(minlen, None, v) == MinLength(minlen, v)
    ensures v.VStr? ==> HasLength(minlen, Some(maxlen), v) == (MinLength(minlen, v) && MaxLength(maxlen, v))
  {
  }

  /** `has.substring(substr, casesensitive)`: whether the text contains
      `substr`, after lowercasing both when not case-sensitive. */
  function HasSubstring(substr: string, casesensitive: bool, v: Value): (b: bool)
    ensures casesensitive ==> (b <==> exists a, c :: PyStr(v) == a + substr + c)
    ensures !casesensitive ==> (b <==> exists a, c :: PyText.LowerAscii(PyStr(v)) == a + PyText.LowerAscii(substr) + c)
  {
    Text.ContainsText(substr, casesensitive, v)
  }

  // ------------------------------------------------------------ inrange.int

  /** `inrange.int(minval, maxval, inclusive)`: `int(value)` within the
      bounds, inclusive or strict; False when the conversion raises. */
  function InRangeInt(minval: int, maxval: int, inclusive: bool, v: Value): (b: bool)
    ensures LeafField.IntFn(v).Failure? ==> !b
    ensures LeafField.IntFn(v).Success? && inclusive ==> (b <==> minval <= LeafField.IntFn(v).value.i <= maxval)
    ensures LeafField.IntFn(v).Success? && !inclusive ==> (b <==> minval < LeafField.IntFn(v).value.i < maxval)
  {
    match LeafField.IntFn(v)
    case Failure(_) => false
    case Success(num) => if inclusive then minval <= num.i <= maxval else minval < num.i < maxval
  }

  /** A strict range check passes only where the inclusive one does, and
      on an int (or bool) value the check is a comparison of the number itself. */
  lemma InRangeIntFacts(minval: int, maxval: int, n: int, v: Value)
    ensures InRangeInt(minval, maxval, false, v) ==> InRangeInt(minval, maxval, true, v)
    ensures InRangeInt(minval, maxval, true, VInt(n)) <==> minval <= n <= maxval
    ensures InRangeInt(minval, maxval, false, VInt(n)) <==> minval < n < maxval
    ensures InRangeInt(minval, maxval, true, VBool(true)) <==> minval <= 1 <= maxval
    ensures !InRangeInt(minval, maxval, true, VNone)
  {
    IntFnOnNumbers(n);
  }

  lemma IntFnOnNumbers(n: int)
    ensures LeafField.IntFn(VInt(n)) == Success(VInt(n))
    ensures LeafField.IntFn(VBool(true)) == Success(VInt(1))
    ensures LeafField.IntFn(VNone).Failure?
  {
  }

  /** On a string the number is what `int` parses; an unparsable string is never in range. */
  lemma InRangeIntText(minval: int, maxval: int, s: string)
    ensures PyText.ParseInt(s).None? ==> !InRangeInt(minval, maxval, true, VStr(s))
    ensures PyText.ParseInt(s).Some? ==>
              (InRangeInt(minval, maxval, true, VStr(s)) <==> minval <= PyText.ParseInt(s).value <= maxval)
  {
  }

  // ------------------------------------------------------------- canbe.bool

  const BoolWords: seq<string> := ["true", "false", "1", "0", "yes", "no", "on", "off"]

  /** `canbe.bool`: a bool, an int, or a string that lowercases to one of
      the eight boolean words. */
  function CanBeBool(v: Value): (b: bool)
    ensures v.VBool? || v.VInt? ==> b
    ensures v.VStr? ==> (b <==> PyText.LowerAscii(v.s) in BoolWords)
    ensures v.VNone? || v.VList? || v.VDict? || v.VObj? ==> !b
  {
    match v
    case VBool(_) => true
    case VStr(s) => PyText.LowerAscii(s) in BoolWords
    case VInt(_) => true
    case _ => false
  }

  lemma {:induction false} LowerIdempotent(s: string)
    ensures PyText.LowerAscii(PyText.LowerAscii(s)) == PyText.LowerAscii(s)
  {
    var l := PyText.LowerAscii(s);
    var ll := PyText.LowerAscii(l);
    forall k | 0 <= k < |s| ensures ll[k] == l[k] {
    }
  }

  /** The string check ignores case: a string passes exactly when its
      lowercased form does. */
  lemma CanBeBoolIgnoresCase(s: string)
    ensures CanBeBool(VStr(s)) == CanBeBool(VStr(PyText.LowerAscii(s)))
  {
    LowerIdempotent(s);
  }

  // --------------------------------------------------------- content checks

  /** `notempty`: not None, a string with something besides whitespace, a
      sized value with items, or any unsized value. */
  function NotEmpty(v: Value): (b: bool)
    ensures v.VNone? ==> !b
    ensures v.VStr? ==> (b <==> PyText.Strip(v.s) != [])
    ensures !v.VStr? && Len(v).Some? ==> (b <==> Len(v).value > 0)
    ensures !v.VNone? && Len(v).None? ==> b
  {
    match v
    case VNone => false
    case VStr(s) => PyText.Strip(s) != []
    case VList(xs) => |xs| > 0
    case VDict(es) => |es| > 0
    case _ => true
  }

  /** `notnull`. */
  function NotNull(v: Value): (b: bool)
    ensures b <==> v != VNone
  {
    !v.VNone?
  }

  /** `isblank`: None, or a value whose text is only whitespace. */
  function IsBlank(v: Value): (b: bool)
    ensures v.VNone? ==> b
    ensures !v.VNone? ==> (b <==> PyText.Strip(PyStr(v)) == [])
  {
    v.VNone? || PyText.Strip(PyStr(v)) == []
  }

  /** Whatever is not empty is not null, and on None and strings `notempty`
      and `isblank` are exact opposites. */
  lemma ContentChecks(v: Value)
    ensures NotEmpty(v) ==> NotNull(v)
    ensures v.VNone? || v.VStr? ==> NotEmpty(v) == !IsBlank(v)
  {
  }

  // ------------------------------------------------------------ collection.*

  /** `collection.minlength(minlen)`: False for a value without a length. */
  function MinLength(minlen: int, v: Value): (b: bool)
    ensures Len(v).None? ==> !b
    ensures Len(v).Some? ==> (b <==> Len(v).value >= minlen)
  {
    match Len(v)
    case Some(n) => n >= minlen
    case None => false
  }

  /** `collection.maxlength(maxlen)`: False for a value without a length. */
  function MaxLength(maxlen: int, v: Value): (b: bool)
    ensures Len(v).None? ==> !b
    ensures Len(v).Some? ==> (b <==> Len(v).value <= maxlen)
  {
    match Len(v)
    case Some(n) => n <= maxlen
    case None => false
  }

  /** Both bounds hold only for a sized value whose length lies between them. */
  lemma LengthWindow(minlen: int, maxlen: int, v: Value)
    ensures MinLength(minlen, v) && MaxLength(maxlen, v) <==> Len(v).Some? && minlen <= Len(v).value <= maxlen
    ensures maxlen < minlen ==> !(MinLength(minlen, v) && MaxLength(maxlen, v))
  {
  }

  /** `collection.contains(item)`: `item in value`; False when the test
      raises TypeError (an unhashable key for a dict, a non-string for a
      string, or a value that is not a container). */
  function CollectionContains(item: Value, v: Value): (b: bool)
    ensures v.VList? ==> (b <==> item in v.items)
    ensures v.VDict? ==> (b <==> Hashable(item) && item in OrderedMaps.Keys(v.entries))
    ensures v.VStr? ==> (b <==> item.VStr? && exists a, c :: v.s == a + item.s + c)
    ensures !v.VList? && !v.VDict? && !v.VStr? ==> !b
  {
    match v
    case VList(xs) => item in xs
    case VDict(es) => Hashable(item) && item in OrderedMaps.Keys(es)
    case VStr(s) =>
      if item.VStr? then
        Text.ContainsSplits(s, item.s);
        PyText.Contains(s, item.s)
      else false
    case _ => false
  }

  /** `all(predicate(item) for item in items)`: the first False or the
      first error stops the walk. */
  function AllOf(p: Predicate, xs: seq<Value>): (r: Result<bool, Error>)
    decreases |xs|
  {
    if xs == [] then Success(true)
    else match p(xs[0])
      case Failure(e) => Failure(e)
      case Success(b) => if !b then Success(false) else AllOf(p, xs[1..])
  }

  /** `any(predicate(item) for item in items)`: the first True or the first
      error stops the walk. */
  function AnyOf(p: Predicate, xs: seq<Value>): (r: Result<bool, Error>)
    decreases |xs|
  {
    if xs == [] then Success(false)
    else match p(xs[0])
      case Failure(e) => Failure(e)
      case Success(b) => if b then Success(true) else AnyOf(p, xs[1..])
  }

  /** Every item was judged without an error. */
  predicate Decides(p: Predicate, xs: seq<Value>) {
    forall k :: 0 <= k < |xs| ==> p(xs[k]).Success?
  }

  /** When the predicate decides every item, the walks are the universal and
      the existential statement. */
  lemma {:induction false} AllAnyOf(p: Predicate, xs: seq<Value>)
    requires Decides(p, xs)
    ensures AllOf(p, xs) == Success(forall k :: 0 <= k < |xs| ==> p(xs[k]).value)
    ensures AnyOf(p, xs) == Success(exists k :: 0 <= k < |xs| && p(xs[k]).value)
    decreases |xs|
  {
    if xs != [] {
      assert Decides(p, xs[1..]) by {
        forall k | 0 <= k < |xs[1..]| ensures p(xs[1..][k]).Success? {
          assert xs[1..][k] == xs[k + 1];
        }
      }
      AllAnyOf(p, xs[1..]);
      assert forall k :: 1 <= k < |xs| ==> xs[k] == xs[1..][k - 1];
    }
  }

  /** A TypeError, from iterating or from the predicate itself, makes the
      check fall back to the predicate on the whole value. */
  function OrWhole(r: Result<bool, Error>, p: Predicate, v: Value): Result<bool, Error> {
    if r.Failure? && Class(r.error) == TypeError then p(v) else r
  }

  /** `collection.allitems(predicate)`. */
  function AllItems(p: Predicate, v: Value): (r: Result<bool, Error>)
    ensures Items(v).None? ==> r == p(v)
  {
    match Items(v)
    case None => p(v)
    case Some(xs) => OrWhole(AllOf(p, xs), p, v)
  }

  /** `collection.anyitem(predicate)`. */
  function AnyItem(p: Predicate, v: Value): (r: Result<bool, Error>)
    ensures Items(v).None? ==> r == p(v)
  {
    match Items(v)
    case None => p(v)
    case Some(xs) => OrWhole(AnyOf(p, xs), p, v)
  }

  /** On an iterable whose items the predicate all decides, `allitems` and
      `anyitem` are the universal and the existential over the items. */
  lemma ItemChecks(p: Predicate, v: Value)
    requires Items(v).Some? && Decides(p, Items(v).value)
    ensures AllItems(p, v) == Success(forall k :: 0 <= k < |Items(v).value| ==> p(Items(v).value[k]).value)
    ensures AnyItem(p, v) == Success(exists k :: 0 <= k < |Items(v).value| && p(Items(v).value[k]).value)
  {
    AllAnyOf(p, Items(v).value);
  }

  /** With no items, everything holds and nothing exists. */
  lemma ItemChecksEmpty(p: Predicate)
    ensures AllItems(p, VList([])) == Success(true)
    ensures AnyItem(p, VList([])) == Success(false)
  {
  }

  // ---------------------------------------------------------------- require

  /** `require(condition, message)`: the value unchanged when the condition
      holds, ValueError "<message>: <value>" when it does not; an error of
      the condition itself propagates. */
  function Require(condition: Predicate, message: string, v: Value): (r: Result<Value, Error>)
    ensures condition(v) == Success(true) ==> r == Success(v)
    ensures condition(v) == Success(false) ==> r == Failure(Requirement(message, v))
    ensures condition(v).Failure? ==> r == Failure(condition(v).error)
  {
    match condition(v)
    case Failure(e) => Failure(e)
    case Success(ok) => if !ok then Failure(Requirement(message, v)) else Success(v)
  }

  /** `require` never changes the value it lets through, and what it raises
      for a failed condition is a ValueError naming the message and the value. */
  lemma RequirePassesThrough(condition: Predicate, message: string, v: Value)
    ensures Require(condition, message, v).Success? ==> Require(condition, message, v).value == v
    ensures condition(v).Success? && Require(condition, message, v).Failure? ==>
              Class(Require(condition, message, v).error) == ValueError &&
              Message(Require(condition, message, v).error) == message + ": " + PyStr(v)
  {
  }

  /** `requires.notempty(message)`. */
  function RequireNotEmpty(message: string, v: Value): (r: Result<Value, Error>)
    ensures NotEmpty(v) ==> r == Success(v)
    ensures !NotEmpty(v) ==> r == Failure(Requirement(message, v))
  {
    Require(x => Success(NotEmpty(x)), message, v)
  }

  /** The message `requires.length` uses when none is given. */
  function LengthMessage(minlen: int, maxlen: Option<int>): string {
    if maxlen.None? then "Length must be at least " + IntToString(minlen)
    else "Length must be between " + IntToString(minlen) + " and " + IntToString(maxlen.value)
  }

  /** `requires.length(minlen, maxlen, message)`. */
  function RequireLength(minlen: int, maxlen: Option<int>, message: Option<string>, v: Value): (r: Result<Value, Error>)
    ensures HasLength(minlen, maxlen, v) ==> r == Success(v)
    ensures !HasLength(minlen, maxlen, v) && message.Some? ==> r == Failure(Requirement(message.value, v))
    ensures !HasLength(minlen, maxlen, v) && message.None? ==> r == Failure(Requirement(LengthMessage(minlen, maxlen), v))
  {
    var m := if message.Some? then message.value else LengthMessage(minlen, maxlen);
    Require(x => Success(HasLength(minlen, maxlen, x)), m, v)
  }
}
