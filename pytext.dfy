/** Python's built-in string operations that the library relies on:
    `str.split`, `str.join`, `str.strip`, `str.find`, `int(str)` and friends. */
module PyText {
  import opened Wrappers

  /** `str.isspace()` for one character (the ASCII whitespace, the separator
      controls U+001C..U+001F, and the Unicode spaces Python recognises). */
  predicate IsSpace(c: char) {
    c == ' ' || ('\t' <= c <= '\r') || ('\U{1C}' <= c <= '\U{1F}') || c == '\U{85}' || c == '\U{A0}'
    || c == '\U{1680}' || ('\U{2000}' <= c <= '\U{200A}') || c == '\U{2028}' || c == '\U{2029}'
    || c == '\U{202F}' || c == '\U{205F}' || c == '\U{3000}'
  }

  predicate IsDigit(c: char) { '0' <= c <= '9' }

  function LStrip(s: string): (r: string)
    ensures |r| <= |s| && r == s[|s| - |r|..]
    ensures r == [] || !IsSpace(r[0])
  {
    if s != [] && IsSpace(s[0]) then LStrip(s[1..]) else s
  }

  function RStrip(s: string): (r: string)
    ensures |r| <= |s| && r == s[..|r|]
    ensures r == [] || !IsSpace(r[|r| - 1])
  {
    if s != [] && IsSpace(s[|s| - 1]) then RStrip(s[..|s| - 1]) else s
  }

  /** `s.strip()`. */
  function Strip(s: string): string {
    RStrip(LStrip(s))
  }

  predicate IsPrefix(p: string, s: string) { |p| <= |s| && s[..|p|] == p }

  predicate IsSuffix(p: string, s: string) { |p| <= |s| && s[|s| - |p|..] == p }

  /** `sub` occurs in `s` starting at index `j`. */
  predicate OccursAt(s: string, sub: string, j: int) {
    0 <= j && j + |sub| <= |s| && s[j..j + |sub|] == sub
  }

  /** `sub in s`. */
  predicate Contains(s: string, sub: string) {
    exists j :: 0 <= j <= |s| - |sub| && OccursAt(s, sub, j)
  }

  lemma OccursShift(s: string, sub: string, j: int)
    requires |s| > 0 && j >= 1
    ensures OccursAt(s, sub, j) <==> OccursAt(s[1..], sub, j - 1)
  {
    if j + |sub| <= |s| {
      assert s[j..j + |sub|] == s[1..][j - 1..j - 1 + |sub|];
    }
  }

  /** `s.find(sep)` for a non-empty separator: the first index where it occurs. */
  function Find(s: string, sep: string): (r: Option<nat>)
    requires |sep| > 0
    ensures r.Some? ==> OccursAt(s, sep, r.value)
    ensures r.Some? ==> forall j :: 0 <= j < r.value ==> !OccursAt(s, sep, j)
    ensures r.None? ==> forall j :: !OccursAt(s, sep, j)
    decreases |s|
  {
    if |s| < |sep| then None
    else if s[..|sep|] == sep then Some(0)
    else
      var r := Find(s[1..], sep);
      assert forall j :: 1 <= j ==> (OccursAt(s, sep, j) <==> OccursAt(s[1..], sep, j - 1)) by {
        forall j | 1 <= j ensures OccursAt(s, sep, j) <==> OccursAt(s[1..], sep, j - 1) {
          OccursShift(s, sep, j);
        }
      }
      assert !OccursAt(s, sep, 0);
      match r
      case Some(i) => Some(i + 1)
      case None => None
  }

  lemma FindContains(s: string, sep: string)
    requires |sep| > 0
    ensures Find(s, sep).Some? <==> Contains(s, sep)
  {
  }

  /** `sep.join(parts)`. */
  function Join(sep: string, parts: seq<string>): string {
    if parts == [] then ""
    else if |parts| == 1 then parts[0]
    else parts[0] + sep + Join(sep, parts[1..])
  }

  /** `s.split(sep, maxsplit)` for a non-empty separator; a negative `maxsplit`
      means no limit. Occurrences are found left to right without overlap. */
  function Split(s: string, sep: string, maxsplit: int): (parts: seq<string>)
    requires |sep| > 0
    ensures |parts| >= 1
    ensures maxsplit >= 0 ==> |parts| <= maxsplit + 1
    decreases |s|
  {
    if maxsplit == 0 then [s]
    else
      match Find(s, sep)
      case None => [s]
      case Some(i) => [s[..i]] + Split(s[i + |sep|..], sep, if maxsplit < 0 then maxsplit else maxsplit - 1)
  }

  /** Joining the pieces of a split with the same separator gives the string back. */
  lemma {:induction false} JoinSplit(s: string, sep: string, maxsplit: int)
    requires |sep| > 0
    ensures Join(sep, Split(s, sep, maxsplit)) == s
    decreases |s|
  {
    if maxsplit != 0 {
      match Find(s, sep)
      case None =>
      case Some(i) =>
        var m := if maxsplit < 0 then maxsplit else maxsplit - 1;
        var rest := Split(s[i + |sep|..], sep, m);
        JoinSplit(s[i + |sep|..], sep, m);
        assert Split(s, sep, maxsplit) == [s[..i]] + rest;
        JoinCons(sep, s[..i], rest);
        SplitAround(s, sep, i);
    }
  }

  lemma JoinCons(sep: string, head: string, rest: seq<string>)
    requires rest != []
    ensures Join(sep, [head] + rest) == head + sep + Join(sep, rest)
  {
    assert ([head] + rest)[1..] == rest;
  }

  lemma SplitAround(s: string, sep: string, i: nat)
    requires i + |sep| <= |s| && s[i..i + |sep|] == sep
    ensures s == s[..i] + sep + s[i + |sep|..]
  {
  }

  /** With no limit, no piece of a split contains the separator. */
  lemma {:induction false} SplitPiecesFree(s: string, sep: string)
    requires |sep| > 0
    ensures forall k :: 0 <= k < |Split(s, sep, -1)| ==> !Contains(Split(s, sep, -1)[k], sep)
    decreases |s|
  {
    match Find(s, sep)
    case None =>
      FindContains(s, sep);
    case Some(i) =>
      var rest := Split(s[i + |sep|..], sep, -1);
      HeadFree(s, sep, i);
      SplitPiecesFree(s[i + |sep|..], sep);
      assert Split(s, sep, -1) == [s[..i]] + rest;
      ConsFree(s[..i], rest, sep);
  }

  /** Before the first occurrence there is none. */
  lemma HeadFree(s: string, sep: string, i: nat)
    requires |sep| > 0 && i <= |s|
    requires forall j :: 0 <= j < i ==> !OccursAt(s, sep, j)
    ensures !Contains(s[..i], sep)
  {
    var head := s[..i];
    forall j | OccursAt(head, sep, j) ensures false {
      assert head[j..j + |sep|] == s[j..j + |sep|];
      assert OccursAt(s, sep, j);
    }
  }

  lemma ConsFree(head: string, rest: seq<string>, sep: string)
    requires !Contains(head, sep)
    requires forall k :: 0 <= k < |rest| ==> !Contains(rest[k], sep)
    ensures forall k :: 0 <= k < |[head] + rest| ==> !Contains(([head] + rest)[k], sep)
  {
    forall k | 1 <= k < |[head] + rest| ensures ([head] + rest)[k] == rest[k - 1] {
    }
  }

  /** The first word of a string that starts with a non-space character. */
  function Word(s: string): (w: string)
    ensures |w| <= |s| && w == s[..|w|]
    ensures forall k :: 0 <= k < |w| ==> !IsSpace(w[k])
    ensures |w| < |s| ==> IsSpace(s[|w|])
  {
    if s == [] || IsSpace(s[0]) then [] else [s[0]] + Word(s[1..])
  }

  /** `s.split(None, maxsplit)`: runs of whitespace separate words and
      leading and trailing whitespace produces no empty words; once the
      limit is reached the rest, stripped on the left, is the last word. */
  function SplitWhitespace(s: string, maxsplit: int): (parts: seq<string>)
    ensures forall k :: 0 <= k < |parts| ==> parts[k] != []
    decreases |s|
  {
    var t := LStrip(s);
    if t == [] then []
    else if maxsplit == 0 then [t]
    else
      var w := Word(t);
      [w] + SplitWhitespace(t[|w|..], if maxsplit < 0 then maxsplit else maxsplit - 1)
  }

  /** `s.lower()` restricted to ASCII letters. */
  function LowerAscii(s: string): (r: string)
    ensures |r| == |s|
  {
    seq(|s|, i requires 0 <= i < |s| => if 'A' <= s[i] <= 'Z' then (s[i] as int + 32) as char else s[i])
  }

  function Repeat(c: char, n: nat): (r: string)
    ensures |r| == n && forall i :: 0 <= i < n ==> r[i] == c
  {
    seq(n, _ => c)
  }

  function DigitValue(c: char): nat
    requires IsDigit(c)
  {
    c as int - '0' as int
  }

  /** The value of a run of decimal digits. */
  function DigitsValue(d: string): nat
    requires forall k :: 0 <= k < |d| ==> IsDigit(d[k])
  {
    if d == [] then 0 else DigitsValue(d[..|d| - 1]) * 10 + DigitValue(d[|d| - 1])
  }

  /** Digits possibly grouped with single underscores: no leading, trailing or doubled `_`. */
  predicate WellFormedDigits(d: string) {
    |d| > 0 && IsDigit(d[0]) && IsDigit(d[|d| - 1])
    && (forall k :: 0 <= k < |d| ==> IsDigit(d[k]) || d[k] == '_')
    && (forall k :: 0 <= k < |d| - 1 ==> !(d[k] == '_' && d[k + 1] == '_'))
  }

  function RemoveUnderscores(d: string): (r: string)
    ensures forall k :: 0 <= k < |r| ==> r[k] != '_'
    ensures (forall k :: 0 <= k < |d| ==> IsDigit(d[k]) || d[k] == '_') ==> forall k :: 0 <= k < |r| ==> IsDigit(r[k])
  {
    if d == [] then [] else (if d[0] == '_' then [] else [d[0]]) + RemoveUnderscores(d[1..])
  }

  /** A run of digits parses as its value. */
  lemma ParseUnsigned(s: string)
    requires WellFormedDigits(s)
    ensures ParseInt(s) == Some(DigitsValue(RemoveUnderscores(s)) as int)
  {
    NothingToStrip(s);
    assert s[0] != '+' && s[0] != '-';
  }

  lemma NothingToStrip(s: string)
    requires |s| > 0 && !IsSpace(s[0]) && !IsSpace(s[|s| - 1])
    ensures Strip(s) == s
  {
    assert LStrip(s) == s;
    assert RStrip(s) == s;
  }

  /** `int(s)` for a string in base 10: surrounding whitespace, an optional
      sign, then ASCII digits with optional single underscores. */
  function ParseInt(s: string): Option<int> {
    var t := Strip(s);
    var signed := |t| > 0 && (t[0] == '+' || t[0] == '-');
    var d := if signed then t[1..] else t;
    if !WellFormedDigits(d) then None
    else
      var n: int := DigitsValue(RemoveUnderscores(d));
      Some(if signed && t[0] == '-' then -n else n)
  }
}
