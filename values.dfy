/** The closed world of Python runtime values that the field pipeline reads,
    transforms and writes. A dict is an insertion-ordered association list; a
    list also stands for a tuple; an object is a record of named attributes. */
module Values {
  import opened Wrappers
  import OrderedMaps

  datatype Value =
    | VNone
    | VBool(b: bool)
    | VInt(i: int)
    | VStr(s: string)
    | VList(items: seq<Value>)
    | VDict(entries: seq<(Value, Value)>)
    | VObj(attrs: seq<(string, Value)>)

  /** Python truthiness (`bool(v)`). */
  predicate Truthy(v: Value) {
    match v
    case VNone => false
    case VBool(b) => b
    case VInt(i) => i != 0
    case VStr(s) => s != ""
    case VList(xs) => xs != []
    case VDict(es) => es != []
    case VObj(_) => true
  }

  /** `type(v).__name__`. */
  function TypeName(v: Value): string {
    match v
    case VNone => "NoneType"
    case VBool(_) => "bool"
    case VInt(_) => "int"
    case VStr(_) => "str"
    case VList(_) => "list"
    case VDict(_) => "dict"
    case VObj(_) => "object"
  }

  /** Only lists and dicts are unhashable among these values. */
  predicate Hashable(v: Value) {
    !v.VList? && !v.VDict?
  }

  function DigitChar(d: nat): char
    requires d < 10
  {
    "0123456789"[d]
  }

  /** Decimal digits of a natural number, as `str(n)` prints them. */
  function NatToString(n: nat): (s: string)
    ensures |s| >= 1
    ensures forall i :: 0 <= i < |s| ==> '0' <= s[i] <= '9'
    decreases n
  {
    if n < 10 then [DigitChar(n)] else NatToString(n / 10) + [DigitChar(n % 10)]
  }

  function IntToString(i: int): (s: string)
    ensures |s| >= 1
  {
    if i < 0 then "-" + NatToString(-i) else NatToString(i)
  }

  /** `repr(v)`. An object's class-specific repr is not modelled. */
  function Repr(v: Value): string
    decreases v, 1
  {
    match v
    case VNone => "None"
    case VBool(b) => if b then "True" else "False"
    case VInt(i) => IntToString(i)
    case VStr(s) => StrRepr(s)
    case VList(xs) => "[" + ReprItems(xs) + "]"
    case VDict(_) => "{" + ReprEntries(v, v.entries) + "}"
    case VObj(_) => "<object>"
  }

  /** `repr(s)` of a string: single quotes, or double quotes when the text
      holds a single quote and no double quote; the chosen quote, backslash
      and unprintable characters are escaped. */
  function StrRepr(s: string): (r: string)
    ensures |r| >= 2 && r[0] == r[|r| - 1] == ReprQuote(s)
  {
    [ReprQuote(s)] + EscapeAll(s, ReprQuote(s)) + [ReprQuote(s)]
  }

  function ReprQuote(s: string): (q: char)
    ensures q == '"' <==> '\'' in s && '"' !in s
    ensures q == '"' || q == '\''
  {
    if '\'' in s && '"' !in s then '"' else '\''
  }

  function EscapeAll(s: string, quote: char): string {
    if s == [] then [] else Escape(s[0], quote) + EscapeAll(s[1..], quote)
  }

  /** The characters Python's repr shows as `\xNN`: the C0 controls but tab,
      newline and carriage return, DEL, the C1 controls, the no-break space
      and the soft hyphen. */
  predicate Unprintable(ch: char) {
    ch as int < 0x20 || ch as int == 0x7f || 0x80 <= ch as int <= 0xa0 || ch as int == 0xad
  }

  function HexDigit(n: nat): (c: char)
    requires n < 16
  {
    if n < 10 then ('0' as int + n) as char else ('a' as int + n - 10) as char
  }

  /** One character of a string's repr. */
  function Escape(ch: char, quote: char): (r: string)
    ensures |r| >= 1
    ensures |r| == 1 <==> ch != quote && ch != '\\' && !Unprintable(ch)
    ensures |r| == 1 ==> r == [ch]
  {
    if ch == quote || ch == '\\' then ['\\', ch]
    else if ch == '\t' then "\\t"
    else if ch == '\n' then "\\n"
    else if ch == '\r' then "\\r"
    else if Unprintable(ch) then "\\x" + [HexDigit(ch as int / 16), HexDigit(ch as int % 16)]
    else [ch]
  }

  /** A string without quotes, backslashes or unprintable characters is
      shown as itself between single quotes. */
  lemma {:induction false} PlainStrRepr(s: string)
    requires forall i :: 0 <= i < |s| ==> s[i] != '\'' && s[i] != '\\' && !Unprintable(s[i])
    ensures StrRepr(s) == "'" + s + "'"
  {
    PlainEscapes(s, '\'');
  }

  lemma {:induction false} PlainEscapes(s: string, quote: char)
    requires forall i :: 0 <= i < |s| ==> s[i] != quote && s[i] != '\\' && !Unprintable(s[i])
    ensures EscapeAll(s, quote) == s
  {
    if s != [] {
      PlainEscapes(s[1..], quote);
      assert s == [s[0]] + s[1..];
    }
  }

  function HexValue(c: char): nat {
    if '0' <= c <= '9' then c as int - '0' as int
    else if 'a' <= c <= 'f' then c as int - 'a' as int + 10
    else 0
  }

  /** Reading a string literal's body back, as Python's parser does for the
      escapes a repr produces. */
  function Unescape(r: string): string {
    if r == [] then []
    else if r[0] == '\\' && |r| >= 4 && r[1] == 'x' then [(HexValue(r[2]) * 16 + HexValue(r[3])) as char] + Unescape(r[4..])
    else if r[0] == '\\' && |r| >= 2 then [EscapedChar(r[1])] + Unescape(r[2..])
    else [r[0]] + Unescape(r[1..])
  }

  function EscapedChar(c: char): char {
    if c == 't' then '\t' else if c == 'n' then '\n' else if c == 'r' then '\r' else c
  }

  /** The body of a string's repr reads back as the string. */
  lemma {:induction false} UnescapeEscapeAll(s: string, quote: char)
    requires quote == '"' || quote == '\''
    ensures Unescape(EscapeAll(s, quote)) == s
  {
    if s != [] {
      UnescapeEscapeAll(s[1..], quote);
      UnescapeEscape(s[0], quote, EscapeAll(s[1..], quote));
      assert s == [s[0]] + s[1..];
    }
  }

  lemma UnescapeEscape(ch: char, quote: char, rest: string)
    requires quote == '"' || quote == '\''
    ensures Unescape(Escape(ch, quote) + rest) == [ch] + Unescape(rest)
  {
    var e := Escape(ch, quote);
    if |e| == 1 {
      assert ch != '\\';
      assert (e + rest)[1..] == rest;
    } else if ch != quote && ch != '\\' && ch != '\t' && ch != '\n' && ch != '\r' {
      var n := ch as int;
      HexRoundTrip(n / 16);
      HexRoundTrip(n % 16);
      assert (e + rest)[4..] == rest;
      assert (HexValue(HexDigit(n / 16)) * 16 + HexValue(HexDigit(n % 16))) == n;
    } else {
      assert (e + rest)[2..] == rest;
    }
  }

  lemma HexRoundTrip(n: nat)
    requires n < 16
    ensures HexValue(HexDigit(n)) == n
  {
  }

  function ReprItems(xs: seq<Value>): string
    decreases xs
  {
    if xs == [] then ""
    else if |xs| == 1 then Repr(xs[0])
    else Repr(xs[0]) + ", " + ReprItems(xs[1..])
  }

  function ReprEntries(ghost parent: Value, es: seq<(Value, Value)>): string
    requires parent.VDict? && forall e | e in es :: e in parent.entries
    decreases parent, 0, |es|
  {
    if es == [] then ""
    else
      var e := es[0];
      assert e in parent.entries;
      var item := Repr(e.0) + ": " + Repr(e.1);
      if |es| == 1 then item else item + ", " + ReprEntries(parent, es[1..])
  }

  /** `str(v)`: a string is itself, everything else is its repr. */
  function PyStr(v: Value): string {
    if v.VStr? then v.s else Repr(v)
  }

  /** `d.get(key)` on a dict's entries, `None` when the key is absent. */
  function DictGet(es: seq<(Value, Value)>, key: Value): Option<Value> {
    OrderedMaps.Get(es, key)
  }

  /** `getattr(obj, name)` on an object's attributes, `None` when it has no such attribute. */
  function AttrGet(attrs: seq<(string, Value)>, name: string): Option<Value> {
    OrderedMaps.Get(attrs, name)
  }

  function Chars(s: string): (r: seq<Value>)
    ensures |r| == |s|
    ensures forall i :: 0 <= i < |s| ==> r[i] == VStr([s[i]])
  {
    seq(|s|, i requires 0 <= i < |s| => VStr([s[i]]))
  }

  /** `list(v)`: the items iteration yields (a dict yields its keys, a string
      its characters), or `None` when iterating raises TypeError. */
  function Items(v: Value): Option<seq<Value>> {
    match v
    case VList(xs) => Some(xs)
    case VDict(es) => Some(OrderedMaps.Keys(es))
    case VStr(s) => Some(Chars(s))
    case _ => None
  }

  /** `len(v)`, or `None` when the value has no length. */
  function Len(v: Value): Option<nat> {
    match v
    case VList(xs) => Some(|xs|)
    case VDict(es) => Some(|es|)
    case VStr(s) => Some(|s|)
    case _ => None
  }
}
