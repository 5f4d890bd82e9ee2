/** The JavaScript values that flow through the form (field values, file
    descriptors, configuration entries) and the coercions the form code
    relies on: truthiness, `String(v)`, `Array.prototype.join`, `.length`
    and template-literal rendering of integers. */
module JsValue {
  import opened Wrappers

  /** A JavaScript value. Numbers are integers (NaN, infinities and fractions
      are not part of this model); a File descriptor is an `Obj` with a
      `name` property. */
  datatype Value =
    | Undefined
    | Null
    | Bool(b: bool)
    | Num(n: int)
    | Str(s: string)
    | Arr(items: seq<Value>)
    | Obj(props: map<string, Value>)

  /** JavaScript truthiness: `undefined`, `null`, `false`, `0` and `""` are falsy. */
  predicate Truthy(v: Value) {
    match v
    case Undefined => false
    case Null => false
    case Bool(b) => b
    case Num(n) => n != 0
    case Str(s) => s != ""
    case Arr(_) => true
    case Obj(_) => true
  }

  /** `v === undefined || v === null || v === ""`: the "nothing entered" test
      used by the review page and by debounced validation. */
  predicate IsBlank(v: Value) {
    v == Undefined || v == Null || v == Str("")
  }

  /** Property read on a plain record: a missing key reads as `undefined`. */
  function Get(m: map<string, Value>, key: string): Value {
    if key in m then m[key] else Undefined
  }

  /** `v.name` when `v` is an object; `undefined` otherwise. */
  function NameOf(v: Value): Value {
    if v.Obj? then Get(v.props, "name") else Undefined
  }

  /** `v.length`: strings and arrays have one, an object may carry a numeric
      `length` property, every other value reads `undefined` (None). */
  function LengthOf(v: Value): Option<int> {
    match v
    case Str(s) => Some(|s|)
    case Arr(items) => Some(|items|)
    case Obj(props) =>
      if "length" in props && props["length"].Num? then Some(props["length"].n) else None
    case _ => None
  }

  predicate IsDigit(c: char) {
    '0' <= c <= '9'
  }

  function DigitValue(c: char): nat
    requires IsDigit(c)
  {
    (c as int) - ('0' as int)
  }

  function DigitChar(d: nat): (c: char)
    requires d < 10
    ensures IsDigit(c) && DigitValue(c) == d
  {
    (('0' as int) + d) as char
  }

  predicate AllDigits(s: string) {
    forall i :: 0 <= i < |s| ==> IsDigit(s[i])
  }

  /** Decimal rendering of a natural number, as `${n}` prints it: no sign and
      no leading zero. */
  function NatToString(n: nat): (s: string)
    ensures |s| >= 1 && AllDigits(s)
    ensures s[0] == '0' ==> n == 0
  {
    if n < 10 then [DigitChar(n)] else NatToString(n / 10) + [DigitChar(n % 10)]
  }

  /** The number a string of decimal digits denotes. */
  function DigitsValue(s: string): nat
    requires AllDigits(s)
  {
    if s == [] then 0 else DigitsValue(s[..|s| - 1]) * 10 + DigitValue(s[|s| - 1])
  }

  /** Reading back a rendered natural number gives the number. */
  lemma {:induction false} NatToStringRoundTrip(n: nat)
    ensures DigitsValue(NatToString(n)) == n
  {
    var s := NatToString(n);
    if n >= 10 {
      NatToStringRoundTrip(n / 10);
      assert s[..|s| - 1] == NatToString(n / 10);
    }
  }

  /** Decimal rendering of an integer, as `${i}` prints it. */
  function IntToString(i: int): string {
    if i < 0 then "-" + NatToString(-i) else NatToString(i)
  }

  /** `parts.join(sep)`. */
  function JoinWith(parts: seq<string>, sep: string): string {
    if |parts| == 0 then ""
    else if |parts| == 1 then parts[0]
    else JoinWith(parts[..|parts| - 1], sep) + sep + parts[|parts| - 1]
  }

  /** How `join` renders one array element: `undefined` and `null` become "". */
  function ElementString(v: Value): string
    decreases v, 1
  {
    if v == Undefined || v == Null then "" else JsString(v)
  }

  /** `String(v)`. */
  function JsString(v: Value): string
    decreases v, 0
  {
    match v
    case Undefined => "undefined"
    case Null => "null"
    case Bool(b) => if b then "true" else "false"
    case Num(n) => IntToString(n)
    case Str(s) => s
    case Arr(items) => JoinWith(seq(|items|, i requires 0 <= i < |items| => ElementString(items[i])), ",")
    case Obj(_) => "[object Object]"
  }

  /** The text before the first `c` (all of `s` when there is none):
      `s.split(c)[0]`. */
  function Before(s: string, c: char): (r: string)
    ensures |r| <= |s| && r == s[..|r|]
    ensures c !in r
    ensures |r| < |s| ==> s[|r|] == c
  {
    if s == [] || s[0] == c then [] else [s[0]] + Before(s[1..], c)
  }

  /** The text after the first `c`. */
  function After(s: string, c: char): string
    requires c in s
  {
    s[|Before(s, c)| + 1..]
  }

  /** Splitting at the first separator and joining back gives the original. */
  lemma BeforeAfterRoundTrip(s: string, c: char)
    requires c in s
    ensures Before(s, c) + [c] + After(s, c) == s
  {
    assert s[..|Before(s, c)|] == Before(s, c);
  }

  /** `Before` finds the separator right after a separator-free prefix. */
  lemma {:induction false} BeforeIsPrefix(a: string, b: string, c: char)
    requires c !in a
    ensures Before(a + b, c) == a + Before(b, c)
    ensures b != [] && b[0] == c ==> Before(a + b, c) == a
  {
    if a != [] {
      assert (a + b)[0] == a[0] && (a + b)[1..] == a[1..] + b;
      BeforeIsPrefix(a[1..], b, c);
    } else {
      assert a + b == b;
    }
  }

  /** `s.split(c)`: the pieces between the occurrences of `c`, at least one. */
  function SplitOn(s: string, c: char): (parts: seq<string>)
    ensures |parts| >= 1 && parts[0] == Before(s, c)
    ensures forall i :: 0 <= i < |parts| ==> c !in parts[i]
    decreases |s|
  {
    if c in s then [Before(s, c)] + SplitOn(After(s, c), c) else [s]
  }

  /** `join` read from the front. */
  lemma {:induction false} JoinWithCons(a: string, rest: seq<string>, sep: string)
    requires rest != []
    ensures JoinWith([a] + rest, sep) == a + sep + JoinWith(rest, sep)
    decreases |rest|
  {
    var all := [a] + rest;
    if |rest| > 1 {
      assert all[..|all| - 1] == [a] + rest[..|rest| - 1];
      JoinWithCons(a, rest[..|rest| - 1], sep);
    } else {
      assert all == [a, rest[0]];
    }
  }

  /** Joining the pieces of a split with the separator gives the string back. */
  lemma {:induction false} SplitJoinRoundTrip(s: string, c: char)
    ensures JoinWith(SplitOn(s, c), [c]) == s
    decreases |s|
  {
    if c in s {
      var rest := After(s, c);
      SplitJoinRoundTrip(rest, c);
      JoinWithCons(Before(s, c), SplitOn(rest, c), [c]);
      BeforeAfterRoundTrip(s, c);
    }
  }
}
