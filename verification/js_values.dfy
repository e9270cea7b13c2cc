/** The usual Some/None wrapper, for state slots that JavaScript leaves `undefined`. */
module Optional {

  datatype Option<+T> = None | Some(value: T)
}

/**
 * The slice of JavaScript value semantics that the title code depends on:
 * truthiness tests, reading a property, conversion to a string, and
 * `Array.prototype.join`. Numbers are integers here; `null`, booleans,
 * `NaN` and prototype-inherited properties are not part of this model.
 */
module JsValues {

  datatype Value =
    | Undefined
    | Str(s: string)
    | Num(n: int)
    | Obj(props: map<string, Value>)
    | Arr(items: seq<Value>)

  /** JavaScript truthiness: `undefined`, `""` and `0` are falsy, every object and array is truthy. */
  predicate Truthy(v: Value)
  {
    match v
    case Undefined => false
    case Str(s) => s != ""
    case Num(n) => n != 0
    case Obj(_) => true
    case Arr(_) => true
  }

  /** `m[key]` on an object's own properties; a missing key reads as `undefined`. */
  function Lookup(m: map<string, Value>, key: string): Value
  {
    if key in m then m[key] else Undefined
  }

  /**
   * `v[key]` for a defined `v` (reading a property of `undefined` throws, so
   * callers must rule it out). Primitives and arrays carry no own named
   * properties in this model.
   */
  function GetProp(v: Value, key: string): (r: Value)
    requires v != Undefined
    ensures r != Undefined ==> v.Obj? && key in v.props && r == v.props[key]
  {
    if v.Obj? then Lookup(v.props, key) else Undefined
  }

  predicate AllDefined(vs: seq<Value>)
  {
    forall i :: 0 <= i < |vs| ==> vs[i] != Undefined
  }

  function Digit(d: nat): (c: char)
    requires d < 10
    ensures '0' <= c <= '9'
  {
    "0123456789"[d]
  }

  /** Plain decimal rendering of a non-negative integer; `String(n)` agrees for integers below `1e21`. */
  function NatToString(n: nat): (r: string)
    ensures |r| >= 1
    ensures forall i :: 0 <= i < |r| ==> '0' <= r[i] <= '9'
    ensures r[0] == '0' ==> n == 0
    decreases n
  {
    if n < 10 then [Digit(n)] else NatToString(n / 10) + [Digit(n % 10)]
  }

  /** The number a string of decimal digits denotes (most significant digit first). */
  function DigitsValue(s: string): nat
    requires forall i :: 0 <= i < |s| ==> '0' <= s[i] <= '9'
    decreases |s|
  {
    if |s| == 0 then 0
    else DigitsValue(s[..|s| - 1]) * 10 + (s[|s| - 1] as int - '0' as int)
  }

  /** Reading the decimal rendering back yields the number it was made from. */
  lemma {:induction false} NatToStringRoundTrip(n: nat)
    ensures DigitsValue(NatToString(n)) == n
    decreases n
  {
    var r := NatToString(n);
    if n < 10 {
      DigitValue(n);
      assert r[..0] == [];
    } else {
      NatToStringRoundTrip(n / 10);
      DigitValue(n % 10);
      assert r[..|r| - 1] == NatToString(n / 10);
      assert r[|r| - 1] == Digit(n % 10);
    }
  }

  lemma DigitValue(d: nat)
    requires d < 10
    ensures Digit(d) as int - '0' as int == d
  {
  }

  function IntToString(n: int): (r: string)
    ensures |r| >= 1
    ensures n < 0 <==> r[0] == '-'
  {
    if n < 0 then "-" + NatToString(-n) else NatToString(n)
  }

  /** `String(v)`: the string conversion used for property keys. */
  function ToJsString(v: Value): string
  {
    if v.Undefined? then "undefined" else Render(v)
  }

  /**
   * How `Array.prototype.join` renders one element: `undefined` becomes the
   * empty string, an array is joined with `","`, an object is
   * `"[object Object]"`.
   */
  function Render(v: Value): string
  {
    match v
    case Undefined => ""
    case Str(s) => s
    case Num(n) => IntToString(n)
    case Obj(_) => "[object Object]"
    case Arr(items) => JoinStrings(seq(|items|, i requires 0 <= i < |items| => Render(items[i])), ",")
  }

  function Renders(vs: seq<Value>): (r: seq<string>)
    ensures |r| == |vs|
    ensures forall i :: 0 <= i < |vs| ==> r[i] == Render(vs[i])
  {
    seq(|vs|, i requires 0 <= i < |vs| => Render(vs[i]))
  }

  /** The strings in order with `sep` between neighbours. */
  function JoinStrings(ss: seq<string>, sep: string): string
    decreases |ss|
  {
    if |ss| == 0 then ""
    else if |ss| == 1 then ss[0]
    else ss[0] + sep + JoinStrings(ss[1..], sep)
  }

  /** `vs.join(sep)`. */
  function Join(vs: seq<Value>, sep: string): string
  {
    JoinStrings(Renders(vs), sep)
  }

  /** Joining two non-empty runs is joining each and putting one separator between them. */
  lemma {:induction false} JoinStringsAppend(a: seq<string>, b: seq<string>, sep: string)
    requires |a| > 0 && |b| > 0
    ensures JoinStrings(a + b, sep) == JoinStrings(a, sep) + sep + JoinStrings(b, sep)
    decreases |a|
  {
    if |a| == 1 {
      assert (a + b)[1..] == b;
    } else {
      assert (a + b)[1..] == a[1..] + b;
      JoinStringsAppend(a[1..], b, sep);
    }
  }

  /** With an empty separator, joining distributes over concatenation, empty runs included. */
  lemma JoinConcat(a: seq<Value>, b: seq<Value>)
    ensures Join(a + b, "") == Join(a, "") + Join(b, "")
  {
    assert Renders(a + b) == Renders(a) + Renders(b);
    if |a| == 0 {
      assert a + b == b;
    } else if |b| == 0 {
      assert a + b == a;
    } else {
      JoinStringsAppend(Renders(a), Renders(b), "");
    }
  }

  /** Appending one element to a non-empty array adds the separator and that element's rendering. */
  lemma JoinSnoc(vs: seq<Value>, v: Value, sep: string)
    requires |vs| > 0
    ensures Join(vs + [v], sep) == Join(vs, sep) + sep + Render(v)
  {
    assert Renders(vs + [v]) == Renders(vs) + [Render(v)];
    JoinStringsAppend(Renders(vs), [Render(v)], sep);
  }
}
