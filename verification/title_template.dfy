/**
 * `TitleService.template`, the tagged-template helper: literal fragments and
 * placeholder keys in, a formatter out. The closure it returns is modelled
 * uncurried, as a function of fragments, keys and the call's arguments.
 */
module TitleTemplate {

  import opened JsValues

  /** A placeholder key: an integer selects a positional argument, anything else names a dictionary entry. */
  datatype Key = Index(i: int) | Name(name: string)

  /** `values[values.length - 1] || {}`. */
  function Dict(values: seq<Value>): (d: Value)
    ensures |values| > 0 && Truthy(values[|values| - 1]) ==> d == values[|values| - 1]
    ensures !(|values| > 0 && Truthy(values[|values| - 1])) ==> d == Obj(map[])
  {
    if |values| > 0 && Truthy(values[|values| - 1]) then values[|values| - 1] else Obj(map[])
  }

  /** `values[i]`; an index out of range reads `undefined`. */
  function Arg(values: seq<Value>, i: int): Value
  {
    if 0 <= i < |values| then values[i] else Undefined
  }

  /** `Number.isInteger(key) ? values[key] : dict[key]`. */
  function Substitute(key: Key, values: seq<Value>): Value
  {
    match key
    case Index(i) => Arg(values, i)
    case Name(n) => GetProp(Dict(values), n)
  }

  /** `strings[i]`, `undefined` past the end. */
  function Fragment(strings: seq<string>, i: nat): Value
  {
    if i < |strings| then Str(strings[i]) else Undefined
  }

  /**
   * The formatted string: the first fragment,
   * then for each key its rendered value followed by the next fragment.
   */
  function Expand(strings: seq<string>, keys: seq<Key>, values: seq<Value>): string
    decreases |keys|
  {
    if |keys| == 0 then Render(Fragment(strings, 0))
    else
      var n := |keys| - 1;
      Expand(strings, keys[..n], values) + Render(Substitute(keys[n], values)) + Render(Fragment(strings, n + 1))
  }

  /**
   * The closure as written: push `strings[0]`, then `value, strings[i + 1]`
   * for each key, and `join('')` the pieces.
   */
  method Format(strings: seq<string>, keys: seq<Key>, values: seq<Value>) returns (r: string)
    ensures r == Expand(strings, keys, values)
  {
    var dict := Dict(values);
    var result := [Fragment(strings, 0)];
    var i := 0;
    while i < |keys|
      invariant 0 <= i <= |keys|
      invariant Join(result, "") == Expand(strings, keys[..i], values)
    {
      var key := keys[i];
      var value := match key
        case Index(k) => Arg(values, k)
        case Name(n) => GetProp(dict, n);
      assert value == Substitute(key, values);
      JoinPair(result, value, Fragment(strings, i + 1));
      ExpandStep(strings, keys, values, i);
      result := result + [value, Fragment(strings, i + 1)];
      i := i + 1;
    }
    assert keys[..|keys|] == keys;
    r := Join(result, "");
  }

  /** Pushing a value and a fragment appends their renderings to the `join('')`. */
  lemma JoinPair(result: seq<Value>, v: Value, f: Value)
    ensures Join(result + [v, f], "") == Join(result, "") + Render(v) + Render(f)
  {
    var pair := [Render(v), Render(f)];
    assert Renders([v, f]) == pair;
    assert pair[1..] == [Render(f)];
    assert JoinStrings(pair[1..], "") == Render(f);
    assert JoinStrings(pair, "") == Render(v) + "" + Render(f);
    assert Render(v) + "" == Render(v);
    JoinConcat(result, [v, f]);
  }

  /** One more key adds its value and the fragment after it. */
  lemma ExpandStep(strings: seq<string>, keys: seq<Key>, values: seq<Value>, i: nat)
    requires i < |keys|
    ensures Expand(strings, keys[..i + 1], values)
         == Expand(strings, keys[..i], values) + Render(Substitute(keys[i], values)) + Render(Fragment(strings, i + 1))
  {
    assert keys[..i + 1][..i] == keys[..i];
  }

  predicate AllNamed(keys: seq<Key>)
  {
    forall i :: 0 <= i < |keys| ==> keys[i].Name?
  }

  /**
   * A template whose placeholders are all names reads only the last
   * argument, so a leading positional argument makes no difference.
   */
  lemma {:induction false} NamedKeysIgnoreLeadingArgument(strings: seq<string>, keys: seq<Key>, lead: Value, values: seq<Value>)
    requires AllNamed(keys) && |values| > 0
    ensures Expand(strings, keys, [lead] + values) == Expand(strings, keys, values)
    decreases |keys|
  {
    if |keys| > 0 {
      var n := |keys| - 1;
      assert AllNamed(keys[..n]) by {
        assert forall i :: 0 <= i < n ==> keys[..n][i] == keys[i];
      }
      NamedKeysIgnoreLeadingArgument(strings, keys[..n], lead, values);
      assert keys[n].Name?;
      assert Dict([lead] + values) == Dict(values);
    }
  }

  /**
   * A template whose placeholders are all indices never consults the
   * dictionary: two argument lists that agree on the positions the keys
   * name give the same string, whatever else they hold.
   */
  lemma {:induction false} IndexKeysReadPositions(strings: seq<string>, keys: seq<Key>, values: seq<Value>, other: seq<Value>)
    requires forall i :: 0 <= i < |keys| ==> keys[i].Index? && Arg(values, keys[i].i) == Arg(other, keys[i].i)
    ensures Expand(strings, keys, values) == Expand(strings, keys, other)
    decreases |keys|
  {
    if |keys| > 0 {
      var n := |keys| - 1;
      assert forall i :: 0 <= i < n ==> keys[..n][i] == keys[i];
      IndexKeysReadPositions(strings, keys[..n], values, other);
    }
  }

  /** An extra trailing argument, such as a dictionary, leaves a positional template unchanged. */
  lemma TrailingArgumentIgnoredExample(extra: Value)
    ensures Expand(["", "", "", "!"], [Index(0), Index(1), Index(0)], [Str("Y"), Str("A")])
         == Expand(["", "", "", "!"], [Index(0), Index(1), Index(0)], [Str("Y"), Str("A"), extra])
  {
    IndexKeysReadPositions(["", "", "", "!"], [Index(0), Index(1), Index(0)], [Str("Y"), Str("A")], [Str("Y"), Str("A"), extra]);
  }

  /** `` template`${0}${1}${0}!`('Y', 'A') `` is `"YAY!"`. */
  lemma RepeatedPositionsExample()
    ensures Expand(["", "", "", "!"], [Index(0), Index(1), Index(0)], [Str("Y"), Str("A")]) == "YAY!"
  {
    var strings := ["", "", "", "!"];
    var keys := [Index(0), Index(1), Index(0)];
    var values := [Str("Y"), Str("A")];
    assert keys[..2][..1] == [Index(0)];
    assert Expand(strings, keys[..1], values) == "Y";
    assert Expand(strings, keys[..2], values) == "YA";
  }

  /** `` template`${0} ${'foo'}!`('Hello', {foo: 'World'}) `` is `"Hello World!"`. */
  lemma MixedKeysExample()
    ensures Expand(["", " ", "!"], [Index(0), Name("foo")], [Str("Hello"), Obj(map["foo" := Str("World")])])
         == "Hello World!"
  {
  }

  /** The `name`/`age` template, with and without a leading positional argument. */
  lemma NamedKeysExample()
    ensures var strings := ["I'm ", ". I'm almost ", " years old."];
            var keys := [Name("name"), Name("age")];
            var dict := Obj(map["name" := Str("MDN"), "age" := Num(30)]);
            && Expand(strings, keys, [dict]) == "I'm " + "MDN" + ". I'm almost " + "30" + " years old."
            && Expand(strings, keys, [Str("foo"), dict]) == "I'm " + "MDN" + ". I'm almost " + "30" + " years old."
  {
    var strings := ["I'm ", ". I'm almost ", " years old."];
    var keys := [Name("name"), Name("age")];
    var dict := Obj(map["name" := Str("MDN"), "age" := Num(30)]);
    assert Substitute(keys[0], [dict]) == Str("MDN");
    assert Substitute(keys[1], [dict]) == Num(30);
    assert IntToString(30) == "30";
    assert keys[..1] == [Name("name")] && keys[..1][..0] == [];
    assert Expand(strings, keys[..1], [dict]) == "I'm " + "MDN" + ". I'm almost ";
    assert AllNamed(keys);
    NamedKeysIgnoreLeadingArgument(strings, keys, Str("foo"), [dict]);
    assert [Str("foo")] + [dict] == [Str("foo"), dict];
  }
}
