/**
 * JavaScript values as the jsUnity assertions see them, and `hash`: the structural
 * fingerprint `assertEqual` and `assertNotEqual` compare (js/common/modules/jsunity/jsunity.js).
 */
module JsUnityHash {
  import Decimal
  import JsUnityText

  /** A function object, known by its identity only. */
  type FuncId = nat

  /** Numbers are integral; an object lists its own enumerable properties in insertion order. */
  datatype JsValue =
    | Undefined
    | Null
    | Bool(b: bool)
    | Num(n: int)
    | Str(s: string)
    | Func(id: FuncId)
    | Obj(props: seq<Prop>)

  datatype Prop = Prop(key: string, value: JsValue)

  /** The order `Array.prototype.sort` puts strings in: character by character, a proper
      prefix first. */
  predicate StrLess(a: string, b: string) {
    |b| > 0 && (|a| == 0 || a[0] < b[0] || (a[0] == b[0] && StrLess(a[1..], b[1..])))
  }

  lemma {:induction false} StrLessIrreflexive(a: string)
    ensures !StrLess(a, a)
  {
    if |a| > 0 {
      StrLessIrreflexive(a[1..]);
    }
  }

  lemma {:induction false} StrLessAsymmetric(a: string, b: string)
    ensures StrLess(a, b) ==> !StrLess(b, a)
  {
    if |a| > 0 && |b| > 0 && a[0] == b[0] {
      StrLessAsymmetric(a[1..], b[1..]);
    }
  }

  lemma {:induction false} StrLessTotal(a: string, b: string)
    ensures a == b || StrLess(a, b) || StrLess(b, a)
  {
    if |a| > 0 && |b| > 0 && a[0] == b[0] {
      StrLessTotal(a[1..], b[1..]);
      if a[1..] == b[1..] {
        assert a == [a[0]] + a[1..] && b == [b[0]] + b[1..];
      }
    }
  }

  lemma {:induction false} StrLessTransitive(a: string, b: string, c: string)
    requires StrLess(a, b) && StrLess(b, c)
    ensures StrLess(a, c)
  {
    if |a| > 0 && a[0] == b[0] && b[0] == c[0] {
      StrLessTransitive(a[1..], b[1..], c[1..]);
    }
  }

  predicate StrictlySorted(s: seq<string>) {
    forall i, j :: 0 <= i < j < |s| ==> StrLess(s[i], s[j])
  }

  /** Puts k into a strictly sorted sequence, unless it is there already. */
  function InsertSorted(k: string, s: seq<string>): (r: seq<string>)
    requires StrictlySorted(s)
    ensures StrictlySorted(r)
    ensures forall x :: x in r <==> x == k || x in s
  {
    if |s| == 0 then [k]
    else if k == s[0] then s
    else if StrLess(k, s[0]) then
      assert forall j | 0 < j < |s| :: StrLess(k, s[j]) by {
        forall j | 0 < j < |s| ensures StrLess(k, s[j]) {
          StrLessTransitive(k, s[0], s[j]);
        }
      }
      [k] + s
    else
      StrLessTotal(k, s[0]);
      var rest := InsertSorted(k, s[1..]);
      assert forall j | 0 <= j < |rest| :: StrLess(s[0], rest[j]) by {
        forall j | 0 <= j < |rest| ensures StrLess(s[0], rest[j]) {
          assert rest[j] in rest;
          if rest[j] != k {
            var i :| 0 <= i < |s[1..]| && s[1..][i] == rest[j];
            assert s[i + 1] == rest[j];
          }
        }
      }
      [s[0]] + rest
  }

  /** `Object.keys(v).sort()`: every key once, in ascending order. */
  function SortKeys(keys: seq<string>): (r: seq<string>)
    ensures StrictlySorted(r)
    ensures forall x :: x in r <==> x in keys
  {
    if |keys| == 0 then [] else InsertSorted(keys[|keys| - 1], SortKeys(keys[..|keys| - 1]))
  }

  lemma SortedHeadIsLeast(a: seq<string>, x: string)
    requires StrictlySorted(a) && x in a
    ensures x == a[0] || StrLess(a[0], x)
  {
  }

  /** A strictly sorted sequence is determined by its elements. */
  lemma {:induction false} SortedUnique(a: seq<string>, b: seq<string>)
    requires StrictlySorted(a) && StrictlySorted(b)
    requires forall x :: x in a <==> x in b
    ensures a == b
    decreases |a|
  {
    if |b| > 0 {
      assert b[0] in a;
    }
    if |a| > 0 {
      assert a[0] in b;
      SortedHeadIsLeast(a, b[0]);
      SortedHeadIsLeast(b, a[0]);
      assert a[0] == b[0] by {
        StrLessAsymmetric(a[0], b[0]);
      }
      assert a == [a[0]] + a[1..] && b == [b[0]] + b[1..];
      forall x ensures x in a[1..] <==> x in b[1..] {
        if x in a[1..] {
          var i :| 0 <= i < |a[1..]| && a[1..][i] == x;
          assert StrLess(a[0], a[i + 1]);
          StrLessIrreflexive(x);
          assert a[i + 1] in a;
          var j :| 0 <= j < |b| && b[j] == x;
          assert b[1..][j - 1] == x;
        }
        if x in b[1..] {
          var j :| 0 <= j < |b[1..]| && b[1..][j] == x;
          assert StrLess(b[0], b[j + 1]);
          StrLessIrreflexive(x);
          assert b[j + 1] in b;
          var i :| 0 <= i < |a| && a[i] == x;
          assert a[1..][i - 1] == x;
        }
      }
      SortedUnique(a[1..], b[1..]);
    }
  }

  function Keys(props: seq<Prop>): (ks: seq<string>)
    ensures |ks| == |props|
    ensures forall i :: 0 <= i < |props| ==> ks[i] == props[i].key
  {
    if |props| == 0 then [] else [props[0].key] + Keys(props[1..])
  }

  /** Where the property named k is bound: the last binding, as a later assignment wins. */
  function Binding(props: seq<Prop>, k: string): (i: nat)
    requires k in Keys(props)
    ensures i < |props| && props[i].key == k
    ensures forall j :: i < j < |props| ==> props[j].key != k
  {
    assert Keys(props) == [props[0].key] + Keys(props[1..]);
    if k in Keys(props[1..]) then 1 + Binding(props[1..], k) else 0
  }

  /** `String(v)` for a primitive, and for an object its sorted keys, each followed by the
      hash of its value, joined by '#'. A function has no enumerable own keys. */
  function Hash(v: JsValue): string
    decreases v, 1
  {
    match v
    case Undefined => "undefined"
    case Null => "null"
    case Bool(b) => if b then "true" else "false"
    case Num(n) => Decimal.IntToString(n)
    case Str(s) => s
    case Func(_) => ""
    case Obj(props) => JsUnityText.Join(KeyHashes(props, SortKeys(Keys(props))), "#")
  }

  /** For each key in turn: the key, then the hash of the value bound to it. */
  function KeyHashes(props: seq<Prop>, keys: seq<string>): (parts: seq<string>)
    requires forall k :: k in keys ==> k in Keys(props)
    ensures |parts| == 2 * |keys|
    decreases Obj(props), 0, |keys|
  {
    if |keys| == 0 then []
    else
      var i := Binding(props, keys[0]);
      [keys[0], Hash(props[i].value)] + KeyHashes(props, keys[1..])
  }

  /** Key j contributes parts 2j and 2j + 1: the key itself, then the hash of the value
      bound to it. */
  lemma {:induction false} KeyHashesPairs(props: seq<Prop>, keys: seq<string>)
    requires forall k :: k in keys ==> k in Keys(props)
    ensures forall j :: 0 <= j < |keys| ==>
      KeyHashes(props, keys)[2 * j] == keys[j]
      && KeyHashes(props, keys)[2 * j + 1] == Hash(props[Binding(props, keys[j])].value)
  {
    forall j | 0 <= j < |keys|
      ensures KeyHashes(props, keys)[2 * j] == keys[j]
      ensures KeyHashes(props, keys)[2 * j + 1] == Hash(props[Binding(props, keys[j])].value)
    {
      KeyHashesPair(props, keys, j);
    }
  }

  lemma {:induction false} KeyHashesPair(props: seq<Prop>, keys: seq<string>, j: nat)
    requires forall k :: k in keys ==> k in Keys(props)
    requires j < |keys|
    ensures KeyHashes(props, keys)[2 * j] == keys[j]
    ensures KeyHashes(props, keys)[2 * j + 1] == Hash(props[Binding(props, keys[j])].value)
    decreases j
  {
    if j > 0 {
      var tail := keys[1..];
      KeyHashesPair(props, tail, j - 1);
      assert tail[j - 1] == keys[j];
      var rest := KeyHashes(props, tail);
      assert KeyHashes(props, keys) == [keys[0], Hash(props[Binding(props, keys[0])].value)] + rest;
    }
  }

  /** `assertEqual(expected, actual)` passes. */
  predicate AssertEqualPasses(expected: JsValue, actual: JsValue) {
    Hash(expected) == Hash(actual)
  }

  /** `assertNotEqual(expected, actual)` passes. */
  predicate AssertNotEqualPasses(expected: JsValue, actual: JsValue) {
    Hash(expected) != Hash(actual)
  }

  /** The two assertions are exact opposites, and both are symmetric. */
  lemma AssertionsComplementary(a: JsValue, b: JsValue)
    ensures AssertNotEqualPasses(a, b) <==> !AssertEqualPasses(a, b)
    ensures AssertEqualPasses(a, b) <==> AssertEqualPasses(b, a)
    ensures AssertEqualPasses(a, a)
  {
  }

  predicate DistinctKeys(props: seq<Prop>) {
    forall i, j :: 0 <= i < j < |props| ==> props[i].key != props[j].key
  }

  lemma {:induction false} KeyHashesAgree(p1: seq<Prop>, p2: seq<Prop>, keys: seq<string>)
    requires forall k :: k in keys ==> k in Keys(p1) && k in Keys(p2)
    requires forall k :: k in keys ==> p1[Binding(p1, k)].value == p2[Binding(p2, k)].value
    ensures KeyHashes(p1, keys) == KeyHashes(p2, keys)
    decreases |keys|
  {
    if |keys| > 0 {
      KeyHashesAgree(p1, p2, keys[1..]);
    }
  }

  /** Two objects with the same properties hash alike, whatever order the properties were
      created in. */
  lemma HashIgnoresPropertyOrder(p1: seq<Prop>, p2: seq<Prop>)
    requires DistinctKeys(p1) && DistinctKeys(p2)
    requires forall p :: p in p1 <==> p in p2
    ensures Hash(Obj(p1)) == Hash(Obj(p2))
  {
    forall k ensures k in Keys(p1) <==> k in Keys(p2) {
      if k in Keys(p1) {
        var i :| 0 <= i < |p1| && Keys(p1)[i] == k;
        assert p1[i] in p2;
        var j :| 0 <= j < |p2| && p2[j] == p1[i];
        assert Keys(p2)[j] == k;
      }
      if k in Keys(p2) {
        var j :| 0 <= j < |p2| && Keys(p2)[j] == k;
        assert p2[j] in p1;
        var i :| 0 <= i < |p1| && p1[i] == p2[j];
        assert Keys(p1)[i] == k;
      }
    }
    var s1 := SortKeys(Keys(p1));
    var s2 := SortKeys(Keys(p2));
    SortedUnique(s1, s2);
    forall k | k in s1 ensures p1[Binding(p1, k)].value == p2[Binding(p2, k)].value {
      var i := Binding(p1, k);
      assert p1[i] in p2;
      var j :| 0 <= j < |p2| && p2[j] == p1[i];
      var j' := Binding(p2, k);
      if j != j' {
        assert p2[j].key == p2[j'].key;
      }
    }
    KeyHashesAgree(p1, p2, s1);
  }

  /** A number and its decimal string are indistinguishable to `assertEqual`. */
  lemma NumberEqualsItsString(n: int)
    ensures AssertEqualPasses(Num(n), Str(Decimal.IntToString(n)))
  {
  }

  /** An empty object, a function and the empty string all hash to "". */
  lemma EmptyThingsAreEqual(f: FuncId)
    ensures Hash(Obj([])) == "" && Hash(Func(f)) == "" && Hash(Str("")) == ""
    ensures AssertEqualPasses(Obj([]), Str(""))
  {
  }

  lemma HashOfOneString()
    ensures Hash(Obj([Prop("a", Str("b#c#d"))])) == "a#b#c#d"
  {
    var p := [Prop("a", Str("b#c#d"))];
    assert Keys(p) == ["a"];
    assert SortKeys(["a"]) == ["a"];
    assert KeyHashes(p, ["a"]) == ["a", "b#c#d"];
  }

  lemma SortTwoKeys()
    ensures SortKeys(["a", "c"]) == ["a", "c"]
  {
    assert StrLess("a", "c");
    assert SortKeys(["a"]) == ["a"];
    assert ["a", "c"][..1] == ["a"];
  }

  lemma TwoKeyHashes(p: seq<Prop>)
    requires p == [Prop("a", Str("b")), Prop("c", Str("d"))]
    ensures Keys(p) == ["a", "c"]
    ensures KeyHashes(p, ["a", "c"]) == ["a", "b", "c", "d"]
  {
    assert Keys(p) == ["a", "c"];
    assert Binding(p, "a") == 0;
    assert Binding(p, "c") == 1;
    assert ["a", "c"][1..] == ["c"];
    assert KeyHashes(p, ["c"]) == ["c", "d"];
  }

  lemma HashOfTwoStrings()
    ensures Hash(Obj([Prop("a", Str("b")), Prop("c", Str("d"))])) == "a#b#c#d"
  {
    var p := [Prop("a", Str("b")), Prop("c", Str("d"))];
    TwoKeyHashes(p);
    SortTwoKeys();
    assert JsUnityText.Join(["a", "b", "c", "d"], "#") == "a#b#c#d";
  }

  /** '#' inside a string value is not escaped, so two different objects can share a hash:
      { a: "b#c#d" } and { a: "b", c: "d" } both hash to "a#b#c#d", and `assertEqual`
      `assertEqual` accepts one for the other. */
  lemma HashCollision()
    ensures AssertEqualPasses(Obj([Prop("a", Str("b#c#d"))]), Obj([Prop("a", Str("b")), Prop("c", Str("d"))]))
    ensures Obj([Prop("a", Str("b#c#d"))]) != Obj([Prop("a", Str("b")), Prop("c", Str("d"))])
  {
    HashOfOneString();
    HashOfTwoStrings();
  }
}
