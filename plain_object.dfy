/**
 * The counting step `counts[name] = (counts[name] || 0) + 1` of
 * `getHashtagStats` as JavaScript runs it on a plain object literal `{}`. Such
 * an object inherits the members of `Object.prototype`: a read of a name the
 * object does not own falls back to the inherited method or, for `__proto__`,
 * to the prototype itself, and an assignment to `__proto__` goes to its setter,
 * which ignores a value that is not an object.
 *
 * The own properties are listed in insertion order; the reordering of
 * integer-like keys by `Object.entries` is not part of this module.
 */
module PlainObject {
  import opened Wrappers
  import opened Tally
  import Text

  /** The values the counting step can read or write. */
  datatype Value =
    | Number(n: int)
    | NotANumber
    | Str(s: string)
    | NativeFunction(name: string)
    | PrototypeObject
    | Undefined

  datatype Property = Property(key: string, value: Value)

  /** The methods of `Object.prototype`. */
  const PrototypeMethods: set<string> := {
    "constructor", "hasOwnProperty", "isPrototypeOf", "propertyIsEnumerable",
    "toLocaleString", "toString", "valueOf",
    "__defineGetter__", "__defineSetter__", "__lookupGetter__", "__lookupSetter__"
  }

  /** The names a plain object answers for although it does not own them. */
  predicate InheritedName(k: string) {
    k == "__proto__" || k in PrototypeMethods
  }

  /** The function name of an inherited method: `constructor` is `Object` itself. */
  function FunctionName(k: string): string {
    if k == "constructor" then "Object" else k
  }

  /** What reading `k` gives when the object does not own it. */
  function Inherited(k: string): (v: Value)
    ensures v.Undefined? <==> !InheritedName(k)
  {
    if k == "__proto__" then PrototypeObject
    else if k in PrototypeMethods then NativeFunction(FunctionName(k))
    else Undefined
  }

  /** `String(f)` of a built-in function. */
  function NativeSource(name: string): (r: string)
    ensures |r| > 0
  {
    "function " + name + "() { [native code] }"
  }

  predicate Truthy(v: Value) {
    match v
    case Number(n) => n != 0
    case NotANumber => false
    case Str(s) => s != ""
    case Undefined => false
    case _ => true
  }

  predicate Primitive(v: Value) {
    v.Number? || v.NotANumber? || v.Str? || v.Undefined?
  }

  /** `a || b`. */
  function Or(a: Value, b: Value): (r: Value)
    ensures r == a || r == b
    ensures Truthy(r) <==> Truthy(a) || Truthy(b)
  {
    if Truthy(a) then a else b
  }

  /** `v + 1`: addition for a number, concatenation with `"1"` for anything converted to a string. */
  function PlusOne(v: Value): (r: Value)
    ensures Primitive(r) && !r.Undefined?
  {
    match v
    case Number(n) => Number(n + 1)
    case NotANumber => NotANumber
    case Str(s) => Str(s + "1")
    case NativeFunction(name) => Str(NativeSource(name) + "1")
    case PrototypeObject => Str("[object Object]" + "1")
    case Undefined => NotANumber
  }

  /** The position of the own property `k`: the last one with that key, if any. */
  function OwnIndex(o: seq<Property>, k: string): (r: Option<nat>)
    ensures r.Some? ==> r.value < |o| && o[r.value].key == k
    ensures r.Some? ==> forall i :: r.value < i < |o| ==> o[i].key != k
    ensures r.None? ==> forall i :: 0 <= i < |o| ==> o[i].key != k
  {
    if o == [] then None
    else if o[|o| - 1].key == k then Some(|o| - 1)
    else OwnIndex(o[..|o| - 1], k)
  }

  function OwnValue(o: seq<Property>, k: string): Option<Value> {
    match OwnIndex(o, k)
    case Some(j) => Some(o[j].value)
    case None => None
  }

  /** `o[k]`: the own property, otherwise what `Object.prototype` supplies. */
  function Get(o: seq<Property>, k: string): Value {
    match OwnValue(o, k)
    case Some(v) => v
    case None => Inherited(k)
  }

  /**
   * `o[k] = v` for a primitive `v`: the `__proto__` setter ignores it; any
   * other key is updated in place or appended as a new own property.
   */
  function Put(o: seq<Property>, k: string, v: Value): (r: seq<Property>)
    requires Primitive(v)
  {
    if k == "__proto__" then o
    else
      match OwnIndex(o, k)
      case Some(j) => o[j := Property(k, v)]
      case None => o + [Property(k, v)]
  }

  /** One step of the counting loop. */
  function CountName(o: seq<Property>, k: string): seq<Property> {
    Put(o, k, PlusOne(Or(Get(o, k), Number(0))))
  }

  /** The object after counting `names` one by one, starting from `{}`. */
  function Counted(names: seq<string>): seq<Property> {
    if names == [] then [] else CountName(Counted(names[..|names| - 1]), names[|names| - 1])
  }

  function PropKeys(o: seq<Property>): (ks: seq<string>)
    ensures |ks| == |o|
  {
    seq(|o|, i requires 0 <= i < |o| => o[i].key)
  }

  /** `d` with every `x` removed, order kept. */
  function Without(d: seq<string>, x: string): (r: seq<string>)
    ensures forall y :: y in r <==> y in d && y != x
  {
    if d == [] then []
    else Without(d[..|d| - 1], x) + (if d[|d| - 1] == x then [] else [d[|d| - 1]])
  }

  /** A dictionary of numeric counts as the plain object's own properties. */
  function AsNumbers(es: seq<Entry>): (o: seq<Property>)
    ensures |o| == |es|
  {
    seq(|es|, i requires 0 <= i < |es| => Property(es[i].key, Number(es[i].count)))
  }

  /** `"1"` repeated `n` times. */
  function Ones(n: nat): (r: string)
    ensures |r| == n
  {
    seq(n, _ => '1')
  }

  /**
   * What the counting loop stores for `k` after `n >= 1` uses: a number for an
   * ordinary name, and for an inherited method the function's source text
   * followed by one `"1"` per use.
   */
  function StoredCount(k: string, n: nat): Value {
    if k in PrototypeMethods then Str(NativeSource(FunctionName(k)) + Ones(n)) else Number(n)
  }

  // ---------------------------------------------------------------------------
  // Lookup lemmas

  /** Two property lists with the same keys position by position find a key at the same place. */
  lemma {:induction false} SameKeysSameIndex(o1: seq<Property>, o2: seq<Property>, k: string)
    requires |o1| == |o2|
    requires forall i :: 0 <= i < |o1| ==> o1[i].key == o2[i].key
    ensures OwnIndex(o1, k) == OwnIndex(o2, k)
    decreases |o1|
  {
    if o1 != [] {
      SameKeysSameIndex(o1[..|o1| - 1], o2[..|o2| - 1], k);
    }
  }

  /** Writing one key leaves what the object owns under any other key unchanged. */
  lemma OtherKeyKept(o: seq<Property>, x: string, v: Value, k: string)
    requires Primitive(v) && x != k
    ensures OwnValue(Put(o, x, v), k) == OwnValue(o, k)
  {
    if x != "__proto__" {
      match OwnIndex(o, x)
      case Some(j) =>
        SameKeysSameIndex(o, o[j := Property(x, v)], k);
      case None =>
        AppendIndex(o, Property(x, v), k);
    }
  }

  /** Writing a key other than `__proto__` makes the value its own. */
  lemma SameKeyStored(o: seq<Property>, k: string, v: Value)
    requires Primitive(v) && k != "__proto__"
    ensures OwnValue(Put(o, k, v), k) == Some(v)
  {
    match OwnIndex(o, k)
    case Some(j) =>
      SameKeysSameIndex(o, o[j := Property(k, v)], k);
    case None =>
      AppendIndex(o, Property(k, v), k);
  }

  lemma AppendIndex(o: seq<Property>, p: Property, k: string)
    ensures OwnIndex(o + [p], k) == if p.key == k then Some(|o|) else OwnIndex(o, k)
  {
    assert (o + [p])[..|o|] == o;
  }

  /** The plain object of numeric counts finds a key where the dictionary does. */
  lemma {:induction false} AsNumbersIndex(es: seq<Entry>, k: string)
    ensures OwnIndex(AsNumbers(es), k) == KeyIndex(es, k)
    decreases |es|
  {
    if es != [] {
      assert AsNumbers(es)[..|es| - 1] == AsNumbers(es[..|es| - 1]);
      AsNumbersIndex(es[..|es| - 1], k);
    }
  }

  // ---------------------------------------------------------------------------
  // The counting loop on a plain object

  /**
   * When no counted name is inherited, the plain object holds exactly the
   * dictionary `Tallied` describes: one numeric count per distinct name, in
   * first-insertion order.
   */
  lemma {:induction false} CountedAgrees(names: seq<string>)
    requires forall k :: k in names ==> !InheritedName(k)
    ensures Counted(names) == AsNumbers(Tallied(names))
    decreases |names|
  {
    if names != [] {
      var init := names[..|names| - 1];
      var x := names[|names| - 1];
      assert init + [x] == names;
      CountedAgrees(init);
      CountNameAsNumbers(Tallied(init), x);
      BumpTallied(init, x);
    }
  }

  /** Counting an ordinary name in the plain object is one `Bump` of the dictionary. */
  lemma CountNameAsNumbers(es: seq<Entry>, x: string)
    requires !InheritedName(x)
    ensures CountName(AsNumbers(es), x) == AsNumbers(Bump(es, x))
  {
    AsNumbersIndex(es, x);
    match KeyIndex(es, x)
    case Some(j) =>
      assert Get(AsNumbers(es), x) == Number(es[j].count);
      assert AsNumbers(es)[j := Property(x, Number(es[j].count + 1))] == AsNumbers(Bump(es, x));
    case None =>
      assert Get(AsNumbers(es), x) == Undefined;
      assert AsNumbers(es) + [Property(x, Number(1))] == AsNumbers(Bump(es, x));
  }

  /**
   * The object's own keys are the distinct counted names in order of first
   * use, except `__proto__`, which never becomes an own key.
   */
  lemma {:induction false} CountedKeys(names: seq<string>)
    ensures PropKeys(Counted(names)) == Without(Dedup(names), "__proto__")
    decreases |names|
  {
    if names != [] {
      var init := names[..|names| - 1];
      var x := names[|names| - 1];
      CountedKeys(init);
      var o := Counted(init);
      var d := Dedup(init);
      if x == "__proto__" {
        assert Counted(names) == o;
        if x !in d {
          assert (d + [x])[..|d|] == d;
        }
      } else {
        var v := PlusOne(Or(Get(o, x), Number(0)));
        match OwnIndex(o, x)
        case Some(j) =>
          assert Counted(names) == o[j := Property(x, v)];
          assert PropKeys(o)[j] == x;
          assert x in d;
          assert PropKeys(o[j := Property(x, v)]) == PropKeys(o);
        case None =>
          assert Counted(names) == o + [Property(x, v)];
          assert x !in PropKeys(o);
          assert x !in d;
          assert (d + [x])[..|d|] == d;
          assert Without(d + [x], "__proto__") == Without(d, "__proto__") + [x];
          assert PropKeys(o + [Property(x, v)]) == PropKeys(o) + [x];
      }
    }
  }

  /**
   * What the object holds for any name but `__proto__`: nothing before the
   * first use, then `StoredCount` of the number of uses.
   */
  lemma {:induction false} CountedValue(names: seq<string>, k: string)
    requires k != "__proto__"
    ensures OwnValue(Counted(names), k) ==
      if Occurrences(names, k) == 0 then None else Some(StoredCount(k, Occurrences(names, k)))
    decreases |names|
  {
    if names != [] {
      var init := names[..|names| - 1];
      var x := names[|names| - 1];
      CountedValue(init, k);
      var o := Counted(init);
      var v := PlusOne(Or(Get(o, x), Number(0)));
      assert Counted(names) == Put(o, x, v);
      if x == k {
        SameKeyStored(o, k, v);
        StepValue(o, k, Occurrences(init, k));
      } else {
        OtherKeyKept(o, x, v, k);
      }
    }
  }

  /** One more use of `k` turns `StoredCount(k, n)` into `StoredCount(k, n + 1)`. */
  lemma StepValue(o: seq<Property>, k: string, n: nat)
    requires k != "__proto__"
    requires OwnValue(o, k) == if n == 0 then None else Some(StoredCount(k, n))
    ensures PlusOne(Or(Get(o, k), Number(0))) == StoredCount(k, n + 1)
  {
    if k in PrototypeMethods {
      var src := NativeSource(FunctionName(k));
      assert Ones(n + 1) == Ones(n) + "1";
      if n == 0 {
        assert Ones(0) + "1" == "1";
      } else {
        assert src + Ones(n) + "1" == src + (Ones(n) + "1");
      }
    }
  }

  /** `toLowerCase` never yields an upper-case ASCII letter. */
  lemma LowerHasNoUpper(tag: string, i: nat)
    requires i < |tag|
    ensures !('A' <= Text.ToLower(tag)[i] <= 'Z')
  {
  }

  /**
   * Of the inherited names, a lower-cased tag name can only be `constructor`
   * or `__proto__`: every other one holds an upper-case letter.
   */
  lemma LowerInherited(tag: string)
    ensures InheritedName(Text.ToLower(tag)) ==>
      Text.ToLower(tag) == "constructor" || Text.ToLower(tag) == "__proto__"
  {
    var k := Text.ToLower(tag);
    if InheritedName(k) && k != "constructor" && k != "__proto__" {
      var i :=
        if k == "hasOwnProperty" then 3
        else if k == "isPrototypeOf" then 2
        else if k == "propertyIsEnumerable" then 8
        else if k == "toLocaleString" then 2
        else if k == "toString" then 2
        else if k == "valueOf" then 5
        else 8;
      LowerHasNoUpper(tag, i);
      assert false;
    }
  }
}
