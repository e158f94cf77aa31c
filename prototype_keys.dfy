/** The statistics route keeps its tallies in plain object literals
    (`{}`), so a key read before it was ever written is looked up on
    `Object.prototype`. This module models that lookup for the two
    prototype members whose names have no upper-case letter, and so can
    be the trimmed, lower-cased name of a city: `constructor` and
    `__proto__`. It shows where the tallies as written differ from the
    map semantics the rest of the model uses, and that they agree on
    every other key. */
module PrototypeKeys {
  import StatisticsRoute

  /** The JavaScript values a tally slot can hold. */
  datatype Value =
    | Undefined
    | Num(n: nat)
    | Str(s: string)
    | NativeFunction(source: string)
    | PrototypeObject

  /** What `String(Object)` evaluates to. */
  const ObjectSource: string := "function Object() { [native code] }"

  /** An object literal, as its own properties. */
  type PlainObject = map<string, Value>

  /** Properties every object literal inherits. */
  function Inherited(key: string): Value {
    if key == "constructor" then NativeFunction(ObjectSource)
    else if key == "__proto__" then PrototypeObject
    else Undefined
  }

  /** `obj[key]`. */
  function Get(obj: PlainObject, key: string): (v: Value)
    ensures key in obj ==> v == obj[key]
  {
    if key in obj then obj[key] else Inherited(key)
  }

  predicate Truthy(v: Value) {
    match v
    case Undefined => false
    case Num(n) => n != 0
    case Str(s) => s != ""
    case NativeFunction(_) => true
    case PrototypeObject => true
  }

  /** `(v || 0) + 1`: numbers add, anything else truthy is converted to
      a string and gets "1" appended. */
  function OrZeroPlusOne(v: Value): (w: Value)
    ensures v.Num? ==> w == Num(v.n + 1)
  {
    if !Truthy(v) then Num(1)
    else match v
      case Num(n) => Num(n + 1)
      case Str(s) => Str(s + "1")
      case NativeFunction(src) => Str(src + "1")
      case PrototypeObject => Str("[object Object]1")
      case Undefined => Num(1)
  }

  /** `obj[key] = v` for a primitive `v`: assigning a primitive through
      the inherited `__proto__` setter is ignored. */
  function Set(obj: PlainObject, key: string, v: Value): (r: PlainObject)
    ensures key != "__proto__" ==> r == obj[key := v]
    ensures key == "__proto__" ==> r == obj
  {
    if key == "__proto__" then obj else obj[key := v]
  }

  /** `cityDurations[city] = (cityDurations[city] || 0) + 1`, as written. */
  function AsWrittenIncrement(obj: PlainObject, key: string): PlainObject {
    Set(obj, key, OrZeroPlusOne(Get(obj, key)))
  }

  /** The object holds exactly the counts of `m`, as numbers. */
  predicate Holds(obj: PlainObject, m: map<string, nat>) {
    obj.Keys == m.Keys && forall k :: k in m ==> obj[k] == Num(m[k])
  }

  /** A city called "constructor" starts out as the text of the `Object`
      function with "1" appended, where a count of 1 is intended. */
  lemma ConstructorCityGarbled()
    ensures AsWrittenIncrement(map[], "constructor") == map["constructor" := Str(ObjectSource + "1")]
    ensures StatisticsRoute.Bump(map[], {"constructor"}) == map["constructor" := 1]
  {
  }

  /** A city called "__proto__" is never reported, where a count of 1 is
      intended. */
  lemma ProtoCityDropped()
    ensures AsWrittenIncrement(map[], "__proto__") == map[]
    ensures "__proto__" in StatisticsRoute.Bump(map[], {"__proto__"})
  {
  }

  /** On every other key the tally as written is the corrected one. */
  lemma AgreesElsewhere(obj: PlainObject, m: map<string, nat>, key: string)
    requires Holds(obj, m)
    requires key != "__proto__"
    requires key != "constructor" || key in m
    ensures Holds(AsWrittenIncrement(obj, key), StatisticsRoute.Bump(m, {key}))
  {
    var r := StatisticsRoute.Bump(m, {key});
    assert r == m[key := (if key in m then m[key] else 0) + 1];
  }

  // ---------------------------------------------------------------------
  // The keyword tallies
  // ---------------------------------------------------------------------

  /** `keywords.reduce((acc, key) => { acc[key] = 0; return acc; }, {})`, as
      written. */
  function AsWrittenInitCounts(keywords: seq<string>): PlainObject
    decreases |keywords|
  {
    if keywords == [] then map[]
    else Set(AsWrittenInitCounts(keywords[..|keywords| - 1]), keywords[|keywords| - 1], Num(0))
  }

  /** The intended starting tallies: every keyword at zero. */
  function InitCounts(keywords: seq<string>): (m: map<string, nat>)
    ensures forall k :: k in m <==> k in keywords
    ensures forall k :: k in m ==> m[k] == 0
  {
    map k | k in keywords :: 0
  }

  /** As written, the keyword "__proto__" gets no tally at all. */
  lemma ProtoKeywordDropped()
    ensures "__proto__" !in AsWrittenInitCounts(["__proto__"])
    ensures "__proto__" in InitCounts(["__proto__"])
  {
    assert ["__proto__"][..0] == [];
  }

  /** As written, the tallies start at zero for every keyword but
      "__proto__". */
  lemma {:induction false} InitCountsAgreeElsewhere(keywords: seq<string>)
    ensures forall k :: k in AsWrittenInitCounts(keywords) <==> k in keywords && k != "__proto__"
    ensures forall k :: k in AsWrittenInitCounts(keywords) ==> AsWrittenInitCounts(keywords)[k] == Num(0)
    decreases |keywords|
  {
    if keywords != [] {
      var n := |keywords| - 1;
      InitCountsAgreeElsewhere(keywords[..n]);
      assert keywords == keywords[..n] + [keywords[n]];
    }
  }

  /** The corrected tallies are the intended answer for a document with no
      events. */
  lemma InitCountsIntended(start: string, end: string, keywords: seq<string>)
    ensures StatisticsRoute.KeywordCounts(map[], start, end, keywords) == InitCounts(keywords)
  {
    StatisticsRoute.EmptyEventsStatistics(map[], start, end, keywords);
  }
}
