/** The JavaScript values the pages read out of the campus data file, and the
    handful of language operations the pages apply to them: property reads
    (plain and optional-chained), truthiness, `||`, template-literal string
    conversion, `Object.keys`, and the array methods `find`, `findIndex` and
    `map` with callbacks that may throw. */
module Js {
  import opened Wrappers

  /** A JSON value as parsed, plus `undefined` for a missing property.
      JSON numbers are modelled as integers. */
  datatype Value =
    | Undefined
    | Null
    | Bool(b: bool)
    | Num(n: int)
    | Str(s: string)
    | Arr(items: seq<Value>)
    | Obj(props: seq<Prop>)

  /** One own property of an object. An object's properties are kept in the
      order `Object.keys` reports them (section 10.1.11.1 of ECMAScript 2022,
      OrdinaryOwnPropertyKeys: integer-like keys first in ascending order, then
      the other string keys in insertion order). */
  datatype Prop = Prop(key: string, value: Value)

  /** The campus data file: the top-level object, one property per campus. */
  type Tree = seq<Prop>

  /** The exception a page can raise while rendering: reading a property of
      `undefined` or `null`, or calling a method the value does not have. */
  datatype Thrown = TypeError

  type Outcome<T> = Result<T, Thrown>

  /** A route segment inside a template literal: a missing one prints
      "undefined". */
  function SegmentText(s: Option<string>): string {
    match s
    case None => "undefined"
    case Some(t) => t
  }

  predicate Nullish(v: Value) {
    v.Undefined? || v.Null?
  }

  /** ToBoolean (section 7.1.2 of ECMAScript 2022). */
  predicate Truthy(v: Value) {
    match v
    case Undefined => false
    case Null => false
    case Bool(b) => b
    case Num(n) => n != 0
    case Str(s) => s != ""
    case Arr(_) => true
    case Obj(_) => true
  }

  /** `a || b`. */
  function Or(a: Value, b: Value): (r: Value)
    ensures Truthy(a) ==> r == a
    ensures !Truthy(a) ==> r == b
  {
    if Truthy(a) then a else b
  }

  // ---------------------------------------------------------------------------
  // First-match search
  // ---------------------------------------------------------------------------

  /** `xs.findIndex(p)` for a callback that cannot throw, as an Option: the
      first index whose element satisfies `p`. */
  function FindIndex<T>(xs: seq<T>, p: T -> bool): (r: Option<nat>)
    ensures r.Some? ==> r.value < |xs| && p(xs[r.value])
    ensures r.Some? ==> forall j :: 0 <= j < r.value ==> !p(xs[j])
    ensures r.None? <==> forall j :: 0 <= j < |xs| ==> !p(xs[j])
    decreases |xs|
  {
    if |xs| == 0 then None
    else if p(xs[0]) then Some(0)
    else
      match FindIndex(xs[1..], p)
      case None => None
      case Some(i) => Some(i + 1)
  }

  /** `xs.findIndex(test)` for a callback that may throw: the callback is run
      on the elements in order until it accepts one or throws. */
  function FindThrowing(xs: seq<Value>, test: Value -> Outcome<bool>): (r: Outcome<Option<nat>>)
    ensures r.Ok? && r.value.Some? ==>
      && r.value.value < |xs|
      && test(xs[r.value.value]) == Ok(true)
      && forall j :: 0 <= j < r.value.value ==> test(xs[j]) == Ok(false)
    ensures r.Ok? && r.value.None? ==> forall j :: 0 <= j < |xs| ==> test(xs[j]) == Ok(false)
    ensures r.Fail? ==>
      exists j :: 0 <= j < |xs| && test(xs[j]).Fail? && (forall k :: 0 <= k < j ==> test(xs[k]) == Ok(false))
    decreases |xs|
  {
    if |xs| == 0 then Ok(None)
    else
      match test(xs[0])
      case Fail(e) => Fail(e)
      case Ok(true) => Ok(Some(0))
      case Ok(false) =>
        match FindThrowing(xs[1..], test)
        case Fail(e) =>
          ghost var j :| 0 <= j < |xs[1..]| && test(xs[1..][j]).Fail? &&
            forall k :: 0 <= k < j ==> test(xs[1..][k]) == Ok(false);
          assert test(xs[j + 1]).Fail?;
          Fail(e)
        case Ok(None) => Ok(None)
        case Ok(Some(i)) => Ok(Some(i + 1))
  }

  /** The search stops at the first element the callback accepts, when it
      rejects every element before it. */
  lemma FindThrowingFirst(xs: seq<Value>, test: Value -> Outcome<bool>, j: nat)
    requires j < |xs| && test(xs[j]) == Ok(true)
    requires forall k :: 0 <= k < j ==> test(xs[k]) == Ok(false)
    ensures FindThrowing(xs, test) == Ok(Some(j))
  {
    var r := FindThrowing(xs, test);
    if r.Fail? {
      assert false;
    }
  }

  /** When the callback throws on no element and accepts element `j`, the
      search succeeds at or before `j`. */
  lemma FindThrowingFinds(xs: seq<Value>, test: Value -> Outcome<bool>, j: nat)
    requires forall k :: 0 <= k < |xs| ==> test(xs[k]).Ok?
    requires j < |xs| && test(xs[j]) == Ok(true)
    ensures FindThrowing(xs, test).Ok? && FindThrowing(xs, test).value.Some?
    ensures FindThrowing(xs, test).value.value <= j
  {
  }

  /** `v.find(test)`: only arrays have `find`; any other value throws. The
      result is the element found, or `undefined`. */
  function ArrayFind(v: Value, test: Value -> Outcome<bool>): (r: Outcome<Value>)
    ensures !v.Arr? ==> r == Fail(TypeError)
  {
    match v
    case Arr(items) =>
      (match FindThrowing(items, test)
       case Fail(e) => Fail(e)
       case Ok(None) => Ok(Undefined)
       case Ok(Some(i)) => Ok(items[i]))
    case _ => Fail(TypeError)
  }

  /** `xs.map(f)` for a callback that may throw. */
  function MapThrowing<T>(xs: seq<Value>, f: Value -> Outcome<T>): (r: Outcome<seq<T>>)
    ensures r.Ok? ==> |r.value| == |xs| && forall i :: 0 <= i < |xs| ==> f(xs[i]) == Ok(r.value[i])
    ensures r.Fail? ==> exists i :: 0 <= i < |xs| && f(xs[i]).Fail?
    decreases |xs|
  {
    if |xs| == 0 then Ok([])
    else
      match f(xs[0])
      case Fail(e) => Fail(e)
      case Ok(y) =>
        match MapThrowing(xs[1..], f)
        case Fail(e) =>
          ghost var i :| 0 <= i < |xs[1..]| && f(xs[1..][i]).Fail?;
          assert f(xs[i + 1]).Fail?;
          Fail(e)
        case Ok(ys) => Ok([y] + ys)
  }

  /** `v.map(f)`: only arrays have `map`; any other value throws. */
  function ArrayMap<T>(v: Value, f: Value -> Outcome<T>): (r: Outcome<seq<T>>)
    ensures !v.Arr? ==> r == Fail(TypeError)
  {
    match v
    case Arr(items) => MapThrowing(items, f)
    case _ => Fail(TypeError)
  }

  // ---------------------------------------------------------------------------
  // Property reads
  // ---------------------------------------------------------------------------

  function Keys(props: seq<Prop>): (ks: seq<string>)
    ensures |ks| == |props|
    ensures forall i :: 0 <= i < |props| ==> ks[i] == props[i].key
  {
    seq(|props|, i requires 0 <= i < |props| => props[i].key)
  }

  /** `obj[key]` on a plain object: the value of the property named `key`,
      or `undefined`. */
  function Lookup(props: seq<Prop>, key: string): Value {
    match FindIndex(props, (p: Prop) => p.key == key)
    case None => Undefined
    case Some(i) => props[i].value
  }

  /** A key that names no property reads `undefined`. */
  lemma LookupMissing(props: seq<Prop>, key: string)
    requires forall i :: 0 <= i < |props| ==> props[i].key != key
    ensures Lookup(props, key) == Undefined
  {
  }

  /** A key reads the value of the first property it names. */
  lemma LookupFirst(props: seq<Prop>, key: string, i: nat)
    requires i < |props| && props[i].key == key
    requires forall j :: 0 <= j < i ==> props[j].key != key
    ensures Lookup(props, key) == props[i].value
  {
    var r := FindIndex(props, (p: Prop) => p.key == key);
    assert r.Some? && r.value <= i;
  }

  /** `v?.key`: `undefined` for a nullish `v`; primitives and arrays have no
      property the pages ask for. */
  function OptGet(v: Value, key: string): (r: Value)
    ensures !v.Obj? ==> r == Undefined
  {
    match v
    case Obj(props) => Lookup(props, key)
    case _ => Undefined
  }

  /** `v.key`: throws on a nullish `v`. */
  function Get(v: Value, key: string): (r: Outcome<Value>)
    ensures r.Fail? <==> Nullish(v)
    ensures r.Ok? ==> r.value == OptGet(v, key)
  {
    if Nullish(v) then Fail(TypeError) else Ok(OptGet(v, key))
  }

  function Digit(d: nat): char
    requires d < 10
  {
    "0123456789"[d]
  }

  /** Decimal notation of a natural number (Number::toString). */
  function NatToString(n: nat): (s: string)
    ensures |s| >= 1
    ensures forall i :: 0 <= i < |s| ==> '0' <= s[i] <= '9'
    decreases n
  {
    if n < 10 then [Digit(n)] else NatToString(n / 10) + [Digit(n % 10)]
  }

  function IntToString(n: int): string {
    if n < 0 then "-" + NatToString(-n) else NatToString(n)
  }

  /** `v?.[i]`. */
  function At(v: Value, i: nat): Value {
    match v
    case Arr(items) => if i < |items| then items[i] else Undefined
    case Obj(props) => Lookup(props, NatToString(i))
    case Str(s) => if i < |s| then Str([s[i]]) else Undefined
    case _ => Undefined
  }

  /** `Object.keys(v)` for a value that is not nullish. */
  function OwnKeys(v: Value): (ks: seq<string>)
    ensures v.Obj? ==> ks == Keys(v.props)
    ensures v.Arr? ==> |ks| == |v.items|
    ensures v.Str? ==> |ks| == |v.s|
    ensures v.Bool? || v.Num? || Nullish(v) ==> ks == []
  {
    match v
    case Obj(props) => Keys(props)
    case Arr(items) => seq(|items|, i requires 0 <= i < |items| => NatToString(i))
    case Str(s) => seq(|s|, i requires 0 <= i < |s| => NatToString(i))
    case _ => []
  }

  function Join(parts: seq<string>, sep: string): string
    decreases |parts|
  {
    if |parts| == 0 then ""
    else if |parts| == 1 then parts[0]
    else parts[0] + sep + Join(parts[1..], sep)
  }

  /** The string a template literal `${v}` inserts (ToString, section 7.1.17
      of ECMAScript 2022; arrays join their elements with ","; plain objects
      give "[object Object]"). */
  function ToStr(v: Value): string
    decreases v
  {
    match v
    case Undefined => "undefined"
    case Null => "null"
    case Bool(b) => if b then "true" else "false"
    case Num(n) => IntToString(n)
    case Str(s) => s
    case Arr(items) =>
      Join(seq(|items|, i requires 0 <= i < |items| =>
             if Nullish(items[i]) then "" else ToStr(items[i])), ",")
    case Obj(_) => "[object Object]"
  }

  // ---------------------------------------------------------------------------
  // The campus search every page performs
  // ---------------------------------------------------------------------------

  /** `Object.keys(tree).find(matches)`: the first campus key accepted. */
  function FindKey(tree: Tree, matches: string -> bool): (k: Option<string>)
    ensures k.None? <==> forall i :: 0 <= i < |tree| ==> !matches(tree[i].key)
    ensures k.Some? ==> matches(k.value)
    ensures k.Some? ==> exists i :: 0 <= i < |tree| && tree[i].key == k.value
  {
    match FindIndex(tree, (p: Prop) => matches(p.key))
    case None => None
    case Some(i) => Some(tree[i].key)
  }

  /** `key ? tree[key] : null`: an empty key is falsy and picks nothing. */
  function Pick(tree: Tree, key: Option<string>): (v: Value)
    ensures key.None? || key == Some("") ==> v == Null
  {
    match key
    case None => Null
    case Some(k) => if k == "" then Null else Lookup(tree, k)
  }

  /** The record the search-then-pick pattern lands on is the value of the
      first property whose key is accepted, unless that key is empty. */
  lemma PickFirstMatch(tree: Tree, matches: string -> bool, i: nat)
    requires i < |tree| && matches(tree[i].key)
    requires forall j :: 0 <= j < i ==> !matches(tree[j].key)
    ensures FindKey(tree, matches) == Some(tree[i].key)
    ensures Pick(tree, FindKey(tree, matches)) == (if tree[i].key == "" then Null else tree[i].value)
  {
    var r := FindIndex(tree, (p: Prop) => matches(p.key));
    assert r.Some? && r.value <= i;
    var k := tree[i].key;
    forall j | 0 <= j < i
      ensures tree[j].key != k
    {
      assert !matches(tree[j].key);
    }
  }
}
