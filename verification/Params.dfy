/**
 * The page's state objects (`searchParams`, `selectParams`, ...) as JavaScript
 * objects: an ordered list of (key, value) entries. `{ ...p, [key]: value }`
 * and the route's query string are defined here.
 */
module Params {
  import opened Wrappers
  import opened JsText

  /** The values these objects hold. `AllList` is the one-element array `['all']`. */
  datatype JsValue = Undefined | Null | Num(n: int) | Str(s: string) | AllList

  /** An object as its entries in insertion order. */
  type Params = seq<(string, JsValue)>

  /** An object never holds a key twice. */
  ghost predicate UniqueKeys(p: Params)
  {
    forall i, j :: 0 <= i < j < |p| ==> p[i].0 != p[j].0
  }

  predicate HasKey(p: Params, key: string)
  {
    exists i :: 0 <= i < |p| && p[i].0 == key
  }

  lemma HasKeyCons(p: Params, key: string)
    requires p != []
    ensures HasKey(p, key) <==> p[0].0 == key || HasKey(p[1..], key)
  {
    assert forall i :: 0 <= i < |p[1..]| ==> p[1..][i] == p[i + 1];
  }

  /** `p[key]`; `None` is `undefined`. */
  function Get(p: Params, key: string): (r: Option<JsValue>)
    ensures r.Some? <==> HasKey(p, key)
    ensures r.Some? ==> exists i :: 0 <= i < |p| && p[i] == (key, r.value)
  {
    if p == [] then None
    else if p[0].0 == key then Some(p[0].1)
    else Get(p[1..], key)
  }

  /** `{ ...p, [key]: value }`: an existing key keeps its place, a new key goes last. */
  function With(p: Params, key: string, value: JsValue): (r: Params)
    ensures Get(r, key) == Some(value)
    ensures forall k :: k != key ==> Get(r, k) == Get(p, k)
    ensures |p| <= |r| <= |p| + 1
  {
    if p == [] then [(key, value)]
    else if p[0].0 == key then [(key, value)] + p[1..]
    else [p[0]] + With(p[1..], key, value)
  }

  /** `With` keeps the key order; a key not yet present is appended. */
  lemma {:induction false} WithKeys(p: Params, key: string, value: JsValue)
    ensures |With(p, key, value)| == if HasKey(p, key) then |p| else |p| + 1
    ensures forall i :: 0 <= i < |p| ==> With(p, key, value)[i].0 == p[i].0
    ensures !HasKey(p, key) ==> With(p, key, value)[|p|] == (key, value)
  {
    WithLength(p, key, value);
    WithKeepsOrder(p, key, value);
    WithAppends(p, key, value);
  }

  /** `With` adds an entry exactly when the key is new. */
  lemma {:induction false} WithLength(p: Params, key: string, value: JsValue)
    ensures |With(p, key, value)| == if HasKey(p, key) then |p| else |p| + 1
  {
    if p != [] {
      HasKeyCons(p, key);
      if p[0].0 != key {
        WithLength(p[1..], key, value);
      }
    }
  }

  /** `With` leaves every existing key in its place. */
  lemma {:induction false} WithKeepsOrder(p: Params, key: string, value: JsValue)
    ensures forall i :: 0 <= i < |p| ==> With(p, key, value)[i].0 == p[i].0
  {
    if p != [] && p[0].0 != key {
      WithKeepsOrder(p[1..], key, value);
      var r, tail := With(p, key, value), With(p[1..], key, value);
      assert r == [p[0]] + tail;
      forall i | 1 <= i < |p|
        ensures r[i].0 == p[i].0
      {
        assert r[i] == tail[i - 1] && p[i] == p[1..][i - 1];
      }
    }
  }

  /** A new key lands right after the existing entries. */
  lemma {:induction false} WithAppends(p: Params, key: string, value: JsValue)
    ensures !HasKey(p, key) ==> |With(p, key, value)| == |p| + 1 && With(p, key, value)[|p|] == (key, value)
  {
    if p != [] && !HasKey(p, key) {
      HasKeyCons(p, key);
      WithAppends(p[1..], key, value);
      WithLength(p[1..], key, value);
      assert With(p, key, value) == [p[0]] + With(p[1..], key, value);
    }
  }

  /** In an object without duplicate keys, `With` rewrites the entry holding `key` and no other. */
  lemma {:induction false} WithEntries(p: Params, key: string, value: JsValue)
    requires UniqueKeys(p)
    ensures forall i :: 0 <= i < |p| ==> With(p, key, value)[i] == (if p[i].0 == key then (key, value) else p[i])
  {
    WithKeys(p, key, value);
    if p != [] && p[0].0 != key {
      assert UniqueKeys(p[1..]);
      WithEntries(p[1..], key, value);
    } else if p != [] {
      assert forall i :: 1 <= i < |p| ==> p[i].0 != key;
    }
  }

  /** `With` never introduces a duplicate key. */
  lemma WithUniqueKeys(p: Params, key: string, value: JsValue)
    requires UniqueKeys(p)
    ensures UniqueKeys(With(p, key, value))
  {
    WithKeys(p, key, value);
    var r := With(p, key, value);
    forall i, j | 0 <= i < j < |r| ensures r[i].0 != r[j].0 {
      if j == |p| {
        assert r[i].0 == p[i].0 != key;
      }
    }
  }

  /** A second write of the same key wins outright: the first leaves no trace. */
  lemma {:induction false} WithTwice(p: Params, key: string, a: JsValue, b: JsValue)
    ensures With(With(p, key, a), key, b) == With(p, key, b)
  {
    if p != [] && p[0].0 != key {
      WithTwice(p[1..], key, a, b);
    }
  }

  /**
   * What SWR's key hash sees of `key`: the hash walks the keys in sorted
   * order and skips a key holding `undefined`, so such a key hashes like a
   * missing one.
   */
  function Hashed(p: Params, key: string): (r: Option<JsValue>)
    ensures r.Some? <==> Get(p, key).Some? && Get(p, key) != Some(Undefined)
    ensures r.Some? ==> r == Get(p, key)
  {
    match Get(p, key)
    case Some(Undefined) => None
    case v => v
  }

  /** Two objects give the same SWR key: every key of either hashes alike in both. */
  predicate SameHash(p: Params, q: Params)
  {
    && (forall i :: 0 <= i < |p| ==> Hashed(p, p[i].0) == Hashed(q, p[i].0))
    && (forall i :: 0 <= i < |q| ==> Hashed(p, q[i].0) == Hashed(q, q[i].0))
  }

  /** The same SWR key means the same hashed value under every key, whatever the entry order. */
  lemma SameHashIff(p: Params, q: Params)
    ensures SameHash(p, q) <==> forall k :: Hashed(p, k) == Hashed(q, k)
  {
    if SameHash(p, q) {
      forall k ensures Hashed(p, k) == Hashed(q, k) {
        if HasKey(p, k) {
          var i :| 0 <= i < |p| && p[i].0 == k;
        } else if HasKey(q, k) {
          var i :| 0 <= i < |q| && q[i].0 == k;
        }
      }
    }
  }

  /** Writing one key changes the SWR key exactly when that key's hashed value changes. */
  lemma WithSameHash(p: Params, key: string, value: JsValue)
    ensures SameHash(p, With(p, key, value)) <==> Hashed(p, key) == Hashed(With(p, key, value), key)
  {
    var q := With(p, key, value);
    SameHashIff(p, q);
    assert forall k :: k != key ==> Hashed(p, k) == Hashed(q, k);
  }

  /** The object without `key`. */
  function Remove(p: Params, key: string): (r: Params)
    ensures !HasKey(r, key)
    ensures forall k :: k != key ==> Get(r, k) == Get(p, k)
  {
    if p == [] then []
    else if p[0].0 == key then Remove(p[1..], key)
    else [p[0]] + Remove(p[1..], key)
  }

  /** JavaScript truthiness: `null`, `0` and `''` are false, an array is true. */
  predicate Truthy(v: JsValue)
  {
    match v
    case Undefined => false
    case Null => false
    case Num(n) => n != 0
    case Str(s) => s != ""
    case AllList => true
  }

  /** `v == 'all'` with loose equality; the array `['all']` converts to the string `'all'`. */
  predicate LooselyAll(v: JsValue)
  {
    match v
    case Str(s) => s == "all"
    case AllList => true
    case _ => false
  }

  /** `${v}` in a template string. */
  function ToText(v: JsValue): string
  {
    match v
    case Undefined => "undefined"
    case Null => "null"
    case Num(n) => IntToString(n)
    case Str(s) => s
    case AllList => "all"
  }

  /** Whether a value is written into the route's query string. */
  predicate Included(v: JsValue)
  {
    Truthy(v) && !LooselyAll(v)
  }

  /** The `key=value` fields of the query string, in key order. */
  function QueryPairs(p: Params): seq<string>
  {
    if p == [] then []
    else (if Included(p[0].1) then [p[0].0 + "=" + ToText(p[0].1)] else []) + QueryPairs(p[1..])
  }

  /** The query string built by `onFilter`: the included fields joined by `&`. */
  function QueryString(p: Params): string
  {
    Join(QueryPairs(p), '&')
  }

  /** Which values are dropped from the query string. */
  lemma OmittedValues()
    ensures !Included(Undefined) && !Included(Null) && !Included(Num(0)) && !Included(Str(""))
    ensures !Included(Str("all")) && !Included(AllList)
    ensures forall s :: s != "" && s != "all" ==> Included(Str(s))
  {
  }

  /**
   * Setting a key to a value that is not written (null, empty, `'all'` or
   * `['all']`, as show-all does) yields the query of the object without that key.
   */
  lemma {:induction false} OmittedFieldDropsOut(p: Params, key: string, v: JsValue)
    requires UniqueKeys(p)
    requires !Included(v)
    ensures QueryPairs(With(p, key, v)) == QueryPairs(Remove(p, key))
  {
    if p == [] {
    } else if p[0].0 == key {
      assert With(p, key, v) == [(key, v)] + p[1..];
      assert QueryPairs(With(p, key, v)) == QueryPairs(p[1..]);
      assert forall i :: 0 <= i < |p[1..]| ==> p[1..][i].0 == p[i + 1].0 != key;
      RemoveAbsent(p[1..], key);
    } else {
      assert UniqueKeys(p[1..]);
      OmittedFieldDropsOut(p[1..], key, v);
    }
  }

  lemma {:induction false} RemoveAbsent(p: Params, key: string)
    requires !HasKey(p, key)
    ensures Remove(p, key) == p
  {
    if p != [] {
      HasKeyCons(p, key);
      RemoveAbsent(p[1..], key);
    }
  }

  lemma {:induction false} QueryPairsNoAmpersand(p: Params)
    requires forall i :: 0 <= i < |p| ==> '&' !in p[i].0 && '&' !in ToText(p[i].1)
    ensures forall k :: 0 <= k < |QueryPairs(p)| ==> '&' !in QueryPairs(p)[k]
  {
    if p != [] {
      QueryPairsNoAmpersand(p[1..]);
      var head := p[0].0 + "=" + ToText(p[0].1);
      assert forall c :: c in head ==> c in p[0].0 || c == '=' || c in ToText(p[0].1);
    }
  }

  /**
   * When no key or value holds `&`, splitting the query string on `&` gives
   * back exactly the included `key=value` fields in key order.
   */
  lemma QueryStringFields(p: Params)
    requires forall i :: 0 <= i < |p| ==> '&' !in p[i].0 && '&' !in ToText(p[i].1)
    requires QueryPairs(p) != []
    ensures Split(QueryString(p), '&') == QueryPairs(p)
  {
    QueryPairsNoAmpersand(p);
    SplitJoin(QueryPairs(p), '&');
  }
}
