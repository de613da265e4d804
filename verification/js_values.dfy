/**
 JavaScript values, as far as the store's argument checks (`typeof`, `=== null`,
 truthiness) and `Object.assign` / object spread observe them.
 */
module JsValues {

  /** A JavaScript value. Numbers are integers here; see README for what that leaves out. */
  datatype JsVal =
    | Undefined
    | Null
    | Bool(b: bool)
    | Num(n: int)
    | Str(s: string)
    | Obj(fields: map<string, JsVal>)
    | Arr(items: seq<JsVal>)
    | Fn

  /** The string that `typeof v` evaluates to. */
  function TypeOf(v: JsVal): string
  {
    match v
    case Undefined => "undefined"
    case Null => "object"
    case Bool(_) => "boolean"
    case Num(_) => "number"
    case Str(_) => "string"
    case Obj(_) => "object"
    case Arr(_) => "object"
    case Fn => "function"
  }

  /** JavaScript truthiness: `!!v`. Every object, empty or not, is truthy. */
  predicate Truthy(v: JsVal)
  {
    match v
    case Undefined => false
    case Null => false
    case Bool(b) => b
    case Num(n) => n != 0
    case Str(s) => s != ""
    case Obj(_) => true
    case Arr(_) => true
    case Fn => true
  }

  /** The guard `typeof v === 'object' && v !== null` holds of exactly the objects and arrays. */
  predicate IsNonNullObject(v: JsVal)
    ensures IsNonNullObject(v) <==> v.Obj? || v.Arr?
    ensures IsNonNullObject(v) ==> Truthy(v)
  {
    TypeOf(v) == "object" && v != Null
  }

  function DigitChar(d: nat): (c: char)
    requires d < 10
    ensures '0' <= c <= '9'
  {
    (('0' as int) + d) as char
  }

  /** The property key under which index `i` of an array or string is enumerated: its decimal form. */
  function IndexKey(i: nat): (k: string)
    ensures 1 <= |k|
    ensures |k| == 1 <==> i < 10
  {
    if i < 10 then [DigitChar(i)] else IndexKey(i / 10) + [DigitChar(i % 10)]
  }

  /** Distinct indices are enumerated under distinct keys. */
  lemma {:induction false} IndexKeyInjective(i: nat, j: nat)
    requires IndexKey(i) == IndexKey(j)
    ensures i == j
    decreases i
  {
    if i < 10 || j < 10 {
      assert i < 10 && j < 10;
      assert [DigitChar(i)] == [DigitChar(j)];
      assert DigitChar(i) == DigitChar(j);
    } else {
      var k := IndexKey(i);
      assert k == IndexKey(i / 10) + [DigitChar(i % 10)];
      assert k == IndexKey(j / 10) + [DigitChar(j % 10)];
      assert IndexKey(i / 10) == k[..|k| - 1];
      assert IndexKey(j / 10) == k[..|k| - 1];
      IndexKeyInjective(i / 10, j / 10);
      assert DigitChar(i % 10) == k[|k| - 1] == DigitChar(j % 10);
    }
  }

  lemma IndexKeyFresh(n: nat)
    ensures forall i :: 0 <= i < n ==> IndexKey(i) != IndexKey(n)
  {
    forall i | 0 <= i < n
      ensures IndexKey(i) != IndexKey(n)
    {
      if IndexKey(i) == IndexKey(n) {
        IndexKeyInjective(i, n);
      }
    }
  }

  /** The keys under which the first `n` indices are enumerated. */
  function IndexKeys(n: nat): set<string>
  {
    set i: nat | i < n :: IndexKey(i)
  }

  /** The keys of the first `n` indices are those of the first `n - 1` plus one new key. */
  lemma IndexKeysStep(n: nat)
    requires 0 < n
    ensures IndexKeys(n) == IndexKeys(n - 1) + {IndexKey(n - 1)}
    ensures IndexKey(n - 1) !in IndexKeys(n - 1)
  {
    IndexKeyFresh(n - 1);
  }

  /** The own enumerable properties of an array: one key per index, holding that element. */
  function IndexedEntries(items: seq<JsVal>): (m: map<string, JsVal>)
    ensures m.Keys == IndexKeys(|items|)
    ensures forall i :: 0 <= i < |items| ==> IndexKey(i) in m && m[IndexKey(i)] == items[i]
    ensures |m| == |items|
  {
    IndexedPrefixEntries(items, |items|);
    IndexedPrefix(items, |items|)
  }

  /** The entries of the first `n` elements of `items`, added one index at a time. */
  function IndexedPrefix(items: seq<JsVal>, n: nat): map<string, JsVal>
    requires n <= |items|
  {
    if n == 0 then map[] else IndexedPrefix(items, n - 1)[IndexKey(n - 1) := items[n - 1]]
  }

  /** The first `n` elements are enumerated under the first `n` index keys, one key each. */
  lemma {:induction false} IndexedPrefixEntries(items: seq<JsVal>, n: nat)
    requires n <= |items|
    ensures IndexedPrefix(items, n).Keys == IndexKeys(n)
    ensures forall i :: 0 <= i < n ==> IndexedPrefix(items, n)[IndexKey(i)] == items[i]
    ensures |IndexedPrefix(items, n)| == n
    decreases n
  {
    if n > 0 {
      var prev := IndexedPrefix(items, n - 1);
      var m := prev[IndexKey(n - 1) := items[n - 1]];
      assert IndexedPrefix(items, n) == m;
      IndexedPrefixEntries(items, n - 1);
      IndexKeysStep(n);
      assert m.Keys == prev.Keys + {IndexKey(n - 1)};
      assert IndexKey(n - 1) !in prev.Keys;
      IndexKeyFresh(n - 1);
      forall i | 0 <= i < n
        ensures m[IndexKey(i)] == items[i]
      {
        if i < n - 1 {
          assert IndexKey(i) != IndexKey(n - 1);
          assert m[IndexKey(i)] == prev[IndexKey(i)];
        }
      }
    }
  }

  /** The characters of a string as one-character string values. */
  function Chars(s: string): (r: seq<JsVal>)
    ensures |r| == |s|
    ensures forall i :: 0 <= i < |s| ==> r[i] == Str([s[i]])
  {
    seq(|s|, i requires 0 <= i < |s| => Str([s[i]]))
  }

  /**
   The own enumerable properties that `Object.assign` and `{ ...v }` copy out of `v`:
   an object's fields, an array's or string's indices, nothing for the other values.
   */
  function OwnEntries(v: JsVal): map<string, JsVal>
  {
    match v
    case Obj(fields) => fields
    case Arr(items) => IndexedEntries(items)
    case Str(s) => IndexedEntries(Chars(s))
    case _ => map[]
  }

  /**
   `Object.assign(target, source)` on a plain-object target: every entry of the source
   is written, overwriting a key the target already has, and the target's other keys stay.
   */
  function Assign(target: map<string, JsVal>, source: JsVal): (r: map<string, JsVal>)
    ensures r.Keys == target.Keys + OwnEntries(source).Keys
    ensures forall k :: k in OwnEntries(source) ==> r[k] == OwnEntries(source)[k]
    ensures forall k :: k in target && k !in OwnEntries(source) ==> r[k] == target[k]
  {
    target + OwnEntries(source)
  }
}
