/**
 * Plain JavaScript objects used as dictionaries (`obj[key]`, `obj[key] = v`,
 * `for (const k in obj)`, `Object.keys(obj)`), as an association list that
 * keeps the properties in insertion order.
 */
module JsObject {
  import opened Wrappers

  /** The own properties of an object, in the order `for ... in` visits them. */
  type Object<V> = seq<(string, V)>

  /** `Object.keys(o)`. */
  function Keys<V>(o: Object<V>): (ks: seq<string>)
    ensures |ks| == |o|
    ensures forall i :: 0 <= i < |o| ==> ks[i] == o[i].0
  {
    seq(|o|, i requires 0 <= i < |o| => o[i].0)
  }

  /** `Object.keys(o).map(k => o[k])` for an object whose keys are distinct. */
  function Values<V>(o: Object<V>): (vs: seq<V>)
    ensures |vs| == |o|
    ensures forall i :: 0 <= i < |o| ==> vs[i] == o[i].1
  {
    seq(|o|, i requires 0 <= i < |o| => o[i].1)
  }

  /** Every key occurs once, as in any real object. */
  ghost predicate DistinctKeys<V>(o: Object<V>) {
    Distinct(Keys(o))
  }

  ghost predicate Distinct(ks: seq<string>) {
    forall i, j :: 0 <= i < j < |ks| ==> ks[i] != ks[j]
  }

  /** `o[k]`: the value stored under `k`, or `undefined`. */
  function Get<V>(o: Object<V>, k: string): (r: Option<V>)
    ensures r.Some? <==> k in Keys(o)
    ensures r.Some? ==> exists i :: 0 <= i < |o| && o[i] == (k, r.value)
  {
    if o == [] then None
    else if o[0].0 == k then Some(o[0].1)
    else
      var r := Get(o[1..], k);
      assert Keys(o) == [o[0].0] + Keys(o[1..]);
      assert r.Some? ==> exists i :: 0 <= i < |o[1..]| && o[1..][i] == (k, r.value);
      r
  }

  /**
   * `o[k] = v`: a key already present keeps its position and takes the new
   * value; a new key is added after all existing ones.
   */
  function Set<V>(o: Object<V>, k: string, v: V): (r: Object<V>)
    ensures Keys(r) == if k in Keys(o) then Keys(o) else Keys(o) + [k]
  {
    if o == [] then [(k, v)]
    else if o[0].0 == k then
      KeysCons(o[0], o[1..]);
      KeysCons((k, v), o[1..]);
      [(k, v)] + o[1..]
    else
      var rest := Set(o[1..], k, v);
      KeysCons(o[0], o[1..]);
      KeysCons(o[0], rest);
      [o[0]] + rest
  }

  /** The keys of an object with one more entry in front. */
  lemma KeysCons<V>(e: (string, V), o: Object<V>)
    ensures Keys([e] + o) == [e.0] + Keys(o)
  {
  }

  /** After `o[k] = v`, reading `o[k]` gives `v` and every other key reads as before. */
  lemma {:induction false} SetGet<V>(o: Object<V>, k: string, v: V, k': string)
    ensures Get(Set(o, k, v), k') == if k' == k then Some(v) else Get(o, k')
  {
    if o != [] && o[0].0 != k {
      SetGet(o[1..], k, v, k');
    }
  }

  /** Assignment keeps the keys of an object distinct. */
  lemma SetKeepsDistinct<V>(o: Object<V>, k: string, v: V)
    requires DistinctKeys(o)
    ensures DistinctKeys(Set(o, k, v))
  {
    var ks := Keys(o);
    if k !in ks {
      forall i, j | 0 <= i < j < |ks + [k]| ensures (ks + [k])[i] != (ks + [k])[j] {
        if j == |ks| { assert (ks + [k])[i] == ks[i]; }
      }
    }
  }

  /** `o[k]` for a key the object has: the value of its first entry with that key. */
  function Read<V>(o: Object<V>, k: string): V
    requires k in Keys(o)
  {
    assert Keys(o) == [o[0].0] + Keys(o[1..]);
    if o[0].0 == k then o[0].1 else Read(o[1..], k)
  }

  /** Reading a present key is what `Get` finds. */
  lemma {:induction false} ReadGet<V>(o: Object<V>, k: string)
    requires k in Keys(o)
    ensures Get(o, k) == Some(Read(o, k))
  {
    assert Keys(o) == [o[0].0] + Keys(o[1..]);
    if o[0].0 != k {
      ReadGet(o[1..], k);
    }
  }

  /** Assignment only replaces the entry of its key or appends one: every entry is the new one or the old one at that position. */
  lemma {:induction false} SetEntries<V>(o: Object<V>, k: string, v: V, i: nat)
    requires i < |Set(o, k, v)|
    ensures Set(o, k, v)[i] == (k, v) || (i < |o| && Set(o, k, v)[i] == o[i])
  {
    var r := Set(o, k, v);
    if o == [] {
    } else if o[0].0 == k {
      assert r == [(k, v)] + o[1..];
    } else {
      var rest := Set(o[1..], k, v);
      assert r == [o[0]] + rest;
      if i > 0 {
        SetEntries(o[1..], k, v, i - 1);
        assert r[i] == rest[i - 1];
      }
    }
  }

  /** In an object with distinct keys, reading the key of an entry gives that entry's value. */
  lemma {:induction false} ReadDistinct<V>(o: Object<V>, i: nat)
    requires DistinctKeys(o) && i < |o|
    ensures o[i].0 in Keys(o) && Read(o, o[i].0) == o[i].1
  {
    assert Keys(o)[i] == o[i].0;
    if i > 0 {
      assert Keys(o)[0] != Keys(o)[i];
      assert DistinctKeys(o[1..]) by {
        forall a, b | 0 <= a < b < |o[1..]| ensures Keys(o[1..])[a] != Keys(o[1..])[b] {
          assert Keys(o)[a + 1] != Keys(o)[b + 1];
        }
      }
      ReadDistinct(o[1..], i - 1);
    }
  }

  /** In an object with distinct keys, reading the keys in order gives the values in order. */
  lemma ReadInKeyOrder<V>(o: Object<V>)
    ensures DistinctKeys(o) ==> forall k :: 0 <= k < |o| ==> Read(o, Keys(o)[k]) == Values(o)[k]
  {
    if DistinctKeys(o) {
      forall k | 0 <= k < |o| ensures Read(o, Keys(o)[k]) == Values(o)[k] {
        ReadDistinct(o, k);
      }
    }
  }

  /**
   * `for (const k in o) out[k] = f(k, o[k])` over the keys `keys` of `o`,
   * in order, into an empty object; `f` may be called with any value for
   * those keys.
   */
  function MapEntries<V(!new), W>(o: Object<V>, keys: seq<string>, f: (string, V) --> W): Object<W>
    requires forall k :: k in keys ==> k in Keys(o)
    requires forall k, v :: k in keys ==> f.requires(k, v)
  {
    if keys == [] then []
    else
      var key := keys[|keys| - 1];
      Set(MapEntries(o, keys[..|keys| - 1], f), key, f(key, Read(o, key)))
  }

  /** Each of the keys holds `f` of that key and `o[k]`; no other key is set. */
  lemma {:induction false} MapEntriesGet<V(!new), W>(o: Object<V>, keys: seq<string>, f: (string, V) --> W, k: string)
    requires forall k :: k in keys ==> k in Keys(o)
    requires forall k, v :: k in keys ==> f.requires(k, v)
    ensures Get(MapEntries(o, keys, f), k) == if k in keys then Some(f(k, Read(o, k))) else None
  {
    if keys != [] {
      var front := keys[..|keys| - 1];
      var key := keys[|keys| - 1];
      MapEntriesGet(o, front, f, k);
      SetGet(MapEntries(o, front, f), key, f(key, Read(o, key)), k);
      assert k in keys <==> k in front || k == key;
    }
  }

  /** The first `n + 1` keys end with key `n`, after the first `n`. */
  lemma PrefixStep(ks: seq<string>, n: nat)
    requires n < |ks|
    ensures ks[..n + 1][..n] == ks[..n] && ks[..n + 1][n] == ks[n]
  {
  }
}
