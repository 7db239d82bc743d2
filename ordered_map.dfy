/**
 * A PHP array with string keys: an ordered map. Keys keep the position of
 * their first insertion; assigning to an existing key replaces its value in
 * place, and a new key goes last.
 */
module OrderedMaps {

  /** The keys in insertion order, and the value at each key. */
  datatype OrderedMap<V> = OrderedMap(keys: seq<string>, values: map<string, V>) {
    /** Every listed key is listed once and has a value. */
    ghost predicate Listed() {
      && (forall i, j | 0 <= i < j < |keys| :: keys[i] != keys[j])
      && (forall k | k in keys :: k in values)
    }

    /** Every key is listed exactly once, and only keys are listed. */
    ghost predicate Valid() {
      && Listed()
      && (forall k | k in values :: k in keys)
    }
  }

  /** `[]` */
  function Empty<V>(): (r: OrderedMap<V>)
    ensures r.Valid() && r.keys == [] && r.values == map[]
  {
    OrderedMap([], map[])
  }

  /** `array_key_exists(k, m)` */
  predicate HasKey<V>(m: OrderedMap<V>, k: string) {
    k in m.values
  }

  /** `m[k]` when the key exists, else `default`. */
  function GetOr<V>(m: OrderedMap<V>, k: string, default: V): V {
    if k in m.values then m.values[k] else default
  }

  /**
   * `m[k] = v`: the value at `k` becomes `v`, every other value stays; no key moves,
   * the key is appended exactly when it was new, and the map stays well formed.
   */
  function Put<V>(m: OrderedMap<V>, k: string, v: V): (r: OrderedMap<V>)
    ensures r.values == m.values[k := v]
    ensures |r.keys| == if k in m.values then |m.keys| else |m.keys| + 1
    ensures r.keys[..|m.keys|] == m.keys
    ensures k !in m.values ==> r.keys[|m.keys|] == k
    ensures m.Valid() ==> r.Valid()
  {
    if k in m.values then OrderedMap(m.keys, m.values[k := v])
    else OrderedMap(m.keys + [k], m.values[k := v])
  }

  /** The keys of `ks` that are not keys of `m`, in the order of `ks`. */
  function Unseen<V>(ks: seq<string>, m: map<string, V>): seq<string> {
    if ks == [] then []
    else Unseen(ks[..|ks| - 1], m) + (if ks[|ks| - 1] in m then [] else [ks[|ks| - 1]])
  }

  /** Assigns `src[k]` at every `k` of `ks`, in order. */
  function PutAll<V>(m: OrderedMap<V>, ks: seq<string>, src: map<string, V>): (r: OrderedMap<V>)
    requires forall k | k in ks :: k in src
    ensures m.Valid() ==> r.Valid()
  {
    if ks == [] then m
    else
      var n := |ks| - 1;
      Put(PutAll(m, ks[..n], src), ks[n], src[ks[n]])
  }

  lemma UpdateOfUnion<V>(a: map<string, V>, b: map<string, V>, x: string, v: V)
    ensures (a + b)[x := v] == a + b[x := v]
  {
  }

  /** Assigning a list of keys: the values come from `src` on the listed keys and from `m` elsewhere. */
  lemma {:induction false} PutAllValues<V>(m: OrderedMap<V>, ks: seq<string>, src: map<string, V>)
    requires forall k | k in ks :: k in src
    ensures PutAll(m, ks, src).values == m.values + map k | k in ks :: src[k]
  {
    if ks != [] {
      var n := |ks| - 1;
      var init, x := ks[..n], ks[n];
      PutAllValues(m, init, src);
      var before := map k | k in init :: src[k];
      var after := map k | k in ks :: src[k];
      assert after == before[x := src[x]] by {
        assert ks == init + [x];
        assert forall k :: k in ks <==> k in init || k == x;
      }
      calc {
        PutAll(m, ks, src).values;
        PutAll(m, init, src).values[x := src[x]];
        (m.values + before)[x := src[x]];
        { UpdateOfUnion(m.values, before, x, src[x]); }
        m.values + before[x := src[x]];
      }
    }
  }

  /** Assigning a list of distinct keys appends the new ones in list order. */
  lemma {:induction false} PutAllKeys<V>(m: OrderedMap<V>, ks: seq<string>, src: map<string, V>)
    requires forall k | k in ks :: k in src
    requires forall i, j | 0 <= i < j < |ks| :: ks[i] != ks[j]
    ensures PutAll(m, ks, src).keys == m.keys + Unseen(ks, m.values)
  {
    if ks != [] {
      var n := |ks| - 1;
      var init := ks[..n];
      PutAllKeys(m, init, src);
      PutAllValues(m, init, src);
      var p := PutAll(m, init, src);
      assert ks[n] !in init;
      assert ks[n] in p.values <==> ks[n] in m.values;
    }
  }

  /**
   * PHP's `array_merge(a, b)` for string keys: `a`'s keys in their order, then `b`'s new keys
   * in theirs; at a shared key, `b`'s value wins.
   */
  function Merge<V>(a: OrderedMap<V>, b: OrderedMap<V>): (r: OrderedMap<V>)
    requires b.Valid()
    ensures r.keys == a.keys + Unseen(b.keys, a.values)
    ensures r.values == a.values + b.values
    ensures a.Valid() ==> r.Valid()
  {
    PutAllKeys(a, b.keys, b.values);
    PutAllValues(a, b.keys, b.values);
    assert (map k | k in b.keys :: b.values[k]) == b.values;
    PutAll(a, b.keys, b.values)
  }
}
