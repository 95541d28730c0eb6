/** JavaScript plain objects and arrays as the model sees them. An object is its
    own properties as (key, value) pairs in enumeration order: assigning to a
    new key appends it, assigning to an existing key replaces the value where it
    stands. */
module JsObject {
  import opened Wrappers

  type Object<K, V> = seq<(K, V)>

  /** `Object.keys(m)`. */
  function Keys<K, V>(m: Object<K, V>): (ks: seq<K>)
    ensures |ks| == |m|
    ensures forall i :: 0 <= i < |m| ==> ks[i] == m[i].0
  {
    seq(|m|, i requires 0 <= i < |m| => m[i].0)
  }

  /** `Object.values(m)`. */
  function Values<K, V>(m: Object<K, V>): (vs: seq<V>)
    ensures |vs| == |m|
    ensures forall i :: 0 <= i < |m| ==> vs[i] == m[i].1
  {
    seq(|m|, i requires 0 <= i < |m| => m[i].1)
  }

  predicate Distinct<T(==)>(s: seq<T>) {
    forall i, j :: 0 <= i < j < |s| ==> s[i] != s[j]
  }

  /** `m[k]`: the value of property `k`, or `undefined` when there is none. */
  function Get<K(==), V>(m: Object<K, V>, k: K): (r: Option<V>)
    ensures r.None? <==> k !in Keys(m)
    ensures r.Some? ==> (k, r.value) in m
    decreases |m|
  {
    if m == [] then None
    else if m[0].0 == k then Some(m[0].1)
    else
      assert Keys(m) == [m[0].0] + Keys(m[1..]);
      Get(m[1..], k)
  }

  lemma KeysCons<K, V>(p: (K, V), m: Object<K, V>)
    ensures Keys([p] + m) == [p.0] + Keys(m)
  {}

  /** `m[k] = v`. */
  function Put<K(==,!new), V>(m: Object<K, V>, k: K, v: V): (r: Object<K, V>)
    ensures Keys(r) == if k in Keys(m) then Keys(m) else Keys(m) + [k]
    ensures Get(r, k) == Some(v)
    ensures forall k' :: k' != k ==> Get(r, k') == Get(m, k')
    decreases |m|
  {
    if m == [] then [(k, v)]
    else
      KeysCons(m[0], m[1..]);
      assert [m[0]] + m[1..] == m;
      if m[0].0 == k then
        KeysCons((k, v), m[1..]);
        [(k, v)] + m[1..]
      else
        var tail := Put(m[1..], k, v);
        KeysCons(m[0], tail);
        [m[0]] + tail
  }

  /** The object that results from assigning each pair of `writes` in turn to `m`. */
  function PutAll<K(==,!new), V>(m: Object<K, V>, writes: seq<(K, V)>): Object<K, V>
    decreases |writes|
  {
    if writes == [] then m
    else
      var last := writes[|writes| - 1];
      Put(PutAll(m, writes[..|writes| - 1]), last.0, last.1)
  }

  /** Some write in `writes` stores `v` under `k`, and no later write is to `k`. */
  ghost predicate WrittenLast<K, V>(writes: seq<(K, V)>, k: K, v: V) {
    exists i :: 0 <= i < |writes| && writes[i] == (k, v) && forall j :: i < j < |writes| ==> writes[j].0 != k
  }

  /** The value the last write to `k` in `writes` stored, if any. */
  function LastWrite<K(==), V>(writes: seq<(K, V)>, k: K): (r: Option<V>)
    ensures r.None? <==> k !in Keys(writes)
    ensures r.Some? ==> (k, r.value) in writes
    ensures r.Some? ==> WrittenLast(writes, k, r.value)
    decreases |writes|
  {
    if writes == [] then None
    else
      var init := writes[..|writes| - 1];
      assert Keys(writes) == Keys(init) + [writes[|writes| - 1].0];
      if writes[|writes| - 1].0 == k then Some(writes[|writes| - 1].1)
      else
        var r := LastWrite(init, k);
        assert r.Some? ==> WrittenLast(writes, k, r.value) by {
          if r.Some? {
            var i :| 0 <= i < |init| && init[i] == (k, r.value) && forall j :: i < j < |init| ==> init[j].0 != k;
            assert writes[i] == init[i];
            assert forall j :: i < j < |writes| ==> writes[j].0 != k by {
              forall j | i < j < |writes| ensures writes[j].0 != k {
                if j < |init| { assert writes[j] == init[j]; }
              }
            }
          }
        }
        r
  }

  /** The elements of `s` without repeats, each where it first occurs
      (the order of `[...new Set(s)]`). */
  function Dedup<T(==,!new)>(s: seq<T>): (r: seq<T>)
    ensures forall x :: x in r <==> x in s
    ensures Distinct(r)
    decreases |s|
  {
    if s == [] then []
    else
      var d := Dedup(s[..|s| - 1]);
      if s[|s| - 1] in s[..|s| - 1] then d
      else
        assert forall x :: x in s <==> x in s[..|s| - 1] || x == s[|s| - 1] by {
          assert s == s[..|s| - 1] + [s[|s| - 1]];
        }
        d + [s[|s| - 1]]
  }

  /** Assigning pairs in turn to an empty object enumerates each key once, in the
      order in which it was first assigned. */
  lemma {:induction false} PutAllKeys<K(!new), V>(writes: seq<(K, V)>)
    ensures Keys(PutAll([], writes)) == Dedup(Keys(writes))
    decreases |writes|
  {
    if writes != [] {
      var init := writes[..|writes| - 1];
      PutAllKeys(init);
      assert Keys(writes)[..|writes| - 1] == Keys(init);
    }
  }

  /** Assigning pairs in turn to an empty object: each key holds its last write. */
  lemma {:induction false} PutAllGet<K(!new), V>(writes: seq<(K, V)>, k: K)
    ensures Get(PutAll([], writes), k) == LastWrite(writes, k)
    decreases |writes|
  {
    if writes != [] {
      PutAllGet(writes[..|writes| - 1], k);
    }
  }

  lemma PutAllSnoc<K(!new), V>(m: Object<K, V>, writes: seq<(K, V)>, x: (K, V))
    ensures PutAll(m, writes + [x]) == Put(PutAll(m, writes), x.0, x.1)
  {
    assert (writes + [x])[..|writes|] == writes;
  }

  /** In an object without repeated keys, property `m[i].0` holds `m[i].1`. */
  lemma {:induction false} GetAt<K, V>(m: Object<K, V>, i: int)
    requires Distinct(Keys(m))
    requires 0 <= i < |m|
    ensures Get(m, m[i].0) == Some(m[i].1)
    decreases |m|
  {
    if i > 0 {
      assert Keys(m[1..]) == Keys(m)[1..];
      assert m[0].0 == Keys(m)[0] != Keys(m)[i] == m[i].0;
      GetAt(m[1..], i - 1);
    }
  }

  lemma PutAllGetAll<K(!new), V>(writes: seq<(K, V)>)
    ensures forall k :: Get(PutAll([], writes), k) == LastWrite(writes, k)
  {
    forall k {
      PutAllGet(writes, k);
    }
  }

  lemma {:induction false} DedupOfDistinct<T(!new)>(s: seq<T>)
    requires Distinct(s)
    ensures Dedup(s) == s
    decreases |s|
  {
    if s != [] {
      DedupOfDistinct(s[..|s| - 1]);
      assert s == s[..|s| - 1] + [s[|s| - 1]];
    }
  }

  /** `[].concat.apply([], lists)`: the lists' elements one after another. */
  function Flatten<T>(lists: seq<seq<T>>): seq<T>
    decreases |lists|
  {
    if lists == [] then [] else Flatten(lists[..|lists| - 1]) + lists[|lists| - 1]
  }

  lemma {:induction false} FlattenMember<T>(lists: seq<seq<T>>, x: T)
    ensures x in Flatten(lists) <==> exists i :: 0 <= i < |lists| && x in lists[i]
    decreases |lists|
  {
    if lists != [] {
      var init := lists[..|lists| - 1];
      FlattenMember(init, x);
      assert forall i :: 0 <= i < |init| ==> init[i] == lists[i];
    }
  }

  /** `a.indexOf(x)` on an array: the first index holding `x`, or -1. */
  function SeqIndexOf<T(==)>(a: seq<T>, x: T): (r: int)
    ensures -1 <= r
    ensures r == -1 <==> x !in a
    ensures r >= 0 ==> r < |a| && a[r] == x && x !in a[..r]
    decreases |a|
  {
    if a == [] then -1
    else if a[0] == x then 0
    else
      var j := SeqIndexOf(a[1..], x);
      if j == -1 then -1
      else
        assert a[..j + 1] == [a[0]] + a[1..][..j];
        j + 1
  }

  /** The first occurrence of an element of `a` is the same in `a + b`. */
  lemma {:induction false} SeqIndexOfAppend<T>(a: seq<T>, b: seq<T>, x: T)
    requires x in a
    ensures SeqIndexOf(a + b, x) == SeqIndexOf(a, x)
    decreases |a|
  {
    if a[0] != x {
      assert (a + b)[1..] == a[1..] + b;
      SeqIndexOfAppend(a[1..], b, x);
    }
  }

  // ---------------------------------------------------------------- order

  /** The elements of `ks` come in the order of their first occurrence in `names`. */
  predicate InFirstOccurrenceOrder<T(==)>(ks: seq<T>, names: seq<T>) {
    forall i, j :: 0 <= i < j < |ks| ==> SeqIndexOf(names, ks[i]) < SeqIndexOf(names, ks[j])
  }

  lemma OrderSnoc<T>(ks: seq<T>, x: T, names: seq<T>)
    requires InFirstOccurrenceOrder(ks, names)
    requires forall y :: y in ks ==> SeqIndexOf(names, y) < SeqIndexOf(names, x)
    ensures InFirstOccurrenceOrder(ks + [x], names)
  {
    var r := ks + [x];
    forall i, j | 0 <= i < j < |r| ensures SeqIndexOf(names, r[i]) < SeqIndexOf(names, r[j]) {
      assert r[i] == ks[i] && ks[i] in ks;
      if j < |ks| {
        assert r[j] == ks[j];
      }
    }
  }

  /** `Dedup` keeps the order of first occurrence, as `[...new Set(s)]` does. */
  lemma {:induction false} DedupOrder<T(!new)>(s: seq<T>)
    ensures InFirstOccurrenceOrder(Dedup(s), s)
    decreases |s|
  {
    if s != [] {
      var init, last := s[..|s| - 1], s[|s| - 1];
      assert s == init + [last];
      DedupOrder(init);
      var d := Dedup(init);
      forall i, j | 0 <= i < j < |d| ensures SeqIndexOf(s, d[i]) < SeqIndexOf(s, d[j]) {
        assert d[i] in init && d[j] in init;
        SeqIndexOfAppend(init, [last], d[i]);
        SeqIndexOfAppend(init, [last], d[j]);
      }
      if last !in init {
        assert s[..|init|] == init;
        forall y | y in d ensures SeqIndexOf(s, y) < SeqIndexOf(s, last) {
          SeqIndexOfAppend(init, [last], y);
        }
        OrderSnoc(d, last, s);
      }
    }
  }
}
