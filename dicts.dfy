/**
  * PHP's associative array, as the transit layer uses it: a map whose keys
  * remember the order in which they were first inserted.
  */
module Dicts {
  import opened Wrappers

  /**
    * No element occurs twice. The pairs are compared only where a proof
    * asks for them (`DistinctAt`), so that every key sequence in scope does
    * not compare all its pairs.
    */
  ghost predicate Distinct<K>(s: seq<K>) {
    forall i, j {:trigger Apart(s, i, j)} :: 0 <= i < j < |s| ==> Apart(s, i, j)
  }

  /** Positions `i` and `j` of `s` hold different elements. */
  ghost predicate Apart<K>(s: seq<K>, i: int, j: int) {
    0 <= i < |s| && 0 <= j < |s| && s[i] != s[j]
  }

  lemma DistinctAt<K>(s: seq<K>, i: int, j: int)
    requires Distinct(s) && 0 <= i < |s| && 0 <= j < |s| && i != j
    ensures s[i] != s[j]
  {
    if i < j {
      assert Apart(s, i, j);
    } else {
      assert Apart(s, j, i);
    }
  }

  /** The element at `i` of a duplicate-free list occurs neither before nor after `i`. */
  lemma DistinctNotElsewhere<K>(s: seq<K>, i: int)
    requires Distinct(s) && 0 <= i < |s|
    ensures s[i] !in s[..i] && s[i] !in s[i + 1..]
  {
    forall p | 0 <= p < i ensures s[..i][p] != s[i] {
      DistinctAt(s, p, i);
    }
    forall q | i < q < |s| ensures s[q] != s[i] {
      DistinctAt(s, q, i);
    }
  }

  /** Dropping the last element of a duplicate-free list leaves one without that element. */
  lemma DistinctInit<K>(s: seq<K>)
    requires s != []
    ensures Distinct(s) ==> Distinct(s[..|s| - 1]) && s[|s| - 1] !in s[..|s| - 1]
  {
    if Distinct(s) {
      DistinctSlice(s, 0, |s| - 1);
      DistinctNotElsewhere(s, |s| - 1);
    }
  }

  lemma DistinctGrows<K>(s: seq<K>, x: K)
    ensures Distinct(s) && x !in s ==> Distinct(s + [x])
  {
    if Distinct(s) && x !in s {
      DistinctAppend(s, x);
    }
  }

  /** A slice of a duplicate-free list is duplicate-free. */
  lemma DistinctSlice<K>(s: seq<K>, a: int, b: int)
    requires Distinct(s) && 0 <= a <= b <= |s|
    ensures Distinct(s[a..b])
  {
    forall i, j | 0 <= i < j < b - a ensures Apart(s[a..b], i, j) {
      DistinctAt(s, a + i, a + j);
    }
  }

  /** Appending a new element keeps a list duplicate-free. */
  lemma DistinctAppend<K>(s: seq<K>, x: K)
    requires Distinct(s) && x !in s
    ensures Distinct(s + [x])
  {
    forall i, j | 0 <= i < j < |s| + 1 ensures Apart(s + [x], i, j) {
      if j < |s| {
        DistinctAt(s, i, j);
      } else {
        assert s[i] in s;
      }
    }
  }

  datatype RawDict<K(==,!new), V> = RawDict(keys: seq<K>, vals: map<K, V>)

  /** The key sequence lists the domain of the map, each key once. */
  ghost predicate WellFormed<K(!new), V>(d: RawDict<K, V>) {
    Distinct(d.keys) && forall k :: k in d.vals <==> k in d.keys
  }

  /** An insertion-ordered map. */
  type Dict<K(==,!new), V> = d: RawDict<K, V> | WellFormed(d) witness RawDict([], map[])

  function Empty<K(==,!new), V>(): (d: Dict<K, V>)
    ensures d.keys == [] && d.vals == map[]
  {
    RawDict([], map[])
  }

  /** `$d[$k]` read under `isset`: absent keys give None. */
  function Get<K(==,!new), V>(d: Dict<K, V>, k: K): (r: Option<V>)
    ensures r.Some? <==> k in d.keys
    ensures r.Some? ==> r.value == d.vals[k]
  {
    if k in d.vals then Some(d.vals[k]) else None
  }

  /** `$d[$k] = $v`: an existing key keeps its place, a new key goes to the end. */
  function Put<K(==,!new), V>(d: Dict<K, V>, k: K, v: V): (r: Dict<K, V>)
    ensures r.vals == d.vals[k := v]
    ensures r.keys == if k in d.vals then d.keys else d.keys + [k]
  {
    if k in d.vals then RawDict(d.keys, d.vals[k := v])
    else
      DistinctAppend(d.keys, k);
      RawDict(d.keys + [k], d.vals[k := v])
  }

  /** Writing the value a key already holds changes nothing. */
  lemma PutSame<K(!new), V>(d: Dict<K, V>, k: K, v: V)
    requires k in d.vals && d.vals[k] == v
    ensures Put(d, k, v) == d
  {
    assert d.vals[k := v] == d.vals;
  }

  /** The elements of `s` that belong to `keep`, in their order. */
  function FilterIn<K(!new)>(s: seq<K>, keep: set<K>): (r: seq<K>)
    ensures forall x :: x in r <==> x in s && x in keep
    ensures Distinct(s) ==> Distinct(r)
    ensures |r| <= |s|
  {
    if s == [] then []
    else if s[|s| - 1] in keep then
      var r := FilterIn(s[..|s| - 1], keep);
      DistinctInit(s);
      DistinctGrows(r, s[|s| - 1]);
      r + [s[|s| - 1]]
    else
      DistinctInit(s);
      FilterIn(s[..|s| - 1], keep)
  }

  lemma {:induction false} FilterInAll<K(!new)>(s: seq<K>, keep: set<K>)
    requires forall x :: x in s ==> x in keep
    ensures FilterIn(s, keep) == s
  {
    if s != [] {
      assert s == s[..|s| - 1] + [s[|s| - 1]];
      FilterInAll(s[..|s| - 1], keep);
    }
  }

  lemma {:induction false} FilterInNone<K(!new)>(s: seq<K>, keep: set<K>)
    requires forall x :: x in s ==> x !in keep
    ensures FilterIn(s, keep) == []
  {
    if s != [] {
      FilterInNone(s[..|s| - 1], keep);
    }
  }

  /** Filtering distributes over concatenation. */
  lemma {:induction false} FilterInConcat<K(!new)>(a: seq<K>, b: seq<K>, keep: set<K>)
    ensures FilterIn(a + b, keep) == FilterIn(a, keep) + FilterIn(b, keep)
  {
    if b == [] {
      assert a + b == a;
    } else {
      assert (a + b)[..|a + b| - 1] == a + b[..|b| - 1];
      FilterInConcat(a, b[..|b| - 1], keep);
    }
  }

  lemma DistinctConcat<K>(a: seq<K>, b: seq<K>)
    requires Distinct(a) && Distinct(b)
    requires forall x :: x in a ==> x !in b
    ensures Distinct(a + b)
  {
    forall i, j | 0 <= i < j < |a + b|
      ensures (a + b)[i] != (a + b)[j]
    {
      if j < |a| {
        DistinctAt(a, i, j);
      } else if i >= |a| {
        DistinctAt(b, i - |a|, j - |a|);
      } else {
        assert (a + b)[i] in a && (a + b)[j] == b[j - |a|] && b[j - |a|] in b;
      }
    }
  }

  /** The entries of `d` whose key belongs to `keep`, in their order. */
  function KeepKeys<K(==,!new), V>(d: Dict<K, V>, keep: set<K>): (r: Dict<K, V>)
    ensures r.keys == FilterIn(d.keys, keep)
    ensures forall k :: k in r.vals <==> k in d.vals && k in keep
    ensures forall k :: k in r.vals ==> r.vals[k] == d.vals[k]
  {
    RawDict(FilterIn(d.keys, keep), map k | k in d.vals && k in keep :: d.vals[k])
  }

  /** `unset($d[$k])`. */
  function Unset<K(==,!new), V>(d: Dict<K, V>, k: K): (r: Dict<K, V>)
    ensures k !in r.vals
    ensures forall x :: x != k ==> (x in r.vals <==> x in d.vals)
    ensures forall x :: x in r.vals ==> r.vals[x] == d.vals[x]
  {
    KeepKeys(d, d.vals.Keys - {k})
  }

  lemma TailAvoidsHead<K>(s: seq<K>)
    requires Distinct(s) && s != []
    ensures forall x :: x in s[1..] ==> x in s && x != s[0]
  {
    forall x | x in s[1..] ensures x in s && x != s[0] {
      var j :| 0 <= j < |s[1..]| && s[1..][j] == x;
      DistinctAt(s, 0, j + 1);
    }
  }

  /** Unsetting the first key drops the head of the key sequence. */
  lemma UnsetFirst<K(!new), V>(d: Dict<K, V>)
    requires d.keys != []
    ensures Unset(d, d.keys[0]).keys == d.keys[1..]
  {
    var k := d.keys[0];
    var keep := d.vals.Keys - {k};
    assert d.keys == [k] + d.keys[1..];
    FilterInConcat([k], d.keys[1..], keep);
    assert FilterIn([k], keep) == [] by {
      assert [k][..0] == [];
    }
    TailAvoidsHead(d.keys);
    FilterInAll(d.keys[1..], keep);
  }

  /** Two dictionaries with the same keys in the same order and the same value under each are equal. */
  lemma SameDict<K(!new), V>(a: Dict<K, V>, b: Dict<K, V>)
    requires a.keys == b.keys
    requires forall i :: 0 <= i < |a.keys| ==> a.keys[i] in a.vals && a.keys[i] in b.vals && a.vals[a.keys[i]] == b.vals[a.keys[i]]
    ensures a == b
  {
    forall k | k in a.vals ensures k in b.vals && a.vals[k] == b.vals[k] {
      var i :| 0 <= i < |a.keys| && a.keys[i] == k;
    }
    assert a.vals == b.vals;
  }

  /** `$a += $b`: keys of `a` keep their values, keys only in `b` are appended in `b`'s order. */
  function AddMissing<K(==,!new), V>(a: Dict<K, V>, b: Dict<K, V>): (r: Dict<K, V>)
    ensures r.keys == a.keys + FilterIn(b.keys, b.vals.Keys - a.vals.Keys)
    ensures forall k :: k in r.vals <==> k in a.vals || k in b.vals
    ensures forall k :: k in r.vals ==> r.vals[k] == if k in a.vals then a.vals[k] else b.vals[k]
  {
    var extra := FilterIn(b.keys, b.vals.Keys - a.vals.Keys);
    DistinctConcat(a.keys, extra);
    RawDict(a.keys + extra, b.vals + a.vals)
  }

  /** Adding nothing changes nothing. */
  lemma AddMissingEmpty<K(!new), V>(a: Dict<K, V>)
    ensures AddMissing(a, Empty()) == a
  {
    assert a.keys + [] == a.keys;
  }

  /** Adding to an empty array copies the right operand. */
  lemma AddMissingToEmpty<K(!new), V>(b: Dict<K, V>)
    ensures AddMissing(Empty(), b) == b
  {
    var e: Dict<K, V> := Empty();
    var keep := b.vals.Keys - e.vals.Keys;
    assert forall x :: x in b.keys ==> x in keep;
    FilterInAll(b.keys, keep);
    var r := AddMissing(e, b);
    assert r.keys == [] + b.keys;
    assert r.vals == b.vals;
  }

  lemma PrefixInjective(prefix: string, a: string, b: string)
    requires prefix + a == prefix + b
    ensures a == b
  {
    assert a == (prefix + a)[|prefix|..];
    assert b == (prefix + b)[|prefix|..];
  }

  /** `prefix` put before every element. */
  function PrefixAll(prefix: string, s: seq<string>): (r: seq<string>)
    ensures |r| == |s|
    ensures forall i :: 0 <= i < |s| ==> r[i] == prefix + s[i]
  {
    seq(|s|, i requires 0 <= i < |s| => prefix + s[i])
  }

  /**
    * The same entries under the keys `prefix + k`, each value passed through `f`:
    * the loops that turn local IDs into global IDs.
    */
  function Rekey<V, W>(d: Dict<string, V>, prefix: string, f: V -> W): (r: Dict<string, W>)
    ensures r.keys == PrefixAll(prefix, d.keys)
    ensures forall k :: k in d.vals ==> prefix + k in r.vals && r.vals[prefix + k] == f(d.vals[k])
    ensures forall g :: g in r.vals ==> |prefix| <= |g| && g == prefix + g[|prefix|..] && g[|prefix|..] in d.vals
  {
    var keys := PrefixAll(prefix, d.keys);
    assert forall g :: g in keys ==> |prefix| <= |g| && g == prefix + g[|prefix|..] && g[|prefix|..] in d.vals by {
      forall g | g in keys ensures |prefix| <= |g| && g == prefix + g[|prefix|..] && g[|prefix|..] in d.vals {
        var i :| 0 <= i < |keys| && keys[i] == g;
        assert g == prefix + d.keys[i];
        assert g[|prefix|..] == d.keys[i];
      }
    }
    var vals := map g | g in keys :: f(d.vals[g[|prefix|..]]);
    assert Distinct(keys) by {
      forall i, j | 0 <= i < j < |keys| ensures keys[i] != keys[j] {
        DistinctAt(d.keys, i, j);
        if keys[i] == keys[j] {
          PrefixInjective(prefix, d.keys[i], d.keys[j]);
        }
      }
    }
    forall k | k in d.vals ensures prefix + k in keys && (prefix + k)[|prefix|..] == k {
      var i :| 0 <= i < |d.keys| && d.keys[i] == k;
      assert keys[i] == prefix + k;
    }
    RawDict(keys, vals)
  }

  /** The values in key order (`array_values`, or a `foreach` over the values). */
  function Values<K(==,!new), V>(d: Dict<K, V>): (r: seq<V>)
    ensures |r| == |d.keys|
    ensures forall i :: 0 <= i < |d.keys| ==> r[i] == d.vals[d.keys[i]]
  {
    seq(|d.keys|, i requires 0 <= i < |d.keys| => assert d.keys[i] in d.keys; d.vals[d.keys[i]])
  }

  lemma {:induction false} FilterInAgree<K(!new)>(s: seq<K>, a: set<K>, b: set<K>)
    requires forall x :: x in s ==> (x in a <==> x in b)
    ensures FilterIn(s, a) == FilterIn(s, b)
  {
    if s != [] {
      assert s[|s| - 1] in s;
      FilterInAgree(s[..|s| - 1], a, b);
    }
  }

  lemma {:induction false} FilterInCompose<K(!new)>(s: seq<K>, a: set<K>, b: set<K>)
    ensures FilterIn(FilterIn(s, a), b) == FilterIn(s, a * b)
  {
    if s != [] {
      var init, last := s[..|s| - 1], s[|s| - 1];
      FilterInCompose(init, a, b);
      if last in a {
        var f := FilterIn(init, a) + [last];
        assert f[..|f| - 1] == FilterIn(init, a);
      }
    }
  }

  /** Keeping keys depends only on which of the present keys are kept. */
  lemma KeepKeysAgree<K(!new), V>(d: Dict<K, V>, a: set<K>, b: set<K>)
    requires forall x :: x in d.keys ==> (x in a <==> x in b)
    ensures KeepKeys(d, a) == KeepKeys(d, b)
  {
    FilterInAgree(d.keys, a, b);
  }

  lemma KeepKeysCompose<K(!new), V>(d: Dict<K, V>, a: set<K>, b: set<K>)
    ensures KeepKeys(KeepKeys(d, a), b) == KeepKeys(d, a * b)
  {
    FilterInCompose(d.keys, a, b);
  }

  lemma KeepKeysAll<K(!new), V>(d: Dict<K, V>, a: set<K>)
    requires forall x :: x in d.keys ==> x in a
    ensures KeepKeys(d, a) == d
  {
    FilterInAll(d.keys, a);
  }

  /**
    * `foreach ($b as $k => $v) { if (!isset($a[$k])) { $a[$k] = $v; } }`,
    * run over the keys `ks` of `b`.
    */
  function AddEach<K(==,!new), V>(a: Dict<K, V>, b: Dict<K, V>, ks: seq<K>): Dict<K, V>
    requires forall k :: k in ks ==> k in b.vals
  {
    if ks == [] then a
    else
      var acc := AddEach(a, b, ks[..|ks| - 1]);
      var k := ks[|ks| - 1];
      if k in acc.vals then acc else Put(acc, k, b.vals[k])
  }

  /** One more key of `b` looked at. */
  lemma AddEachNext<K(!new), V>(a: Dict<K, V>, b: Dict<K, V>, i: nat)
    requires i < |b.keys|
    ensures b.keys[i] in b.vals
    ensures var acc := AddEach(a, b, b.keys[..i]);
      AddEach(a, b, b.keys[..i + 1]) == if b.keys[i] in acc.vals then acc else Put(acc, b.keys[i], b.vals[b.keys[i]])
  {
    assert b.keys[i] in b.keys;
    assert b.keys[..i + 1][..i] == b.keys[..i];
  }

  /** The loop over distinct keys `ks` of `b` appends the new ones, in order, with their values from `b`. */
  lemma {:induction false} AddEachEffect<K(!new), V>(a: Dict<K, V>, b: Dict<K, V>, ks: seq<K>)
    requires forall k :: k in ks ==> k in b.vals
    requires Distinct(ks)
    ensures AddEach(a, b, ks).keys == a.keys + FilterIn(ks, b.vals.Keys - a.vals.Keys)
    ensures forall k :: k in AddEach(a, b, ks).vals <==> k in a.vals || k in ks
    ensures forall k :: k in AddEach(a, b, ks).vals ==>
      AddEach(a, b, ks).vals[k] == if k in a.vals then a.vals[k] else b.vals[k]
  {
    if ks != [] {
      var init, k := ks[..|ks| - 1], ks[|ks| - 1];
      DistinctInit(ks);
      assert forall x :: x in ks <==> x in init || x == k by {
        assert ks == init + [k];
      }
      AddEachEffect(a, b, init);
    }
  }

  /** The loop above, run over all of `b`, is `$a += $b`. */
  lemma AddEachIsAddMissing<K(!new), V>(a: Dict<K, V>, b: Dict<K, V>)
    ensures AddEach(a, b, b.keys) == AddMissing(a, b)
  {
    var r, m := AddEach(a, b, b.keys), AddMissing(a, b);
    AddEachFull(a, b);
    assert r.vals == m.vals;
  }

  lemma AddEachFull<K(!new), V>(a: Dict<K, V>, b: Dict<K, V>)
    ensures AddEach(a, b, b.keys).keys == AddMissing(a, b).keys
    ensures forall k :: k in AddEach(a, b, b.keys).vals <==> k in AddMissing(a, b).vals
    ensures forall k :: k in AddEach(a, b, b.keys).vals ==> AddEach(a, b, b.keys).vals[k] == AddMissing(a, b).vals[k]
  {
    AddEachEffect(a, b, b.keys);
  }

  /** A list with repeated element counts it at least twice. */
  lemma RepeatCountsTwice<T>(s: seq<T>, i: nat, j: nat)
    requires i < j < |s| && s[i] == s[j]
    ensures multiset(s)[s[i]] >= 2
  {
    assert s == s[..j] + s[j..];
    assert s[i] in s[..j];
    assert s[j] in s[j..];
  }

  lemma {:induction false} DistinctCountAtMostOne<T>(s: seq<T>, x: T)
    requires Distinct(s)
    ensures multiset(s)[x] <= 1
  {
    if s != [] {
      var init := s[..|s| - 1];
      assert s == init + [s[|s| - 1]];
      DistinctSlice(s, 0, |s| - 1);
      DistinctCountAtMostOne(init, x);
      DistinctNotElsewhere(s, |s| - 1);
    }
  }

  /** A permutation of a duplicate-free list is duplicate-free. */
  lemma PermutationKeepsDistinct<T>(a: seq<T>, b: seq<T>)
    requires Distinct(a) && multiset(a) == multiset(b)
    ensures Distinct(b)
  {
    forall i, j | 0 <= i < j < |b| ensures b[i] != b[j] {
      if b[i] == b[j] {
        RepeatCountsTwice(b, i, j);
        DistinctCountAtMostOne(a, b[i]);
      }
    }
  }

  /** Lists with the same multiset have the same elements. */
  lemma SameElements<T>(a: seq<T>, b: seq<T>)
    requires multiset(a) == multiset(b)
    ensures forall x :: x in a <==> x in b
  {
    forall x ensures x in a <==> x in b {
      assert x in a <==> x in multiset(a);
      assert x in b <==> x in multiset(b);
    }
  }
}
