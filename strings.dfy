/** PHP's `explode` and `implode` on strings, with the facts the transit layer relies on. */
module Strings {
  import opened Wrappers

  /** PHP's truthiness of a string: everything but `""` and `"0"`. */
  predicate Truthy(s: string) {
    s != "" && s != "0"
  }

  /** `sep` occurs in `t` starting at index `i`. */
  predicate OccursAt(t: string, sep: string, i: int) {
    0 <= i && i + |sep| <= |t| && t[i..i + |sep|] == sep
  }

  /** The leftmost occurrence of `sep` in `t` at or after `from` (PHP's strpos). */
  function IndexOf(t: string, sep: string, from: nat): (r: Option<nat>)
    requires |sep| > 0
    ensures r.Some? ==> from <= r.value && OccursAt(t, sep, r.value)
    ensures r.Some? ==> forall j :: from <= j < r.value ==> !OccursAt(t, sep, j)
    ensures r.None? ==> forall j :: from <= j ==> !OccursAt(t, sep, j)
    decreases |t| - from
  {
    if from + |sep| > |t| then None
    else if t[from..from + |sep|] == sep then Some(from)
    else IndexOf(t, sep, from + 1)
  }

  /**
    * `explode($sep, $t)` for a non-empty separator: the pieces between the
    * leftmost non-overlapping occurrences of `sep`.
    */
  function Explode(sep: string, t: string): (parts: seq<string>)
    requires |sep| > 0
    ensures |parts| >= 1
    decreases |t|
  {
    match IndexOf(t, sep, 0)
    case None => [t]
    case Some(i) => [t[..i]] + Explode(sep, t[i + |sep|..])
  }

  /** `implode($sep, $parts)`. */
  function Join(sep: string, parts: seq<string>): string
  {
    if |parts| == 0 then ""
    else if |parts| == 1 then parts[0]
    else parts[0] + sep + Join(sep, parts[1..])
  }

  lemma JoinCons(sep: string, head: string, tail: seq<string>)
    requires |tail| >= 1
    ensures Join(sep, [head] + tail) == head + sep + Join(sep, tail)
  {
    assert ([head] + tail)[1..] == tail;
  }

  lemma ThreeWaySplit(t: string, i: nat, j: nat)
    requires i <= j <= |t|
    ensures t == t[..i] + t[i..j] + t[j..]
  {
  }

  /** Joining the pieces with the separator gives back the exploded string. */
  lemma {:induction false} JoinExplode(sep: string, t: string)
    requires |sep| > 0
    ensures Join(sep, Explode(sep, t)) == t
    decreases |t|
  {
    var idx := IndexOf(t, sep, 0);
    if idx.None? {
      assert Explode(sep, t) == [t];
    } else {
      var i := idx.value;
      JoinExplode(sep, t[i + |sep|..]);
      JoinExplodeStep(sep, t, i);
    }
  }

  lemma JoinExplodeStep(sep: string, t: string, i: nat)
    requires |sep| > 0 && IndexOf(t, sep, 0) == Some(i)
    requires Join(sep, Explode(sep, t[i + |sep|..])) == t[i + |sep|..]
    ensures Join(sep, Explode(sep, t)) == t
  {
    var rest := t[i + |sep|..];
    var tail := Explode(sep, rest);
    assert Explode(sep, t) == [t[..i]] + tail;
    JoinCons(sep, t[..i], tail);
    assert t[i..i + |sep|] == sep;
    ThreeWaySplit(t, i, i + |sep|);
  }

  /** No piece of an explode contains the separator. */
  lemma {:induction false} ExplodePartsFree(sep: string, t: string)
    requires |sep| > 0
    ensures forall p, j :: p in Explode(sep, t) ==> !OccursAt(p, sep, j)
    decreases |t|
  {
    match IndexOf(t, sep, 0)
    case None =>
      assert Explode(sep, t) == [t];
    case Some(i) =>
      var rest := t[i + |sep|..];
      ExplodePartsFree(sep, rest);
      forall j | OccursAt(t[..i], sep, j) ensures false {
        assert t[j..j + |sep|] == t[..i][j..j + |sep|];
        assert OccursAt(t, sep, j);
      }
  }

  /** A string without the separator explodes to itself alone. */
  lemma ExplodeNoSeparator(sep: string, t: string)
    requires |sep| > 0
    requires forall j :: !OccursAt(t, sep, j)
    ensures Explode(sep, t) == [t]
  {
  }

  /** The leftmost occurrence at or after `from` is the first position where `sep` occurs. */
  lemma {:induction false} IndexOfFirst(t: string, sep: string, from: nat, k: nat)
    requires |sep| > 0 && from <= k && OccursAt(t, sep, k)
    requires forall j :: from <= j < k ==> !OccursAt(t, sep, j)
    ensures IndexOf(t, sep, from) == Some(k)
    decreases k - from
  {
    if from < k {
      assert !OccursAt(t, sep, from);
      IndexOfFirst(t, sep, from + 1, k);
    }
  }

  /** A string without the one-character separator is a single piece. */
  lemma ExplodeFree(c: char, t: string)
    requires c !in t
    ensures Explode([c], t) == [t]
  {
    assert forall j :: 0 <= j < |t| ==> t[j] != c;
    forall j ensures !OccursAt(t, [c], j) {
      if 0 <= j < |t| {
        assert t[j] != c;
      }
    }
    ExplodeNoSeparator([c], t);
  }

  /** Exploding on a one-character separator splits off a head free of it. */
  lemma ExplodeHead(c: char, head: string, rest: string)
    requires c !in head
    ensures Explode([c], head + [c] + rest) == [head] + Explode([c], rest)
  {
    var t := head + [c] + rest;
    assert forall j :: 0 <= j < |head| ==> head[j] != c;
    forall j | 0 <= j < |head| ensures !OccursAt(t, [c], j) {
      assert t[j] == head[j];
    }
    assert t[|head|..|head| + 1] == [c];
    IndexOfFirst(t, [c], 0, |head|);
    assert t[..|head|] == head;
    assert t[|head| + 1..] == rest;
  }

  lemma OccursShift(a: string, b: string, sep: string, j: int)
    requires OccursAt(b, sep, j)
    ensures OccursAt(a + b, sep, |a| + j)
  {
    assert (a + b)[|a| + j..|a| + j + |sep|] == b[j..j + |sep|];
  }

  /**
    * Exploding `left + sep + right` gives back the two operands exactly when
    * the separator occurs in that string nowhere but at the join.
    */
  lemma SplitAtOnlyOccurrence(sep: string, left: string, right: string)
    requires |sep| > 0
    requires forall j :: OccursAt(left + sep + right, sep, j) ==> j == |left|
    ensures Explode(sep, left + sep + right) == [left, right]
  {
    var g := left + sep + right;
    assert OccursAt(g, sep, |left|) by {
      assert g[|left|..|left| + |sep|] == sep;
    }
    var idx := IndexOf(g, sep, 0);
    assert idx == Some(|left|);
    assert g[..|left|] == left;
    assert g[|left| + |sep|..] == right;
    forall j | OccursAt(right, sep, j) ensures false {
      OccursShift(left + sep, right, sep, j);
    }
    ExplodeNoSeparator(sep, right);
  }

  /** The first piece of `explode('_', $id)`: the part of an ID before its first underscore. */
  function BeforeUnderscore(id: string): (r: string)
    ensures r == Explode("_", id)[0]
    ensures forall j :: !OccursAt(r, "_", j)
    ensures (forall j :: !OccursAt(id, "_", j)) ==> r == id
    ensures |r| <= |id| && r == id[..|r|]
  {
    ExplodePartsFree("_", id);
    match IndexOf(id, "_", 0)
    case None => id
    case Some(i) => id[..i]
  }
}
