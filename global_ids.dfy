/**
  * Global view IDs: a provider-local route, stop or vehicle ID prefixed with
  * the system name and the configured separator (`system . sep . id`).
  */
module GlobalIds {
  import opened Wrappers
  import opened Strings

  /** The exception `getRealID` throws. */
  datatype IdError = InvalidGlobalID(globalID: string)

  /** `getGlobalID`: the system name, the separator, then the local ID. */
  function GlobalID(sep: string, system: string, id: string): (g: string)
    ensures |g| == |system| + |sep| + |id|
    ensures g[..|system|] == system && g[|system|..|system| + |sep|] == sep
    ensures g[|system| + |sep|..] == id
  {
    system + sep + id
  }

  /**
    * `getRealID`: splits on the separator and accepts exactly two pieces.
    * An empty separator makes `explode` fail, which ends in an error too.
    */
  function RealID(sep: string, g: string): (r: Result<(string, string), IdError>)
    ensures r.Ok? <==> |sep| > 0 && |Explode(sep, g)| == 2
    ensures r.Err? ==> r.error == InvalidGlobalID(g)
    ensures r.Ok? ==> r.value.0 + sep + r.value.1 == g
    ensures r.Ok? ==> forall j :: !OccursAt(r.value.0, sep, j) && !OccursAt(r.value.1, sep, j)
  {
    if |sep| == 0 then Err(InvalidGlobalID(g))
    else
      var parts := Explode(sep, g);
      if |parts| == 2 then
        JoinExplode(sep, g);
        assert Join(sep, parts) == parts[0] + sep + parts[1] by {
          assert parts[1..] == [parts[1]];
        }
        ExplodePartsFree(sep, g);
        assert parts[0] in parts && parts[1] in parts;
        Ok((parts[0], parts[1]))
      else
        Err(InvalidGlobalID(g))
  }

  /**
    * The round trip holds whenever the separator occurs in the joined ID
    * only where it was put.
    */
  lemma RoundTrip(sep: string, system: string, id: string)
    requires |sep| > 0
    requires forall j :: OccursAt(GlobalID(sep, system, id), sep, j) ==> j == |system|
    ensures RealID(sep, GlobalID(sep, system, id)) == Ok((system, id))
  {
    assert GlobalID(sep, system, id) == system + sep + id;
    SplitAtOnlyOccurrence(sep, system, id);
  }

  /**
    * A simple sufficient condition: no character of the separator appears in
    * the system name or in the local ID (with the default `__`, neither
    * contains an underscore).
    */
  lemma RoundTripWithoutSeparatorChars(sep: string, system: string, id: string)
    requires |sep| > 0
    requires forall c :: c in sep ==> c !in system && c !in id
    ensures RealID(sep, GlobalID(sep, system, id)) == Ok((system, id))
  {
    var g := GlobalID(sep, system, id);
    assert sep[0] in sep && sep[|sep| - 1] in sep;
    assert forall i :: 0 <= i < |system| ==> system[i] != sep[0];
    assert forall i :: 0 <= i < |id| ==> id[i] != sep[|sep| - 1];
    forall j | OccursAt(g, sep, j) ensures j == |system| {
      assert g[j..j + |sep|] == sep;
      assert g[j] == sep[0];
      assert g[j + |sep| - 1] == sep[|sep| - 1];
    }
    RoundTrip(sep, system, id);
  }

  /**
    * Separator-free parts are not enough: with the default separator `__`,
    * system `a_` and local ID `b` join to `a___b`, which splits at the first
    * `__` into `a` and `_b`.
    */
  lemma SeparatorStraddlesJoin()
    ensures GlobalID("__", "a_", "b") == "a___b"
    ensures forall j :: !OccursAt("a_", "__", j) && !OccursAt("b", "__", j)
    ensures RealID("__", GlobalID("__", "a_", "b")) == Ok(("a", "_b"))
  {
    var g := GlobalID("__", "a_", "b");
    assert g == "a___b";
    assert IndexOf(g, "__", 0) == Some(1) by {
      assert g[0..2] != "__" by { assert g[0] == 'a'; }
      assert g[1..3] == "__";
    }
    assert g[3..] == "_b";
    assert IndexOf("_b", "__", 0) == None by {
      assert "_b"[0..2] != "__" by { assert "_b"[1] == 'b'; }
    }
    assert Explode("__", "_b") == ["_b"];
    assert g[..1] == "a";
    assert Explode("__", g) == [g[..1]] + Explode("__", g[3..]);
  }
}
