/**
 * The analyser's results: a dictionary from check name to verdict text. Python dictionaries
 * keep insertion order, and assigning to a key that is already there keeps its place.
 */
module Results {
  import opened Text

  type ResultMap = seq<(string, string)>

  function Keys(r: ResultMap): (ks: seq<string>)
    ensures |ks| == |r| && forall i | 0 <= i < |r| :: ks[i] == r[i].0
  {
    if r == [] then [] else [r[0].0] + Keys(r[1..])
  }

  predicate DistinctKeys(r: ResultMap) {
    forall i, j | 0 <= i < j < |r| :: r[i].0 != r[j].0
  }

  /** `r.get(key)`. */
  function Lookup(r: ResultMap, key: string): (v: Option<string>)
    ensures v.None? <==> key !in Keys(r)
    ensures v.Some? ==> exists i | 0 <= i < |r| :: r[i] == (key, v.value)
  {
    if r == [] then None
    else if r[0].0 == key then Some(r[0].1)
    else
      var v := Lookup(r[1..], key);
      assert Keys(r) == [r[0].0] + Keys(r[1..]);
      if v.Some? then
        var i :| 0 <= i < |r[1..]| && r[1..][i] == (key, v.value);
        assert r[i + 1] == (key, v.value);
        v
      else v
  }

  /** `r[key] = value`: the value of an existing key is replaced where it stands; a new key goes last. */
  function Assigned(r: ResultMap, key: string, value: string): (r': ResultMap)
    ensures key in Keys(r) ==> Keys(r') == Keys(r)
    ensures key !in Keys(r) ==> r' == r + [(key, value)]
  {
    if r == [] then [(key, value)]
    else if r[0].0 == key then [(key, value)] + r[1..]
    else
      assert Keys(r) == [r[0].0] + Keys(r[1..]);
      var rest := Assigned(r[1..], key, value);
      assert key !in Keys(r[1..]) ==> [r[0]] + rest == r + [(key, value)];
      [r[0]] + rest
  }

  /** A key no entry has is appended. */
  lemma AssignedNew(r: ResultMap, key: string, value: string)
    requires forall i | 0 <= i < |r| :: r[i].0 != key
    ensures Assigned(r, key, value) == r + [(key, value)]
  {
  }

  /** Assigning a key that is not among the keys appends it, keys included. */
  lemma AssignedFresh(r: ResultMap, ks: seq<string>, key: string, value: string)
    requires Keys(r) == ks && key !in ks
    ensures Assigned(r, key, value) == r + [(key, value)]
    ensures Keys(r + [(key, value)]) == ks + [key]
  {
    var r' := r + [(key, value)];
    assert forall i | 0 <= i < |r'| :: Keys(r')[i] == (ks + [key])[i];
  }

  /** An assignment never doubles a key. */
  lemma AssignedKeepsKeysDistinct(r: ResultMap, key: string, value: string)
    requires DistinctKeys(r)
    ensures DistinctKeys(Assigned(r, key, value))
  {
    var r' := Assigned(r, key, value);
    if key in Keys(r) {
      forall i, j | 0 <= i < j < |r'| ensures r'[i].0 != r'[j].0 {
        assert r'[i].0 == Keys(r')[i] == Keys(r)[i] == r[i].0;
        assert r'[j].0 == Keys(r')[j] == Keys(r)[j] == r[j].0;
      }
    } else {
      forall i, j | 0 <= i < j < |r'| ensures r'[i].0 != r'[j].0 {
        if j == |r| {
          assert Keys(r)[i] == r[i].0;
        }
      }
    }
  }

  /** After an assignment the key holds the new value ... */
  lemma {:induction false} AssignedLookupKey(r: ResultMap, key: string, value: string)
    ensures Lookup(Assigned(r, key, value), key) == Some(value)
  {
    if r != [] && r[0].0 != key {
      AssignedLookupKey(r[1..], key, value);
      assert Assigned(r, key, value)[1..] == Assigned(r[1..], key, value);
    }
  }

  /** ... and every other key keeps its own. */
  lemma {:induction false} AssignedLookupOther(r: ResultMap, key: string, value: string, other: string)
    requires other != key
    ensures Lookup(Assigned(r, key, value), other) == Lookup(r, other)
  {
    if r != [] && r[0].0 != key {
      AssignedLookupOther(r[1..], key, value, other);
      assert Assigned(r, key, value)[1..] == Assigned(r[1..], key, value);
    } else if r != [] {
      assert Assigned(r, key, value)[1..] == r[1..];
    }
  }
}
