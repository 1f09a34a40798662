/**
 * Python's built-in dict as this program uses it: string keys, and iteration
 * in insertion order. Assigning to a present key keeps its position,
 * assigning to a new key appends it, deleting a key closes the gap.
 */
module Dicts {

  /** No element occurs twice. */
  ghost predicate Distinct<T>(s: seq<T>) {
    forall i, j :: 0 <= i < j < |s| ==> s[i] != s[j]
  }

  /** `s` with `x` taken out, the other elements in their order. */
  function Without(s: seq<string>, x: string): (r: seq<string>)
    ensures forall y :: y in r <==> y in s && y != x
    ensures Distinct(s) ==> Distinct(r)
  {
    if s == [] then []
    else if s[0] == x then Without(s[1..], x)
    else
      var rest := Without(s[1..], x);
      DistinctCons(s, rest);
      [s[0]] + rest
  }

  /** Putting back the head of a duplicate-free sequence in front of part of its tail keeps it duplicate-free. */
  lemma DistinctCons(s: seq<string>, rest: seq<string>)
    requires s != [] && (forall y :: y in rest ==> y in s[1..])
    ensures Distinct(s) && Distinct(rest) ==> Distinct([s[0]] + rest)
  {
    if Distinct(s) && Distinct(rest) {
      assert s[0] !in s[1..] by {
        forall j | 0 <= j < |s| - 1 ensures s[1..][j] != s[0] {
          assert s[1..][j] == s[j + 1];
        }
      }
      var r := [s[0]] + rest;
      forall i, j | 0 <= i < j < |r| ensures r[i] != r[j] {
        if i == 0 {
          assert r[j] == rest[j - 1] && r[j] in rest;
        } else {
          assert r[i] == rest[i - 1] && r[j] == rest[j - 1];
        }
      }
    }
  }

  /** An ordered dictionary: `keys` is the iteration order, `vals` the table. */
  datatype Dict<V> = Dict(keys: seq<string>, vals: map<string, V>) {

    /** Every key is listed exactly once, and only keys are listed. */
    ghost predicate Valid() {
      Distinct(keys) && (forall k :: k in keys <==> k in vals)
    }

    /** `d[k] = v` */
    function Set(k: string, v: V): (d: Dict<V>)
      ensures Valid() ==> d.Valid()
    {
      if k in vals then Dict(keys, vals[k := v]) else Dict(keys + [k], vals[k := v])
    }

    /** `del d[k]` */
    function Remove(k: string): (d: Dict<V>)
      ensures Valid() ==> d.Valid()
    {
      Dict(Without(keys, k), vals - {k})
    }
  }

  function Empty<V>(): (d: Dict<V>)
    ensures d.Valid() && d.keys == [] && d.vals == map[]
  {
    Dict([], map[])
  }
}
