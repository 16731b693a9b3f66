/** Sequences with one element put in or taken out, and families of sequences. */
module Sequences {
  function InsertAt<T>(s: seq<T>, i: nat, x: T): (r: seq<T>)
    requires i <= |s|
    ensures |r| == |s| + 1
    ensures forall j | 0 <= j < |r| :: r[j] == if j < i then s[j] else if j == i then x else s[j - 1]
  {
    s[..i] + [x] + s[i..]
  }

  function RemoveAt<T>(s: seq<T>, i: nat): (r: seq<T>)
    requires i < |s|
    ensures |r| == |s| - 1
    ensures forall j | 0 <= j < |r| :: r[j] == s[if j < i then j else j + 1]
  {
    s[..i] + s[i + 1..]
  }

  // ---------------------------------------------------------------- several sequences

  ghost predicate Distinct<T>(r: seq<T>) {
    forall i, j | 0 <= i < j < |r| :: r[i] != r[j]
  }

  ghost predicate Disjoint<T>(a: seq<T>, b: seq<T>) {
    forall x | x in a :: x !in b
  }

  /** x is on none of them. */
  ghost predicate Outside<T>(x: T, rs: seq<seq<T>>) {
    forall k | 0 <= k < |rs| :: x !in rs[k]
  }

  /** All that stands on them. */
  ghost function Nodes<T>(rs: seq<seq<T>>): (s: set<T>)
    ensures forall k, x | 0 <= k < |rs| && x in rs[k] :: x in s
  {
    set k, x | 0 <= k < |rs| && x in rs[k] :: x
  }

  lemma OnlyOn<T>(rs: seq<seq<T>>, k: nat, x: T)
    requires (forall i, j | 0 <= i < j < |rs| :: Disjoint(rs[i], rs[j])) && k < |rs| && x in rs[k]
    ensures forall j, i | 0 <= j < |rs| && j != k && 0 <= i < |rs[j]| :: rs[j][i] != x
  {
    forall j, i | 0 <= j < |rs| && j != k && 0 <= i < |rs[j]|
      ensures rs[j][i] != x
    {
      if j < k {
        assert Disjoint(rs[j], rs[k]);
        assert rs[j][i] in rs[j];
      } else {
        assert Disjoint(rs[k], rs[j]);
      }
    }
  }
}
