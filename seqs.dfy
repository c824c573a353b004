/** Positions of a sequence selected by a predicate: the reference against
    which the core's "keep the items that qualify, in order" loops are
    stated. */
module Seqs {
  /** The positions below `k` of the elements of `s` that satisfy `keep`,
      in increasing order. */
  function Positions<T>(s: seq<T>, keep: T -> bool, k: nat): seq<nat>
    requires k <= |s|
  {
    if k == 0 then [] else Positions(s, keep, k - 1) + (if keep(s[k - 1]) then [k - 1] else [])
  }

  /** The positions are exactly the qualifying ones below `k`, each listed
      once, in increasing order. */
  lemma {:induction false} PositionsAreKeptInOrder<T>(s: seq<T>, keep: T -> bool, k: nat)
    requires k <= |s|
    ensures forall i :: 0 <= i < |Positions(s, keep, k)| ==>
      Positions(s, keep, k)[i] < k && keep(s[Positions(s, keep, k)[i]])
    ensures forall i, j :: 0 <= i < j < |Positions(s, keep, k)| ==>
      Positions(s, keep, k)[i] < Positions(s, keep, k)[j]
    ensures forall j :: 0 <= j < k && keep(s[j]) ==> j in Positions(s, keep, k)
  {
    if k > 0 {
      PositionsAreKeptInOrder(s, keep, k - 1);
    }
  }

  /** When every element below `k` qualifies, the positions are 0, 1, …,
      k - 1. */
  lemma {:induction false} PositionsAllKept<T>(s: seq<T>, keep: T -> bool, k: nat)
    requires k <= |s|
    requires forall j :: 0 <= j < k ==> keep(s[j])
    ensures |Positions(s, keep, k)| == k
    ensures forall i :: 0 <= i < k ==> Positions(s, keep, k)[i] == i
  {
    if k > 0 {
      PositionsAllKept(s, keep, k - 1);
    }
  }

  /** The elements of `s` that satisfy `keep`, in order. */
  function Filter<T>(s: seq<T>, keep: T -> bool): seq<T> {
    if s == [] then [] else Filter(s[..|s| - 1], keep) + (if keep(s[|s| - 1]) then [s[|s| - 1]] else [])
  }

  /** The filtered prefix of length `k` lists the elements at the kept
      positions below `k`, one each, in order. */
  lemma {:induction false} FilterInOrder<T>(s: seq<T>, keep: T -> bool, k: nat)
    requires k <= |s|
    ensures var pos := Positions(s, keep, k);
      |Filter(s[..k], keep)| == |pos|
      && forall i :: 0 <= i < |pos| ==> pos[i] < k && Filter(s[..k], keep)[i] == s[pos[i]]
  {
    if k > 0 {
      FilterInOrder(s, keep, k - 1);
      assert s[..k][..k - 1] == s[..k - 1];
    }
  }
}
