/** Definitions shared by the other modules. */
module Common {

  datatype Option<T> = None | Some(value: T)

  /** The k-th power of two. */
  function Pow2(k: nat): (r: nat)
    ensures r > 0
  {
    if k == 0 then 1 else 2 * Pow2(k - 1)
  }

  predicate HasPrefix(s: string, p: string) {
    |s| >= |p| && s[..|p|] == p
  }

  predicate IsDigit(c: char) { '0' <= c <= '9' }

  /** A subset has at most as many members. */
  lemma {:induction false} SubsetSize<T>(s: set<T>, t: set<T>)
    requires s <= t
    ensures |s| <= |t|
  {
    if s != {} {
      var x :| x in s;
      SubsetSize(s - {x}, t - {x});
    }
  }

  /** Distinct entries, all of them members of a set, are no more than its members. */
  lemma {:induction false} DistinctCount<T>(s: seq<T>, t: set<T>)
    requires forall i, j :: 0 <= i < j < |s| ==> s[i] != s[j]
    requires forall i :: 0 <= i < |s| ==> s[i] in t
    ensures |s| <= |t|
  {
    if |s| > 0 {
      var x := s[|s| - 1];
      DistinctCount(s[..|s| - 1], t - {x});
    }
  }

  function UpTo(j: nat): (r: set<nat>)
    ensures |r| == j && forall x :: x in r <==> 1 <= x <= j
  {
    if j == 0 then {} else UpTo(j - 1) + {j}
  }
}
