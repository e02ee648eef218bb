/** Order-preserving filtering of sequences, the model of a Python list comprehension
    `[x for x in s if p(x)]`. */
module Seqs {

  /** The positions of the elements of `s` that satisfy `p`, in increasing order.
      Together the three last ensures characterize the result uniquely. */
  function Positions<T>(s: seq<T>, p: T -> bool): (r: seq<nat>)
    ensures |r| <= |s|
    ensures forall j :: 0 <= j < |r| ==> r[j] < |s| && p(s[r[j]])
    ensures forall j, k :: 0 <= j < k < |r| ==> r[j] < r[k]
    ensures forall i :: 0 <= i < |s| && p(s[i]) ==> i in r
    decreases |s|
  {
    if |s| == 0 then []
    else
      var init := Positions(s[..|s| - 1], p);
      if p(s[|s| - 1]) then init + [|s| - 1] else init
  }

  /** When every element satisfies `p`, every position is kept. */
  lemma {:induction false} PositionsOfAll<T>(s: seq<T>, p: T -> bool)
    requires forall j :: 0 <= j < |s| ==> p(s[j])
    ensures Positions(s, p) == seq(|s|, i => i)
    decreases |s|
  {
    if |s| > 0 {
      PositionsOfAll(s[..|s| - 1], p);
      assert seq(|s|, i => i) == seq(|s| - 1, i => i) + [|s| - 1];
    }
  }

  /** The elements of `s` at the given positions. */
  function Pick<T>(s: seq<T>, idx: seq<nat>): (r: seq<T>)
    requires forall j :: 0 <= j < |idx| ==> idx[j] < |s|
    ensures |r| == |idx|
    ensures forall j :: 0 <= j < |idx| ==> r[j] == s[idx[j]]
  {
    seq(|idx|, j requires 0 <= j < |idx| => s[idx[j]])
  }

  /** The subsequence of `s` whose elements satisfy `p`. */
  function Filter<T(!new)>(s: seq<T>, p: T -> bool): (r: seq<T>)
    ensures |r| <= |s|
    ensures forall x :: x in r <==> x in s && p(x)
  {
    var idx := Positions(s, p);
    var r := Pick(s, idx);
    assert forall x :: x in s && p(x) ==> x in r by {
      forall x | x in s && p(x)
        ensures x in r
      {
        var i :| 0 <= i < |s| && s[i] == x;
        var j :| 0 <= j < |idx| && idx[j] == i;
        assert r[j] == x;
      }
    }
    r
  }
}
