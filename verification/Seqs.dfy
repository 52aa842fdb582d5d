/** Facts about concatenation that proofs cite by name. */
module Seqs {

  lemma Assoc<T>(a: seq<T>, b: seq<T>, c: seq<T>)
    ensures a + b + c == a + (b + c)
  {
  }

  lemma Parts<T>(a: seq<T>, b: seq<T>)
    ensures (a + b)[..|a|] == a && (a + b)[|a|..] == b
  {
  }

  /** Dropping inside the first part. */
  lemma DropFirst<T>(a: seq<T>, b: seq<T>, k: nat)
    requires k <= |a|
    ensures (a + b)[k..] == a[k..] + b
  {
  }

  lemma TakeFirst<T>(a: seq<T>, b: seq<T>, i: nat, j: nat)
    requires i <= j <= |a|
    ensures (a + b)[i..j] == a[i..j]
  {
  }

  lemma SliceOfSlice<T>(a: seq<T>, lo: nat, hi: nat, i: nat, j: nat)
    requires lo <= hi <= |a| && i <= j <= hi - lo
    ensures a[lo..hi][i..j] == a[lo + i..lo + j]
  {
    var x, y := a[lo..hi][i..j], a[lo + i..lo + j];
    assert |x| == |y|;
    assert forall k :: 0 <= k < |x| ==> x[k] == y[k];
  }

  lemma DropDrop<T>(a: seq<T>, i: nat, j: nat)
    requires i + j <= |a|
    ensures a[i..][j..] == a[i + j..]
  {
  }

  lemma Head<T>(a: seq<T>, b: seq<T>)
    requires a != []
    ensures a + b != [] && (a + b)[0] == a[0] && (a + b)[1..] == a[1..] + b
  {
  }

  lemma Cons<T>(a: seq<T>)
    requires a != []
    ensures a == [a[0]] + a[1..]
  {
  }

  lemma Snoc<T>(a: seq<T>, x: T)
    ensures (a + [x])[..|a|] == a && (a + [x])[|a|] == x
  {
  }

  lemma Last<T>(a: seq<T>)
    requires a != []
    ensures a == a[..|a| - 1] + [a[|a| - 1]]
  {
  }

  lemma Unit<T>(a: seq<T>)
    ensures a + [] == a && [] + a == a
  {
  }

  lemma Next<T>(a: seq<T>, i: nat)
    requires i < |a|
    ensures a[..i + 1] == a[..i] + [a[i]]
  {
  }

  // Lists given element by element: proofs hide the bodies and use the postconditions.

  function Five<T>(c0: T, c1: T, c2: T, c3: T, c4: T): (r: seq<T>)
    ensures |r| == 5 && r[0] == c0 && r[1] == c1 && r[2] == c2 && r[3] == c3 && r[4] == c4
  {
    [c0, c1, c2, c3, c4]
  }

  function Six<T>(c0: T, c1: T, c2: T, c3: T, c4: T, c5: T): (r: seq<T>)
    ensures |r| == 6 && r[0] == c0 && r[1] == c1 && r[2] == c2 && r[3] == c3 && r[4] == c4
    ensures r[5] == c5
  {
    [c0, c1, c2, c3, c4, c5]
  }

  function Nine<T>(c0: T, c1: T, c2: T, c3: T, c4: T, c5: T, c6: T, c7: T, c8: T): (r: seq<T>)
    ensures |r| == 9 && r[0] == c0 && r[1] == c1 && r[2] == c2 && r[3] == c3 && r[4] == c4
    ensures r[5] == c5 && r[6] == c6 && r[7] == c7 && r[8] == c8
  {
    [c0, c1, c2, c3, c4, c5, c6, c7, c8]
  }

  function Ten<T>(c0: T, c1: T, c2: T, c3: T, c4: T, c5: T, c6: T, c7: T, c8: T, c9: T): (r: seq<T>)
    ensures |r| == 10 && r[0] == c0 && r[1] == c1 && r[2] == c2 && r[3] == c3 && r[4] == c4
    ensures r[5] == c5 && r[6] == c6 && r[7] == c7 && r[8] == c8 && r[9] == c9
  {
    [c0, c1, c2, c3, c4, c5, c6, c7, c8, c9]
  }

  function Eleven<T>(c0: T, c1: T, c2: T, c3: T, c4: T, c5: T, c6: T, c7: T, c8: T, c9: T, c10: T): (r: seq<T>)
    ensures |r| == 11 && r[0] == c0 && r[1] == c1 && r[2] == c2 && r[3] == c3 && r[4] == c4
    ensures r[5] == c5 && r[6] == c6 && r[7] == c7 && r[8] == c8 && r[9] == c9 && r[10] == c10
  {
    [c0, c1, c2, c3, c4, c5, c6, c7, c8, c9, c10]
  }

  function Fourteen<T>(c0: T, c1: T, c2: T, c3: T, c4: T, c5: T, c6: T, c7: T, c8: T, c9: T, c10: T,
                       c11: T, c12: T, c13: T): (r: seq<T>)
    ensures |r| == 14 && r[0] == c0 && r[1] == c1 && r[2] == c2 && r[3] == c3 && r[4] == c4
    ensures r[5] == c5 && r[6] == c6 && r[7] == c7 && r[8] == c8 && r[9] == c9 && r[10] == c10
    ensures r[11] == c11 && r[12] == c12 && r[13] == c13
  {
    [c0, c1, c2, c3, c4, c5, c6, c7, c8, c9, c10, c11, c12, c13]
  }
}
