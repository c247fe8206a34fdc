/**
 * Reversal of a sequence and the reflection of an index about the
 * sequence's centre: the two pieces of arithmetic that ArrayReader.reverse
 * relies on to keep the current element in place.
 */
module Reflection {
  import opened Wrappers

  /** The element at index i of s, or None when i is outside [0, |s|). */
  function ElementAt<T>(s: seq<T>, i: int): (r: Option<T>)
    ensures r.Some? <==> 0 <= i < |s|
    ensures r.Some? ==> r.value in s
  {
    if 0 <= i < |s| then Some(s[i]) else None
  }

  /** s in the opposite order. */
  function Reversed<T>(s: seq<T>): (r: seq<T>)
    ensures |r| == |s|
  {
    if s == [] then [] else Reversed(s[1..]) + [s[0]]
  }

  /** Index k of the reversed sequence holds the element at the mirrored index. */
  lemma {:induction false} ReversedAt<T>(s: seq<T>, k: int)
    requires 0 <= k < |s|
    ensures Reversed(s)[k] == s[|s| - 1 - k]
  {
    if k < |s| - 1 {
      ReversedAt(s[1..], k);
    }
  }

  /** Reversing twice gives back the original order. */
  lemma {:induction false} ReversedInvolution<T>(s: seq<T>)
    ensures Reversed(Reversed(s)) == s
  {
    var rr := Reversed(Reversed(s));
    forall k | 0 <= k < |s|
      ensures rr[k] == s[k]
    {
      ReversedAt(Reversed(s), k);
      ReversedAt(s, |s| - 1 - k);
    }
  }

  /** The reflection as the source writes it, about the fractional middle (n - 1) / 2. */
  ghost function FractionalMirror(n: nat, i: int): (r: real)
    ensures (i as real + r) / 2.0 == (n - 1) as real / 2.0
  {
    var middle := (n - 1) as real / 2.0;
    middle - (i as real - middle)
  }

  /**
   * Index i reflected about the centre of a sequence of length n, on integers.
   * It equals the fractional formula exactly, keeps the range [-1, n], swaps the
   * two out-of-bounds parking places -1 and n, and maps valid indices to valid ones.
   */
  function Mirror(n: nat, i: int): (j: int)
    ensures j as real == FractionalMirror(n, i)
    ensures -1 <= i <= n ==> -1 <= j <= n
    ensures i == n <==> j == -1
    ensures i == -1 <==> j == n
    ensures 0 <= i < n <==> 0 <= j < n
  {
    (n - 1) - i
  }

  lemma MirrorInvolution(n: nat, i: int)
    ensures Mirror(n, Mirror(n, i)) == i
  {
  }

  /**
   * Reading the reversed sequence at the mirrored index gives what the original
   * gives at the index, in bounds and out of bounds alike.
   */
  lemma ReversedElementAt<T>(s: seq<T>, i: int)
    ensures ElementAt(Reversed(s), Mirror(|s|, i)) == ElementAt(s, i)
  {
    if 0 <= i < |s| {
      ReversedAt(s, Mirror(|s|, i));
    }
  }

  /**
   * A fresh copy of s, reversed in place the way Array.prototype.reverse does
   * it: the element pairs at lower and upper = len - 1 - lower are swapped for
   * each lower below len / 2.
   */
  method ReversedCopy<T>(s: seq<T>) returns (r: seq<T>)
    ensures r == Reversed(s)
  {
    var a := new T[|s|](k requires 0 <= k < |s| => s[k]);
    var n := a.Length;
    var lower := 0;
    while lower < n / 2
      invariant 0 <= lower <= n / 2
      invariant forall k :: 0 <= k < lower ==> a[k] == s[n - 1 - k] && a[n - 1 - k] == s[k]
      invariant forall k :: lower <= k < n - lower ==> a[k] == s[k]
    {
      var upper := n - 1 - lower;
      a[lower], a[upper] := a[upper], a[lower];
      lower := lower + 1;
    }
    r := a[..];
    forall k | 0 <= k < n
      ensures r[k] == Reversed(s)[k]
    {
      ReversedAt(s, k);
    }
  }
}
