/**
 * ArrayReader: a cursor over a private snapshot of a sequence. Its state is an
 * index in [-1, length] into the active view (the snapshot in its original or
 * reversed order) and a counter of reversals that selects between two cached
 * views built on the first reversal.
 */
module Reader {
  import opened Wrappers
  import opened Reflection

  /**
   * The accessor that tag() hands out: an immutable value whose `captured`
   * field plays the role of calling the returned closure.
   */
  datatype Tagged<T> = Tagged(captured: Option<T>)

  /** The view that is active after k reversals of the snapshot s. */
  function ViewAfter<T>(s: seq<T>, k: nat): (v: seq<T>)
    ensures |v| == |s|
    ensures k % 2 == 1 ==> Reversed(v) == s
  {
    if k % 2 == 0 then s else ReversedInvolution(s); Reversed(s)
  }

  /**
   * Switching between the two cached views behaves as reversing the active
   * view on every call.
   */
  lemma ViewAfterNext<T>(s: seq<T>, k: nat)
    ensures ViewAfter(s, k + 1) == Reversed(ViewAfter(s, k))
  {
    if k % 2 == 1 {
      ReversedInvolution(s);
    }
  }

  /**
   * Reading the view after k reversals at index i reads the snapshot at i,
   * or at the mirror of i when the view is the reversed one.
   */
  lemma ViewElementAt<T>(s: seq<T>, k: nat, i: int)
    ensures ElementAt(ViewAfter(s, k), i) == ElementAt(s, if k % 2 == 0 then i else Mirror(|s|, i))
  {
    if k % 2 == 1 {
      MirrorInvolution(|s|, i);
      ReversedElementAt(s, Mirror(|s|, i));
    }
  }

  class ArrayReader<T> {
    var arr: seq<T>
    var currIndex: int
    var reversalCounter: nat
    var origArr: Option<seq<T>>
    var reversedArr: Option<seq<T>>
    /** The snapshot taken at construction; it never changes afterwards. */
    ghost var elements: seq<T>

    ghost predicate Valid()
      reads this
    {
      && -1 <= currIndex <= |arr|
      && arr == ViewAfter(elements, reversalCounter)
      && (reversalCounter == 0 ==> origArr == None && reversedArr == None)
      && (reversalCounter > 0 ==> origArr == Some(elements) && reversedArr == Some(Reversed(elements)))
    }

    /** Whether the active view is the snapshot in its original order. */
    ghost predicate Forward()
      reads this
    {
      reversalCounter % 2 == 0
    }

    /** The cursor's index expressed in the snapshot's original order. */
    ghost function Position(): (p: int)
      reads this
      requires Valid()
      ensures -1 <= p <= |elements|
    {
      if Forward() then currIndex else Mirror(|arr|, currIndex)
    }

    /** An absent or invalid argument gives an empty reader; the index starts at 0. */
    constructor (input: Option<seq<T>>)
      ensures Valid()
      ensures elements == (if input.Some? then input.value else [])
      ensures arr == elements && currIndex == 0 && reversalCounter == 0
      ensures origArr == None && reversedArr == None
    {
      var copy := if input.Some? then input.value else [];
      arr := copy;
      currIndex := 0;
      reversalCounter := 0;
      origArr := None;
      reversedArr := None;
      elements := copy;
    }

    /**
     * True exactly when a further element lies ahead in the direction of
     * travel: the next index of the active view is in bounds, which in the
     * original order is the following element going forward and the preceding
     * one after an odd number of reversals. Never true when empty.
     */
    function HasNext(): (b: bool)
      reads this
      requires Valid()
      ensures b <==> ElementAt(arr, currIndex + 1).Some?
      ensures b <==> ElementAt(elements, if Forward() then Position() + 1 else Position() - 1).Some?
      ensures |arr| == 0 ==> !b
    {
      currIndex >= -1 && currIndex < |arr| - 1
    }

    /**
     * The element at the cursor, or None at either parking place -1 and
     * length; it is the snapshot's element at the cursor's original-order
     * position.
     */
    function Current(): (v: Option<T>)
      reads this
      requires Valid()
      ensures v == None <==> currIndex == -1 || currIndex == |arr|
      ensures v == ElementAt(elements, Position())
    {
      ViewElementAt(elements, reversalCounter, currIndex);
      if currIndex < 0 || currIndex >= |arr| then None else Some(arr[currIndex])
    }

    /**
     * Moves one step in the direction of travel, stopping at length, and
     * returns the new current value. It yields a value exactly when HasNext
     * held before the call.
     */
    method Next() returns (v: Option<T>)
      requires Valid()
      modifies this`currIndex
      ensures Valid()
      ensures currIndex == if old(currIndex) < |arr| then old(currIndex) + 1 else |arr|
      ensures v == Current()
      ensures v.Some? <==> old(HasNext())
      ensures Position() == if Forward()
                            then (if old(Position()) < |elements| then old(Position()) + 1 else |elements|)
                            else (if old(Position()) > -1 then old(Position()) - 1 else -1)
    {
      if currIndex < |arr| {
        currIndex := currIndex + 1;
      }
      v := Current();
    }

    /** An accessor holding the current value at the moment of the call. */
    function Tag(): (t: Tagged<T>)
      reads this
      requires Valid()
      ensures t.captured == Current()
      ensures t.captured == ElementAt(elements, Position())
    {
      Tagged(Current())
    }

    /**
     * Flips the active view and reflects the index about the view's centre,
     * so the current value and the original-order position are unchanged.
     * The two cached views are built on the first call only, from the
     * snapshot, and are never changed afterwards.
     */
    method Reverse()
      requires Valid()
      modifies this`arr, this`currIndex, this`reversalCounter, this`origArr, this`reversedArr
      ensures Valid()
      ensures arr == Reversed(old(arr))
      ensures currIndex == Mirror(|arr|, old(currIndex))
      ensures reversalCounter == old(reversalCounter) + 1
      ensures arr == if reversalCounter % 2 == 0 then origArr.value else reversedArr.value
      ensures old(reversalCounter) > 0 ==> origArr == old(origArr) && reversedArr == old(reversedArr)
      ensures Current() == old(Current())
      ensures Position() == old(Position())
    {
      if reversalCounter == 0 {
        origArr := Some(arr);
        var reversed := ReversedCopy(arr);
        reversedArr := Some(reversed);
      }
      ViewAfterNext(elements, reversalCounter);
      MirrorInvolution(|arr|, currIndex);
      reversalCounter := reversalCounter + 1;
      arr := if reversalCounter % 2 == 0 then origArr.value else reversedArr.value;
      currIndex := Mirror(|arr|, currIndex);
    }
  }
}
