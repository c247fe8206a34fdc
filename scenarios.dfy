/**
 * Clients of ArrayReader that use only its contracts: the example in the
 * reverse() documentation, the empty and two-element boundary cases, double
 * reversal, and the isolation of a tagged value from later moves.
 */
module ReaderScenarios {
  import opened Wrappers
  import opened Reflection
  import opened Reader

  /** A fresh reader is at index 0: it shows the first element, or None when empty. */
  method FirstValue<T>(input: Option<seq<T>>) returns (v: Option<T>, more: bool)
    ensures v == if input.Some? && |input.value| > 0 then Some(input.value[0]) else None
    ensures more <==> input.Some? && |input.value| > 1
  {
    var r := new ArrayReader(input);
    v := r.Current();
    more := r.HasNext();
  }

  /**
   * [1, 2, 3, 4, 5] with the cursor on 4: reversal keeps 4 current, the view
   * becomes [5, 4, 3, 2, 1], and the next step reads 3.
   */
  method DocumentedReversal() returns (before: Option<int>, after: Option<int>, view: seq<int>, following: Option<int>)
    ensures before == Some(4) && after == Some(4)
    ensures view == [5, 4, 3, 2, 1]
    ensures following == Some(3)
  {
    var r := new ArrayReader(Some([1, 2, 3, 4, 5]));
    var _ := r.Next();
    var _ := r.Next();
    before := r.Next();
    assert r.currIndex == 3;
    r.Reverse();
    after := r.Current();
    view := r.arr;
    forall k | 0 <= k < 5
      ensures view[k] == [5, 4, 3, 2, 1][k]
    {
      ReversedAt([1, 2, 3, 4, 5], k);
    }
    following := r.Next();
  }

  /** An empty or absent input: nothing ahead, every read is None, reversal is harmless. */
  method EmptyReader(input: Option<seq<int>>) returns (more: bool, first: Option<int>, advanced: Option<int>, afterReverse: Option<int>)
    requires input == None || input == Some([])
    ensures !more && first == None && advanced == None && afterReverse == None
  {
    var r := new ArrayReader(input);
    more := r.HasNext();
    first := r.Current();
    advanced := r.Next();
    r.Reverse();
    afterReverse := r.Current();
  }

  /**
   * [1, 2] walked to the end parks at index 2; reversal moves it to -1 with no
   * current value, and HasNext is then true because index 0 lies ahead.
   */
  method TwoElementsReversedAtEnd() returns (index: int, current: Option<int>, more: bool, advanced: Option<int>)
    ensures index == -1 && current == None && more
    ensures advanced == Some(2)
  {
    var r := new ArrayReader(Some([1, 2]));
    var _ := r.Next();
    var _ := r.Next();
    var _ := r.Next();
    assert r.currIndex == 2;
    r.Reverse();
    index := r.currIndex;
    current := r.Current();
    more := r.HasNext();
    ReversedAt([1, 2], 0);
    advanced := r.Next();
  }

  /** Two reversals in a row restore the view, the index and what the reader reports. */
  method ReverseTwice<T>(r: ArrayReader<T>)
    requires r.Valid()
    modifies r
    ensures r.Valid()
    ensures r.arr == old(r.arr) && r.currIndex == old(r.currIndex)
    ensures r.Current() == old(r.Current()) && r.HasNext() == old(r.HasNext())
    ensures r.Forward() == old(r.Forward())
  {
    r.Reverse();
    r.Reverse();
    ReversedInvolution(old(r.arr));
    MirrorInvolution(|r.arr|, old(r.currIndex));
  }

  /** A tagged value survives any later moves of the reader. */
  method TagThenMove<T>(r: ArrayReader<T>) returns (tagged: Option<T>, now: Option<T>)
    requires r.Valid()
    modifies r
    ensures r.Valid()
    ensures tagged == old(r.Current())
    ensures now == r.Current()
  {
    var t := r.Tag();
    var _ := r.Next();
    r.Reverse();
    var _ := r.Next();
    tagged := t.captured;
    now := r.Current();
  }
}
