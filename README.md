# ArrayReader, modelled in Dafny

`ArrayReader` (arrayReader.js) is a small iterator over a private copy of an
array. Its state is an index `currIndex`, always in `[-1, length]`, into the
active array `arr`. `hasNext`, `next`, `current` and `tag` read or advance that
index. `reverse` switches `arr` to the opposite order. It also reflects the index
about the array's centre, so the current element stays current. The first
reversal builds two cached copies, one in original order and one reversed.
Every later reversal only re-points `arr` at one of them, chosen by the parity
of `reversalCounter`.

The model has four modules:

- `Wrappers`: `Option`, whose `None` stands for the `null` sentinel.
- `Reflection`: `Reversed` and the index reflection `Mirror`, with their lemmas.
  `Mirror` is the integer form `(n - 1) - i` of the source's fractional formula,
  and its contract proves the two equal. `ReversedCopy` models
  `arr.slice(0).reverse()` with an explicit array and the swap loop that
  `Array.prototype.reverse` performs.
- `Reader`: the class `ArrayReader` with the source's closure variables as
  fields. `origArr` and `reversedArr` are `Option<seq<T>>`, because they are
  undefined until the first reversal. A ghost field `elements` holds the
  snapshot taken at construction. `Valid()` ties every field to it: the active
  view is `ViewAfter(elements, reversalCounter)`, and once built the caches are
  the snapshot and its reverse. `Position()` is the index read in the
  snapshot's original order. `Reverse` leaves it unchanged. `Next` moves it one
  step in the direction of travel.
- `ReaderScenarios`: clients that use only the class's contracts. They cover
  the example in the `reverse` documentation, the empty and two-element
  boundary cases, double reversal and tag isolation.

Reversing a reader that was walked to the end puts its index at -1.
`hasNext` then returns true for any non-empty array, since `-1 < length - 1`.
`TwoElementsReversedAtEnd` proves this for `[1, 2]`.

## Model

| member | source | states |
|---|---|---|
| `Reflection.ElementAt` | arrayReader.js:80-85 | the read that `current()` performs: a value exactly when the index is in `[0, length)`, and then an element of the array |
| `Reflection.FractionalMirror` | arrayReader.js:127-128 | the source's formula over exact rationals: the index and its image lie at equal distance on either side of the middle `(n - 1) / 2` |
| `Reflection.Reversed` | arrayReader.js:115 | reversal keeps the length |
| `Reflection.ReversedAt` | arrayReader.js:115 | index k of the reversed array holds the element at length - 1 - k |
| `Reflection.ReversedInvolution` | arrayReader.js:113-120 | reversing twice restores the original order, which is why the two cached copies can stand in for repeated reversal |
| `Reflection.ReversedCopy` | arrayReader.js:115 | the in-place swap loop on a fresh copy yields exactly the reversed sequence |
| `Reflection.Mirror` | arrayReader.js:125-128 | the integer reflection equals `middle - (i - middle)` with `middle = (n - 1) / 2` computed exactly; it keeps `[-1, n]`, maps n to -1 and -1 to n, and maps valid indices to valid indices |
| `Reflection.MirrorInvolution` | arrayReader.js:125-128 | reflecting twice gives back the index |
| `Reflection.ReversedElementAt` | arrayReader.js:100-106 | reading the reversed array at the reflected index gives the same element or the same sentinel as reading the original at the index |
| `Reader.ViewAfter` | arrayReader.js:118-120 | the array chosen by counter parity has the snapshot's length, and on odd counts it is the sequence whose reverse is the snapshot |
| `Reader.ViewElementAt` | arrayReader.js:118-120 | the view after k reversals read at i is the snapshot read at i (k even) or at the reflection of i (k odd) |
| `Reader.ViewAfterNext` | arrayReader.js:113-123 | choosing between the original and reversed caches by counter parity is the same as reversing the active array on every call |
| `Reader.ArrayReader.Position` | arrayReader.js:38-41 | the index, read in original order, stays within `[-1, length]` |
| `Reader.ArrayReader.constructor` | arrayReader.js:32-48 | the reader holds the input, or `[]` when the input is absent or invalid; the index is 0, the counter 0 and no cache exists; the invariant holds from the start |
| `Reader.ArrayReader.HasNext` | arrayReader.js:50-56 | true exactly when the next index of the active array is in bounds, that is when an element lies ahead in the direction of travel; never true for an empty array |
| `Reader.ArrayReader.Current` | arrayReader.js:75-85 | None exactly at the two parking indices -1 and length; otherwise the snapshot's element at the cursor's original-order position |
| `Reader.ArrayReader.Next` | arrayReader.js:58-73 | the index goes up by one but never past length, so it stays at length once there; the result is the new `current()`; it is a value exactly when `hasNext()` held; in original order the position moves forward, or backward after an odd number of reversals |
| `Reader.ArrayReader.Tag` | arrayReader.js:87-98 | returns an immutable `Tagged` value standing for the closure; its `captured` field is the value that `current()` gives at the moment of the call |
| `Reader.ArrayReader.Reverse` | arrayReader.js:100-129 | the array becomes the reverse of the old one, the index becomes its reflection and the counter goes up by one; `arr` is the original-order cache on even counts and the reversed cache on odd counts; caches built on the first call never change afterwards; `current()` and the original-order position are unchanged; the invariant `-1 <= currIndex <= length` is kept |
| `ReaderScenarios.FirstValue` | arrayReader.js:36-41 | a fresh reader shows the first element, or None for an empty or absent input, and has a next element exactly when the input has at least two |
| `ReaderScenarios.DocumentedReversal` | arrayReader.js:101-106 | with `[1, 2, 3, 4, 5]` and 4 current, reversal keeps 4 current, gives `[5, 4, 3, 2, 1]`, and the next step reads 3 |
| `ReaderScenarios.EmptyReader` | arrayReader.js:30-36 | an empty or absent input has no next element, reads None before and after `next` and after `reverse` |
| `ReaderScenarios.TwoElementsReversedAtEnd` | arrayReader.js:125-128 | `[1, 2]` walked past the end parks at 2, reverses to -1 with no current value, then has a next element, and the next step reads 2, the input's last element |
| `ReaderScenarios.ReverseTwice` | arrayReader.js:118-128 | two reversals restore the array, the index, `current()`, `hasNext()` and the direction of travel |
| `ReaderScenarios.TagThenMove` | arrayReader.js:92-98 | a tagged value is unaffected by later `next` and `reverse` calls |

## Left out

- The UMD wrapper (arrayReader.js:17-24) that exports the constructor: host-environment plumbing.
- JavaScript's run-time type test `array && Array.isArray(array)`: the constructor takes `Option<seq<T>>`, and `None` stands for an absent or non-array argument.
- Floating point: `Mirror` is proved equal to the source's formula over exact rationals. The model assumes that JavaScript doubles compute it exactly, which holds for indices and lengths below 2^53. The counter `reversalCounter` is a double too: after 2^53 reversals `++reversalCounter` would stop changing, its parity would stay fixed and `arr` would stop switching caches while the index kept being reflected. The model's unbounded counter does not capture this unreachable case.
- The speed of the cache (constant-time reversal after the first one) is a cost claim that the model does not express; the cache is modelled for its behaviour only.
- Array identity: `arr` and the cached copies are sequence values, so the model does not show `arr` sharing a reference with `origArr` or `reversedArr`. Nothing writes to these arrays after they are built, so the sharing is not observable.
- An input element that is itself `null` looks the same as the out-of-bounds sentinel in the source. The model keeps the two apart with `Option`.
- `tag()` returns a closure in the source. Here it returns the value-holding datatype `Tagged`, whose `captured` field plays the role of calling the closure.
