# Circular array, modelled in Dafny

The repository is one Python class, `CircularArray`. It is a sequence that can be rotated and
indexed without moving any item. It keeps two fields:

- `array`, the items in physical storage order;
- `head`, the storage slot that holds logical index 0, or `None` while the array is empty.

The operations work on these fields as follows:

- `add_item` inserts the new item at slot `head` and moves `head` one slot on. The item thus
  becomes last in the current rotation.
- `get_by_index` maps a logical index to a slot by adding `head` and wrapping at most once. An
  index at or past the length gives `None`.
- `rotate` moves only `head`, to `(increment + head) mod len`.
- `print_array` prints `get_by_index(0)`, …, `get_by_index(len - 1)`.

The model is imperative, like the source. Class `Circular.CircularArray` has the two fields
`arr: seq<T>` and `head: Option<nat>`. Its methods update them in place, under the following
specification:

- `Valid()`, through `WellFormed`, is the representation invariant: `head` is absent exactly when
  the storage is empty, and is otherwise a slot.
- `Contents()`, through `Logical`, is the abstraction function: the storage rotated left by
  `head`, that is `arr[head..] + arr[..head]`.

Each method's postcondition states the new fields outright. It also states what the operation
does to the logical order. The lemmas beside the class prove these facts once and for all inputs.
Module `Doctests` holds the usage examples from the module docstring. They are written as clients
that rely only on the class's contracts, and each one's printed output is proved.

Python's `%` and Dafny's `%` on `int` agree for a positive divisor: both give a result in
`[0, n)` for any dividend. So `rotate`'s arithmetic is written as it stands. Module `Modular`
proves the few facts about `%` that the rotation lemmas need.

The code's `rotate` guard is `if not self.head`. In Python that is true for `None` and also for
`head == 0`. The model keeps this guard: `Rotate` does nothing while the head is 0. The comment
just above the guard (circular_array_improved.py:141) names only the empty array as the case to
skip. Under a guard that skips only the empty array, `rotate(a); rotate(b)` would always equal
`rotate(a + b)`. Under the guard as written, it does not. The model follows the code:

- `RotateComposesAwayFromZero` proves the law only when neither call starts from head 0.
- `RotateDoesNotCompose` and `Doctests.RotateTwiceFromDoctest` give an input where the law fails.
- `IntendedRotatedHead` is the corrected rotation, for which the law is proved (see Findings).

## Model

| member | source | states |
|---|---|---|
| `Circular.CircularArray.constructor` | circular_array_improved.py:88-97 | A new array has empty storage and no head, satisfies the representation invariant, and is logically empty. |
| `Circular.CircularArray.AddItem` | circular_array_improved.py:99-115 | On an empty array the storage becomes `[item]` with head 0. Otherwise the item is inserted at slot `head` and the head moves to `head + 1`. The invariant is preserved. The logical order becomes the old logical order followed by `item`: the length grows by one, every old logical index keeps its item, and the new item is last in the current rotation. |
| `Circular.InsertAtHeadAppends` | circular_array_improved.py:108-115 | For any storage and head slot: inserting at the head and advancing the head keeps the invariant and appends the item at the logical end. |
| `Circular.CircularArray.GetByIndex` | circular_array_improved.py:117-134 | Returns None exactly when `index >= len`; the query index never wraps. Otherwise the result is storage slot `(head + index) mod len`, which is the item at logical index `index`. Both single-wrap branches stay in bounds. |
| `Circular.RotateLeftAt` | circular_array_improved.py:124-134 | Logical index `i` of storage rotated by `head` is storage slot `(head + i) mod len`. The slot is `head + i` when that is below `len`, and otherwise `head + i - len`. |
| `Circular.Logical` | circular_array_improved.py:95-97 | The logical order has exactly as many items as the storage. |
| `Circular.LogicalIsPermutation` | circular_array_improved.py:91-97 | The logical order is a rearrangement of the storage: every item occurs in it as often as it is stored. |
| `Circular.CircularArray.Rotate` | circular_array_improved.py:136-147 | The storage is unchanged and the invariant is kept. The head becomes `RotatedHead(old head, len, increment)`. When the old head is absent or 0, the logical order is unchanged. Otherwise the new logical order is the old one rotated left by `increment mod len`. |
| `Circular.RotatedHead` | circular_array_improved.py:141-147 | The rotated head is absent exactly when the head was absent. Otherwise it lies in `[0, len)` for every increment: negative ones and ones of several laps. |
| `Circular.RotateShiftsLogical` | circular_array_improved.py:145-147 | Moving the head from `h` to `(increment + h) mod len` rotates the logical order left by `increment mod len`. What was at logical index `increment mod len` comes first. |
| `Circular.RotateIgnoredAtHeadZero` | circular_array_improved.py:141-143 | With head 0, or no head, rotation by any increment leaves the head as it was. |
| `Circular.RotateFullLap` | circular_array_improved.py:139-147 | Rotating by any whole number of laps (`laps * len`) leaves the head unchanged. |
| `Circular.RotateComposesAwayFromZero` | circular_array_improved.py:141-147 | From a non-zero head, if the first rotation does not land on head 0, then rotating by `a` and then `b` equals rotating by `a + b`. |
| `Circular.RotateDoesNotCompose` | circular_array_improved.py:141-147 | On the four-item doctest storage with head 3, `rotate(1)` twice leaves head 0, while `rotate(2)` gives head 1. |
| `Circular.IntendedRotatedHead` | circular_array_improved.py:141-147 | The corrected rotation skips only the empty array. Its result is absent exactly when the head was absent, and otherwise lies in `[0, len)`. |
| `Circular.IntendedRotateComposes` | circular_array_improved.py:136-147 | The corrected rotation is a group action: rotating by `a` then `b` equals rotating by `a + b`, for every head and all integers `a` and `b`. |
| `Circular.IntendedRotateFullLap` | circular_array_improved.py:139-147 | The corrected rotation by whole laps is the identity. |
| `Circular.IntendedAgreesAwayFromZero` | circular_array_improved.py:141-147 | The code's rotation and the corrected one agree on every head except 0. |
| `Circular.CircularArray.PrintArray` | circular_array_improved.py:149-153 | The sequence printed (one `get_by_index` per logical index, in order) equals the logical order. |
| `Doctests.AppendInOrder` | circular_array_improved.py:6-19 | After any number of appends with no rotation, the array prints the items in append order, and index `len` is not found. |
| `Doctests.DoctestAppendOnly` | circular_array_improved.py:6-19 | harry, hermione, ginny, ron are printed in that order. Index 2 is ginny and index 15 is not found. |
| `Doctests.DoctestRotateRight` | circular_array_improved.py:25-37 | After `rotate(1)` it prints hermione, ginny, ron, harry, and index 2 is ron. |
| `Doctests.DoctestRotateLeft` | circular_array_improved.py:41-53 | After `rotate(-1)` it prints ron, harry, hermione, ginny, and index 2 is hermione. |
| `Doctests.DoctestMultiLap` | circular_array_improved.py:57-64 | After `rotate(-17)`, index 1 is harry. |
| `Doctests.DoctestAddAfterRotate` | circular_array_improved.py:69-81 | After `rotate(-2)` and appending dobby, it prints ginny, ron, harry, hermione, dobby. |
| `Doctests.RotateTwiceFromDoctest` | circular_array_improved.py:141-147 | On the doctest array, `rotate(1)` twice prints hermione, ginny, ron, harry, the same as one `rotate(1)`. It does not print ginny, ron, harry, hermione, which `rotate(2)` would give. |

## Findings

| source | as written | input that shows it | evidently intended | confidence | as-written member | corrected member |
|---|---|---|---|---|---|---|
| circular_array_improved.py:141-143 | `if not self.head: return` skips the rotation when the head is 0, as well as when the array is empty | The four doctest items (head 3), then `rotate(1)` twice. The first call sets head 0 and the second is ignored, so the array prints hermione, ginny, ron, harry instead of ginny, ron, harry, hermione | Skip only the empty array (`if self.head is None`), as the comment on line 141 says. Rotation is then a group action | high; not executed | `Doctests.RotateTwiceFromDoctest` | `Circular.IntendedRotateComposes` |

The class's `Rotate` keeps the guard as written, because the model describes the code.
`IntendedRotatedHead` is the corrected definition, and the group-action and full-lap laws are
proved about it. `IntendedAgreesAwayFromZero` shows that every doctest scenario behaves the same
under both definitions, since none of them rotates from head 0.

## Left out

- Console output of `print_array` (circular_array_improved.py:153). `PrintArray` returns the
  sequence of items it would print.
- The doctest runner under `__main__` (circular_array_improved.py:156-161). It is I/O; the
  doctest scenarios themselves are modelled in `Doctests`.
- Negative query indices to `get_by_index`. `GetByIndex` takes a `nat`. Python's negative list
  indexing, and the `TypeError` raised by `index + None` on an empty array, fall outside the
  documented contract.
- Running-time claims: O(1) indexing (circular_array_improved.py:91-92) and the linear cost of
  `list.insert`. A functional contract cannot state them.
- Aliasing of the Python list `self.array`. The storage is a `seq` value that the methods
  reassign; no other object holds it in the source.
- GetByIndex: Python signals "not found" with an in-band `None`, so after `add_item(None)` a
  caller of `get_by_index` cannot tell a stored `None` item from an index out of range. The
  model's `Option<T>` keeps the two apart: a stored `None` comes back as `Some(None)`.
- The items' Python types. Items are of an arbitrary type parameter `T`, and the code never
  inspects them.
