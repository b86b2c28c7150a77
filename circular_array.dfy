/** A circular array: a growable list of items plus the storage slot (`head`) that currently
    holds logical index 0. Rotation moves only `head`; appending inserts physically at `head`. */
module Circular {
  import opened Wrappers
  import Modular

  // ---------------------------------------------------------------------------------------
  // Specification over the two fields: representation invariant and abstraction function
  // ---------------------------------------------------------------------------------------

  /** The representation invariant: there is no head exactly when the storage is empty,
      and otherwise the head is one of the storage slots. */
  predicate WellFormed<T>(arr: seq<T>, head: Option<nat>)
  {
    match head
    case None => arr == []
    case Some(h) => h < |arr|
  }

  /** `s` rotated left by `k`: the item at index `k` comes first, the first `k` items last. */
  function RotateLeft<T>(s: seq<T>, k: nat): seq<T>
    requires k <= |s|
  {
    s[k..] + s[..k]
  }

  /** Index `i` of `s` rotated left by `k` is index `(k + i) mod |s|` of `s`. */
  lemma RotateLeftAt<T>(s: seq<T>, k: nat, i: nat)
    requires k < |s| && i < |s|
    ensures |RotateLeft(s, k)| == |s|
    ensures RotateLeft(s, k)[i] == s[(k + i) % |s|]
  {
    if k + i < |s| {
      Modular.ModUnique(k + i, |s|, 0, k + i);
    } else {
      Modular.ModUnique(k + i, |s|, 1, k + i - |s|);
    }
  }

  /** The items in logical order: from slot `head` to the end of storage, then wrapping once
      to the slots before `head`. */
  function Logical<T>(arr: seq<T>, head: Option<nat>): (s: seq<T>)
    requires WellFormed(arr, head)
    ensures |s| == |arr|
  {
    match head
    case None => []
    case Some(h) => RotateLeft(arr, h)
  }

  /** The logical order is a rearrangement of the storage: every stored item appears in it
      exactly as often as it is stored. */
  lemma LogicalIsPermutation<T>(arr: seq<T>, head: Option<nat>)
    requires WellFormed(arr, head)
    ensures multiset(Logical(arr, head)) == multiset(arr)
  {
    if head.Some? {
      var h := head.value;
      assert arr == arr[..h] + arr[h..];
    }
  }

  /** Inserting an item at slot `h` and moving the head one slot on leaves the invariant intact
      and puts the item last in logical order, behind every item that was there before. */
  lemma InsertAtHeadAppends<T>(arr: seq<T>, h: nat, item: T)
    requires h < |arr|
    ensures WellFormed(arr[..h] + [item] + arr[h..], Some(h + 1))
    ensures Logical(arr[..h] + [item] + arr[h..], Some(h + 1)) == Logical(arr, Some(h)) + [item]
  {
  }

  // ---------------------------------------------------------------------------------------
  // Rotation of the head, as the code does it and as it was evidently meant
  // ---------------------------------------------------------------------------------------

  /** The head that `rotate(increment)` leaves behind. The guard is Python's `not head`,
      which holds for an absent head and also for head 0. */
  function RotatedHead(head: Option<nat>, len: nat, increment: int): (r: Option<nat>)
    requires head.Some? ==> head.value < len
    ensures r.None? <==> head.None?
    ensures r.Some? ==> r.value < len
  {
    if head.None? || head.value == 0 then head
    else Some((increment + head.value) % len)
  }

  /** Moving the head from `h` to `(increment + h) mod len` rotates the logical order left by
      `increment mod len`, for any sign and size of `increment`: what was at logical index
      `increment mod len` comes first. */
  lemma RotateShiftsLogical<T>(arr: seq<T>, h: nat, increment: int)
    requires h < |arr|
    ensures Logical(arr, Some((increment + h) % |arr|))
         == RotateLeft(Logical(arr, Some(h)), increment % |arr|)
  {
    var n := |arr|;
    var h' := (increment + h) % n;
    var before := Logical(arr, Some(h));
    forall i | 0 <= i < n
      ensures Logical(arr, Some(h'))[i] == RotateLeft(before, increment % n)[i]
    {
      var j := (increment % n + i) % n;
      RotateLeftAt(arr, h', i);
      RotateLeftAt(before, increment % n, i);
      RotateLeftAt(arr, h, j);
      Modular.ModOfSum(increment + h, i, n);
      Modular.ModOfSum(increment, i, n);
      Modular.ModOfSum(increment + i, h, n);
      assert (h + j) % n == (j + h) % n;
      assert increment + h + i == increment + i + h;
    }
  }

  /** With the head at 0 (or absent), rotation does nothing, whatever the increment. */
  lemma RotateIgnoredAtHeadZero(len: nat, increment: int)
    requires len > 0
    ensures RotatedHead(Some(0), len, increment) == Some(0)
    ensures RotatedHead(None, len, increment) == None
  {
  }

  /** Rotating by whole laps leaves the head where it was. */
  lemma RotateFullLap(head: Option<nat>, len: nat, laps: int)
    requires head.Some? ==> head.value < len
    ensures RotatedHead(head, len, laps * len) == head
  {
    if head.Some? && head.value != 0 {
      Modular.ModAddMultiple(head.value, laps, len);
      Modular.ModUnique(head.value, len, 0, head.value);
      assert laps * len + head.value == head.value + laps * len;
    }
  }

  /** Two rotations add up to one, provided neither starts from head 0. */
  lemma RotateComposesAwayFromZero(h: nat, len: nat, a: int, b: int)
    requires 0 < h < len
    requires RotatedHead(Some(h), len, a) != Some(0)
    ensures RotatedHead(RotatedHead(Some(h), len, a), len, b) == RotatedHead(Some(h), len, a + b)
  {
    Modular.ModOfSum(a + h, b, len);
    assert (b + (a + h) % len) % len == ((a + h) % len + b) % len;
    assert a + h + b == a + b + h;
  }

  /** On the four-item doctest storage (head 3), `rotate(1)` twice is not `rotate(2)`:
      the first call lands on head 0 and the second is ignored. */
  lemma RotateDoesNotCompose()
    ensures RotatedHead(RotatedHead(Some(3), 4, 1), 4, 1) == Some(0)
    ensures RotatedHead(Some(3), 4, 2) == Some(1)
  {
  }

  /** Rotation with the guard meant by the code's own comment: only an empty array is
      left alone. */
  function IntendedRotatedHead(head: Option<nat>, len: nat, increment: int): (r: Option<nat>)
    requires head.Some? ==> head.value < len
    ensures r.None? <==> head.None?
    ensures r.Some? ==> r.value < len
  {
    if head.None? then head else Some((increment + head.value) % len)
  }

  /** The intended rotation is a group action: two rotations equal one by the sum. */
  lemma IntendedRotateComposes(head: Option<nat>, len: nat, a: int, b: int)
    requires head.Some? ==> head.value < len
    ensures IntendedRotatedHead(IntendedRotatedHead(head, len, a), len, b)
         == IntendedRotatedHead(head, len, a + b)
  {
    if head.Some? {
      var h := head.value;
      Modular.ModOfSum(a + h, b, len);
      assert (b + (a + h) % len) % len == ((a + h) % len + b) % len;
      assert a + h + b == a + b + h;
    }
  }

  /** The intended rotation by whole laps is the identity. */
  lemma IntendedRotateFullLap(head: Option<nat>, len: nat, laps: int)
    requires head.Some? ==> head.value < len
    ensures IntendedRotatedHead(head, len, laps * len) == head
  {
    if head.Some? {
      Modular.ModAddMultiple(head.value, laps, len);
      Modular.ModUnique(head.value, len, 0, head.value);
      assert laps * len + head.value == head.value + laps * len;
    }
  }

  /** The code and the intended rotation differ only from head 0. */
  lemma IntendedAgreesAwayFromZero(head: Option<nat>, len: nat, increment: int)
    requires head.Some? ==> head.value < len
    requires head != Some(0)
    ensures RotatedHead(head, len, increment) == IntendedRotatedHead(head, len, increment)
  {
  }

  // ---------------------------------------------------------------------------------------
  // The object
  // ---------------------------------------------------------------------------------------

  class CircularArray<T> {
    /** The storage, in physical slot order (not logical order once rotated). */
    var arr: seq<T>
    /** The slot that holds logical index 0, or None while the storage is empty. */
    var head: Option<nat>

    ghost predicate Valid()
      reads this
    {
      WellFormed(arr, head)
    }

    /** The items in logical order under the current rotation. */
    ghost function Contents(): seq<T>
      reads this
      requires Valid()
    {
      Logical(arr, head)
    }

    constructor ()
      ensures Valid()
      ensures arr == [] && head == None
      ensures Contents() == []
    {
      arr := [];
      head := None;
    }

    /** Appends `item` at the end of the current rotation: inserts it at slot `head` and
        moves the head one slot on, so every item keeps its logical index. */
    method AddItem(item: T)
      requires Valid()
      modifies this
      ensures Valid()
      ensures old(head).None? ==> arr == [item] && head == Some(0)
      ensures old(head).Some? ==>
        arr == old(arr[..head.value] + [item] + arr[head.value..]) &&
        head == Some(old(head.value) + 1)
      ensures Contents() == old(Contents()) + [item]
    {
      if head.None? {
        head := Some(0);
        arr := [item];
      } else {
        InsertAtHeadAppends(arr, head.value, item);
        arr := arr[..head.value] + [item] + arr[head.value..];
        head := Some(head.value + 1);
      }
    }

    /** The item at logical position `index`, or None when `index` is not below the length;
        the index itself never wraps. The slot read is `index + head`, less one lap when that
        runs off the end of storage. */
    function GetByIndex(index: nat): (r: Option<T>)
      reads this
      requires Valid()
      ensures r.None? <==> index >= |arr|
      ensures r.Some? ==> r.value == arr[(head.value + index) % |arr|]
      ensures r.Some? ==> r.value == Contents()[index]
    {
      if index >= |arr| then None
      else
        RotateLeftAt(arr, head.value, index);
        if index + head.value < |arr| then Some(arr[index + head.value])
        else Some(arr[index + head.value - |arr|])
    }

    /** Rotates the logical start by `increment` (positive to the right, negative to the left,
        any number of laps). Only the head changes, and not at all while it is 0. */
    method Rotate(increment: int)
      requires Valid()
      modifies this`head
      ensures Valid()
      ensures arr == old(arr)
      ensures head == RotatedHead(old(head), |arr|, increment)
      ensures old(head).Some? && old(head).value != 0 ==>
        Contents() == RotateLeft(old(Contents()), increment % |arr|)
      ensures old(head).None? || old(head) == Some(0) ==> Contents() == old(Contents())
    {
      if head.None? || head.value == 0 {  // Python's `not self.head`
        return;
      }
      RotateShiftsLogical(arr, head.value, increment);
      head := Some((increment + head.value) % |arr|);
    }

    /** The items `print_array` would print, one per logical index, in logical order. */
    method PrintArray() returns (printed: seq<T>)
      requires Valid()
      ensures printed == Contents()
    {
      printed := [];
      var i := 0;
      while i < |arr|
        invariant 0 <= i <= |arr|
        invariant printed == Contents()[..i]
      {
        var item := GetByIndex(i);
        printed := printed + [item.value];
        i := i + 1;
      }
    }
  }
}
