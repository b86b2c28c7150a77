/** The module docstring's usage scenarios, as clients that can rely only on the contracts of
    `CircularArray`, plus the general append-only scenario they instantiate. */
module Doctests {
  import opened Wrappers
  import opened Circular

  /** Appends `items` in order to a new array, with no rotation. */
  method Build<T>(items: seq<T>) returns (c: CircularArray<T>)
    ensures fresh(c) && c.Valid()
    ensures c.Contents() == items
  {
    c := new CircularArray<T>();
    var k := 0;
    while k < |items|
      invariant 0 <= k <= |items|
      invariant c.Valid() && c.Contents() == items[..k]
    {
      c.AddItem(items[k]);
      k := k + 1;
    }
    assert items[..k] == items;
  }

  /** After any number of appends and no rotation, the array prints the items in append
      order, and the first index past them is not found. */
  method AppendInOrder<T>(items: seq<T>) returns (printed: seq<T>, past: Option<T>)
    ensures printed == items
    ensures past == None
  {
    var c := Build(items);
    printed := c.PrintArray();
    past := c.GetByIndex(|items|);
  }

  /** The four items every scenario starts from. */
  method Characters() returns (c: CircularArray<string>)
    ensures fresh(c) && c.Valid()
    ensures c.arr == ["hermione", "ginny", "ron", "harry"] && c.head == Some(3)
  {
    c := new CircularArray<string>();
    c.AddItem("harry");
    c.AddItem("hermione");
    c.AddItem("ginny");
    c.AddItem("ron");
  }

  /** Append only: prints harry, hermione, ginny, ron; index 2 is ginny; index 15 is absent. */
  method DoctestAppendOnly() returns (printed: seq<string>, at2: Option<string>, at15: Option<string>)
    ensures printed == ["harry", "hermione", "ginny", "ron"]
    ensures at2 == Some("ginny") && at15 == None
  {
    var c := Characters();
    printed := c.PrintArray();
    at2 := c.GetByIndex(2);
    at15 := c.GetByIndex(15);
  }

  /** `rotate(1)`: prints hermione, ginny, ron, harry; index 2 is ron. */
  method DoctestRotateRight() returns (printed: seq<string>, at2: Option<string>)
    ensures printed == ["hermione", "ginny", "ron", "harry"]
    ensures at2 == Some("ron")
  {
    var c := Characters();
    c.Rotate(1);
    assert c.head == Some(0);
    assert c.Contents() == c.arr;
    printed := c.PrintArray();
    at2 := c.GetByIndex(2);
  }

  /** `rotate(-1)`: prints ron, harry, hermione, ginny; index 2 is hermione. */
  method DoctestRotateLeft() returns (printed: seq<string>, at2: Option<string>)
    ensures printed == ["ron", "harry", "hermione", "ginny"]
    ensures at2 == Some("hermione")
  {
    var c := Characters();
    c.Rotate(-1);
    assert c.head == Some(2);
    assert c.Contents() == ["ron", "harry", "hermione", "ginny"];
    printed := c.PrintArray();
    at2 := c.GetByIndex(2);
  }

  /** `rotate(-17)`, several laps to the left: index 1 is harry. */
  method DoctestMultiLap() returns (at1: Option<string>)
    ensures at1 == Some("harry")
  {
    var c := Characters();
    c.Rotate(-17);
    assert c.head == Some(2);
    at1 := c.GetByIndex(1);
  }

  /** `rotate(-2)` then append dobby: dobby goes last in the current rotation. */
  method DoctestAddAfterRotate() returns (printed: seq<string>)
    ensures printed == ["ginny", "ron", "harry", "hermione", "dobby"]
  {
    var c := Characters();
    c.Rotate(-2);
    assert c.head == Some(1);
    assert c.Contents() == ["ginny", "ron", "harry", "hermione"];
    c.AddItem("dobby");
    printed := c.PrintArray();
  }

  /** `rotate(1)` twice prints the same as `rotate(1)` once: the first call leaves the head
      at 0, where the code ignores every later rotation. `rotate(2)` would have printed
      ginny, ron, harry, hermione. */
  method RotateTwiceFromDoctest() returns (printed: seq<string>)
    ensures printed == ["hermione", "ginny", "ron", "harry"]
    ensures printed != ["ginny", "ron", "harry", "hermione"]
  {
    var c := Characters();
    c.Rotate(1);
    assert c.head == Some(0);
    c.Rotate(1);
    assert c.Contents() == c.arr;
    printed := c.PrintArray();
  }
}
