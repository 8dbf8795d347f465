// Client programs that exercise the containers through their contracts
// alone: the behaviours the library documents as observable, and the two ways a
// stale capacity leaves PushBack's fast path pointing past the buffer.
module Scenarios {
  import opened ArrayPointer
  import opened Vector
  import Comparison

  /** A default handle owns nothing; a sized one owns; Release hands the array back and nulls the handle. */
  method HandleLifecycle(n: nat) returns (defaultOwns: bool, sizedOwns: bool, releasedLength: nat, ownsAfterRelease: bool)
    ensures !defaultOwns
    ensures sizedOwns <==> n > 0
    ensures releasedLength == n && !ownsAfterRelease
  {
    var empty := new ArrayPtr<int>.Empty();
    defaultOwns := empty.ToBool();
    var sized := new ArrayPtr<int>(n);
    sizedOwns := sized.ToBool();
    var p := sized.Release();
    releasedLength := if p == null then 0 else p.Length;
    ownsAfterRelease := sized.ToBool();
  }

  /** Swapping two handles twice gives each its own array back; move construction nulls the source. */
  method HandleSwapAndMove() returns (restored: bool, movedOwns: bool, sourceOwns: bool)
    ensures restored && movedOwns && !sourceOwns
  {
    var a := new ArrayPtr<int>(1);
    var b := new ArrayPtr<int>(2);
    var pa, pb := a.Get(), b.Get();
    a.Swap(b);
    b.Swap(a);
    restored := a.Get() == pa && b.Get() == pb;
    var c := new ArrayPtr<int>.Move(a);
    movedOwns := c.ToBool();
    sourceOwns := a.ToBool();
  }

  /** {10, 20, 30} has size 3, capacity 3 and reads back 10, 20, 30. */
  method LiteralConstruction() returns (size: nat, capacity: nat, read: seq<int>)
    ensures size == 3 && capacity == 3 && read == [10, 20, 30]
  {
    var v := new SimpleVector<int>.FromList([10, 20, 30]);
    size, capacity := v.GetSize(), v.GetCapacity();
    read := [v.Get(0), v.Get(1), v.Get(2)];
  }

  /** TransCapacity construction gives no elements and the requested capacity. */
  method ReservedConstruction(n: nat) returns (size: nat, capacity: nat)
    ensures size == 0 && capacity == n
  {
    var v := new SimpleVector<int>.WithCapacity(Reserve(n));
    size, capacity := v.GetSize(), v.GetCapacity();
  }

  /** Pushing onto an empty vector three times goes through capacities 1, 2 and 4. */
  method GrowthOnPush() returns (capacities: seq<nat>, elems: seq<int>)
    ensures capacities == [1, 2, 4] && elems == [1, 2, 3]
  {
    var v := new SimpleVector<int>.Empty();
    v.PushBack(1);
    capacities := [v.capacity];
    v.PushBack(2);
    capacities := capacities + [v.capacity];
    v.PushBack(3);
    capacities := capacities + [v.capacity];
    elems := v.Elems();
  }

  /** Inserting into an empty vector takes the capacity from 0 to 2. */
  method InsertIntoEmpty(x: int) returns (capacity: nat, elems: seq<int>)
    ensures capacity == 2 && elems == [x]
  {
    var v := new SimpleVector<int>.Empty();
    var pos := v.Insert(0, x);
    capacity, elems := v.capacity, v.Elems();
  }

  /** PushBack followed by PopBack restores the elements. */
  method PushPopRoundTrip(init: seq<int>, x: int) returns (after: seq<int>)
    ensures after == init
  {
    var v := new SimpleVector<int>.FromList(init);
    v.PushBack(x);
    v.PopBack();
    after := v.Elems();
  }

  /** Erasing at the position just inserted restores the elements. */
  method InsertEraseRoundTrip(init: seq<int>, dist: nat, x: int) returns (after: seq<int>, inserted: int)
    requires dist <= |init|
    ensures after == init && inserted == x
  {
    var v := new SimpleVector<int>.FromList(init);
    var pos := v.Insert(dist, x);
    inserted := v.Get(pos);
    EraseUndoesInsert(init, dist, x);
    pos := v.Erase(pos);
    after := v.Elems();
  }

  /** After Resize(5) and Clear(), size is 0 and capacity 5. */
  method ClearRetainsCapacity() returns (size: nat, capacity: nat)
    ensures size == 0 && capacity == 5
  {
    var v := new SimpleVector<int>.Empty();
    v.Resize(5);
    v.Clear();
    size, capacity := v.GetSize(), v.GetCapacity();
  }

  /** At(size) is out of range for every size, 0 included. */
  method AtOnePastEnd(n: nat) returns (r: Result<int>)
    ensures r == Err(OutOfRange)
  {
    var v := new SimpleVector<int>(n);
    r := v.At(n);
  }

  /** A copy compares equal to its source and does not follow later writes to it. */
  method CopyIndependence(init: seq<int>) returns (equalAfterCopy: bool, copyAfter: seq<int>, sourceAfter: seq<int>)
    ensures equalAfterCopy && copyAfter == init && sourceAfter == init + [7]
  {
    var a := new SimpleVector<int>.FromList(init);
    var b := new SimpleVector<int>.Copy(a);
    equalAfterCopy := Comparison.Equal(a.Elems(), b.Elems());
    Comparison.EqualIff(a.Elems(), b.Elems());
    a.PushBack(7);
    copyAfter, sourceAfter := b.Elems(), a.Elems();
  }

  /** After copy assignment the target equals the source and is independent of it in both directions. */
  method CopyAssignIndependence(x: seq<int>, y: seq<int>) returns (equalAfterCopy: bool, target: seq<int>, source: seq<int>)
    requires |x| > 0
    ensures equalAfterCopy
    ensures target == x + [8] && source == x[0 := 42]
  {
    var a := new SimpleVector<int>.FromList(x);
    var b := new SimpleVector<int>.FromList(y);
    b.CopyAssign(a);
    equalAfterCopy := Comparison.Equal(a.Elems(), b.Elems());
    Comparison.EqualIff(a.Elems(), b.Elems());
    a.Set(0, 42);
    b.PushBack(8);
    target, source := b.Elems(), a.Elems();
  }

  /** Move assignment hands the source the target's old buffer, which stays usable on both sides. */
  method MoveAssignThenUse(x: seq<int>, y: seq<int>) returns (target: seq<int>, source: seq<int>)
    requires |y| > 0
    ensures target == y[0 := 9] && source == x + [5]
  {
    var a := new SimpleVector<int>.FromList(x);
    var b := new SimpleVector<int>.FromList(y);
    a.MoveAssign(b);
    a.Set(0, 9);
    b.PushBack(5);
    target, source := a.Elems(), b.Elems();
  }

  /** Move construction empties its source; move assignment hands the source the target's old elements. */
  method MoveSemantics(x: seq<int>, y: seq<int>) returns (moved: seq<int>, sourceEmpty: bool, target: seq<int>, source: seq<int>)
    ensures moved == x && sourceEmpty
    ensures target == y && source == x
  {
    var a := new SimpleVector<int>.FromList(x);
    var m := new SimpleVector<int>.Move(a);
    moved, sourceEmpty := m.Elems(), a.IsEmpty();
    var b := new SimpleVector<int>.FromList(y);
    m.MoveAssign(b);
    target, source := m.Elems(), b.Elems();
  }

  /** Erase leaves capacity above the new buffer length, so PushBack's fast path would write slot `size` out of the buffer. */
  method EraseBreaksPushBackFastPath() returns (size: nat, capacity: nat, bufferLength: nat)
    ensures size < capacity && bufferLength == size
  {
    var v := new SimpleVector<int>.FromList([1, 2]);
    var pos := v.Erase(0);
    size, capacity, bufferLength := v.size, v.capacity, v.BufferLength();
  }

  /** Resize within the capacity shrinks the buffer to the new size, with the same effect on PushBack's fast path. */
  method ResizeBreaksPushBackFastPath() returns (size: nat, capacity: nat, bufferLength: nat)
    ensures size < capacity && bufferLength == size
  {
    var v := new SimpleVector<int>.WithCapacity(Reserve(4));
    v.Resize(2);
    size, capacity, bufferLength := v.size, v.capacity, v.BufferLength();
  }

  /** The corrected Erase and Resize keep PushBack callable at any time. */
  method CorrectedKeepCapacityExact() returns (elems: seq<int>, capacity: nat)
    ensures elems == [2, 9, 0, 5] && capacity == 4
  {
    var v := new SimpleVector<int>.FromList([1, 2]);
    var pos := v.EraseTrackingCapacity(0);
    v.PushBack(9);
    v.Reserve(4);
    v.ResizeKeepingCapacity(3);
    assert v.Elems()[..2] == [2, 9];
    v.Set(2, 0);
    assert v.Elems() == [2, 9, 0];
    v.PushBack(5);
    elems, capacity := v.Elems(), v.capacity;
  }
}
