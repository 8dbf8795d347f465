// The growable array of simple-vector/simple_vector.h, built on one ArrayPtr.
// Iterators are indices into the live range, the out_of_range exception is an
// error result, and each lvalue/rvalue overload pair is one method.
module Vector {
  import opened ArrayPointer

  datatype Error = OutOfRange

  datatype Result<R> = Ok(value: R) | Err(error: Error)

  /** The capacity-only construction tag (TransCapacity). */
  datatype TransCapacity = TransCapacity(capacity: nat)

  /** The free function Reserve(n), which only wraps `n` in the tag. */
  function Reserve(capacityToReserve: nat): (t: TransCapacity)
    ensures t.capacity == capacityToReserve
  {
    TransCapacity(capacityToReserve)
  }

  // ----- Specification functions on the live range -----

  /** `n` copies of `v`. */
  function Repeat<T>(v: T, n: nat): (s: seq<T>)
    ensures |s| == n
    ensures forall i :: 0 <= i < n ==> s[i] == v
  {
    seq(n, _ => v)
  }

  /** The live range after Resize(n): truncated, or padded with `d`. */
  function Resized<T>(s: seq<T>, n: nat, d: T): seq<T>
  {
    if n <= |s| then s[..n] else s + Repeat(d, n - |s|)
  }

  /** The live range after inserting `v` before position `i`. */
  function InsertAt<T>(s: seq<T>, i: nat, v: T): seq<T>
    requires i <= |s|
  {
    s[..i] + [v] + s[i..]
  }

  /** The live range after erasing position `i`. */
  function RemoveAt<T>(s: seq<T>, i: nat): seq<T>
    requires i < |s|
  {
    s[..i] + s[i + 1..]
  }

  /** New capacity when PushBack finds the vector full. */
  function PushBackGrowth(capacity: nat): nat
  {
    if capacity == 0 then 1 else capacity * 2
  }

  /** New capacity when Insert finds the vector full: capacity 0 is first set to 1, then doubled. */
  function InsertGrowth(capacity: nat): nat
  {
    PushBackGrowth(if capacity == 0 then 1 else capacity)
  }

  /** Resize(n): the length becomes n, the first min(old size, n) elements stay, the rest are `d`. */
  lemma ResizedProperties<T>(s: seq<T>, n: nat, d: T)
    ensures |Resized(s, n, d)| == n
    ensures forall i :: 0 <= i < n && i < |s| ==> Resized(s, n, d)[i] == s[i]
    ensures forall i :: |s| <= i < n ==> Resized(s, n, d)[i] == d
  {
  }

  /** Erasing the element just inserted restores the live range. */
  lemma EraseUndoesInsert<T>(s: seq<T>, i: nat, v: T)
    requires i <= |s|
    ensures |InsertAt(s, i, v)| == |s| + 1
    ensures InsertAt(s, i, v)[i] == v
    ensures RemoveAt(InsertAt(s, i, v), i) == s
  {
    var t := InsertAt(s, i, v);
    assert t[..i] == s[..i];
    assert t[i + 1..] == s[i..];
  }

  /** Insert keeps the elements before `i`, shifts the rest up by one. */
  lemma InsertAtShifts<T>(s: seq<T>, i: nat, v: T)
    requires i <= |s|
    ensures forall k :: 0 <= k < i ==> InsertAt(s, i, v)[k] == s[k]
    ensures forall k :: i < k <= |s| ==> InsertAt(s, i, v)[k] == s[k - 1]
  {
  }

  /** Shifting s[i..n) up by one and writing `v` at `i` leaves InsertAt(s[..n], i, v) as the first n + 1 slots. */
  lemma ShiftThenWrite<T>(s: seq<T>, i: nat, n: nat, v: T)
    requires i <= n < |s|
    ensures (s[..i + 1] + s[i..n] + s[n + 1..])[i := v][..n + 1] == InsertAt(s[..n], i, v)
  {
    var t := (s[..i + 1] + s[i..n] + s[n + 1..])[i := v][..n + 1];
    var u := InsertAt(s[..n], i, v);
    assert |t| == |u|;
    forall k | 0 <= k < |t| ensures t[k] == u[k] {
      if k < i {
      } else if k == i {
      } else {
        assert t[k] == s[k - 1];
      }
    }
  }

  /** Growth never gives less room than needed, and doubles a non-zero capacity. */
  lemma GrowthDoubles(capacity: nat)
    ensures PushBackGrowth(capacity) > capacity && InsertGrowth(capacity) > capacity
    ensures capacity > 0 ==> PushBackGrowth(capacity) == 2 * capacity == InsertGrowth(capacity)
    ensures PushBackGrowth(0) == 1 && InsertGrowth(0) == 2
  {
  }

  // ----- The container -----

  class SimpleVector<T(0)> {
    /** The owned buffer (items_). */
    var items: ArrayPtr<T>
    /** Number of live elements (size_). */
    var size: nat
    /** Recorded slot count (capacity_); equals the buffer length except where noted. */
    var capacity: nat
    /** The value-initialised element Type() used to fill new slots. */
    const zero: T

    ghost function Repr(): set<object>
      reads this, items
    {
      {this, items} + (if items.raw == null then {} else {items.raw})
    }

    /** Number of slots in the owned buffer, 0 when it owns nothing. */
    function BufferLength(): nat
      reads this, items
    {
      if items.raw == null then 0 else items.raw.Length
    }

    /** Holds in every reachable state: the live range fits in the buffer, and the buffer in the recorded capacity. */
    ghost predicate Valid()
      reads this, items
    {
      size <= BufferLength() <= capacity
    }

    /** The intended invariant: the recorded capacity is the buffer length. */
    ghost predicate Exact()
      reads this, items
    {
      BufferLength() == capacity
    }

    /** The fast paths of PushBack and Insert write slot `size` only when it exists. */
    ghost predicate AppendFits()
      reads this, items
    {
      size < capacity ==> size < BufferLength()
    }

    /** The live range [0, size). */
    function Elems(): seq<T>
      reads this, items, items.raw
      requires Valid()
    {
      if items.raw == null then [] else items.raw[..size]
    }

    // ----- Construction -----

    /** SimpleVector(): empty, capacity 0, no buffer. */
    constructor Empty()
      ensures Valid() && Exact() && fresh(items)
      ensures Elems() == [] && capacity == 0 && items.raw == null
    {
      var d: T := *;
      items := new ArrayPtr<T>.Empty();
      size := 0;
      capacity := 0;
      zero := d;
    }

    /** SimpleVector(TransCapacity): no elements, `t.capacity` slots. */
    constructor WithCapacity(t: TransCapacity)
      ensures Valid() && Exact() && fresh(items) && (items.raw != null ==> fresh(items.raw))
      ensures Elems() == [] && capacity == t.capacity
    {
      var d: T := *;
      items := new ArrayPtr<T>.Empty();
      size := 0;
      capacity := 0;
      zero := d;
      new;
      var res := new ArrayPtr<T>(t.capacity);
      items.Swap(res);
      capacity := t.capacity;
      size := 0;
    }

    /** SimpleVector(n): `n` value-initialised elements, capacity `n`. */
    constructor (n: nat)
      ensures Valid() && Exact() && fresh(items) && (items.raw != null ==> fresh(items.raw))
      ensures Elems() == Repeat(zero, n) && capacity == n
    {
      var d: T := *;
      items := new ArrayPtr<T>.Empty();
      size := 0;
      capacity := 0;
      zero := d;
      new;
      var res := FilledBuffer(n, zero);
      items.Swap(res);
      size := n;
      capacity := n;
    }

    /** SimpleVector(n, value): `n` copies of `value`, capacity `n`. */
    constructor Filled(n: nat, value: T)
      ensures Valid() && Exact() && fresh(items) && (items.raw != null ==> fresh(items.raw))
      ensures Elems() == Repeat(value, n) && capacity == n
    {
      var d: T := *;
      items := new ArrayPtr<T>.Empty();
      size := 0;
      capacity := 0;
      zero := d;
      new;
      var res := FilledBuffer(n, value);
      items.Swap(res);
      capacity := n;
      size := n;
    }

    /** SimpleVector(initializer_list): the listed elements in order, capacity their count. */
    constructor FromList(init: seq<T>)
      ensures Valid() && Exact() && fresh(items) && (items.raw != null ==> fresh(items.raw))
      ensures Elems() == init && capacity == |init|
    {
      var d: T := *;
      items := new ArrayPtr<T>.Empty();
      size := 0;
      capacity := 0;
      zero := d;
      new;
      var res := new ArrayPtr<T>(|init|);
      var t := 0;
      while t < |init|
        invariant t <= |init|
        invariant res.raw != null ==> res.raw.Length == |init| && res.raw[..t] == init[..t]
        modifies res.raw
      {
        res.raw[t] := init[t];
        t := t + 1;
      }
      size := |init|;
      capacity := |init|;
      items.Swap(res);
    }

    /** Copy construction: a fresh buffer holding the source's live range; capacity becomes the source's size. */
    constructor Copy(other: SimpleVector<T>)
      requires other.Valid()
      ensures Valid() && Exact() && fresh(items) && (items.raw != null ==> fresh(items.raw))
      ensures Elems() == other.Elems() && capacity == |other.Elems()|
    {
      items := new ArrayPtr<T>.Empty();
      size := 0;
      capacity := 0;
      zero := other.zero;
      new;
      var copy := CopyLive(other);
      items.Swap(copy);
      size := other.size;
      capacity := other.size;
    }

    /** Move construction: takes over the source's state and leaves it empty. */
    constructor Move(other: SimpleVector<T>)
      requires other.Valid()
      modifies other, other.items
      ensures Valid() && other.Valid() && fresh(items)
      ensures items.raw == old(other.items.raw)
      ensures Elems() == old(other.Elems()) && capacity == old(other.capacity)
      ensures Exact() <==> old(other.Exact())
      ensures other.Elems() == [] && other.capacity == 0 && other.items.raw == null
    {
      items := new ArrayPtr<T>.Empty();
      size := 0;
      capacity := 0;
      zero := other.zero;
      new;
      Swap(other);
    }

    /** A fresh handle owning `n` slots that all hold `v` (null when n == 0). */
    static method FilledBuffer(n: nat, v: T) returns (p: ArrayPtr<T>)
      ensures fresh(p) && (p.raw == null <==> n == 0)
      ensures p.raw != null ==> fresh(p.raw) && p.raw[..] == Repeat(v, n)
    {
      p := new ArrayPtr<T>(n);
      var i := 0;
      while i < n
        invariant i <= n
        invariant p.raw != null ==> p.raw.Length == n && p.raw[..i] == Repeat(v, i)
        modifies p.raw
      {
        p.raw[i] := v;
        i := i + 1;
      }
    }

    /** A fresh handle owning |other.Elems()| slots holding a copy of the live range of `other`. */
    static method CopyLive(other: SimpleVector<T>) returns (p: ArrayPtr<T>)
      requires other.Valid()
      ensures fresh(p) && (p.raw == null <==> other.size == 0)
      ensures p.raw != null ==> fresh(p.raw) && p.raw[..] == other.Elems()
    {
      p := FilledBuffer(other.size, other.zero);
      var i := 0;
      while i < other.size
        invariant i <= other.size
        invariant p.raw != null ==> p.raw.Length == other.size && p.raw[..i] == other.Elems()[..i]
        modifies p.raw
      {
        p.raw[i] := other.items.raw[i];
        i := i + 1;
      }
    }

    // ----- Queries and element access -----

    /** GetSize. */
    function GetSize(): (n: nat)
      reads this, items, items.raw
      requires Valid()
      ensures n == |Elems()|
    {
      size
    }

    /** GetCapacity: never below the size. */
    function GetCapacity(): (c: nat)
      reads this, items, items.raw
      requires Valid()
      ensures c >= |Elems()|
    {
      capacity
    }

    /** IsEmpty. */
    predicate IsEmpty()
      reads this, items, items.raw
      requires Valid()
      ensures IsEmpty() <==> Elems() == []
    {
      size == 0
    }

    /** Unchecked operator[] (read): the caller guarantees index < size. */
    function Get(index: nat): (x: T)
      reads this, items, items.raw
      requires Valid() && index < |Elems()|
      ensures x == Elems()[index]
    {
      items.Read(index)
    }

    /** Write through the reference that operator[] returns. */
    method Set(index: nat, x: T)
      requires Valid() && index < |Elems()|
      modifies items.raw
      ensures Valid()
      ensures Elems() == old(Elems())[index := x]
    {
      items.Write(index, x);
    }

    /** Checked At: out of range exactly when index >= size, otherwise the element. */
    function At(index: nat): (r: Result<T>)
      reads this, items, items.raw
      requires Valid()
      ensures r == Err(OutOfRange) <==> index >= |Elems()|
      ensures r.Ok? ==> r.value == Elems()[index]
    {
      if index >= size then Err(OutOfRange) else Ok(items.raw[index])
    }

    // ----- Mutators -----

    /** Clear: size 0; capacity and buffer kept. */
    method Clear()
      requires Valid()
      modifies this
      ensures Valid() && items == old(items)
      ensures Elems() == [] && capacity == old(capacity)
      ensures Exact() <==> old(Exact())
    {
      size := 0;
    }

    /** PopBack: drops the last element (size > 0 is the intended precondition). */
    method PopBack()
      requires Valid() && size > 0
      modifies this
      ensures Valid() && items == old(items)
      ensures Elems() == old(Elems())[..old(size) - 1] && capacity == old(capacity)
      ensures Exact() <==> old(Exact())
    {
      size := size - 1;
    }

    /** Moves the live range into a fresh buffer of `len` zero-filled slots and adopts it. */
    method Reallocate(len: nat)
      requires Valid() && size < len
      modifies this, items
      ensures items == old(items) && size == old(size) && capacity == old(capacity)
      ensures items.raw != null && fresh(items.raw) && items.raw.Length == len
      ensures items.raw[..] == old(Elems()) + Repeat(zero, len - size)
    {
      var next := FilledBuffer(len, zero);
      var t := 0;
      while t < size
        invariant t <= size
        invariant next.raw != null && next.raw.Length == len
        invariant next.raw[..] == old(Elems())[..t] + Repeat(zero, len - t)
        modifies next.raw
      {
        next.raw[t] := items.raw[t];
        t := t + 1;
        assert next.raw[..] == old(Elems())[..t] + Repeat(zero, len - t);
      }
      items.Swap(next);
    }

    /**
     * Resize(n): size becomes n; new slots hold `zero`.  Growing past the
     * capacity reallocates and records the new capacity; growing within it
     * also reallocates, to exactly n slots, and leaves the capacity alone.
     */
    method Resize(n: nat)
      requires Valid()
      modifies this, items
      ensures Valid() && items == old(items)
      ensures Elems() == Resized(old(Elems()), n, zero)
      ensures capacity == if n > old(capacity) then n else old(capacity)
      ensures n > old(size) ==> fresh(items.raw) && BufferLength() == n
      ensures n <= old(size) ==> items.raw == old(items.raw)
    {
      if n > capacity {
        Reallocate(n);
        capacity := n;
      } else if n > size {
        Reallocate(n);
      }
      size := n;
    }

    /** Reserve(n): beyond the capacity, a fresh buffer of n slots holding the live range; otherwise nothing. */
    method Reserve(newCapacity: nat)
      requires Valid()
      modifies this, items
      ensures Valid() && items == old(items)
      ensures Elems() == old(Elems())
      ensures capacity == if newCapacity > old(capacity) then newCapacity else old(capacity)
      ensures newCapacity > old(capacity) ==> fresh(items.raw) && Exact()
      ensures newCapacity <= old(capacity) ==> items.raw == old(items.raw)
    {
      if newCapacity > capacity {
        var res := new ArrayPtr<T>(newCapacity);
        var i := 0;
        while i < size
          invariant i <= size
          invariant res.raw != null && res.raw.Length == newCapacity
          invariant res.raw[..i] == old(Elems())[..i]
          modifies res.raw
        {
          res.raw[i] := items.raw[i];
          i := i + 1;
        }
        capacity := newCapacity;
        items.Swap(res);
      }
    }

    /** PushBack: appends `item`; a full vector first grows to PushBackGrowth(capacity). */
    method PushBack(item: T)
      requires Valid() && AppendFits()
      modifies this, items, items.raw
      ensures Valid() && items == old(items)
      ensures Elems() == old(Elems()) + [item]
      ensures capacity == if old(size) < old(capacity) then old(capacity) else PushBackGrowth(old(capacity))
      ensures if old(size) < old(capacity) then items.raw == old(items.raw) else fresh(items.raw) && Exact()
      ensures old(Exact()) ==> Exact()
    {
      if size < capacity {
        items.raw[size] := item;
        size := size + 1;
      } else {
        var curSize := size;
        capacity := PushBackGrowth(capacity);
        Resize(capacity);
        size := curSize;
        items.raw[size] := item;
        size := size + 1;
      }
    }

    /** Moves live[from..size) one slot up, last element first (std::copy_backward). */
    method ShiftUp(from: nat)
      requires Valid() && from <= size < BufferLength()
      modifies items.raw
      ensures items.raw[..] == old(items.raw[..])[..from + 1] + old(items.raw[..])[from..size] + old(items.raw[..])[size + 1..]
    {
      var a := items.raw;
      ghost var s := a[..];
      var i := size;
      while i > from
        invariant from <= i <= size
        invariant forall k :: 0 <= k <= i ==> a[k] == s[k]
        invariant forall k :: i < k <= size ==> a[k] == s[k - 1]
        invariant forall k :: size < k < a.Length ==> a[k] == s[k]
      {
        a[i] := a[i - 1];
        i := i - 1;
      }
      assert a[..] == s[..from + 1] + s[from..size] + s[size + 1..];
    }

    /**
     * Insert(pos, value): `value` lands at position `dist` and the later
     * elements move up; a full vector first grows to InsertGrowth(capacity).
     * Returns the position of the inserted element.
     */
    method Insert(dist: nat, value: T) returns (pos: nat)
      requires Valid() && AppendFits() && dist <= size
      modifies this, items, items.raw
      ensures Valid() && items == old(items)
      ensures Elems() == InsertAt(old(Elems()), dist, value)
      ensures pos == dist
      ensures capacity == if old(size) < old(capacity) then old(capacity) else InsertGrowth(old(capacity))
      ensures if old(size) < old(capacity) then items.raw == old(items.raw) else fresh(items.raw) && Exact()
      ensures old(Exact()) ==> Exact()
    {
      var curSize := size;
      if !(size < capacity) {
        capacity := InsertGrowth(capacity);
        Resize(capacity);
        size := curSize;
      }
      ghost var before := items.raw[..];
      assert before[..curSize] == old(Elems());
      ShiftUp(dist);
      items.raw[dist] := value;
      size := curSize + 1;
      ShiftThenWrite(before, dist, curSize, value);
      pos := dist;
    }

    /**
     * Erase(pos): the live range without position `dist`, in a fresh buffer
     * of exactly size - 1 slots; the recorded capacity is left as it was.
     * Returns `dist`, the position of the element that followed.
     */
    method Erase(dist: nat) returns (pos: nat)
      requires Valid() && dist < size
      modifies this, items
      ensures Valid() && items == old(items)
      ensures Elems() == RemoveAt(old(Elems()), dist)
      ensures BufferLength() == |Elems()| && capacity == old(capacity)
      ensures pos == dist
      ensures items.raw != null ==> fresh(items.raw)
    {
      var to := FilledBuffer(size - 1, zero);
      if to.raw != null {
        MoveWithout(items.raw, size, dist, to.raw);
      }
      items.Swap(to);
      size := size - 1;
      pos := dist;
    }

    /** Fills `dst` with src[..size] minus position `dist`: the prefix forwards (std::move), the suffix backwards (std::move_backward). */
    static method MoveWithout(src: array<T>, size: nat, dist: nat, dst: array<T>)
      requires dist < size <= src.Length && dst.Length == size - 1
      modifies dst
      ensures dst[..] == RemoveAt(old(src[..size]), dist)
    {
      ghost var s := src[..size];
      var i := 0;
      while i < dist
        invariant i <= dist
        invariant dst[..i] == s[..i]
        invariant src[..size] == s
      {
        dst[i] := src[i];
        i := i + 1;
      }
      var j := size;
      while j > dist + 1
        invariant dist + 1 <= j <= size
        invariant dst[..dist] == s[..dist]
        invariant dst[j - 1..] == s[j..]
        invariant src[..size] == s
      {
        dst[j - 2] := src[j - 1];
        j := j - 1;
      }
      assert dst[..] == dst[..dist] + dst[dist..];
    }

    /** Erase followed by setting the recorded capacity to the buffer length. */
    method EraseTrackingCapacity(dist: nat) returns (pos: nat)
      requires Valid() && dist < size
      modifies this, items
      ensures Valid() && Exact() && items == old(items)
      ensures Elems() == RemoveAt(old(Elems()), dist)
      ensures pos == dist
      ensures capacity == |Elems()|
      ensures items.raw != null ==> fresh(items.raw)
    {
      pos := Erase(dist);
      capacity := size;
    }

    /** Resize whose reallocation within the capacity keeps all `capacity` slots. */
    method ResizeKeepingCapacity(n: nat)
      requires Valid() && Exact()
      modifies this, items
      ensures Valid() && Exact() && items == old(items)
      ensures Elems() == Resized(old(Elems()), n, zero)
      ensures capacity == if n > old(capacity) then n else old(capacity)
      ensures n > old(size) ==> fresh(items.raw)
      ensures n <= old(size) ==> items.raw == old(items.raw)
    {
      if n > capacity {
        Reallocate(n);
        capacity := n;
      } else if n > size {
        Reallocate(capacity);
      }
      size := n;
    }

    /** swap: exchanges buffers, sizes and capacities. */
    method Swap(other: SimpleVector<T>)
      requires Valid() && other.Valid()
      modifies this, other, items, other.items
      ensures Valid() && other.Valid()
      ensures items == old(items) && other.items == old(other.items)
      ensures items.raw == old(other.items.raw) && other.items.raw == old(items.raw)
      ensures Elems() == old(other.Elems()) && other.Elems() == old(Elems())
      ensures capacity == old(other.capacity) && other.capacity == old(capacity)
    {
      items.Swap(other.items);
      size, other.size := other.size, size;
      capacity, other.capacity := other.capacity, capacity;
    }

    /** Copy assignment: nothing on self-assignment; otherwise a copy of rhs, with capacity its size. */
    method CopyAssign(rhs: SimpleVector<T>)
      requires Valid() && rhs.Valid()
      requires this != rhs ==> Repr() !! rhs.Repr()
      modifies this, items
      ensures Valid() && items == old(items)
      ensures this == rhs ==> Elems() == old(Elems()) && capacity == old(capacity) && items.raw == old(items.raw)
      ensures this != rhs ==> Elems() == old(rhs.Elems()) && capacity == old(|rhs.Elems()|) && Exact()
      ensures this != rhs ==> items.raw == null || fresh(items.raw)
      ensures this != rhs ==> rhs.Elems() == old(rhs.Elems())
    {
      if this != rhs {
        var copy := new SimpleVector<T>.Copy(rhs);
        Swap(copy);
      }
    }

    /** Move assignment: swaps, so `other` receives this vector's old state. */
    method MoveAssign(other: SimpleVector<T>)
      requires Valid() && other.Valid()
      modifies this, other, items, other.items
      ensures Valid() && other.Valid()
      ensures items == old(items) && other.items == old(other.items)
      ensures items.raw == old(other.items.raw) && other.items.raw == old(items.raw)
      ensures Elems() == old(other.Elems()) && other.Elems() == old(Elems())
      ensures capacity == old(other.capacity) && other.capacity == old(capacity)
    {
      Swap(other);
    }
  }
}
