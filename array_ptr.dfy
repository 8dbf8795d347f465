// An owning handle to zero or one heap array (simple-vector/array_ptr.h).
// Ownership is modelled by which handle holds the reference in `raw`;
// deallocation has no counterpart in Dafny.
module ArrayPointer {

  class ArrayPtr<T(0)> {
    /** The held array, or null when the handle owns nothing. */
    var raw: array?<T>

    /** Default construction: owns nothing. */
    constructor Empty()
      ensures raw == null
      ensures !ToBool() && Get() == null
    {
      raw := null;
    }

    /** Allocates `size` slots; a request for zero slots leaves the handle null. */
    constructor (size: nat)
      ensures size == 0 ==> raw == null
      ensures size > 0 ==> raw != null && fresh(raw) && raw.Length == size
      ensures ToBool() <==> size > 0
    {
      if size == 0 {
        raw := null;
      } else {
        raw := new T[size];
      }
    }

    /** Adopts an array the caller already allocated (or null). */
    constructor FromRaw(p: array?<T>)
      ensures raw == p
    {
      raw := p;
    }

    /** Move construction: starts null and swaps with `other`, so `other` ends up null. */
    constructor Move(other: ArrayPtr<T>)
      modifies other
      ensures raw == old(other.raw)
      ensures other.raw == null
    {
      raw := null;
      new;
      Swap(other);
    }

    /** Move assignment: only swaps, so `other` receives this handle's old array. */
    method MoveAssign(other: ArrayPtr<T>)
      modifies this, other
      ensures raw == old(other.raw)
      ensures other.raw == old(raw)
    {
      Swap(other);
    }

    /** Gives up ownership: returns the held array and leaves the handle null. */
    method Release() returns (p: array?<T>)
      modifies this
      ensures p == old(Get())
      ensures raw == null && !ToBool()
    {
      p := raw;
      raw := null;
    }

    /** Unchecked read of slot `index` (const operator[]). */
    function Read(index: nat): (x: T)
      reads this, raw
      requires raw != null && index < raw.Length
      ensures x == Get()[index]
    {
      raw[index]
    }

    /** Write through the reference that the non-const operator[] returns. */
    method Write(index: nat, x: T)
      requires raw != null && index < raw.Length
      modifies raw
      ensures raw[..] == old(raw[..])[index := x]
    {
      raw[index] := x;
    }

    /** The truth test: whether the handle owns an array. */
    predicate ToBool()
      reads this
      ensures ToBool() <==> Get() != null
    {
      raw != null
    }

    /** The held pointer. */
    function Get(): (p: array?<T>)
      reads this
      ensures p == raw
    {
      raw
    }

    /** Exchanges the held arrays with `other`; no element moves. */
    method Swap(other: ArrayPtr<T>)
      modifies this, other
      ensures raw == old(other.raw)
      ensures other.raw == old(raw)
    {
      var tempPtr := other.raw;
      other.raw := raw;
      raw := tempPtr;
    }
  }
}
