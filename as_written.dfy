// Steps of simple-vector/simple_vector.h modelled exactly as written where
// they depart from what the surrounding code and comments intend.  The
// container in module Vector implements the intended behaviour.
module AsWritten {
  import opened Vector

  datatype Option<V> = None | Some(value: V)

  /** The largest size_t value. */
  const SizeMax: nat := 0xFFFF_FFFF_FFFF_FFFF

  /**
   * Insert on a full vector (size == capacity == |elems|), written as the
   * source has it: after growing, size_ is set to size + 1 BEFORE the
   * backward copy of [dist, end) to end + 1, so the copy writes slot size + 1.
   * None when that slot lies outside the grown buffer.
   */
  function InsertFullAsWritten<T>(elems: seq<T>, dist: nat, value: T, zero: T): (r: Option<seq<T>>)
    requires dist <= |elems|
    ensures r != None ==> |r.value| == |elems| + 1 && r.value[dist] == value
  {
    var buf := elems + Repeat(zero, InsertGrowth(|elems|) - |elems|);
    var n := |elems| + 1;
    if n >= |buf| then None
    else Some((buf[..dist + 1] + buf[dist..n] + buf[n + 1..])[dist := value][..n])
  }

  /**
   * The as-written grow path overruns the new buffer exactly when the full
   * vector holds one element; otherwise its live range is the intended one.
   */
  lemma InsertFullAsWrittenOverrun<T>(elems: seq<T>, dist: nat, value: T, zero: T)
    requires dist <= |elems|
    ensures InsertFullAsWritten(elems, dist, value, zero) == None <==> |elems| == 1
    ensures InsertFullAsWritten(elems, dist, value, zero) != None ==>
              InsertFullAsWritten(elems, dist, value, zero).value == InsertAt(elems, dist, value)
  {
    var buf := elems + Repeat(zero, InsertGrowth(|elems|) - |elems|);
    var n := |elems| + 1;
    if n < |buf| {
      var t := (buf[..dist + 1] + buf[dist..n] + buf[n + 1..])[dist := value][..n];
      var u := InsertAt(elems, dist, value);
      assert |t| == |u|;
      forall k | 0 <= k < |t| ensures t[k] == u[k] {
        if k < dist {
        } else if k == dist {
        } else {
          assert t[k] == buf[k - 1];
        }
      }
      assert t == u;
    }
  }

  /** What PopBack does when assertions are enabled: it aborts unless the vector is EMPTY, then wraps size_ below zero. */
  datatype PopBackOutcome = AssertionFailure | NewSize(size: nat)

  function PopBackAsWritten(size: nat): (r: PopBackOutcome)
    requires size <= SizeMax
    ensures r.NewSize? ==> size == 0 && r.size == SizeMax
  {
    if !(size == 0) then AssertionFailure else NewSize((size - 1) % (SizeMax + 1))
  }

  /** No non-empty vector can pop; the one call that passes the check wraps the size to SIZE_MAX. */
  lemma PopBackAsWrittenInverted(size: nat)
    requires size <= SizeMax
    ensures PopBackAsWritten(size) == AssertionFailure <==> size > 0
    ensures PopBackAsWritten(0) == NewSize(SizeMax)
  {
  }

  /** Erase's position check: pos in [begin, end], end included. */
  predicate ErasePositionChecked(size: nat, dist: nat)
    ensures dist == size ==> ErasePositionChecked(size, dist)
    ensures ErasePositionChecked(size, dist) ==> dist <= size
  {
    dist <= size
  }

  /** The two assertions that guard Erase: the position check and the (inverted) emptiness check. */
  predicate EraseAssertionsPass(size: nat, dist: nat)
    ensures EraseAssertionsPass(size, dist) <==> size == 0 && dist == 0
  {
    ErasePositionChecked(size, dist) && size == 0
  }

  /**
   * The guards let Erase through only on an empty vector, where there is
   * nothing to erase; and the position check alone admits dist == size.
   */
  lemma EraseAssertionsAsWritten(size: nat, dist: nat)
    ensures EraseAssertionsPass(size, dist) <==> size == 0 && dist == 0
    ensures ErasePositionChecked(size, size)
  {
  }
}
