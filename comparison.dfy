// The free comparison operators of simple-vector/simple_vector.h, stated over
// the live ranges [0, size) of the two vectors.  `lt` is the element type's
// operator<; equality uses the element type's ==.
module Comparison {

  /** operator<: std::lexicographical_compare over the two live ranges. */
  function Less<T>(a: seq<T>, b: seq<T>, lt: (T, T) -> bool): (r: bool)
    ensures r ==> |b| > 0
    ensures |a| == 0 ==> (r <==> |b| > 0)
    decreases |b|
  {
    if |b| == 0 then false
    else if |a| == 0 then true
    else if lt(a[0], b[0]) then true
    else if lt(b[0], a[0]) then false
    else Less(a[1..], b[1..], lt)
  }

  /** operator==: std::equal over the two live ranges; ranges of different length differ. */
  function Equal<T(==)>(a: seq<T>, b: seq<T>): (r: bool)
    ensures r ==> |a| == |b|
    decreases |a|
  {
    if |a| != |b| then false
    else if |a| == 0 then true
    else a[0] == b[0] && Equal(a[1..], b[1..])
  }

  /** operator!=. */
  function NotEqual<T(==)>(a: seq<T>, b: seq<T>): (r: bool)
    ensures r <==> a != b
  {
    EqualIff(a, b);
    !Equal(a, b)
  }

  /** operator<=: not (b < a). */
  function LessEq<T>(a: seq<T>, b: seq<T>, lt: (T, T) -> bool): (r: bool)
    ensures |a| == 0 ==> r
  {
    !Less(b, a, lt)
  }

  /** operator>: b < a. */
  function Greater<T>(a: seq<T>, b: seq<T>, lt: (T, T) -> bool): (r: bool)
    ensures r ==> |a| > 0
    ensures |b| == 0 ==> (r <==> |a| > 0)
  {
    Less(b, a, lt)
  }

  /** operator>=: not (a < b). */
  function GreaterEq<T>(a: seq<T>, b: seq<T>, lt: (T, T) -> bool): (r: bool)
    ensures |b| == 0 ==> r
  {
    !Less(a, b, lt)
  }

  // ----- Reference definitions -----

  /** Neither element is below the other. */
  ghost predicate Equivalent<T>(x: T, y: T, lt: (T, T) -> bool)
  {
    !lt(x, y) && !lt(y, x)
  }

  /** `a` is below `b` because they agree up to position k, and there `a` ends first or is smaller. */
  ghost predicate LessAt<T>(a: seq<T>, b: seq<T>, lt: (T, T) -> bool, k: nat)
  {
    k <= |a| && k < |b| &&
    (forall i :: 0 <= i < k ==> Equivalent(a[i], b[i], lt)) &&
    (k == |a| || lt(a[k], b[k]))
  }

  ghost predicate StrictTotalOrder<T(!new)>(lt: (T, T) -> bool)
  {
    (forall x :: !lt(x, x)) &&
    (forall x, y, z :: lt(x, y) && lt(y, z) ==> lt(x, z)) &&
    (forall x, y :: x == y || lt(x, y) || lt(y, x))
  }

  // ----- Lemmas -----

  /** operator< is the lexicographic order: first differing position, or a proper prefix. */
  lemma {:induction false} LessIff<T>(a: seq<T>, b: seq<T>, lt: (T, T) -> bool)
    ensures Less(a, b, lt) <==> exists k :: LessAt(a, b, lt, k)
    decreases |b|
  {
    if |b| == 0 {
    } else if |a| == 0 {
      assert LessAt(a, b, lt, 0);
    } else if lt(a[0], b[0]) {
      assert LessAt(a, b, lt, 0);
    } else if lt(b[0], a[0]) {
      if k: nat :| LessAt(a, b, lt, k) {
        assert Equivalent(a[0], b[0], lt) by {
          assert k != 0;
        }
        assert false;
      }
    } else {
      LessIff(a[1..], b[1..], lt);
      if Less(a, b, lt) {
        var k: nat :| LessAt(a[1..], b[1..], lt, k);
        assert LessAt(a, b, lt, k + 1) by {
          forall i | 0 <= i < k + 1 ensures Equivalent(a[i], b[i], lt) {
            if i > 0 {
              assert a[i] == a[1..][i - 1] && b[i] == b[1..][i - 1];
            }
          }
        }
      }
      if k: nat :| LessAt(a, b, lt, k) {
        assert k != 0;
        assert LessAt(a[1..], b[1..], lt, k - 1) by {
          forall i | 0 <= i < k - 1 ensures Equivalent(a[1..][i], b[1..][i], lt) {
            assert a[1..][i] == a[i + 1] && b[1..][i] == b[i + 1];
          }
        }
      }
    }
  }

  /** operator== holds exactly when the live ranges have the same length and elements. */
  lemma {:induction false} EqualIff<T>(a: seq<T>, b: seq<T>)
    ensures Equal(a, b) <==> a == b
    decreases |a|
  {
    if |a| == |b| && |a| > 0 {
      EqualIff(a[1..], b[1..]);
      if a[0] == b[0] && a[1..] == b[1..] {
        assert a == [a[0]] + a[1..] && b == [b[0]] + b[1..];
      }
    }
  }

  /** For an irreflexive element order, no range is below itself. */
  lemma {:induction false} LessIrreflexive<T>(a: seq<T>, lt: (T, T) -> bool)
    requires forall x :: !lt(x, x)
    ensures !Less(a, a, lt)
    decreases |a|
  {
    if |a| > 0 {
      LessIrreflexive(a[1..], lt);
    }
  }

  /** For a strict total element order, exactly one of a < b, a == b, b < a holds. */
  lemma {:induction false} LessTrichotomy<T(!new)>(a: seq<T>, b: seq<T>, lt: (T, T) -> bool)
    requires StrictTotalOrder(lt)
    ensures Less(a, b, lt) || a == b || Less(b, a, lt)
    ensures !(Less(a, b, lt) && Less(b, a, lt))
    ensures a == b ==> !Less(a, b, lt)
    decreases |a|
  {
    if |a| > 0 && |b| > 0 {
      LessTrichotomy(a[1..], b[1..], lt);
      if a[0] == b[0] && a[1..] == b[1..] {
        assert a == [a[0]] + a[1..] && b == [b[0]] + b[1..];
      }
    }
    if a == b {
      LessIrreflexive(a, lt);
    }
  }

  /** For a strict total element order, operator< is transitive. */
  lemma {:induction false} LessTransitive<T(!new)>(a: seq<T>, b: seq<T>, c: seq<T>, lt: (T, T) -> bool)
    requires StrictTotalOrder(lt)
    requires Less(a, b, lt) && Less(b, c, lt)
    ensures Less(a, c, lt)
    decreases |a|
  {
    if |a| > 0 && a[0] == b[0] && b[0] == c[0] {
      LessTransitive(a[1..], b[1..], c[1..], lt);
    }
  }

  /** The four derived operators are the negations and flips they are written as. */
  lemma DerivedOperators<T(!new)>(a: seq<T>, b: seq<T>, lt: (T, T) -> bool)
    requires StrictTotalOrder(lt)
    ensures NotEqual(a, b) <==> a != b
    ensures LessEq(a, b, lt) <==> Less(a, b, lt) || a == b
    ensures Greater(a, b, lt) <==> !LessEq(a, b, lt)
    ensures GreaterEq(a, b, lt) <==> Less(b, a, lt) || a == b
  {
    EqualIff(a, b);
    LessTrichotomy(a, b, lt);
  }

  function IntLess(x: int, y: int): bool
  {
    x < y
  }

  /** The orderings {1,2} < {1,2,3} < {1,2,4} and {1,2,3} == {1,2,3}. */
  lemma IntExamples()
    ensures Less([1, 2], [1, 2, 3], IntLess)
    ensures Less([1, 2, 3], [1, 2, 4], IntLess)
    ensures !Less([1, 2, 3], [1, 2], IntLess)
    ensures Equal([1, 2, 3], [1, 2, 3]) && !Less([1, 2, 3], [1, 2, 3], IntLess)
    ensures NotEqual([1, 2], [1, 2, 3])
  {
    EqualIff([1, 2, 3], [1, 2, 3]);
    EqualIff([1, 2], [1, 2, 3]);
  }
}
