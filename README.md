# SimpleVector and ArrayPtr in Dafny

A model of a teaching-sized growable array written in C++. It has two layers:

- `ArrayPtr<T>` (module `ArrayPointer`, `array_ptr.dfy`) is an owning handle to zero or one heap array. It is a class with a single field `raw: array?<T>`. Construction, move, `Release`, `swap`, the truth test and indexing are methods and functions whose contracts say what becomes of `raw`.
- `SimpleVector<T>` (module `Vector`, `simple_vector.dfy`) is the growable array. It is a class whose `items` field is an `ArrayPtr<T>`, next to the `size` and `capacity` fields of the original.
  - The live range `[0, size)` is given by `Elems()`. Every method's postcondition states the new `Elems()` as sequence algebra over the old one: append, splice-in (`InsertAt`), splice-out (`RemoveAt`), truncate or pad (`Resized`).
  - Iterators are indices into the live range. The `out_of_range` exception of `At` is the result `Err(OutOfRange)`. The capacity tag `TransCapacity` is a datatype, taken by the `WithCapacity` constructor.
- The free comparison operators (module `Comparison`, `comparison.dfy`) are pure functions over the two live ranges. The element type's `operator<` is passed in as `lt`.
  - `Less` is proved to be the lexicographic order (`LessIff`).
  - For a strict total element order, `Less` is proved irreflexive, transitive and trichotomous.
  - `Equal` is proved to be sequence equality. The four derived operators are proved to be the intended negations and flips.
- `as_written.dfy` (module `AsWritten`) models, on values, the steps of the source that do not do what the code around them needs (see "## Findings").
- `scenarios.dfy` (module `Scenarios`) holds client methods. Using only the contracts, they show the observable behaviours: growth 1, 2, 4 when pushing onto an empty vector; push/pop and insert/erase round trips; copy independence; move semantics; `Clear` keeping the capacity; `At(size)` failing.

Two invariants are kept apart:

- `Valid()` holds in every reachable state: `size <= BufferLength() <= capacity`.
- `Exact()` is the intended invariant: `BufferLength() == capacity`.
  - Every constructor, `Reserve`, `PushBack`, `Insert`, `Clear` and `PopBack` keeps `Exact()`.
  - `Erase` and the middle branch of `Resize` break it.
  - `PushBack` and `Insert` require `AppendFits()` (`size < capacity ==> size < BufferLength()`). Without it, their fast path writes past the buffer.

The model follows the code in these consequential details:

- `Insert` on a full vector of capacity 0 grows to capacity 2, although the comment at simple_vector.h:257 asks for 1. It first sets the capacity to 1 and then doubles it (simple_vector.h:264-265). `PushBack` grows 0 to 1.
- Move assignment only swaps (simple_vector.h:38-41), so the source receives the target's old state. Only move construction leaves its source empty.
- Copy construction gives a capacity equal to the source's size, not the source's capacity (simple_vector.h:205-209).
- `Resize` with `size < n <= capacity` allocates a buffer of `n` slots, not `capacity` slots, and leaves `capacity_` as it was (simple_vector.h:153-159).
- `PushBack` and `Insert` raise `capacity_` before calling `Resize(capacity_)`. That call therefore always takes `Resize`'s middle branch, which here allocates exactly the new capacity.

## Model

| member | source | states |
|---|---|---|
| `ArrayPointer.ArrayPtr.Empty` | simple-vector/array_ptr.h:8 | a default handle holds null and tests false |
| `ArrayPointer.ArrayPtr.constructor` | simple-vector/array_ptr.h:12-15 | size 0 leaves the handle null; size n > 0 owns a fresh array of exactly n slots; truth test iff n > 0 |
| `ArrayPointer.ArrayPtr.FromRaw` | simple-vector/array_ptr.h:18-20 | the handle holds exactly the given array or null |
| `ArrayPointer.ArrayPtr.Move` | simple-vector/array_ptr.h:25-27 | move construction: the new handle holds the source's old array, the source is null |
| `ArrayPointer.ArrayPtr.MoveAssign` | simple-vector/array_ptr.h:29-32 | move assignment exchanges the two arrays; the source is not nulled |
| `ArrayPointer.ArrayPtr.Release` | simple-vector/array_ptr.h:43-47 | returns what `Get()` held before and leaves the handle null and false |
| `ArrayPointer.ArrayPtr.Read` | simple-vector/array_ptr.h:55-58 | for index < length, the value in slot `index` of the array `Get()` returns |
| `ArrayPointer.ArrayPtr.Write` | simple-vector/array_ptr.h:50-52 | for index < length, slot `index` becomes x and every other slot is unchanged |
| `ArrayPointer.ArrayPtr.ToBool` | simple-vector/array_ptr.h:61-63 | true iff `Get()` is non-null |
| `ArrayPointer.ArrayPtr.Get` | simple-vector/array_ptr.h:66-68 | the held pointer, null when the handle owns nothing |
| `ArrayPointer.ArrayPtr.Swap` | simple-vector/array_ptr.h:71-75 | the two handles exchange arrays, self-swap included |
| `Vector.Reserve` | simple-vector/simple_vector.h:22-24 | the tag carries exactly the requested capacity |
| `Vector.SimpleVector.Empty` | simple-vector/simple_vector.h:32 | no elements, capacity 0, null buffer |
| `Vector.SimpleVector.WithCapacity` | simple-vector/simple_vector.h:43-48 | no elements, capacity t, buffer of t slots |
| `Vector.SimpleVector.constructor` | simple-vector/simple_vector.h:51-58 | n elements all equal to the value-initialised `zero`, capacity n |
| `Vector.SimpleVector.Filled` | simple-vector/simple_vector.h:69-75 | n elements all equal to `value`, capacity n |
| `Vector.SimpleVector.FromList` | simple-vector/simple_vector.h:78-87 | elements are the list in order; size and capacity are its length |
| `Vector.SimpleVector.Copy` | simple-vector/simple_vector.h:205-209 | equal elements in a fresh buffer; capacity is the source's size |
| `Vector.SimpleVector.FilledBuffer` | simple-vector/simple_vector.h:56-58 | the `ArrayPtr res(size)` plus fill step of the sized constructors (also line 74): a fresh handle, null iff n == 0, otherwise a fresh n-slot array whose every slot holds the fill value |
| `Vector.SimpleVector.CopyLive` | simple-vector/simple_vector.h:206-207 | copy construction's buffer: a fresh handle, null iff the source is empty, otherwise a fresh array equal to the source's live range |
| `Vector.SimpleVector.Move` | simple-vector/simple_vector.h:34-36 | takes over the source's buffer, elements and capacity; the source becomes empty with capacity 0 and no buffer |
| `Vector.SimpleVector.MoveAssign` | simple-vector/simple_vector.h:38-41 | each vector keeps its handle while the two handles exchange buffers; elements and capacities are exchanged, so the source gets the target's old state |
| `Vector.SimpleVector.CopyAssign` | simple-vector/simple_vector.h:211-217 | self-assignment changes nothing; otherwise elements equal rhs's in a freshly allocated buffer (or none when rhs is empty), capacity is rhs's size, rhs is unchanged |
| `Vector.SimpleVector.Swap` | simple-vector/simple_vector.h:199-203 | buffers, elements and capacities are exchanged |
| `Vector.SimpleVector.GetSize` | simple-vector/simple_vector.h:90-92 | the number of live elements |
| `Vector.SimpleVector.GetCapacity` | simple-vector/simple_vector.h:95-97 | the recorded capacity, never below the size |
| `Vector.SimpleVector.IsEmpty` | simple-vector/simple_vector.h:100-102 | true iff the live range is empty |
| `Vector.SimpleVector.Get` | simple-vector/simple_vector.h:111-115 | for index < size, element `index` of the live range |
| `Vector.SimpleVector.Set` | simple-vector/simple_vector.h:105-108 | writing through operator[] replaces element `index` only |
| `Vector.SimpleVector.At` | simple-vector/simple_vector.h:128-135 | `Err(OutOfRange)` iff index >= size, otherwise element `index`; reads only |
| `Vector.SimpleVector.Clear` | simple-vector/simple_vector.h:138-140 | no elements; capacity and buffer kept |
| `Vector.SimpleVector.Resize` | simple-vector/simple_vector.h:144-161 | elements become `Resized(old, n, zero)`; capacity n if n > capacity, else unchanged; a fresh n-slot buffer iff n > old size |
| `Vector.SimpleVector.Reallocate` | simple-vector/simple_vector.h:146-150 | the two growing branches of Resize (also lines 154-158): a fresh buffer of `len` slots holding the old live range followed by default values; size and capacity fields untouched |
| `Vector.ResizedProperties` | simple-vector/simple_vector.h:144-161 | after Resize(n): length n, the first min(old size, n) elements kept, the slots from the old size to n default |
| `Vector.SimpleVector.Reserve` | simple-vector/simple_vector.h:322-331 | elements unchanged; beyond the capacity a fresh buffer and capacity n, otherwise nothing changes |
| `Vector.SimpleVector.PushBack` | simple-vector/simple_vector.h:223-252 | appends the item; capacity unchanged when not full, otherwise `PushBackGrowth` (0 to 1, c to 2c) |
| `Vector.GrowthDoubles` | simple-vector/simple_vector.h:229 | growth gives strictly more room and doubles a non-zero capacity; PushBack starts at 1, Insert at 2 |
| `Vector.SimpleVector.ShiftUp` | simple-vector/simple_vector.h:271 | the backward copy moves slots [from, size) up by one and leaves every other slot as it was |
| `Vector.SimpleVector.Insert` | simple-vector/simple_vector.h:258-300 | elements become `InsertAt(old, dist, value)`; returns dist; capacity unchanged when not full, otherwise `InsertGrowth` |
| `Vector.InsertAtShifts` | simple-vector/simple_vector.h:267-274 | insertion keeps the elements before dist and moves the rest up by one |
| `Vector.SimpleVector.MoveWithout` | simple-vector/simple_vector.h:315-316 | copying the prefix forwards and the suffix backwards gives the live range without position dist |
| `Vector.SimpleVector.Erase` | simple-vector/simple_vector.h:309-320 | elements become `RemoveAt(old, dist)`; returns dist; buffer length is the new size while the capacity field is unchanged |
| `Vector.EraseUndoesInsert` | simple-vector/simple_vector.h:258-320 | erasing at the position just inserted restores the live range |
| `Vector.SimpleVector.PopBack` | simple-vector/simple_vector.h:302-306 | for a non-empty vector, drops the last element; capacity kept |
| `Vector.SimpleVector.EraseTrackingCapacity` | simple-vector/simple_vector.h:309-320 | corrected Erase: same elements, capacity equal to the new buffer length |
| `Vector.SimpleVector.ResizeKeepingCapacity` | simple-vector/simple_vector.h:153-159 | corrected Resize: same elements and capacity as Resize, and the buffer keeps all `capacity` slots |
| `Comparison.Less` | simple-vector/simple_vector.h:341-343 | `<` holds only when the right range is non-empty; an empty left range is below exactly the non-empty ranges |
| `Comparison.Equal` | simple-vector/simple_vector.h:345-348 | `==` holds only for ranges of the same length |
| `Comparison.NotEqual` | simple-vector/simple_vector.h:350-353 | `!=` holds iff the two live ranges differ |
| `Comparison.LessEq` | simple-vector/simple_vector.h:355-358 | the empty range is `<=` every range |
| `Comparison.Greater` | simple-vector/simple_vector.h:360-363 | `>` holds only when the left range is non-empty; against an empty right range exactly then |
| `Comparison.GreaterEq` | simple-vector/simple_vector.h:365-368 | every range is `>=` the empty range |
| `Comparison.LessIff` | simple-vector/simple_vector.h:341-343 | `<` holds iff the ranges agree up to a position where the left one ends first or holds a smaller element |
| `Comparison.LessIrreflexive` | simple-vector/simple_vector.h:341-343 | for an irreflexive element order, no range is below itself |
| `Comparison.LessTrichotomy` | simple-vector/simple_vector.h:341-343 | for a strict total element order, exactly one of a < b, a == b, b < a holds |
| `Comparison.LessTransitive` | simple-vector/simple_vector.h:341-343 | for a strict total element order, `<` is transitive |
| `Comparison.EqualIff` | simple-vector/simple_vector.h:345-348 | `==` holds iff the lengths and all elements agree |
| `Comparison.DerivedOperators` | simple-vector/simple_vector.h:350-368 | `!=` is inequality; `<=` is `<` or equal; `>` is not `<=`; `>=` is `>` or equal |
| `Comparison.IntExamples` | simple-vector/simple_vector.h:341-348 | {1,2} < {1,2,3}; {1,2,3} < {1,2,4}; {1,2,3} == {1,2,3} and is not below itself |
| `AsWritten.InsertFullAsWritten` | simple-vector/simple_vector.h:263-269 | the grow path as written: when it stays inside the grown buffer, its live range has one more element and holds the value at dist |
| `AsWritten.InsertFullAsWrittenOverrun` | simple-vector/simple_vector.h:263-269 | the source's grow-then-shift overruns the new buffer exactly when the full vector holds one element; otherwise it gives the intended splice |
| `AsWritten.PopBackAsWrittenInverted` | simple-vector/simple_vector.h:303-306 | with assertions on, PopBack aborts on every non-empty vector and wraps an empty one's size to SIZE_MAX |
| `AsWritten.PopBackAsWritten` | simple-vector/simple_vector.h:303-306 | the assert-enabled PopBack as written: it only ever completes on size 0, and then leaves the size at SIZE_MAX |
| `AsWritten.ErasePositionChecked` | simple-vector/simple_vector.h:311 | Erase's position assert admits the end position and nothing beyond it |
| `AsWritten.EraseAssertionsPass` | simple-vector/simple_vector.h:311-312 | both Erase asserts pass iff the vector is empty and the position is 0 |
| `AsWritten.EraseAssertionsAsWritten` | simple-vector/simple_vector.h:311-312 | Erase's guards pass only on an empty vector at position 0; the position check admits pos == end |
| `Scenarios.HandleLifecycle` | simple-vector/array_ptr.h:8-15 | a default handle owns nothing; an n-slot handle owns iff n > 0; Release returns the array and the handle stops owning |
| `Scenarios.HandleSwapAndMove` | simple-vector/array_ptr.h:25-27 | swapping twice restores both handles; move construction leaves the source owning nothing |
| `Scenarios.LiteralConstruction` | simple-vector/simple_vector.h:78-87 | {10,20,30} has size 3, capacity 3 and reads 10, 20, 30 |
| `Scenarios.ReservedConstruction` | simple-vector/simple_vector.h:43-48 | a TransCapacity construction has size 0 and the requested capacity |
| `Scenarios.GrowthOnPush` | simple-vector/simple_vector.h:223-235 | three pushes onto an empty vector give capacities 1, 2, 4 |
| `Scenarios.InsertIntoEmpty` | simple-vector/simple_vector.h:263-265 | Insert into an empty vector gives capacity 2 |
| `Scenarios.PushPopRoundTrip` | simple-vector/simple_vector.h:302-306 | PushBack then PopBack restores the elements |
| `Scenarios.InsertEraseRoundTrip` | simple-vector/simple_vector.h:309-320 | Insert then Erase at the returned position restores the elements |
| `Scenarios.ClearRetainsCapacity` | simple-vector/simple_vector.h:137-140 | after Resize(5) and Clear(): size 0 and capacity 5 |
| `Scenarios.AtOnePastEnd` | simple-vector/simple_vector.h:117-124 | At(size) is out of range for every size, 0 included |
| `Scenarios.CopyIndependence` | simple-vector/simple_vector.h:205-209 | a copy equals its source and does not follow later pushes onto it |
| `Scenarios.CopyAssignIndependence` | simple-vector/simple_vector.h:211-217 | after copy assignment the target equals the source; a later write to the source and a push onto the target do not reach the other |
| `Scenarios.MoveAssignThenUse` | simple-vector/simple_vector.h:38-41 | after move assignment the target holds the source's old elements, the source the target's, and both stay writable independently |
| `Scenarios.MoveSemantics` | simple-vector/simple_vector.h:34-41 | move construction empties the source; move assignment hands the source the target's old elements |
| `Scenarios.EraseBreaksPushBackFastPath` | simple-vector/simple_vector.h:314-318 | after erasing from {1,2}: size < capacity while the buffer has only `size` slots |
| `Scenarios.ResizeBreaksPushBackFastPath` | simple-vector/simple_vector.h:153-159 | after Resize(2) of a capacity-4 vector: size < capacity while the buffer has only `size` slots |
| `Scenarios.CorrectedKeepCapacityExact` | simple-vector/simple_vector.h:223-235 | with the corrected Erase and Resize, later pushes stay within the buffer and give the expected elements |

## Left out

- The destructor and `delete[]` (array_ptr.h:34-36) are not modelled. Dafny has no explicit deallocation, and ownership is modelled by which handle holds the array.
- `ArrayPtr(0)` leaks the zero-length array it allocates (array_ptr.h:13). Only the null outcome is modelled.
- `begin`/`end`/`cbegin`/`cend` and iterator arithmetic (simple_vector.h:165-197) are not modelled. Positions are indices into the live range.
- The const and non-const accessor pairs are merged into one member. So are the copying and moving overloads of `PushBack` and `Insert`: with value semantics they behave the same.
- Writing through the reference that `At` returns is not modelled separately. `Set` is the write path, guarded by `index < size`.
- The unused `temp` member (simple_vector.h:337), the `<iostream>` include and the commented-out code (simple_vector.h:59-65) have no counterpart.
- `assert` is modelled as a precondition. `PopBack` and `Erase` use the intended non-emptiness condition, and `Erase` requires `dist < size`. The as-written checks are in module `AsWritten`.
- Exclusive ownership between two distinct vectors is not proved as a global invariant. `Vector.SimpleVector.CopyAssign` instead requires that two distinct vectors share no handle or buffer, which C++ guarantees because a buffer has one owner.
- Allocation failure and exception safety are runtime and allocator behaviour. They are not modelled.
- `size_t` is unbounded `nat`. The wrap-around of `2 * capacity_` and of `size_ + 1` near `SIZE_MAX` is not modelled. The one exception is `AsWritten.PopBackAsWritten`, which wraps explicitly.
- `Type()` cannot be named generically in Dafny. Each vector carries a `const zero: T` standing for it, taken from an auto-initialised value; copies and moves take the source's `zero`. The model does not know that all vectors of one element type share the same `zero`, and `Swap` does not exchange it.
- `Vector.SimpleVector.Resize`: new slots are stated equal to the vector's own `zero`, rather than to a single `Type()` shared by all vectors, because of the point above.
- Argument aliasing is not modelled: `value` is a Dafny value, read once at the call. In C++, `Insert` reads `value` after the backward shift (simple_vector.h:271-272), so `{1,2,3}` at capacity 4 with `v.Insert(v.begin(), v[2])` gives `{2,1,2,3}`, whereas the model's `Insert` gives `[3,1,2,3]`. On the growth paths of `PushBack` and `Insert` (simple_vector.h:230-232, 265-268), an argument that refers into the old buffer is read after `Resize` released that buffer.
- Element equality is Dafny `==` on `T`, not the element type's `operator==`: `Comparison.Equal`, `Comparison.EqualIff` and the totality part of `StrictTotalOrder` rest on it.
- The element type's `operator<` is a parameter `lt` of the comparison functions. Its properties (strict total order) are hypotheses of the lemmas, not of the operators.

## Findings

| source | as written | input that shows it | evidently intended | confidence | as-written member | corrected member |
|---|---|---|---|---|---|---|
| simple-vector/simple_vector.h:266-267 | on a full vector, Insert sets `size_` to size + 1 before `copy_backward(begin + dist, end, end + 1)`, so the copy writes slot size + 1 | `{5}` (size 1 = capacity 1), `Insert(begin, 7)`: the new buffer has 2 slots and the copy writes slot 2 | shift `[dist, size)` before raising the size, as the fast path at line 271 does | high; not executed | `AsWritten.InsertFullAsWrittenOverrun` | `Vector.SimpleVector.Insert` |
| simple-vector/simple_vector.h:314-318 | Erase adopts a buffer of size − 1 slots but keeps `capacity_` | `{1, 2}`, `Erase(begin)`, `PushBack(3)`: size 1 < capacity 2, so the fast path writes slot 1 of a 1-slot buffer | `capacity_` describes the adopted buffer | high; not executed | `Scenarios.EraseBreaksPushBackFastPath` | `Vector.SimpleVector.EraseTrackingCapacity` |
| simple-vector/simple_vector.h:153-159 | Resize with size < n ≤ capacity adopts a buffer of n slots and keeps `capacity_` | `SimpleVector<int>(Reserve(4))`, `Resize(2)`, `PushBack(1)`: the fast path writes slot 2 of a 2-slot buffer | the new buffer keeps `capacity_` slots | high; not executed | `Scenarios.ResizeBreaksPushBackFastPath` | `Vector.SimpleVector.ResizeKeepingCapacity` |
| simple-vector/simple_vector.h:304 | PopBack asserts `IsEmpty()` | `{1}`, `PopBack()` aborts; on an empty vector the assertion passes and `--size_` wraps to SIZE_MAX | `assert(!IsEmpty())` | high; not executed | `AsWritten.PopBackAsWrittenInverted` | `Vector.SimpleVector.PopBack` |
| simple-vector/simple_vector.h:311-312 | Erase asserts `IsEmpty()`, and its position check accepts `pos == end` | `{1}`, `Erase(begin)` aborts; with the emptiness check fixed, `Erase(end)` passes and the suffix move starts past the end | `assert(!IsEmpty())` and `pos < end` | high; not executed | `AsWritten.EraseAssertionsAsWritten` | `Vector.SimpleVector.Erase` |
