# MagicalContainer in Dafny

A model of `ariel::MagicalContainer`: a container of integers backed by a vector, with three
nested iterator types (`AscendingIterator`, `SideCrossIterator`, `PrimeIterator`).

- `container.dfy` (module `Containers`): the class `MagicalContainer` holding `elements: seq<int>`,
  with `AddElement`, `RemoveElement`, `Size` and `Contains`; `Find` models the `std::find` linear
  search both mutators and `contains` use, and `Erased` is the reference definition of removing the
  first occurrence of a value. A thrown `std::runtime_error("Element not found")` becomes
  `Fail("Element not found")` of the datatype `Outcome`.
- `primality.dfy` (module `Primality`): `Prime` (mathematical primality) and `HalfBoundSuffices`,
  which shows that trial division up to `n / 2` decides it.
- `iterators.dfy` (module `Iterators`): one class per iterator. Each holds the container it was
  built from, a cursor `current` and the end position `end`, the two vector positions the source's
  `currentIterator` and `endIterator` denote. `Valid()` says the cursor lies within the container
  and the container's length is still `end`. `Next` is `operator++`, `Value` is `operator*`,
  `Equal`, `NotEqual`, `Less` and `Greater` are `==`, `!=`, `<` and `>`, and `Begin` and `End` are
  `begin()` and `end()`. `PrimeIterator.IsPrime` is the static trial-division test, and
  `PrimeIterator.Next` keeps the source's loop that skips non-prime elements. `NextPrime` (first
  prime position at or after a cursor) and `PrimesOf` (the prime elements in storage order) are the
  specification functions the prime iterator is proved against. `AscendingTraversal`,
  `SideCrossTraversal` and `PrimeTraversal` run the usual `for (it = begin(); it != end(); ++it)`
  walk over a fresh iterator and state what it visits.

The code stores elements in insertion order (`push_back`, `sources/MagicalContainer.cpp:8`), and the
model follows the code. The iterator names suggest a sorted traversal, alternation between the two
ends, and primes in ascending order; the code does none of these. In the code, and so in the model:
- the ascending iterator visits the elements in storage order, unsorted;
- the side-cross iterator steps one position at a time, exactly like the ascending one;
- the prime iterator visits the prime elements in storage order.

What the source leaves undefined is a precondition here. This covers incrementing or dereferencing
an iterator at its end, comparing iterators of different containers, and using an iterator after
its container changed.

## Model

| member | source | states |
|---|---|---|
| `Containers.Find` | sources/MagicalContainer.cpp:12 | the search result is the index of the first occurrence of the value, or the length when the value does not occur |
| `Containers.Erased` | sources/MagicalContainer.cpp:11-18 | removing a value that does not occur leaves the sequence as it was; removing one that does shortens it by one |
| `Containers.ErasedMultiset` | sources/MagicalContainer.cpp:11-18 | removal takes exactly one copy of the value out of the multiset of elements, and nothing when the value is absent |
| `Containers.ErasedAt` | sources/MagicalContainer.cpp:12-14 | when position i holds the first occurrence of the value, removal splices out exactly position i |
| `Containers.ErasedAtFirst` | sources/MagicalContainer.cpp:12-14 | erasing at the position `std::find` reports removes exactly the first occurrence, and the elements before and after it keep their order |
| `Containers.EraseAfterAppend` | sources/MagicalContainer.cpp:7-18 | removing a value right after adding it restores the old contents when the value was absent; otherwise the earlier first copy goes and the new copy stays last |
| `Containers.MagicalContainer.constructor` | sources/MagicalContainer.hpp:18 | a new container is empty |
| `Containers.MagicalContainer.AddElement` | sources/MagicalContainer.cpp:7-9 | the new contents are the old contents followed by the element, so the size grows by one and no earlier element changes |
| `Containers.MagicalContainer.RemoveElement` | sources/MagicalContainer.cpp:11-18 | with the value present, the first occurrence is removed, the result is `Pass` and the size drops by one; with it absent, the result is `Fail("Element not found")` and the contents are unchanged |
| `Containers.MagicalContainer.Size` | sources/MagicalContainer.cpp:20-22 | the size is the number of stored elements |
| `Containers.MagicalContainer.Contains` | sources/MagicalContainer.cpp:28-31 | the result is 1 exactly when the value is stored and 0 exactly when it is not |
| `Primality.HalfBoundSuffices` | sources/MagicalContainer.cpp:198-208 | for n at least 2, no divisor in [2, n / 2] holds exactly when n is prime |
| `Iterators.NextPrime` | sources/MagicalContainer.cpp:153-159 | the position reached is at or after the start and at most the end; it holds a prime unless it is the end, and no position skipped holds a prime |
| `Iterators.PrimesOf` | sources/MagicalContainer.cpp:153-159 | the prime traversal, the prime elements in storage order, is never longer than the contents |
| `Iterators.PrimesOfMembers` | sources/MagicalContainer.cpp:153-159 | a value occurs in the prime traversal exactly when it is stored and prime |
| `Iterators.PrimesOfAppend` | sources/MagicalContainer.cpp:7-9 | adding an element extends the prime traversal by that element exactly when it is prime, and leaves it unchanged otherwise |
| `Iterators.SkipNonPrimes` | sources/MagicalContainer.cpp:155-157 | skipping non-prime elements drops nothing from the prime traversal |
| `Iterators.PrimeStep` | sources/MagicalContainer.cpp:153-159 | from a prime position, the traversal yields that element and then continues from the next prime |
| `Iterators.PrefixStep` | sources/MagicalContainer.cpp:153-159 | when the visited prefix followed by the rest of the prime traversal from a prime position k is the whole traversal, so is the prefix extended by the element at k followed by the traversal from the next prime |
| `Iterators.AscendingIterator.constructor` | sources/MagicalContainer.cpp:35-37 | a new iterator points at position 0, with its end at the container's size |
| `Iterators.AscendingIterator.At` | sources/MagicalContainer.cpp:73-75 | the iterator built inside `begin()` and `end()` takes the positions it is given |
| `Iterators.AscendingIterator.Next` | sources/MagicalContainer.cpp:47-50 | from a position before the end, the cursor moves forward by exactly one |
| `Iterators.AscendingIterator.Begin` | sources/MagicalContainer.cpp:72-77 | `begin()` is a new iterator at this iterator's current position, not necessarily position 0 |
| `Iterators.AscendingIterator.End` | sources/MagicalContainer.cpp:79-84 | `end()` is a new iterator at the end position |
| `Iterators.AscendingIterator.Value` | sources/MagicalContainer.cpp:52-54 | dereferencing, defined only before the end, yields the element at the cursor, which is one of the container's elements |
| `Iterators.AscendingIterator.Equal` | sources/MagicalContainer.cpp:56-58 | `==` holds exactly when neither `<` nor `>` holds, i.e. the two cursors are at the same position |
| `Iterators.AscendingIterator.NotEqual` | sources/MagicalContainer.cpp:60-62 | `!=` is the negation of `==` |
| `Iterators.AscendingIterator.Less` | sources/MagicalContainer.cpp:64-66 | `<` holds when this cursor is at an earlier position; with `==` and `>` it is stated by the comparisons lemma of the same iterator type |
| `Iterators.AscendingIterator.Greater` | sources/MagicalContainer.cpp:68-70 | `>` is `<` with the operands swapped |
| `Iterators.AscendingComparisons` | sources/MagicalContainer.cpp:56-70 | `!=` is the negation of `==`, `>` is `<` with the operands swapped, and exactly one of `<`, `==` and `>` holds |
| `Iterators.AscendingTraversal` | sources/MagicalContainer.cpp:47-84 | walking from `begin()` to `end()` of a fresh iterator, dereferencing at each step, visits every element once in storage order |
| `Iterators.SideCrossIterator.constructor` | sources/MagicalContainer.cpp:88-90 | a new iterator points at position 0, with its end at the container's size |
| `Iterators.SideCrossIterator.At` | sources/MagicalContainer.cpp:126-128 | the iterator built inside `begin()` and `end()` takes the positions it is given |
| `Iterators.SideCrossIterator.Next` | sources/MagicalContainer.cpp:100-103 | from a position before the end, the cursor moves forward by exactly one, not to the other end |
| `Iterators.SideCrossIterator.Begin` | sources/MagicalContainer.cpp:125-130 | `begin()` is a new iterator at this iterator's current position |
| `Iterators.SideCrossIterator.End` | sources/MagicalContainer.cpp:132-137 | `end()` is a new iterator at the end position |
| `Iterators.SideCrossIterator.Value` | sources/MagicalContainer.cpp:105-107 | dereferencing, defined only before the end, yields the element at the cursor, which is one of the container's elements |
| `Iterators.SideCrossIterator.Equal` | sources/MagicalContainer.cpp:109-111 | `==` holds exactly when neither `<` nor `>` holds, i.e. the two cursors are at the same position |
| `Iterators.SideCrossIterator.NotEqual` | sources/MagicalContainer.cpp:113-115 | `!=` is the negation of `==` |
| `Iterators.SideCrossIterator.Less` | sources/MagicalContainer.cpp:117-119 | `<` holds when this cursor is at an earlier position; with `==` and `>` it is stated by the comparisons lemma of the same iterator type |
| `Iterators.SideCrossIterator.Greater` | sources/MagicalContainer.cpp:121-123 | `>` is `<` with the operands swapped |
| `Iterators.SideCrossComparisons` | sources/MagicalContainer.cpp:109-123 | `!=` is the negation of `==`, `>` is `<` with the operands swapped, and exactly one of `<`, `==` and `>` holds |
| `Iterators.SideCrossTraversal` | sources/MagicalContainer.cpp:100-137 | walking from `begin()` to `end()` of a fresh iterator visits every element once in storage order, without alternating ends |
| `Iterators.PrimeIterator.constructor` | sources/MagicalContainer.cpp:141-143 | a new iterator points at position 0, whatever the element there |
| `Iterators.PrimeIterator.At` | sources/MagicalContainer.cpp:182-184 | the iterator built inside `begin()` and `end()` takes the positions it is given |
| `Iterators.PrimeIterator.IsPrime` | sources/MagicalContainer.cpp:198-208 | the result is false below 2; from 2 on, it is true exactly when no i in [2, num / 2] divides num, and that is exactly when num is prime |
| `Iterators.PrimeIterator.Next` | sources/MagicalContainer.cpp:153-159 | from a position before the end, the cursor moves strictly forward, never past the end, to the first prime after the old position or to the end when none remains |
| `Iterators.PrimeIterator.Begin` | sources/MagicalContainer.cpp:181-189 | `begin()` keeps the current position when it is the end or holds a prime, and otherwise moves on to the next prime or to the end |
| `Iterators.PrimeIterator.End` | sources/MagicalContainer.cpp:191-196 | `end()` is a new iterator at the end position |
| `Iterators.PrimeIterator.Value` | sources/MagicalContainer.cpp:161-163 | dereferencing, defined only before the end, yields the element at the cursor, which is one of the container's elements |
| `Iterators.PrimeIterator.Equal` | sources/MagicalContainer.cpp:165-167 | `==` holds exactly when neither `<` nor `>` holds, i.e. the two cursors are at the same position |
| `Iterators.PrimeIterator.NotEqual` | sources/MagicalContainer.cpp:169-171 | `!=` is the negation of `==` |
| `Iterators.PrimeIterator.Less` | sources/MagicalContainer.cpp:173-175 | `<` holds when this cursor is at an earlier position; with `==` and `>` it is stated by the comparisons lemma of the same iterator type |
| `Iterators.PrimeIterator.Greater` | sources/MagicalContainer.cpp:177-179 | `>` is `<` with the operands swapped |
| `Iterators.PrimeComparisons` | sources/MagicalContainer.cpp:165-179 | `!=` is the negation of `==`, `>` is `<` with the operands swapped, and exactly one of `<`, `==` and `>` holds |
| `Iterators.PrimeTraversal` | sources/MagicalContainer.cpp:153-196 | walking from `begin()` to `end()` of a fresh iterator visits exactly the prime elements, in storage order |

## Left out

- The header `sources/MagicalContainer.hpp` declares a different representation (`numberList`, `primeIndices` as raw pointers into the vector, `operator[]`, `isPrime` as a member of the container, a side-cross constructor taking a position). None of it has an implementation, so none of it is modelled.
- The default constructors of the iterators (`sources/MagicalContainer.cpp:39-41`, `92-94`, `145-147`) hold singular vector iterators; only their use inside `begin()` and `end()` is modelled, by the `At` constructors.
- The copy constructors (`sources/MagicalContainer.cpp:43-45`, `96-98`, `149-151`) copy the two positions; `At` with the other iterator's positions does the same.
- `getElements` returns a reference that aliases the vector; the field `elements` is the model's view of it.
- `Containers.MagicalContainer.Size`: returns the length as an unbounded integer; the source narrows `size_t` to `int`, which matters only beyond 2^31 - 1 elements.
- Element values are unbounded integers rather than 32-bit `int`. The only arithmetic on them is inside `isPrime`, where `i <= num / 2` keeps every value in range, and both operands are positive, so truncating and Euclidean division agree.
- Iterator invalidation is not modelled: `Valid()` asks only that the container still has the length the iterator was built with. After a mutation that keeps the length, the model reads the new contents, where the source's behaviour is undefined.
- Incrementing or dereferencing an iterator at its end, and comparing iterators of different containers, are undefined in the source; here they are preconditions (`current < end`, `container == other.container`).
