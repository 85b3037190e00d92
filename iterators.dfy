/** The container's three iterators. Each is a cursor (a position into the container's
    vector) together with the vector's end position; all three walk the vector in storage order,
    the prime iterator skipping the elements that are not prime. */
module Iterators {
  import opened Containers
  import opened Primality

  /** Position of the first prime element of s at or after k, or |s| when none remains. */
  ghost function NextPrime(s: seq<int>, k: nat): (r: nat)
    requires k <= |s|
    ensures k <= r <= |s|
    ensures r < |s| ==> Prime(s[r])
    ensures forall j :: k <= j < r ==> !Prime(s[j])
    decreases |s| - k
  {
    if k == |s| || Prime(s[k]) then k else NextPrime(s, k + 1)
  }

  /** Reference definition of the prime traversal: the prime elements of s, in storage order. */
  ghost function PrimesOf(s: seq<int>): (r: seq<int>)
    ensures |r| <= |s|
  {
    if s == [] then [] else (if Prime(s[0]) then [s[0]] else []) + PrimesOf(s[1..])
  }

  /** The prime traversal holds a value exactly when s holds it and it is prime. */
  lemma {:induction false} PrimesOfMembers(s: seq<int>, x: int)
    ensures x in PrimesOf(s) <==> x in s && Prime(x)
  {
    if s != [] {
      assert s == [s[0]] + s[1..];
      PrimesOfMembers(s[1..], x);
    }
  }

  /** Appending an element extends the prime traversal by that element exactly when it is prime. */
  lemma {:induction false} PrimesOfAppend(s: seq<int>, v: int)
    ensures PrimesOf(s + [v]) == PrimesOf(s) + if Prime(v) then [v] else []
  {
    if s != [] {
      assert (s + [v])[1..] == s[1..] + [v];
      PrimesOfAppend(s[1..], v);
    }
  }

  /** Skipping non-prime elements loses nothing from the prime traversal. */
  lemma {:induction false} SkipNonPrimes(s: seq<int>, k: nat)
    requires k <= |s|
    ensures PrimesOf(s[k..]) == PrimesOf(s[NextPrime(s, k)..])
    decreases |s| - k
  {
    if k < |s| && !Prime(s[k]) {
      assert s[k..][1..] == s[k + 1..];
      SkipNonPrimes(s, k + 1);
    }
  }

  /** From a prime position, the traversal yields that element and continues at the next prime. */
  lemma PrimeStep(s: seq<int>, k: nat)
    requires k < |s| && Prime(s[k])
    ensures PrimesOf(s[k..]) == [s[k]] + PrimesOf(s[NextPrime(s, k + 1)..])
  {
    assert s[k..][1..] == s[k + 1..];
    SkipNonPrimes(s, k + 1);
  }

  /** One step of the prime walk: the visited prefix grows by the prime at k, and what remains
      starts at the next prime. */
  lemma PrefixStep(s: seq<int>, visited: seq<int>, k: nat)
    requires k < |s| && Prime(s[k])
    requires visited + PrimesOf(s[k..]) == PrimesOf(s)
    ensures (visited + [s[k]]) + PrimesOf(s[NextPrime(s, k + 1)..]) == PrimesOf(s)
  {
    PrimeStep(s, k);
  }

  class AscendingIterator {
    const container: MagicalContainer
    /** Position of the element the iterator points at. */
    var current: nat
    /** One past the last position of the container's vector. */
    var end: nat

    /** The container has not changed size since the iterator was built, and the cursor is within it. */
    ghost predicate Valid()
      reads this, container
    {
      current <= end == |container.elements|
    }

    /** A new iterator points at the container's first position. */
    constructor (container: MagicalContainer)
      ensures this.container == container && current == 0 && end == |container.elements|
      ensures Valid()
    {
      this.container := container;
      current := 0;
      end := |container.elements|;
    }

    /** An iterator whose positions are set directly, as begin() and end() build them. */
    constructor At(container: MagicalContainer, current: nat, end: nat)
      ensures this.container == container && this.current == current && this.end == end
    {
      this.container := container;
      this.current := current;
      this.end := end;
    }

    /** Moves one position forward. */
    method Next()
      requires Valid() && current < end
      modifies this
      ensures Valid() && end == old(end)
      ensures current == old(current) + 1
    {
      current := current + 1;
    }

    /** The element at the cursor: one of the container's elements. */
    function Value(): (x: int)
      reads this, container
      requires Valid() && current < end
      ensures x in container.elements
    {
      container.elements[current]
    }

    /** ==: the cursors are at the same position, so neither is before the other. */
    predicate Equal(other: AscendingIterator)
      reads this, other
      requires container == other.container
      ensures Equal(other) <==> !Less(other) && !Greater(other)
    {
      current == other.current
    }

    /** !=: the negation of ==. */
    predicate NotEqual(other: AscendingIterator)
      reads this, other
      requires container == other.container
      ensures NotEqual(other) <==> !Equal(other)
    {
      current != other.current
    }

    /** <: the cursor is at an earlier position. */
    predicate Less(other: AscendingIterator)
      reads this, other
      requires container == other.container
    {
      current < other.current
    }

    /** >: < with the operands swapped. */
    predicate Greater(other: AscendingIterator)
      reads this, other
      requires container == other.container
      ensures Greater(other) <==> other.Less(this)
    {
      current > other.current
    }

    /** A new iterator at this iterator's current position (not necessarily the first one). */
    method Begin() returns (it: AscendingIterator)
      requires Valid()
      ensures fresh(it) && it.container == container && it.Valid()
      ensures it.current == current && it.end == end
    {
      it := new AscendingIterator.At(container, current, end);
    }

    /** A new iterator at the end position. */
    method End() returns (it: AscendingIterator)
      requires Valid()
      ensures fresh(it) && it.container == container && it.Valid()
      ensures it.current == end && it.end == end
    {
      it := new AscendingIterator.At(container, end, end);
    }
  }

  /** The four comparisons of two ascending iterators over one container agree with one another:
      exactly one of less, equal and greater holds, != is the negation of ==, and > is < reversed.
      These are plain integer order on the cursors and need no proof steps. */
  lemma AscendingComparisons(a: AscendingIterator, b: AscendingIterator)
    requires a.container == b.container
    ensures a.NotEqual(b) <==> !a.Equal(b)
    ensures a.Greater(b) <==> b.Less(a)
    ensures a.Less(b) || a.Equal(b) || a.Greater(b)
    ensures !(a.Less(b) && a.Equal(b)) && !(a.Less(b) && a.Greater(b)) && !(a.Equal(b) && a.Greater(b))
  {
  }

  /** A begin-to-end walk of a fresh ascending iterator visits every element once, in storage order. */
  method AscendingTraversal(c: MagicalContainer) returns (visited: seq<int>)
    ensures visited == c.elements
  {
    var first := new AscendingIterator(c);
    var it := first.Begin();
    var stop := first.End();
    visited := [];
    while it.NotEqual(stop)
      invariant it.Valid() && stop.Valid() && it.container == c && stop.container == c
      invariant it != stop && stop.current == |c.elements|
      invariant visited == c.elements[..it.current]
      decreases |c.elements| - it.current
    {
      visited := visited + [it.Value()];
      it.Next();
    }
  }

  class SideCrossIterator {
    const container: MagicalContainer
    /** Position of the element the iterator points at. */
    var current: nat
    /** One past the last position of the container's vector. */
    var end: nat

    /** The container has not changed size since the iterator was built, and the cursor is within it. */
    ghost predicate Valid()
      reads this, container
    {
      current <= end == |container.elements|
    }

    /** A new iterator points at the container's first position. */
    constructor (container: MagicalContainer)
      ensures this.container == container && current == 0 && end == |container.elements|
      ensures Valid()
    {
      this.container := container;
      current := 0;
      end := |container.elements|;
    }

    /** An iterator whose positions are set directly, as begin() and end() build them. */
    constructor At(container: MagicalContainer, current: nat, end: nat)
      ensures this.container == container && this.current == current && this.end == end
    {
      this.container := container;
      this.current := current;
      this.end := end;
    }

    /** Moves one position forward: the next element in storage order, not the other end. */
    method Next()
      requires Valid() && current < end
      modifies this
      ensures Valid() && end == old(end)
      ensures current == old(current) + 1
    {
      current := current + 1;
    }

    /** The element at the cursor: one of the container's elements. */
    function Value(): (x: int)
      reads this, container
      requires Valid() && current < end
      ensures x in container.elements
    {
      container.elements[current]
    }

    /** ==: the cursors are at the same position, so neither is before the other. */
    predicate Equal(other: SideCrossIterator)
      reads this, other
      requires container == other.container
      ensures Equal(other) <==> !Less(other) && !Greater(other)
    {
      current == other.current
    }

    /** !=: the negation of ==. */
    predicate NotEqual(other: SideCrossIterator)
      reads this, other
      requires container == other.container
      ensures NotEqual(other) <==> !Equal(other)
    {
      current != other.current
    }

    /** <: the cursor is at an earlier position. */
    predicate Less(other: SideCrossIterator)
      reads this, other
      requires container == other.container
    {
      current < other.current
    }

    /** >: < with the operands swapped. */
    predicate Greater(other: SideCrossIterator)
      reads this, other
      requires container == other.container
      ensures Greater(other) <==> other.Less(this)
    {
      current > other.current
    }

    /** A new iterator at this iterator's current position (not necessarily the first one). */
    method Begin() returns (it: SideCrossIterator)
      requires Valid()
      ensures fresh(it) && it.container == container && it.Valid()
      ensures it.current == current && it.end == end
    {
      it := new SideCrossIterator.At(container, current, end);
    }

    /** A new iterator at the end position. */
    method End() returns (it: SideCrossIterator)
      requires Valid()
      ensures fresh(it) && it.container == container && it.Valid()
      ensures it.current == end && it.end == end
    {
      it := new SideCrossIterator.At(container, end, end);
    }
  }

  /** The four comparisons of two side-cross iterators over one container agree with one another.
      The source repeats the operators in each iterator type, so this lemma repeats AscendingComparisons;
      the facts are plain integer order and need no proof steps. */
  lemma SideCrossComparisons(a: SideCrossIterator, b: SideCrossIterator)
    requires a.container == b.container
    ensures a.NotEqual(b) <==> !a.Equal(b)
    ensures a.Greater(b) <==> b.Less(a)
    ensures a.Less(b) || a.Equal(b) || a.Greater(b)
    ensures !(a.Less(b) && a.Equal(b)) && !(a.Less(b) && a.Greater(b)) && !(a.Equal(b) && a.Greater(b))
  {
  }

  /** A begin-to-end walk of a fresh side-cross iterator visits every element once, in storage
      order: it does not alternate between the two ends. */
  method SideCrossTraversal(c: MagicalContainer) returns (visited: seq<int>)
    ensures visited == c.elements
  {
    var first := new SideCrossIterator(c);
    var it := first.Begin();
    var stop := first.End();
    visited := [];
    while it.NotEqual(stop)
      invariant it.Valid() && stop.Valid() && it.container == c && stop.container == c
      invariant it != stop && stop.current == |c.elements|
      invariant visited == c.elements[..it.current]
      decreases |c.elements| - it.current
    {
      visited := visited + [it.Value()];
      it.Next();
    }
  }

  class PrimeIterator {
    const container: MagicalContainer
    /** Position of the element the iterator points at. */
    var current: nat
    /** One past the last position of the container's vector. */
    var end: nat

    /** The container has not changed size since the iterator was built, and the cursor is within it. */
    ghost predicate Valid()
      reads this, container
    {
      current <= end == |container.elements|
    }

    /** A new iterator points at the container's first position, whether or not that element is prime. */
    constructor (container: MagicalContainer)
      ensures this.container == container && current == 0 && end == |container.elements|
      ensures Valid()
    {
      this.container := container;
      current := 0;
      end := |container.elements|;
    }

    /** An iterator whose positions are set directly, as begin() and end() build them. */
    constructor At(container: MagicalContainer, current: nat, end: nat)
      ensures this.container == container && this.current == current && this.end == end
    {
      this.container := container;
      this.current := current;
      this.end := end;
    }

    /** Trial division by every i in [2, num / 2]; numbers below 2 are not prime. */
    static method IsPrime(num: int) returns (r: bool)
      ensures r <==> num >= 2 && NoDivisorUpTo(num, num / 2)
      ensures r <==> Prime(num)
    {
      if num < 2 {
        return false;
      }
      var i := 2;
      while i <= num / 2
        invariant 2 <= i <= num / 2 + 1
        invariant NoDivisorUpTo(num, i - 1)
      {
        if num % i == 0 {
          assert Divides(i, num);
          return false;
        }
        i := i + 1;
      }
      HalfBoundSuffices(num);
      return true;
    }

    /** Moves strictly forward to the first prime element after the cursor, or to end when none remains. */
    method Next()
      requires Valid() && current < end
      modifies this
      ensures Valid() && end == old(end)
      ensures old(current) < current <= end
      ensures current < end ==> Prime(container.elements[current])
      ensures forall j :: old(current) < j < current ==> !Prime(container.elements[j])
      ensures current == NextPrime(container.elements, old(current) + 1)
    {
      current := current + 1;
      while current != end
        invariant old(current) < current <= end == |container.elements|
        invariant NextPrime(container.elements, old(current) + 1) == NextPrime(container.elements, current)
        decreases end - current
      {
        var prime := IsPrime(container.elements[current]);
        if prime {
          break;
        }
        current := current + 1;
      }
    }

    /** The element at the cursor: one of the container's elements. */
    function Value(): (x: int)
      reads this, container
      requires Valid() && current < end
      ensures x in container.elements
    {
      container.elements[current]
    }

    /** ==: the cursors are at the same position, so neither is before the other. */
    predicate Equal(other: PrimeIterator)
      reads this, other
      requires container == other.container
      ensures Equal(other) <==> !Less(other) && !Greater(other)
    {
      current == other.current
    }

    /** !=: the negation of ==. */
    predicate NotEqual(other: PrimeIterator)
      reads this, other
      requires container == other.container
      ensures NotEqual(other) <==> !Equal(other)
    {
      current != other.current
    }

    /** <: the cursor is at an earlier position. */
    predicate Less(other: PrimeIterator)
      reads this, other
      requires container == other.container
    {
      current < other.current
    }

    /** >: < with the operands swapped. */
    predicate Greater(other: PrimeIterator)
      reads this, other
      requires container == other.container
      ensures Greater(other) <==> other.Less(this)
    {
      current > other.current
    }

    /** A new iterator that keeps this position when it is the end or holds a prime, and otherwise
        moves on to the next prime or to the end. */
    method Begin() returns (it: PrimeIterator)
      requires Valid()
      ensures fresh(it) && it.container == container && it.Valid() && it.end == end
      ensures it.current == NextPrime(container.elements, current)
    {
      it := new PrimeIterator.At(container, current, end);
      if current != end {
        var prime := IsPrime(container.elements[current]);
        if !prime {
          it.Next();
        }
      }
    }

    /** A new iterator at the end position. */
    method End() returns (it: PrimeIterator)
      requires Valid()
      ensures fresh(it) && it.container == container && it.Valid()
      ensures it.current == end && it.end == end
    {
      it := new PrimeIterator.At(container, end, end);
    }
  }

  /** The four comparisons of two prime iterators over one container agree with one another.
      The source repeats the operators in each iterator type, so this lemma repeats AscendingComparisons;
      the facts are plain integer order and need no proof steps. */
  lemma PrimeComparisons(a: PrimeIterator, b: PrimeIterator)
    requires a.container == b.container
    ensures a.NotEqual(b) <==> !a.Equal(b)
    ensures a.Greater(b) <==> b.Less(a)
    ensures a.Less(b) || a.Equal(b) || a.Greater(b)
    ensures !(a.Less(b) && a.Equal(b)) && !(a.Less(b) && a.Greater(b)) && !(a.Equal(b) && a.Greater(b))
  {
  }

  /** A begin-to-end walk of a fresh prime iterator visits exactly the prime elements, in storage order. */
  method PrimeTraversal(c: MagicalContainer) returns (visited: seq<int>)
    ensures visited == PrimesOf(c.elements)
  {
    ghost var s := c.elements;
    var first := new PrimeIterator(c);
    var it := first.Begin();
    var stop := first.End();
    visited := [];
    SkipNonPrimes(s, 0);
    while it.NotEqual(stop)
      invariant c.elements == s
      invariant it.Valid() && stop.Valid() && it.container == c && stop.container == c
      invariant it != stop && stop.current == |s|
      invariant it.current < |s| ==> Prime(s[it.current])
      invariant visited + PrimesOf(s[it.current..]) == PrimesOf(s)
      decreases |s| - it.current
    {
      PrefixStep(s, visited, it.current);
      visited := visited + [it.Value()];
      it.Next();
    }
  }
}
