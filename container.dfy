/** The integer container: a vector of ints kept in insertion order. */
module Containers {

  /** How a mutation ended: normally, or with the error the source throws. */
  datatype Outcome = Pass | Fail(message: string)

  const NotFoundMessage: string := "Element not found"

  /** Linear search as std::find does it: the index of the first occurrence of v in s, or |s| when v does not occur. */
  function Find(s: seq<int>, v: int): (i: nat)
    ensures i <= |s|
    ensures i < |s| ==> s[i] == v
    ensures forall j :: 0 <= j < i ==> s[j] != v
  {
    if s == [] then 0
    else if s[0] == v then 0
    else 1 + Find(s[1..], v)
  }

  /** Reference definition of removal: s with its first occurrence of v taken out, or s itself when v does not occur. */
  function Erased(s: seq<int>, v: int): (r: seq<int>)
    ensures v !in s ==> r == s
    ensures v in s ==> |r| == |s| - 1
  {
    if s == [] then []
    else
      assert s == [s[0]] + s[1..];
      if s[0] == v then s[1..] else [s[0]] + Erased(s[1..], v)
  }

  /** Erasing takes exactly one copy of v out of the multiset of elements, and nothing when there is none. */
  lemma {:induction false} ErasedMultiset(s: seq<int>, v: int)
    ensures multiset(Erased(s, v)) == multiset(s) - multiset{v}
  {
    if s != [] {
      assert s == [s[0]] + s[1..];
      ErasedMultiset(s[1..], v);
    }
  }

  /** Erasing at the index Find reports removes exactly the first occurrence; what lies before and after it keeps its order. */
  lemma {:induction false} ErasedAtFirst(s: seq<int>, v: int)
    requires v in s
    ensures Find(s, v) < |s|
    ensures Erased(s, v) == s[..Find(s, v)] + s[Find(s, v) + 1..]
  {
    var i := Find(s, v);
    ErasedAt(s, v, i);
  }

  /** Erasing v from s when i is the position of its first occurrence splices out position i. */
  lemma {:induction false} ErasedAt(s: seq<int>, v: int, i: nat)
    requires i < |s| && s[i] == v
    requires forall j :: 0 <= j < i ==> s[j] != v
    ensures Erased(s, v) == s[..i] + s[i + 1..]
  {
    if i > 0 {
      var t := s[1..];
      assert s == [s[0]] + t;
      ErasedAt(t, v, i - 1);
      assert s[..i] == [s[0]] + t[..i - 1];
      assert s[i + 1..] == t[i..];
    }
  }

  /** Removing a value right after appending it: the appended copy goes when it is the only one,
      otherwise the earlier first occurrence goes and the appended copy stays last. */
  lemma {:induction false} EraseAfterAppend(s: seq<int>, v: int)
    ensures Erased(s + [v], v) == if v in s then Erased(s, v) + [v] else s
  {
    if s != [] {
      var t := s[1..];
      assert s == [s[0]] + t;
      assert s + [v] == [s[0]] + (t + [v]);
      EraseAfterAppend(t, v);
    }
  }

  class MagicalContainer {
    /** The stored values, in the order they were added. */
    var elements: seq<int>

    /** A new container is empty. */
    constructor ()
      ensures elements == []
    {
      elements := [];
    }

    /** Appends element at the end; every earlier element keeps its place. */
    method AddElement(element: int)
      modifies this
      ensures elements == old(elements) + [element]
      ensures Size() == old(Size()) + 1
    {
      elements := elements + [element];
    }

    /** Removes the first occurrence of element, or fails with "Element not found" and changes nothing. */
    method RemoveElement(element: int) returns (outcome: Outcome)
      modifies this
      ensures outcome == if element in old(elements) then Pass else Fail(NotFoundMessage)
      ensures elements == Erased(old(elements), element)
      ensures outcome.Pass? ==> Size() == old(Size()) - 1
    {
      var at := Find(elements, element);
      if at != |elements| {
        ErasedAtFirst(elements, element);
        elements := elements[..at] + elements[at + 1..];
        outcome := Pass;
      } else {
        outcome := Fail(NotFoundMessage);
      }
    }

    /** The number of stored elements. */
    function Size(): (n: int)
      reads this
      ensures n == |elements|
    {
      |elements|
    }

    /** 1 when number is stored, 0 otherwise. */
    function Contains(number: int): (r: int)
      reads this
      ensures r == 1 <==> number in elements
      ensures r == 0 <==> number !in elements
    {
      if Find(elements, number) != |elements| then 1 else 0
    }
  }
}
