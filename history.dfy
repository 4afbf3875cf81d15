/** The engine's history of returned beats: a bounded list, newest first,
    searched with a structural comparison of element trees. */
module History {
  import opened Basics
  import opened Xml

  /** `elements_equal`: text, tail, attributes, number of children and the
      children pairwise. The tag test compares the first element's tag with
      itself, so it never fails and tags play no part. */
  predicate ElementsEqual(e1: Elem, e2: Elem)
  {
    e1.tag == e1.tag
    && e1.text == e2.text
    && e1.tail == e2.tail
    && e1.attrib == e2.attrib
    && |e1.children| == |e2.children|
    && forall i :: 0 <= i < |e1.children| ==> ElementsEqual(e1.children[i], e2.children[i])
  }

  /** The tree with every tag blanked: what `elements_equal` looks at. */
  function Erase(e: Elem): (r: Elem)
    ensures r.tag == "" && |r.children| == |e.children|
  {
    Elem("", e.text, e.tail, e.attrib, seq(|e.children|, i requires 0 <= i < |e.children| => Erase(e.children[i])))
  }

  /** Two elements compare equal exactly when they are the same tree once
      tags are ignored. */
  lemma {:induction false} ElementsEqualIffSameErased(e1: Elem, e2: Elem)
    ensures ElementsEqual(e1, e2) <==> Erase(e1) == Erase(e2)
  {
    var a, b := Erase(e1), Erase(e2);
    forall i | 0 <= i < |e1.children| && i < |e2.children|
      ensures ElementsEqual(e1.children[i], e2.children[i]) <==> a.children[i] == b.children[i]
    {
      ElementsEqualIffSameErased(e1.children[i], e2.children[i]);
    }
    if Erase(e1) == Erase(e2) {
      assert |e1.children| == |a.children| == |b.children| == |e2.children|;
    }
    if ElementsEqual(e1, e2) {
      assert a.children == b.children;
    }
  }

  /** Every element equals itself, and renaming a tag never separates two
      elements. */
  lemma ElementsEqualReflexive(e: Elem, tag: string)
    ensures ElementsEqual(e, e)
    ensures ElementsEqual(e, e.(tag := tag)) && ElementsEqual(e.(tag := tag), e)
  {
    ElementsEqualIffSameErased(e, e);
    ElementsEqualIffSameErased(e, e.(tag := tag));
    ElementsEqualIffSameErased(e.(tag := tag), e);
  }

  lemma ElementsEqualSymmetric(e1: Elem, e2: Elem)
    ensures ElementsEqual(e1, e2) <==> ElementsEqual(e2, e1)
  {
    ElementsEqualIffSameErased(e1, e2);
    ElementsEqualIffSameErased(e2, e1);
  }

  lemma ElementsEqualTransitive(e1: Elem, e2: Elem, e3: Elem)
    requires ElementsEqual(e1, e2) && ElementsEqual(e2, e3)
    ensures ElementsEqual(e1, e3)
  {
    ElementsEqualIffSameErased(e1, e2);
    ElementsEqualIffSameErased(e2, e3);
    ElementsEqualIffSameErased(e1, e3);
  }

  /** What `contains` answers for a history list. */
  predicate InHistory(items: seq<Elem>, x: Elem)
  {
    exists i :: 0 <= i < |items| && ElementsEqual(items[i], x)
  }

  /** The list after `push`: when it already holds `size` entries the last
      (oldest) is dropped; the new one goes to the front. */
  function Pushed(items: seq<Elem>, size: nat, x: Elem): (r: seq<Elem>)
    requires |items| > 0 || size > 0
    ensures |items| <= size ==> |r| == Min(|items| + 1, size)
    ensures |r| > 0 && r[0] == x && InHistory(r, x)
    ensures forall y :: y in r[1..] ==> y in items
    ensures |r| - 1 <= |items| && r[1..] == items[..|r| - 1]
    ensures |items| < size ==> r[1..] == items
  {
    ElementsEqualReflexive(x, x.tag);
    [x] + (if |items| >= size then items[..|items| - 1] else items)
  }

  /** Pushing each of `xs` in turn. */
  function PushAll(items: seq<Elem>, size: nat, xs: seq<Elem>): seq<Elem>
    requires size > 0
    decreases |xs|
  {
    if xs == [] then items else PushAll(Pushed(items, size, xs[0]), size, xs[1..])
  }

  function Reverse<T>(s: seq<T>): (r: seq<T>)
    ensures |r| == |s|
  {
    if s == [] then [] else Reverse(s[1..]) + [s[0]]
  }

  lemma {:induction false} PushAllSnoc(items: seq<Elem>, size: nat, xs: seq<Elem>, y: Elem)
    requires size > 0
    ensures PushAll(items, size, xs + [y]) == Pushed(PushAll(items, size, xs), size, y)
    decreases |xs|
  {
    if xs != [] {
      assert (xs + [y])[1..] == xs[1..] + [y];
      PushAllSnoc(Pushed(items, size, xs[0]), size, xs[1..], y);
    }
  }

  /** Below capacity nothing is evicted: the history is the pushes, newest
      first. */
  lemma {:induction false} PushAllBelowCapacity(size: nat, xs: seq<Elem>)
    requires 0 < size && |xs| <= size
    ensures PushAll([], size, xs) == Reverse(xs)
    decreases |xs|
  {
    if xs != [] {
      var init, last := xs[..|xs| - 1], xs[|xs| - 1];
      assert xs == init + [last];
      PushAllSnoc([], size, init, last);
      PushAllBelowCapacity(size, init);
      ReverseSnoc(init, last);
    }
  }

  lemma {:induction false} ReverseSnoc<T>(s: seq<T>, x: T)
    ensures Reverse(s + [x]) == [x] + Reverse(s)
  {
    if s != [] {
      assert (s + [x])[1..] == s[1..] + [x];
      ReverseSnoc(s[1..], x);
    } else {
      assert s + [x] == [x];
    }
  }

  lemma {:induction false} ReverseMember<T>(s: seq<T>, x: T)
    ensures x in Reverse(s) <==> x in s
  {
    if s != [] {
      ReverseMember(s[1..], x);
      assert s == [s[0]] + s[1..];
    }
  }

  /** Pushing `size + 1` beats into an empty history keeps the last `size`
      of them, newest first; the first one is gone, and `contains` no
      longer finds it unless one of the others compares equal to it. */
  lemma EvictsOldest(size: nat, xs: seq<Elem>)
    requires 0 < size && |xs| == size + 1
    ensures PushAll([], size, xs) == Reverse(xs[1..])
    ensures (forall j :: 1 <= j < |xs| ==> !ElementsEqual(xs[j], xs[0])) ==> !InHistory(PushAll([], size, xs), xs[0])
  {
    var init, last := xs[..size], xs[size];
    assert xs == init + [last];
    PushAllSnoc([], size, init, last);
    PushAllBelowCapacity(size, init);
    var r := Reverse(init);
    assert init == [xs[0]] + init[1..];
    ReverseSnoc(init[1..], xs[0]);
    assert r[..|r| - 1] == Reverse(init[1..]);
    ReverseSnoc(init[1..], last);
    assert xs[1..] == init[1..] + [last];
    var h := PushAll([], size, xs);
    if forall j :: 1 <= j < |xs| ==> !ElementsEqual(xs[j], xs[0]) {
      forall i | 0 <= i < |h| ensures !ElementsEqual(h[i], xs[0]) {
        assert h[i] in Reverse(xs[1..]);
        ReverseMember(xs[1..], h[i]);
        var j :| 0 <= j < |xs[1..]| && xs[1..][j] == h[i];
        assert xs[j + 1] == h[i];
      }
    }
  }

  /** The bounded history (`Queue`): entries newest first, never more than
      `size` of them. */
  class Queue {
    const size: nat
    var items: seq<Elem>

    ghost predicate Valid()
      reads this
    {
      |items| <= size
    }

    constructor (size: nat)
      ensures Valid() && this.size == size && items == []
    {
      this.size := size;
      items := [];
    }

    /** `push`. Python's `pop()` on the empty list raises when `size` is 0,
        so a queue is pushed only with a positive size. */
    method Push(element: Elem)
      requires Valid() && size > 0
      modifies this
      ensures Valid()
      ensures items == Pushed(old(items), size, element)
      ensures InHistory(items, element)
    {
      if |items| >= size {
        items := items[..|items| - 1];
      }
      items := [element] + items;
    }

    /** `pop`: removes and returns the last (oldest) entry. */
    method Pop() returns (e: Elem)
      requires Valid() && items != []
      modifies this
      ensures Valid()
      ensures e == old(items)[|old(items)| - 1] && items == old(items)[..|old(items)| - 1]
    {
      e := items[|items| - 1];
      items := items[..|items| - 1];
    }

    /** `contains`: scans the entries in order for one `elements_equal` to
        `element`. */
    method Contains(element: Elem) returns (found: bool)
      ensures found <==> InHistory(items, element)
    {
      var i := 0;
      while i < |items|
        invariant 0 <= i <= |items|
        invariant forall j :: 0 <= j < i ==> !ElementsEqual(items[j], element)
      {
        if ElementsEqual(items[i], element) {
          return true;
        }
        i := i + 1;
      }
      return false;
    }
  }
}
