/** The element tree that beats, notes, measures and parts are made of, with
    the queries the engine runs on it: `findall` and `find` along a child
    path such as "note/pitch/step", `findtext`, and the in-place rewrite of
    the text of the first element a path reaches (how mutation edits a
    note's step). Elements are values here: a rewrite yields a new tree. */
module Xml {
  import opened Basics

  /** An element: tag, text, tail, attributes and children, in document
      order. `None` text or tail is Python's `None`. */
  datatype Elem = Elem(tag: string, text: Option<string>, tail: Option<string>,
                       attrib: map<string, string>, children: seq<Elem>)

  /** `ET.Element(tag)` after the given children have been appended. */
  function NewElement(tag: string, children: seq<Elem>): Elem
  {
    Elem(tag, None, None, map[], children)
  }

  /** `e.findall(path)` for a relative path of tags: every element reached by
      stepping from `e` through children with the path's tags in turn, in
      document order. The empty path reaches `e` itself. */
  function FindAll(e: Elem, path: seq<string>): seq<Elem>
    decreases e, 1
  {
    if path == [] then [e] else FindAllIn(e.children, path)
  }

  function FindAllIn(cs: seq<Elem>, path: seq<string>): seq<Elem>
    requires path != []
    decreases cs, 0
  {
    if cs == [] then []
    else (if cs[0].tag == path[0] then FindAll(cs[0], path[1..]) else []) + FindAllIn(cs[1..], path)
  }

  /** `e.find(path)`: the first element `findall` would list. */
  function FindFirst(e: Elem, path: seq<string>): (r: Option<Elem>)
    ensures r.Some? <==> FindAll(e, path) != []
    ensures r.Some? ==> r.value == FindAll(e, path)[0]
  {
    var all := FindAll(e, path);
    if all == [] then None else Some(all[0])
  }

  /** `e.findtext(tag)`: `None` without such a child, otherwise the first
      one's text, with "" for `None` text. */
  function FindText(e: Elem, tag: string): (r: Option<string>)
    ensures r.None? <==> FindAll(e, [tag]) == []
  {
    match FindFirst(e, [tag])
    case None => None
    case Some(c) => Some(match c.text case None => "" case Some(t) => t)
  }

  /** Does `e` have a child tagged `tag` (`e.findall(tag) != []`)? */
  predicate HasChild(e: Elem, tag: string)
  {
    exists i :: 0 <= i < |e.children| && e.children[i].tag == tag
  }

  /** The number of children carrying `tag`. */
  function CountTagged(cs: seq<Elem>, tag: string): nat
  {
    if cs == [] then 0 else (if cs[0].tag == tag then 1 else 0) + CountTagged(cs[1..], tag)
  }

  /** The position among `cs` of the `k`-th child carrying `tag`. */
  function NthTagged(cs: seq<Elem>, tag: string, k: nat): (p: nat)
    requires k < CountTagged(cs, tag)
    ensures p < |cs| && cs[p].tag == tag
  {
    if cs[0].tag == tag && k == 0 then 0
    else if cs[0].tag == tag then 1 + NthTagged(cs[1..], tag, k - 1)
    else 1 + NthTagged(cs[1..], tag, k)
  }

  /** Sets the text of the first element `path` reaches from `e` and leaves
      every other part of the tree as it was. */
  function UpdateFirst(e: Elem, path: seq<string>, t: Option<string>): Elem
    decreases e, 1
  {
    if path == [] then e.(text := t) else e.(children := UpdateFirstIn(e.children, path, t))
  }

  function UpdateFirstIn(cs: seq<Elem>, path: seq<string>, t: Option<string>): seq<Elem>
    requires path != []
    decreases cs, 0
  {
    if cs == [] then []
    else if cs[0].tag == path[0] && FindAll(cs[0], path[1..]) != [] then
      [UpdateFirst(cs[0], path[1..], t)] + cs[1..]
    else [cs[0]] + UpdateFirstIn(cs[1..], path, t)
  }

  /** The list `s` with the text of its first element replaced. */
  function ReplaceHeadText(s: seq<Elem>, t: Option<string>): (r: seq<Elem>)
    ensures |r| == |s|
  {
    if s == [] then [] else [s[0].(text := t)] + s[1..]
  }

  // ---------------------------------------------------------------------
  // Properties of the queries

  lemma {:induction false} FindAllInAppend(xs: seq<Elem>, ys: seq<Elem>, path: seq<string>)
    requires path != []
    ensures FindAllIn(xs + ys, path) == FindAllIn(xs, path) + FindAllIn(ys, path)
  {
    if xs != [] {
      assert (xs + ys)[1..] == xs[1..] + ys;
      FindAllInAppend(xs[1..], ys, path);
    } else {
      assert xs + ys == ys;
    }
  }

  /** Everything a path reaches from a list of children is reached from one
      of them whose tag is the path's first step. */
  lemma {:induction false} FindAllInSource(cs: seq<Elem>, path: seq<string>, x: Elem)
    requires path != [] && x in FindAllIn(cs, path)
    ensures exists c :: c in cs && c.tag == path[0] && x in FindAll(c, path[1..])
  {
    if cs[0].tag == path[0] && x in FindAll(cs[0], path[1..]) {
    } else {
      FindAllInSource(cs[1..], path, x);
      var c :| c in cs[1..] && c.tag == path[0] && x in FindAll(c, path[1..]);
      assert c in cs;
    }
  }

  /** A one-step path selects exactly the children with that tag. */
  lemma {:induction false} FindAllInTag(cs: seq<Elem>, tag: string, x: Elem)
    ensures x in FindAllIn(cs, [tag]) <==> x in cs && x.tag == tag
  {
    if cs != [] {
      FindAllInTag(cs[1..], tag, x);
      assert cs == [cs[0]] + cs[1..];
    }
  }

  // ---------------------------------------------------------------------
  // Properties of the rewrite

  /** After the rewrite the path reaches the same elements, the first of
      them now carrying the new text. */
  lemma {:induction false} UpdateFirstReaches(e: Elem, path: seq<string>, t: Option<string>)
    ensures FindAll(UpdateFirst(e, path, t), path) == ReplaceHeadText(FindAll(e, path), t)
    ensures UpdateFirst(e, path, t).tag == e.tag
    decreases e, 1
  {
    if path != [] {
      UpdateFirstInReaches(e.children, path, t);
    }
  }

  lemma {:induction false} UpdateFirstInReaches(cs: seq<Elem>, path: seq<string>, t: Option<string>)
    requires path != []
    ensures FindAllIn(UpdateFirstIn(cs, path, t), path) == ReplaceHeadText(FindAllIn(cs, path), t)
    decreases cs, 0
  {
    if cs != [] {
      var u := UpdateFirstIn(cs, path, t);
      if cs[0].tag == path[0] && FindAll(cs[0], path[1..]) != [] {
        UpdateFirstReaches(cs[0], path[1..], t);
        assert u[0] == UpdateFirst(cs[0], path[1..], t) && u[1..] == cs[1..];
      } else {
        UpdateFirstInReaches(cs[1..], path, t);
        assert u[0] == cs[0] && u[1..] == UpdateFirstIn(cs[1..], path, t);
      }
    }
  }

  /** A path that leaves the rewritten one at some step reaches exactly what
      it reached before: the rewrite touches nothing else. */
  lemma {:induction false} UpdateFirstElsewhere(e: Elem, path: seq<string>, other: seq<string>, j: nat, t: Option<string>)
    requires j < |path| && j < |other| && path[j] != other[j]
    ensures FindAll(UpdateFirst(e, path, t), other) == FindAll(e, other)
    decreases e, 1
  {
    UpdateFirstInElsewhere(e.children, path, other, j, t);
  }

  lemma {:induction false} UpdateFirstInElsewhere(cs: seq<Elem>, path: seq<string>, other: seq<string>, j: nat, t: Option<string>)
    requires j < |path| && j < |other| && path[j] != other[j]
    ensures FindAllIn(UpdateFirstIn(cs, path, t), other) == FindAllIn(cs, other)
    decreases cs, 0
  {
    if cs != [] {
      var u := UpdateFirstIn(cs, path, t);
      if cs[0].tag == path[0] && FindAll(cs[0], path[1..]) != [] {
        assert u[0] == UpdateFirst(cs[0], path[1..], t) && u[1..] == cs[1..];
        if j > 0 && cs[0].tag == other[0] {
          UpdateFirstElsewhere(cs[0], path[1..], other[1..], j - 1, t);
        }
      } else {
        UpdateFirstInElsewhere(cs[1..], path, other, j, t);
        assert u[0] == cs[0] && u[1..] == UpdateFirstIn(cs[1..], path, t);
      }
    }
  }

  /** Writing the text the first reached element already has changes
      nothing. */
  lemma {:induction false} UpdateFirstSame(e: Elem, path: seq<string>)
    requires FindAll(e, path) != []
    ensures UpdateFirst(e, path, FindAll(e, path)[0].text) == e
    decreases e, 1
  {
    if path != [] {
      UpdateFirstInSame(e.children, path, FindAll(e, path)[0].text);
    }
  }

  lemma {:induction false} UpdateFirstInSame(cs: seq<Elem>, path: seq<string>, t: Option<string>)
    requires path != [] && FindAllIn(cs, path) != [] && FindAllIn(cs, path)[0].text == t
    ensures UpdateFirstIn(cs, path, t) == cs
    decreases cs, 0
  {
    if cs[0].tag == path[0] && FindAll(cs[0], path[1..]) != [] {
      UpdateFirstSame(cs[0], path[1..]);
    } else {
      UpdateFirstInSame(cs[1..], path, t);
    }
  }

  /** Two rewrites of the same place: the second one wins. */
  lemma {:induction false} UpdateFirstTwice(e: Elem, path: seq<string>, t1: Option<string>, t2: Option<string>)
    ensures UpdateFirst(UpdateFirst(e, path, t1), path, t2) == UpdateFirst(e, path, t2)
    decreases e, 1
  {
    if path != [] {
      UpdateFirstInTwice(e.children, path, t1, t2);
    }
  }

  lemma {:induction false} UpdateFirstInTwice(cs: seq<Elem>, path: seq<string>, t1: Option<string>, t2: Option<string>)
    requires path != []
    ensures UpdateFirstIn(UpdateFirstIn(cs, path, t1), path, t2) == UpdateFirstIn(cs, path, t2)
    decreases cs, 0
  {
    if cs != [] {
      var u := UpdateFirstIn(cs, path, t1);
      if cs[0].tag == path[0] && FindAll(cs[0], path[1..]) != [] {
        UpdateFirstReaches(cs[0], path[1..], t1);
        UpdateFirstTwice(cs[0], path[1..], t1, t2);
        assert u[0] == UpdateFirst(cs[0], path[1..], t1) && u[1..] == cs[1..];
      } else {
        UpdateFirstInTwice(cs[1..], path, t1, t2);
        assert u[0] == cs[0] && u[1..] == UpdateFirstIn(cs[1..], path, t1);
      }
    }
  }

  /** Restoring the old text undoes a rewrite. */
  lemma UpdateFirstRestore(e: Elem, path: seq<string>, t: Option<string>)
    requires FindAll(e, path) != []
    ensures UpdateFirst(UpdateFirst(e, path, t), path, FindAll(e, path)[0].text) == e
  {
    UpdateFirstTwice(e, path, t, FindAll(e, path)[0].text);
    UpdateFirstSame(e, path);
  }

  /** The position of the first child through which `path` reaches an
      element, or the length when there is none. */
  function FirstReaching(cs: seq<Elem>, path: seq<string>): (q: nat)
    requires path != []
    ensures q <= |cs| && (q < |cs| ==> cs[q].tag == path[0] && FindAll(cs[q], path[1..]) != [])
  {
    if cs == [] then 0
    else if cs[0].tag == path[0] && FindAll(cs[0], path[1..]) != [] then 0
    else 1 + FirstReaching(cs[1..], path)
  }

  /** Rewriting below a list of children replaces only the child through
      which the path first reaches an element, and rewrites below it. */
  lemma {:induction false} UpdateFirstInTouchesOne(cs: seq<Elem>, path: seq<string>, t: Option<string>)
    requires path != []
    ensures |UpdateFirstIn(cs, path, t)| == |cs|
    ensures var q := FirstReaching(cs, path);
      && (forall k :: 0 <= k < |cs| && k != q ==> UpdateFirstIn(cs, path, t)[k] == cs[k])
      && (q < |cs| ==> UpdateFirstIn(cs, path, t)[q] == UpdateFirst(cs[q], path[1..], t))
  {
    if cs != [] && !(cs[0].tag == path[0] && FindAll(cs[0], path[1..]) != []) {
      UpdateFirstInTouchesOne(cs[1..], path, t);
      var r, rest := UpdateFirstIn(cs, path, t), UpdateFirstIn(cs[1..], path, t);
      assert forall k :: 0 < k < |cs| ==> r[k] == rest[k - 1] && cs[k] == cs[1..][k - 1];
    }
  }

  /** Replacing one child: what a path reaches is what it reached before
      the child, from the new child, and after the child. */
  lemma FindAllInReplace(cs: seq<Elem>, p: nat, x: Elem, path: seq<string>)
    requires path != [] && p < |cs|
    ensures FindAllIn(cs[p := x], path)
      == FindAllIn(cs[..p], path) + FindAllIn([x], path) + FindAllIn(cs[p + 1..], path)
    ensures FindAllIn(cs, path)
      == FindAllIn(cs[..p], path) + FindAllIn([cs[p]], path) + FindAllIn(cs[p + 1..], path)
  {
    assert cs[p := x] == cs[..p] + [x] + cs[p + 1..];
    assert cs == cs[..p] + [cs[p]] + cs[p + 1..];
    FindAllInAppend(cs[..p] + [x], cs[p + 1..], path);
    FindAllInAppend(cs[..p], [x], path);
    FindAllInAppend(cs[..p] + [cs[p]], cs[p + 1..], path);
    FindAllInAppend(cs[..p], [cs[p]], path);
  }

  /** A child replaced by one with the same tag from which `path` reaches
      the same elements leaves what `path` reaches from the list unchanged. */
  lemma FindAllInReplaceSame(cs: seq<Elem>, p: nat, x: Elem, path: seq<string>)
    requires path != [] && p < |cs| && x.tag == cs[p].tag
    requires FindAll(x, path[1..]) == FindAll(cs[p], path[1..])
    ensures FindAllIn(cs[p := x], path) == FindAllIn(cs, path)
  {
    FindAllInReplace(cs, p, x, path);
  }

  /** The children tagged `tag` among a non-empty list: the first child if
      it is one, then those among the rest. */
  lemma FindAllInFirst(cs: seq<Elem>, tag: string)
    requires cs != []
    ensures FindAllIn(cs, [tag]) == (if cs[0].tag == tag then [cs[0]] else []) + FindAllIn(cs[1..], [tag])
  {
    assert [tag][1..] == [];
  }

  /** `findall(tag)` lists as many children as carry the tag. */
  lemma {:induction false} CountTaggedFindAll(cs: seq<Elem>, tag: string)
    ensures CountTagged(cs, tag) == |FindAllIn(cs, [tag])|
  {
    if cs != [] {
      FindAllInFirst(cs, tag);
      CountTaggedFindAll(cs[1..], tag);
    }
  }

  /** The `k`-th child `findall(tag)` lists is the child at `NthTagged`. */
  lemma {:induction false} NthTaggedFound(cs: seq<Elem>, tag: string, k: nat)
    requires k < CountTagged(cs, tag)
    ensures k < |FindAllIn(cs, [tag])| && FindAllIn(cs, [tag])[k] == cs[NthTagged(cs, tag, k)]
  {
    CountTaggedFindAll(cs, tag);
    FindAllInFirst(cs, tag);
    if cs[0].tag == tag && k > 0 {
      NthTaggedFound(cs[1..], tag, k - 1);
    } else if cs[0].tag != tag {
      NthTaggedFound(cs[1..], tag, k);
    }
  }

  predicate SameTags(cs: seq<Elem>, ds: seq<Elem>)
  {
    |cs| == |ds| && forall i :: 0 <= i < |cs| ==> cs[i].tag == ds[i].tag
  }

  /** Lists with the same tags position by position have as many children
      with a given tag ... */
  lemma {:induction false} SameTagsSameCount(cs: seq<Elem>, ds: seq<Elem>, tag: string)
    requires SameTags(cs, ds)
    ensures CountTagged(cs, tag) == CountTagged(ds, tag)
    ensures |FindAllIn(cs, [tag])| == |FindAllIn(ds, [tag])|
  {
    CountTaggedFindAll(cs, tag);
    CountTaggedFindAll(ds, tag);
    SameTagsSameCountBy(cs, ds, tag);
  }

  lemma {:induction false} SameTagsSameCountBy(cs: seq<Elem>, ds: seq<Elem>, tag: string)
    requires SameTags(cs, ds)
    ensures CountTagged(cs, tag) == CountTagged(ds, tag)
  {
    if cs != [] {
      assert cs[0].tag == ds[0].tag;
      SameTagsSameCountBy(cs[1..], ds[1..], tag);
    }
  }

  /** ... and their `k`-th child with that tag at the same place. */
  lemma {:induction false} SameTagsSamePlaces(cs: seq<Elem>, ds: seq<Elem>, tag: string, k: nat)
    requires SameTags(cs, ds) && k < CountTagged(cs, tag)
    ensures k < CountTagged(ds, tag) && NthTagged(cs, tag, k) == NthTagged(ds, tag, k)
  {
    SameTagsSameCountBy(cs, ds, tag);
    assert cs[0].tag == ds[0].tag;
    if cs[0].tag == tag && k > 0 {
      SameTagsSamePlaces(cs[1..], ds[1..], tag, k - 1);
    } else if cs[0].tag != tag {
      SameTagsSamePlaces(cs[1..], ds[1..], tag, k);
    }
  }
}
