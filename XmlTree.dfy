/** An element tree in the shape lxml gives it: a tag (Clark notation
    `{uri}local` when namespaced), the text before the first child, the tail
    after the element, the attributes in document order and the children.
    A missing text or tail (None in lxml) is the empty string. */
module XmlTree {
  import opened Wrappers

  datatype Node = Node(tag: string, text: string, tail: string,
                       attrs: seq<(string, string)>, children: seq<Node>)

  /** An element with text and nothing else, as `SubElement(p, tag).text = text` builds it. */
  function Leaf(tag: string, text: string): (n: Node)
    ensures n.tag == tag && n.text == text && n.children == []
  {
    Node(tag, text, "", [], [])
  }

  /** `parent.find(tag)`: the index of the first child with exactly this tag. */
  function FindChild(children: seq<Node>, tag: string): (r: Option<nat>)
    ensures r.Some? ==> r.value < |children| && children[r.value].tag == tag
    ensures r.Some? ==> forall j :: 0 <= j < r.value ==> children[j].tag != tag
    ensures r.None? <==> forall j :: 0 <= j < |children| ==> children[j].tag != tag
  {
    if children == [] then None
    else if children[0].tag == tag then Some(0)
    else match FindChild(children[1..], tag)
      case None => None
      case Some(i) => Some(i + 1)
  }

  /** The text of the first child with this tag, None when there is no such child. */
  function ChildText(n: Node, tag: string): (r: Option<string>)
    ensures r.Some? <==> FindChild(n.children, tag).Some?
    ensures r.Some? ==> r.value == n.children[FindChild(n.children, tag).value].text
  {
    match FindChild(n.children, tag)
      case None => None
      case Some(i) => Some(n.children[i].text)
  }

  /** `len(parent.findall(tag))`. */
  function CountTag(children: seq<Node>, tag: string): (k: nat)
    ensures k <= |children|
  {
    if children == [] then 0
    else (if children[0].tag == tag then 1 else 0) + CountTag(children[1..], tag)
  }

  /** `s[:i] + [x] + s[i:]`, as `parent.insert(i, x)`. */
  function InsertAt<T>(s: seq<T>, i: nat, x: T): (r: seq<T>)
    requires i <= |s|
    ensures |r| == |s| + 1 && r[i] == x
  {
    s[..i] + [x] + s[i..]
  }

  /** `parent.remove(s[i])`. */
  function RemoveAt<T>(s: seq<T>, i: nat): (r: seq<T>)
    requires i < |s|
    ensures |r| == |s| - 1
  {
    s[..i] + s[i + 1..]
  }

  /** Removing the element between `u` and `v` leaves `u + v`. */
  lemma {:induction false} RemoveMiddle<T>(u: seq<T>, x: T, v: seq<T>)
    ensures RemoveAt(u + [x] + v, |u|) == u + v
  {
    var s := u + [x] + v;
    assert s[..|u|] == u && s[|u| + 1..] == v;
  }

  /** `s` cut around position `p`. */
  lemma {:induction false} SplitAt<T>(s: seq<T>, p: nat)
    requires p < |s|
    ensures s == s[..p] + [s[p]] + s[p + 1..]
    ensures RemoveAt(s, p) == s[..p] + s[p + 1..]
  {
  }

  /** `s` cut before position `p`, and what inserting there gives. */
  lemma {:induction false} CutAt<T>(s: seq<T>, p: nat, x: T)
    requires p <= |s|
    ensures s == s[..p] + s[p..]
    ensures InsertAt(s, p, x) == s[..p] + [x] + s[p..]
  {
  }

  /** Dropping the last element of `a + [x]` gives `a` back. */
  lemma {:induction false} SnocPrefix<T>(a: seq<T>, x: T)
    ensures (a + [x])[..|a|] == a
  {
  }

  /** The first `i` elements of the first `i + 1`. */
  lemma {:induction false} PrefixStep<T>(s: seq<T>, i: nat)
    requires i < |s|
    ensures s[..i + 1][..i] == s[..i] && s[..i + 1] == s[..i] + [s[i]]
  {
  }

  /** Sequences with the same elements at every position are equal. */
  lemma {:induction false} SameElements<T>(a: seq<T>, b: seq<T>)
    requires |a| == |b| && forall i :: 0 <= i < |a| ==> a[i] == b[i]
    ensures a == b
  {
  }

  /** Where each element of `s` ends up once `x` is inserted at `i`. */
  lemma {:induction false} InsertAtIndex<T>(s: seq<T>, i: nat, x: T, j: nat)
    requires i <= |s| && j <= |s|
    ensures InsertAt(s, i, x)[j] == if j < i then s[j] else if j == i then x else s[j - 1]
  {
  }

  /** Where each element ends up once the one at `i` is removed. */
  lemma {:induction false} RemoveAtIndex<T>(s: seq<T>, i: nat, j: nat)
    requires i < |s| && j < |s| - 1
    ensures RemoveAt(s, i)[j] == if j < i then s[j] else s[j + 1]
  {
  }

  /** Putting a removed element back where it was restores the sequence. */
  lemma {:induction false} InsertRemove<T>(s: seq<T>, i: nat)
    requires i < |s|
    ensures InsertAt(RemoveAt(s, i), i, s[i]) == s
  {
    assert RemoveAt(s, i)[..i] == s[..i] && RemoveAt(s, i)[i..] == s[i + 1..];
  }

  /** A non-empty sequence is its front followed by its last element. */
  lemma {:induction false} ButLast<T>(s: seq<T>)
    requires |s| > 0
    ensures s == s[..|s| - 1] + [s[|s| - 1]]
  {
  }

  /** Inserting before the last element commutes with appending it. */
  lemma {:induction false} InsertAtSnoc<T>(s: seq<T>, x: T, i: nat, y: T)
    requires i <= |s|
    ensures InsertAt(s + [x], i, y) == InsertAt(s, i, y) + [x]
  {
    assert (s + [x])[..i] == s[..i] && (s + [x])[i..] == s[i..] + [x];
  }

  /** Removing before the last element commutes with appending it. */
  lemma {:induction false} RemoveAtSnoc<T>(s: seq<T>, x: T, i: nat)
    requires i < |s|
    ensures RemoveAt(s + [x], i) == RemoveAt(s, i) + [x]
  {
    assert (s + [x])[..i] == s[..i] && (s + [x])[i + 1..] == s[i + 1..] + [x];
  }

  /** `find` on a list whose second child is the first with the tag. */
  lemma {:induction false} FindChildSecond(children: seq<Node>, tag: string)
    requires |children| >= 2 && children[0].tag != tag && children[1].tag == tag
    ensures FindChild(children, tag) == Some(1)
  {
    assert children[1..][0] == children[1];
  }

  /** `find` only looks at tags. */
  lemma {:induction false} FindChildSameTags(a: seq<Node>, b: seq<Node>, tag: string)
    requires |a| == |b| && forall i :: 0 <= i < |a| ==> a[i].tag == b[i].tag
    ensures FindChild(a, tag) == FindChild(b, tag)
  {
    if a != [] { FindChildSameTags(a[1..], b[1..], tag); }
  }

  /** Appending a child with another tag does not change what `find` returns. */
  lemma {:induction false} FindChildAppend(a: seq<Node>, x: Node, tag: string)
    requires x.tag != tag
    ensures FindChild(a + [x], tag) == FindChild(a, tag)
  {
    if a != [] {
      assert (a + [x])[1..] == a[1..] + [x];
      FindChildAppend(a[1..], x, tag);
    }
  }

  /** Appending the first child with the tag makes `find` return it. */
  lemma {:induction false} FindChildAppendMatch(a: seq<Node>, x: Node, tag: string)
    requires x.tag == tag && FindChild(a, tag).None?
    ensures FindChild(a + [x], tag) == Some(|a|)
  {
    if a != [] {
      assert (a + [x])[1..] == a[1..] + [x];
      FindChildAppendMatch(a[1..], x, tag);
    }
  }

  /** Two child lists whose elements carry the same tags, position by position. */
  predicate SameTags(a: seq<Node>, b: seq<Node>)
  {
    |a| == |b| && forall i :: 0 <= i < |a| ==> a[i].tag == b[i].tag
  }

  lemma {:induction false} CountTagAppend(a: seq<Node>, b: seq<Node>, tag: string)
    ensures CountTag(a + b, tag) == CountTag(a, tag) + CountTag(b, tag)
  {
    if a != [] {
      assert (a + b)[1..] == a[1..] + b && (a + b)[0] == a[0];
      CountTagAppend(a[1..], b, tag);
    } else {
      assert a + b == b;
    }
  }

  /** `findall` only looks at tags. */
  lemma {:induction false} CountTagSameTags(a: seq<Node>, b: seq<Node>, tag: string)
    requires SameTags(a, b)
    ensures CountTag(a, tag) == CountTag(b, tag)
  {
    if a != [] { CountTagSameTags(a[1..], b[1..], tag); }
  }

  /** Counting the tag over the first `i + 1` children. */
  lemma {:induction false} CountTagStep(a: seq<Node>, i: nat, tag: string)
    requires i < |a|
    ensures CountTag(a[..i + 1], tag) == CountTag(a[..i], tag) + (if a[i].tag == tag then 1 else 0)
  {
    assert a[..i + 1] == a[..i] + [a[i]];
    CountTagAppend(a[..i], [a[i]], tag);
  }

  lemma {:induction false} PrefixSplit<T>(s: seq<T>, i: nat, j: nat)
    requires i <= j <= |s|
    ensures s[..j] == s[..i] + s[i..j]
  {
  }

  /** A longer prefix holds at least as many elements with the tag. */
  lemma {:induction false} CountTagPrefixMono(a: seq<Node>, i: nat, j: nat, tag: string)
    requires i <= j <= |a|
    ensures CountTag(a[..i], tag) <= CountTag(a[..j], tag)
  {
    PrefixSplit(a, i, j);
    CountTagAppend(a[..i], a[i..j], tag);
  }

  /** A later prefix holds every earlier element with the tag. */
  lemma {:induction false} CountTagPrefixStrict(a: seq<Node>, i: nat, j: nat, tag: string)
    requires i < j <= |a| && a[i].tag == tag
    ensures CountTag(a[..i], tag) < CountTag(a[..j], tag)
  {
    CountTagStep(a, i, tag);
    CountTagPrefixMono(a, i + 1, j, tag);
  }

  lemma {:induction false} CountTagPrefixAll(a: seq<Node>, i: nat, tag: string)
    requires i <= |a|
    ensures CountTag(a[..i], tag) + CountTag(a[i..], tag) == CountTag(a, tag)
  {
    assert a == a[..i] + a[i..];
    CountTagAppend(a[..i], a[i..], tag);
  }

  /** Two children with the tag, the first before the second. */
  lemma {:induction false} SiblingCounts(cs: seq<Node>, i: nat, j: nat, t: string)
    requires i < j < |cs| && cs[i].tag == t && cs[j].tag == t
    ensures CountTag(cs[..i], t) + 1 <= CountTag(cs[..j], t) && CountTag(cs[..j], t) + 1 <= CountTag(cs, t)
  {
    CountTagPrefixStrict(cs, i, j, t);
    CountTagPrefixStrict(cs, j, j + 1, t);
    CountTagPrefixAll(cs, j + 1, t);
  }

  /** `findall` is empty exactly when `find` finds nothing. */
  lemma {:induction false} CountTagZero(children: seq<Node>, tag: string)
    ensures CountTag(children, tag) == 0 <==> FindChild(children, tag).None?
  {
    if children != [] && children[0].tag != tag {
      CountTagZero(children[1..], tag);
    }
  }

  lemma {:induction false} SnocAt<T>(a: seq<T>, x: T, k: nat)
    requires k <= |a|
    ensures (a + [x])[k] == if k < |a| then a[k] else x
  {
  }
}
