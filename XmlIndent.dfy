/** `_indent_xml`: pretty-printing whitespace written into the tree. An
    element with children whose text is blank gets a newline and the
    indentation of its first child; every blank tail gets a newline and the
    indentation of the element's own level. Text and tails that hold more
    than whitespace are kept. */
module XmlIndent {
  import opened Text
  import opened XmlTree

  /** `"\n" + "  " * level`. */
  function Newline(level: nat): (r: string)
    ensures IsBlank(r)
  {
    "\n" + Spaces(level)
  }

  /** The tree after `_indent_xml(n, level)`. */
  function Indented(n: Node, level: nat): Node
    decreases n, |n.children| + 1
  {
    Node(n.tag,
         if |n.children| > 0 && IsBlank(n.text) then Newline(level) + "  " else n.text,
         if IsBlank(n.tail) then Newline(level) else n.tail,
         n.attrs,
         IndentedChildren(n, level, |n.children|))
  }

  /** The first `m` children, each indented one level deeper. */
  function IndentedChildren(n: Node, level: nat, m: nat): (r: seq<Node>)
    requires m <= |n.children|
    decreases n, m
    ensures |r| == m
  {
    if m == 0 then [] else IndentedChildren(n, level, m - 1) + [Indented(n.children[m - 1], level + 1)]
  }

  lemma {:induction false} IndentedChildrenAt(n: Node, level: nat, m: nat, k: nat)
    requires k < m <= |n.children|
    decreases m
    ensures IndentedChildren(n, level, m)[k] == Indented(n.children[k], level + 1)
  {
    var a := IndentedChildren(n, level, m - 1);
    assert IndentedChildren(n, level, m) == a + [Indented(n.children[m - 1], level + 1)];
    SnocAt(a, Indented(n.children[m - 1], level + 1), k);
    if k < m - 1 {
      IndentedChildrenAt(n, level, m - 1, k);
    }
  }

  /** Blank text of an element with children becomes a newline and the
      next level's indentation; blank tails the element's own level; other
      text and tails, the tag, the attributes and the number and order of
      children stay. */
  lemma {:induction false} IndentedFields(n: Node, level: nat)
    ensures var r := Indented(n, level);
      r.tag == n.tag && r.attrs == n.attrs && |r.children| == |n.children|
      && r.text == (if |n.children| > 0 && IsBlank(n.text) then "\n" + Spaces(level + 1) else n.text)
      && r.tail == (if IsBlank(n.tail) then "\n" + Spaces(level) else n.tail)
      && forall k :: 0 <= k < |n.children| ==> r.children[k] == Indented(n.children[k], level + 1)
  {
    SpacesSnoc(level);
    assert Newline(level) + "  " == "\n" + (Spaces(level) + "  ");
    forall k | 0 <= k < |n.children| ensures Indented(n, level).children[k] == Indented(n.children[k], level + 1) {
      IndentedChildrenAt(n, level, |n.children|, k);
    }
  }

  lemma {:induction false} IndentBlank(level: nat)
    ensures IsBlank(Newline(level) + "  ")
  {
    var s := Newline(level) + "  ";
    assert forall i :: 0 <= i < |s| ==> IsSpace(s[i]) by {
      forall i | 0 <= i < |s| ensures IsSpace(s[i]) {
        if i < |Newline(level)| { assert s[i] == Newline(level)[i]; }
      }
    }
  }

  /** Indenting an indented tree again changes nothing. */
  lemma {:induction false} IndentIdem(n: Node, level: nat)
    decreases n, 1
    ensures Indented(Indented(n, level), level) == Indented(n, level)
  {
    var r := Indented(n, level);
    var rr := Indented(r, level);
    assert rr.text == r.text && rr.tail == r.tail by {
      IndentBlank(level);
    }
    assert rr.children == r.children by {
      IndentChildrenIdem(n, level);
    }
  }

  lemma {:induction false} IndentChildrenIdem(n: Node, level: nat)
    decreases n, 0
    ensures Indented(Indented(n, level), level).children == Indented(n, level).children
  {
    var r := Indented(n, level);
    var rr := Indented(r, level);
    forall k | 0 <= k < |r.children| ensures rr.children[k] == r.children[k] {
      IndentedChildrenAt(r, level, |r.children|, k);
      IndentedChildrenAt(n, level, |n.children|, k);
      IndentIdem(n.children[k], level + 1);
    }
  }

  /** `_indent_xml(elem, level)`, rebuilding the children in its loop. */
  method Indent(n: Node, level: nat) returns (r: Node)
    decreases n
    ensures r == Indented(n, level)
  {
    var i := "\n" + Spaces(level);
    var text := n.text;
    var tail := n.tail;
    var kids: seq<Node> := [];
    if |n.children| > 0 {
      if IsBlank(n.text) {
        text := i + "  ";
      }
      for k := 0 to |n.children|
        invariant kids == IndentedChildren(n, level, k)
      {
        var child := Indent(n.children[k], level + 1);
        kids := kids + [child];
      }
    }
    if IsBlank(n.tail) {
      tail := i;
    }
    r := Node(n.tag, text, tail, n.attrs, kids);
  }
}
