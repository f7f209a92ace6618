/** Growing an element tree along a sheet path, as `_ensure_element_path`
    and `_ensure_path_exists` do: every segment after the first names a
    child (in the invoice namespace) that is reused when present and
    appended when missing; an indexed segment `t[n]` first pads the parent
    with empty `t` children until it has `n` of them. */
module XmlBuild {
  import opened Wrappers
  import opened Text
  import opened XmlTree
  import opened OrderedDict
  import opened ExcelPaths

  /** `f"{{{ns_uri}}}{name}"`: the Clark-notation tag. */
  function NsTag(ns: string, name: string): string
  {
    "{" + ns + "}" + name
  }

  /** `k` new empty elements with the tag, as `etree.SubElement` creates them. */
  function Blanks(tag: string, k: nat): (r: seq<Node>)
    ensures |r| == k
  {
    if k == 0 then [] else Blanks(tag, k - 1) + [Leaf(tag, "")]
  }

  lemma {:induction false} BlanksCount(tag: string, k: nat)
    ensures CountTag(Blanks(tag, k), tag) == k
  {
    if k > 0 {
      BlanksCount(tag, k - 1);
      CountTagAppend(Blanks(tag, k - 1), [Leaf(tag, "")], tag);
    }
  }

  /** The children after the padding loop: new `tag` children are appended
      until there are at least `index` of them. */
  function Padded(children: seq<Node>, tag: string, index: int): seq<Node>
  {
    children + Blanks(tag, if index > CountTag(children, tag) then index - CountTag(children, tag) else 0)
  }

  /** Padding keeps the existing children in front and leaves
      `max(index, count)` children with the tag. */
  lemma {:induction false} PaddedCount(children: seq<Node>, tag: string, index: int)
    ensures var p := Padded(children, tag, index);
      |p| >= |children| && (forall i :: 0 <= i < |children| ==> p[i] == children[i])
      && CountTag(p, tag) == if index > CountTag(children, tag) then index else CountTag(children, tag)
  {
    var k := if index > CountTag(children, tag) then index - CountTag(children, tag) else 0;
    BlanksCount(tag, k);
    CountTagAppend(children, Blanks(tag, k), tag);
  }

  lemma {:induction false} PaddedNoop(children: seq<Node>, tag: string, index: int)
    requires index <= CountTag(children, tag)
    ensures Padded(children, tag, index) == children
  {
    assert children + [] == children;
  }

  /** `parent.findall(tag)[k]`: the position of the `k`-th (from 0) child
      with the tag. */
  function NthWithTag(children: seq<Node>, tag: string, k: nat): (p: nat)
    requires k < CountTag(children, tag)
    ensures p < |children| && children[p].tag == tag
    ensures CountTag(children[..p], tag) == k
  {
    if children[0].tag == tag && k == 0 then 0
    else
      var p := 1 + NthWithTag(children[1..], tag, if children[0].tag == tag then k - 1 else k);
      assert children[..p][1..] == children[1..][..p - 1];
      p
  }

  lemma {:induction false} NthWithTagSameTags(a: seq<Node>, b: seq<Node>, tag: string, k: nat)
    requires SameTags(a, b) && k < CountTag(a, tag)
    ensures CountTag(b, tag) == CountTag(a, tag)
    ensures NthWithTag(a, tag, k) == NthWithTag(b, tag, k)
  {
    CountTagSameTags(a, b, tag);
    if !(a[0].tag == tag && k == 0) {
      assert SameTags(a[1..], b[1..]);
      NthWithTagSameTags(a[1..], b[1..], tag, if a[0].tag == tag then k - 1 else k);
    }
  }

  /** One iteration of the loop in `_ensure_element_path`: the node to
      descend from, with its children grown as needed, and the position of
      the child to descend into. None where Python raises IndexError
      (`elements[index - 1]` outside the list, for an index below 1). */
  function StepInto(cur: Node, st: Step, ns: string): (r: Option<(Node, nat)>)
    ensures r.Some? ==> (r.value.1 < |r.value.0.children|
      && r.value.0.children[r.value.1].tag == NsTag(ns, st.name))
    ensures r.Some? ==> r.value.0 == cur.(children := r.value.0.children)
  {
    var t := NsTag(ns, st.name);
    match st
    case Plain(_) =>
      (match FindChild(cur.children, t)
       case Some(i) => Some((cur, i))
       case None => Some((cur.(children := cur.children + [Leaf(t, "")]), |cur.children|)))
    case Indexed(_, index) =>
      var cs := Padded(cur.children, t, index);
      var c := CountTag(cs, t);
      var k := if index >= 1 then index - 1 else c + index - 1;
      if 0 <= k < c then Some((cur.(children := cs), NthWithTag(cs, t, k))) else None
  }

  /** A plain segment reuses the first child with the tag and otherwise
      appends one, keeping the existing children. */
  lemma {:induction false} PlainStep(cur: Node, name: string, ns: string)
    ensures var t := NsTag(ns, name);
      var r := StepInto(cur, Plain(name), ns);
      r.Some?
      && (FindChild(cur.children, t).Some? ==> r.value == (cur, FindChild(cur.children, t).value))
      && (FindChild(cur.children, t).None? ==>
            r.value.0.children == cur.children + [Leaf(t, "")] && r.value.1 == |cur.children|)
  {
  }

  /** An indexed segment `t[n]` with `n >= 1` leaves at least `n` children
      tagged `t` and descends into the `n`-th of them; with `n <= 0` it
      counts from the end, as Python's negative indexing does, and fails when
      there are fewer than `1 - n` such children. */
  lemma {:induction false} IndexedStep(cur: Node, name: string, index: int, ns: string)
    ensures var t := NsTag(ns, name);
      var c := CountTag(cur.children, t);
      var r := StepInto(cur, Indexed(name, index), ns);
      (r.None? <==> index < 1 - c)
      && (r.Some? ==>
            (forall i :: 0 <= i < |cur.children| ==> r.value.0.children[i] == cur.children[i])
            && CountTag(r.value.0.children, t) == (if index > c then index else c)
            && CountTag(r.value.0.children[..r.value.1], t)
               == (if index >= 1 then index - 1 else c + index - 1))
  {
    var t := NsTag(ns, name);
    PaddedCount(cur.children, t, index);
  }

  /** What `_ensure_path_exists` does to the element at the end of the
      path; `Keep` is `_ensure_element_path` on its own. */
  datatype Action = Keep | SetText(text: string) | SetAttr(name: string, value: string)

  /** The element carries what the action wrote. */
  predicate Applied(n: Node, act: Action)
  {
    match act
    case Keep => true
    case SetText(v) => n.text == v
    case SetAttr(a, v) => Get(n.attrs, a) == Some(v)
  }

  function Apply(n: Node, act: Action): (r: Node)
    ensures r.tag == n.tag && r.children == n.children
    ensures Applied(r, act)
  {
    match act
    case Keep => n
    case SetText(v) => n.(text := v)
    case SetAttr(a, v) => n.(attrs := Set(n.attrs, a, v))
  }

  /** Writing again what is already written changes nothing. */
  lemma {:induction false} ApplyIdem(n: Node, act: Action)
    ensures Apply(Apply(n, act), act) == Apply(n, act)
  {
    if act.SetAttr? {
      SetIdem(n.attrs, act.name, act.value);
    }
  }

  /** The walk over the segments: the updated tree and the child positions
      of the element it ends on. */
  function EnsureIn(cur: Node, segs: seq<string>, ns: string, act: Action): (r: Option<(Node, seq<nat>)>)
    decreases |segs|
    ensures r.Some? ==> r.value.0.tag == cur.tag
  {
    if segs == [] then Some((Apply(cur, act), []))
    else match ParseStep(segs[0])
      case None => None
      case Some(st) =>
        match StepInto(cur, st, ns)
        case None => None
        case Some((c1, pos)) =>
          match EnsureIn(c1.children[pos], segs[1..], ns, act)
          case None => None
          case Some((child, addr)) => Some((c1.(children := c1.children[pos := child]), [pos] + addr))
  }

  /** The element reached by following child positions. */
  function At(n: Node, addr: seq<nat>): Option<Node>
    decreases |addr|
  {
    if addr == [] then Some(n)
    else if addr[0] < |n.children| then At(n.children[addr[0]], addr[1..])
    else None
  }

  /** The walk ends on an element that carries the write, and whose tag is
      the namespaced name of the last segment. */
  lemma {:induction false} EnsureInTarget(cur: Node, segs: seq<string>, ns: string, act: Action)
    requires EnsureIn(cur, segs, ns, act).Some?
    decreases |segs|
    ensures var res := EnsureIn(cur, segs, ns, act).value;
      At(res.0, res.1).Some? && Applied(At(res.0, res.1).value, act)
      && (segs == [] ==> At(res.0, res.1).value.tag == cur.tag)
      && (segs != [] ==> (ParseStep(segs[|segs| - 1]).Some?
            && At(res.0, res.1).value.tag == NsTag(ns, ParseStep(segs[|segs| - 1]).value.name)))
  {
    if segs == [] {
    } else {
      var st := ParseStep(segs[0]).value;
      var (c1, pos) := StepInto(cur, st, ns).value;
      var (child, addr) := EnsureIn(c1.children[pos], segs[1..], ns, act).value;
      EnsureInTarget(c1.children[pos], segs[1..], ns, act);
      var r := c1.(children := c1.children[pos := child]);
      assert EnsureIn(cur, segs, ns, act).value == (r, [pos] + addr);
      assert ([pos] + addr)[1..] == addr;
      assert At(r, [pos] + addr) == At(child, addr);
      if |segs| > 1 {
        assert segs[1..][|segs[1..]| - 1] == segs[|segs| - 1];
      }
    }
  }

  lemma {:induction false} UpdateSame<T>(s: seq<T>, i: nat)
    requires i < |s|
    ensures s[i := s[i]] == s
  {
  }

  /** A second step with the same segment, on the tree the first one left
      (with the chosen child replaced by one with the same tag), grows
      nothing and picks the same child. */
  lemma {:induction false} StepStable(cur: Node, st: Step, ns: string, r: Node)
    requires StepInto(cur, st, ns).Some?
    requires SameTags(StepInto(cur, st, ns).value.0.children, r.children)
    requires r == StepInto(cur, st, ns).value.0.(children := r.children)
    ensures StepInto(r, st, ns) == Some((r, StepInto(cur, st, ns).value.1))
  {
    if st.Plain? {
      PlainStable(cur, st.name, ns, r);
    } else {
      IndexedStable(cur, st.name, st.index, ns, r);
    }
  }

  lemma {:induction false} PlainStable(cur: Node, name: string, ns: string, r: Node)
    requires StepInto(cur, Plain(name), ns).Some?
    requires SameTags(StepInto(cur, Plain(name), ns).value.0.children, r.children)
    requires r == StepInto(cur, Plain(name), ns).value.0.(children := r.children)
    ensures StepInto(r, Plain(name), ns) == Some((r, StepInto(cur, Plain(name), ns).value.1))
  {
    var (c1, pos) := StepInto(cur, Plain(name), ns).value;
    var t := NsTag(ns, name);
    FindChildSameTags(c1.children, r.children, t);
    if FindChild(cur.children, t).None? {
      FindChildAppendMatch(cur.children, Leaf(t, ""), t);
    }
    assert FindChild(r.children, t) == Some(pos);
  }

  lemma {:induction false} IndexedStable(cur: Node, name: string, index: int, ns: string, r: Node)
    requires StepInto(cur, Indexed(name, index), ns).Some?
    requires SameTags(StepInto(cur, Indexed(name, index), ns).value.0.children, r.children)
    requires r == StepInto(cur, Indexed(name, index), ns).value.0.(children := r.children)
    ensures StepInto(r, Indexed(name, index), ns) == Some((r, StepInto(cur, Indexed(name, index), ns).value.1))
  {
    var t := NsTag(ns, name);
    var cs := Padded(cur.children, t, index);
    var k := IndexedResult(cur, name, index, ns);
    assert index <= CountTag(cs, t) by { PaddedCount(cur.children, t, index); }
    CountTagSameTags(cs, r.children, t);
    PaddedNoop(r.children, t, index);
    NthWithTagSameTags(cs, r.children, t, k);
    IndexedStepOf(r, name, index, ns, k);
    var s := StepInto(r, Indexed(name, index), ns).value;
    assert s.0 == r.(children := s.0.children) && s.0.children == r.children;
  }

  /** A successful indexed step pads the children and ends on the `k`-th
      child with the tag. */
  lemma {:induction false} IndexedResult(cur: Node, name: string, index: int, ns: string) returns (k: nat)
    requires StepInto(cur, Indexed(name, index), ns).Some?
    ensures var cs := Padded(cur.children, NsTag(ns, name), index);
      && k < CountTag(cs, NsTag(ns, name))
      && k == (if index >= 1 then index - 1 else CountTag(cs, NsTag(ns, name)) + index - 1)
      && StepInto(cur, Indexed(name, index), ns).value.0.children == cs
      && StepInto(cur, Indexed(name, index), ns).value.1 == NthWithTag(cs, NsTag(ns, name), k)
  {
    var t := NsTag(ns, name);
    var cs := Padded(cur.children, t, index);
    var c := CountTag(cs, t);
    k := if index >= 1 then index - 1 else c + index - 1;
  }

  /** An indexed step whose children need no padding picks the `k`-th
      child with the tag and keeps the children. */
  lemma {:induction false} IndexedStepOf(r: Node, name: string, index: int, ns: string, k: nat)
    requires Padded(r.children, NsTag(ns, name), index) == r.children
    requires k < CountTag(r.children, NsTag(ns, name))
    requires k == if index >= 1 then index - 1 else CountTag(r.children, NsTag(ns, name)) + index - 1
    ensures StepInto(r, Indexed(name, index), ns).Some?
    ensures StepInto(r, Indexed(name, index), ns).value.0.children == r.children
    ensures StepInto(r, Indexed(name, index), ns).value.1 == NthWithTag(r.children, NsTag(ns, name), k)
  {
  }

  /** `_ensure_element_path` twice with the same path creates no new
      nodes: the second walk leaves the tree as the first left it and ends on
      the same element. */
  lemma {:induction false} EnsureInIdem(cur: Node, segs: seq<string>, ns: string, act: Action)
    requires EnsureIn(cur, segs, ns, act).Some?
    decreases |segs|
    ensures EnsureIn(EnsureIn(cur, segs, ns, act).value.0, segs, ns, act) == EnsureIn(cur, segs, ns, act)
  {
    if segs == [] {
      ApplyIdem(cur, act);
    } else {
      var st := ParseStep(segs[0]).value;
      var (c1, pos) := StepInto(cur, st, ns).value;
      var (child, addr) := EnsureIn(c1.children[pos], segs[1..], ns, act).value;
      var r := c1.(children := c1.children[pos := child]);
      assert EnsureIn(cur, segs, ns, act).value == (r, [pos] + addr);
      assert SameTags(c1.children, r.children);
      StepStable(cur, st, ns, r);
      EnsureInIdem(c1.children[pos], segs[1..], ns, act);
      assert r.children[pos] == child;
      UpdateSame(r.children, pos);
    }
  }

  /** `_ensure_element_path(root, path, ns)` followed by the write: the
      first segment names the root and is skipped. */
  function EnsuredPath(root: Node, path: string, ns: string, act: Action): Option<(Node, seq<nat>)>
  {
    EnsureIn(root, Split(path, '/')[1..], ns, act)
  }

  /** Whatever the first segment says, the walk is the same. */
  lemma {:induction false} EnsureIgnoresRoot(root: Node, a: string, b: string, rest: string, ns: string, act: Action)
    requires '/' !in a && '/' !in b
    ensures EnsuredPath(root, a + "/" + rest, ns, act) == EnsuredPath(root, b + "/" + rest, ns, act)
  {
    SplitPrefix(a, rest, '/');
    SplitPrefix(b, rest, '/');
    assert a + "/" + rest == a + ['/'] + rest;
    assert b + "/" + rest == b + ['/'] + rest;
    assert ([a] + Split(rest, '/'))[1..] == Split(rest, '/');
    assert ([b] + Split(rest, '/'))[1..] == Split(rest, '/');
  }

  /** `_ensure_path_exists(root, path, value, ns)`: a path holding `/@`
      sets the attribute named after it on the element before it, any other
      path sets the element's text. None where Python raises (a path with
      `/@` twice, or a segment the walk cannot take). */
  function WritePath(root: Node, path: string, value: string, ns: string): (r: Option<Node>)
    ensures r.Some? ==> r.value.tag == root.tag
  {
    if Contains(path, "/@") then
      var ps := SplitOn(path, "/@");
      if |ps| != 2 then None
      else match EnsuredPath(root, ps[0], ns, SetAttr(ps[1], value))
        case None => None
        case Some(res) => Some(res.0)
    else match EnsuredPath(root, path, ns, SetText(value))
      case None => None
      case Some(res) => Some(res.0)
  }

  /** `e + "/@" + a` splits back into `e` and the attribute name. */
  lemma {:induction false} SplitOnAttr(e: string, rest: string)
    requires !Contains(e, "/@")
    ensures SplitOn(e + "/@" + rest, "/@") == [e] + SplitOn(rest, "/@")
  {
    var s := e + "/@" + rest;
    if e == [] {
      assert s == "/@" + rest;
      assert StartsWith(s, "/@");
      assert s[2..] == rest;
    } else {
      assert !StartsWith(s, "/@") by {
        if |e| >= 2 {
          assert s[..2] == e[..2];
        } else {
          assert s[1] == '/';
        }
      }
      assert !Contains(e[1..], "/@");
      SplitOnAttr(e[1..], rest);
      assert s[1..] == e[1..] + "/@" + rest;
      assert [e[0]] + e[1..] == e;
    }
  }

  /** An attribute path writes the attribute on the element path before it. */
  lemma {:induction false} WritePathAttribute(root: Node, e: string, a: string, value: string, ns: string)
    requires !Contains(e, "/@") && !Contains(a, "/@")
    ensures WritePath(root, e + "/@" + a, value, ns)
      == match EnsuredPath(root, e, ns, SetAttr(a, value))
         case None => None
         case Some(res) => Some(res.0)
  {
    SplitOnAttr(e, a);
    SplitOnAbsent(a, "/@");
    var s := e + "/@" + a;
    assert Contains(s, "/@") by {
      assert s[|e|..][..2] == "/@";
      ContainsSuffix(s, |e|, "/@");
    }
  }

  /** Writing the same value at the same path twice leaves the tree as
      the first write left it. */
  lemma {:induction false} WritePathIdem(root: Node, path: string, value: string, ns: string)
    requires WritePath(root, path, value, ns).Some?
    ensures WritePath(WritePath(root, path, value, ns).value, path, value, ns) == WritePath(root, path, value, ns)
  {
    if Contains(path, "/@") {
      var ps := SplitOn(path, "/@");
      EnsureInIdem(root, Split(ps[0], '/')[1..], ns, SetAttr(ps[1], value));
    } else {
      EnsureInIdem(root, Split(path, '/')[1..], ns, SetText(value));
    }
  }

  /** The padding loop: `while len(elements) < index`, append a new child. */
  method PadChildren(children: seq<Node>, tag: string, index: int) returns (cs: seq<Node>)
    ensures cs == Padded(children, tag, index)
  {
    cs := children;
    var count := CountTag(children, tag);
    ghost var added: nat := 0;
    while count < index
      invariant cs == children + Blanks(tag, added)
      invariant count == CountTag(children, tag) + added
      invariant added <= if index > CountTag(children, tag) then index - CountTag(children, tag) else 0
      decreases index - count
    {
      assert cs + [Leaf(tag, "")] == children + (Blanks(tag, added) + [Leaf(tag, "")]);
      cs := cs + [Leaf(tag, "")];
      count := count + 1;
      added := added + 1;
    }
  }

  /** One iteration of the segment loop. */
  method EnterSegment(cur: Node, st: Step, ns: string) returns (r: Option<(Node, nat)>)
    ensures r == StepInto(cur, st, ns)
  {
    var t := NsTag(ns, st.name);
    match st
    case Plain(_) => {
      var found := FindChild(cur.children, t);
      if found.Some? {
        r := Some((cur, found.value));
      } else {
        r := Some((cur.(children := cur.children + [Leaf(t, "")]), |cur.children|));
      }
    }
    case Indexed(_, index) => {
      var cs := PadChildren(cur.children, t, index);
      var c := CountTag(cs, t);
      var k := if index >= 1 then index - 1 else c + index - 1;
      if 0 <= k < c {
        r := Some((cur.(children := cs), NthWithTag(cs, t, k)));
      } else {
        r := None;
      }
    }
  }

  /** `_ensure_element_path` over the segments after the first, then the
      write at the element it reaches. */
  method EnsureElementPath(cur: Node, segs: seq<string>, ns: string, act: Action) returns (r: Option<(Node, seq<nat>)>)
    decreases |segs|
    ensures r == EnsureIn(cur, segs, ns, act)
  {
    if segs == [] {
      return Some((Apply(cur, act), []));
    }
    var st := ParseStep(segs[0]);
    if st.None? {
      return None;
    }
    var entered := EnterSegment(cur, st.value, ns);
    if entered.None? {
      return None;
    }
    var (c1, pos) := entered.value;
    var below := EnsureElementPath(c1.children[pos], segs[1..], ns, act);
    if below.None? {
      return None;
    }
    var (child, addr) := below.value;
    r := Some((c1.(children := c1.children[pos := child]), [pos] + addr));
  }

  /** `_ensure_path_exists(root, path, value, ns_uri)`. */
  method EnsurePathExists(root: Node, path: string, value: string, ns: string) returns (r: Option<Node>)
    ensures r == WritePath(root, path, value, ns)
  {
    var res: Option<(Node, seq<nat>)>;
    if Contains(path, "/@") {
      var ps := SplitOn(path, "/@");
      if |ps| != 2 {
        return None;
      }
      res := EnsureElementPath(root, Split(ps[0], '/')[1..], ns, SetAttr(ps[1], value));
    } else {
      res := EnsureElementPath(root, Split(path, '/')[1..], ns, SetText(value));
    }
    r := if res.Some? then Some(res.value.0) else None;
  }
}
