/** The detail-line handling of the 2025-03-25 viewer: the CONAI manager,
    which finds the CONAI line by an exact description match and appends,
    removes or repositions it, and the viewer's own line operations, which
    count every DettaglioLinee (the CONAI line included) and keep the edits
    of each line in a dictionary keyed by line index. */
module LineViewer {
  import opened Wrappers
  import opened Text
  import opened XmlTree
  import opened LineKind
  import opened LineList
  import opened Modifications

  /** XPath string-value of an element: its text followed by the
      string-value and tail of each child, in document order. */
  function StringValue(n: Node): string
    decreases n, |n.children| + 1
  {
    n.text + ValueFrom(n, 0)
  }

  function ValueFrom(n: Node, i: nat): string
    requires i <= |n.children|
    decreases n, |n.children| - i
  {
    if i == |n.children| then "" else StringValue(n.children[i]) + n.children[i].tail + ValueFrom(n, i + 1)
  }

  lemma {:induction false} LeafValue(tag: string, text: string)
    ensures StringValue(Leaf(tag, text)) == text
  {
    assert ValueFrom(Leaf(tag, text), 0) == "";
  }

  /** The test `DettaglioLinee[Descrizione='CONTRIBUTO CONAI ASSOLTO']`: a
      detail line with some Descrizione child whose string-value is exactly
      the CONAI description (case-sensitive, whole string). */
  predicate IsExactConaiLine(n: Node)
  {
    IsLine(n) && HasExactDescription(n.children)
  }

  /** Some element of `cs` is a Descrizione whose string-value is exactly the
      CONAI description. */
  predicate HasExactDescription(cs: seq<Node>)
  {
    cs != [] && (IsExactDescription(cs[0]) || HasExactDescription(cs[1..]))
  }

  predicate IsExactDescription(c: Node)
  {
    c.tag == DescriptionTag && StringValue(c) == ConaiDescription
  }

  lemma {:induction false} HasExactDescriptionMeaning(cs: seq<Node>)
    ensures HasExactDescription(cs) <==> exists c :: 0 <= c < |cs| && IsExactDescription(cs[c])
  {
    if cs != [] {
      HasExactDescriptionMeaning(cs[1..]);
      if HasExactDescription(cs[1..]) {
        var c :| 0 <= c < |cs[1..]| && IsExactDescription(cs[1..][c]);
        assert IsExactDescription(cs[c + 1]);
      }
      if exists c :: 0 <= c < |cs| && IsExactDescription(cs[c]) {
        var c :| 0 <= c < |cs| && IsExactDescription(cs[c]);
        if c > 0 { assert cs[1..][c - 1] == cs[c]; }
      }
    }
  }

  /** `has_conai`: the position of the first CONAI line in document order. */
  function FirstConai(body: seq<Node>): (r: Option<nat>)
    ensures r.Some? ==> r.value < |body| && IsExactConaiLine(body[r.value])
    ensures r.Some? ==> forall q :: 0 <= q < r.value ==> !IsExactConaiLine(body[q])
    ensures r.None? <==> forall q :: 0 <= q < |body| ==> !IsExactConaiLine(body[q])
  {
    if body == [] then None
    else if IsExactConaiLine(body[0]) then Some(0)
    else match FirstConai(body[1..])
      case None => None
      case Some(q) => Some(q + 1)
  }

  /** The CONAI line `add_conai` appends, numbered `number`. */
  function NewConaiLine(number: nat): Node
  {
    Node(LineTag, "", "", [], [
      Leaf(NumberTag, NatToString(number)), Leaf(DescriptionTag, ConaiDescription),
      Leaf("PrezzoUnitario", "0.0000000"), Leaf("PrezzoTotale", "0.0000000"),
      Leaf("AliquotaIVA", "22.00")])
  }

  /** The normal line `add_normal_line` creates, numbered `number`. */
  function NewNormalLine(number: nat): Node
  {
    Node(LineTag, "", "", [], [
      Leaf(NumberTag, NatToString(number)), Leaf(DescriptionTag, "Nuovo articolo"),
      Leaf("Quantita", "1.0000000"), Leaf("UnitaMisura", "NR"),
      Leaf("PrezzoUnitario", "0.0000000"), Leaf("PrezzoTotale", "0.0000000"),
      Leaf("AliquotaIVA", "22.00")])
  }

  lemma {:induction false} NewConaiLineIsConai(number: nat)
    ensures IsLine(NewConaiLine(number)) && IsExactConaiLine(NewConaiLine(number))
  {
    var n := NewConaiLine(number);
    LeafValue(DescriptionTag, ConaiDescription);
    assert IsExactDescription(n.children[1]);
    HasExactDescriptionMeaning(n.children);
  }

  /** The new normal line is never taken for the CONAI line. */
  lemma {:induction false} NewNormalLineIsNotConai(number: nat)
    ensures IsLine(NewNormalLine(number)) && !IsExactConaiLine(NewNormalLine(number))
  {
    var n := NewNormalLine(number);
    HasExactDescriptionMeaning(n.children);
    forall c | 0 <= c < |n.children| && n.children[c].tag == DescriptionTag
      ensures !IsExactDescription(n.children[c])
    {
      if c == 1 {
        LeafValue(DescriptionTag, "Nuovo articolo");
        assert |"Nuovo articolo"| != |ConaiDescription|;
      }
    }
  }

  /** The detail lines themselves, in document order (`./DettaglioLinee`). */
  function Lines(body: seq<Node>): (ls: seq<Node>)
    ensures |ls| == LineCount(body)
    ensures forall i :: 0 <= i < |ls| ==> IsLine(ls[i])
  {
    if body == [] then []
    else
      var last := body[|body| - 1];
      Lines(body[..|body| - 1]) + (if IsLine(last) then [last] else [])
  }

  lemma {:induction false} LinesConcat(a: seq<Node>, b: seq<Node>)
    ensures Lines(a + b) == Lines(a) + Lines(b)
  {
    if b == [] {
      assert a + b == a;
    } else {
      assert (a + b)[..|a + b| - 1] == a + b[..|b| - 1];
      LinesConcat(a, b[..|b| - 1]);
    }
  }

  lemma {:induction false} LinesSingle(x: Node)
    ensures Lines([x]) == if IsLine(x) then [x] else []
  {
    assert [x][..0] == [];
  }

  /** `linee[k]`: the position among the children of the k-th detail line. */
  function LinePosition(body: seq<Node>, k: nat): (p: nat)
    requires k < LineCount(body)
    ensures p < |body| && IsLine(body[p]) && LineCount(body[..p]) == k
  {
    var pre := body[..|body| - 1];
    if IsLine(body[|body| - 1]) && k == LineCount(pre) then |pre|
    else
      var p := LinePosition(pre, k);
      assert pre[..p] == body[..p];
      p
  }

  lemma {:induction false} LinesSnoc(a: seq<Node>, x: Node)
    ensures Lines(a + [x]) == Lines(a) + Lines([x])
  {
    SnocPrefix(a, x);
    LinesSingle(x);
  }

  lemma {:induction false} LineSplit(body: seq<Node>, p: nat)
    requires p < |body|
    ensures Lines(body) == Lines(body[..p]) + Lines([body[p]]) + Lines(body[p + 1..])
  {
    var a, x, b := body[..p], body[p], body[p + 1..];
    SplitAt(body, p);
    LinesConcat(a + [x], b);
    LinesSnoc(a, x);
  }

  /** The line at `LinePosition(body, k)` is `linee[k]`. */
  lemma {:induction false} LinePositionIsLine(body: seq<Node>, k: nat)
    requires k < LineCount(body)
    ensures Lines(body)[k] == body[LinePosition(body, k)]
  {
    var p := LinePosition(body, k);
    LineSplit(body, p);
    LinesSingle(body[p]);
  }

  /** Removing `linee[k]` removes exactly that line from the list of lines. */
  lemma {:induction false} LinesRemove(body: seq<Node>, k: nat)
    requires k < LineCount(body)
    ensures Lines(RemoveAt(body, LinePosition(body, k))) == RemoveAt(Lines(body), k)
  {
    var p := LinePosition(body, k);
    var a, x, b := body[..p], body[p], body[p + 1..];
    LineSplit(body, p);
    LinesSingle(x);
    SplitAt(body, p);
    LinesConcat(a, b);
    RemoveMiddle(Lines(a), x, Lines(b));
  }

  /** The number of detail lines after inserting or removing one child. */
  lemma {:induction false} LineCountInsert(body: seq<Node>, p: nat, x: Node)
    requires p <= |body|
    ensures LineCount(InsertAt(body, p, x)) == LineCount(body) + (if IsLine(x) then 1 else 0)
  {
    var a, b := body[..p], body[p..];
    CutAt(body, p, x);
    SnocPrefix(a, x);
    LineCountConcat(a + [x], b);
    LineCountConcat(a, b);
  }

  lemma {:induction false} LineCountRemove(body: seq<Node>, p: nat)
    requires p < |body|
    ensures LineCount(RemoveAt(body, p)) + (if IsLine(body[p]) then 1 else 0) == LineCount(body)
  {
    var a, x, b := body[..p], body[p], body[p + 1..];
    SplitAt(body, p);
    SnocPrefix(a, x);
    LineCountConcat(a + [x], b);
    LineCountConcat(a, b);
  }

  /** A detail line at `p` means there is at least one more line than before it. */
  lemma {:induction false} LineCountAt(body: seq<Node>, p: nat)
    requires p < |body| && IsLine(body[p])
    ensures LineCount(body[..p]) < LineCount(body)
  {
    LineSplit(body, p);
    LinesSingle(body[p]);
  }

  /** `total_lines` counts the detail lines, the CONAI line included. */
  predicate Counted(body: seq<Node>, totalLines: int)
  {
    totalLines == LineCount(body)
  }

  /** No detail line follows position `c`. */
  predicate NoLineAfter(body: seq<Node>, c: nat)
  {
    forall q :: c < q < |body| ==> !IsLine(body[q])
  }

  /** There is at most one CONAI line. */
  predicate SingleConai(body: seq<Node>)
  {
    forall i, j :: 0 <= i < |body| && 0 <= j < |body| && IsExactConaiLine(body[i]) && IsExactConaiLine(body[j]) ==> i == j
  }

  // ----- ensure_conai_position -----

  /** Where the first DatiRiepilogo sits once the child at `c` is detached. */
  function ShiftedPast(s: nat, c: nat): nat
  {
    if s > c then s - 1 else s
  }

  /** `ensure_conai_position` on the children: with a CONAI line and a
      DatiRiepilogo, the first CONAI line is detached and inserted again
      right before that first DatiRiepilogo; otherwise nothing changes. */
  function ConaiRepositioned(body: seq<Node>): (r: seq<Node>)
    ensures |r| == |body|
  {
    match FirstConai(body)
      case None => body
      case Some(c) =>
        match FindChild(body, SummaryTag)
          case None => body
          case Some(s) => InsertAt(RemoveAt(body, c), ShiftedPast(s, c), body[c])
  }

  /** After repositioning, the CONAI line stands immediately before the first
      DatiRiepilogo, and the other children keep their relative order. */
  lemma {:induction false} ConaiRepositionedMeaning(body: seq<Node>)
    requires FirstConai(body).Some? && FindChild(body, SummaryTag).Some?
    ensures var c := FirstConai(body).value;
      var q := ShiftedPast(FindChild(body, SummaryTag).value, c);
      var r := ConaiRepositioned(body);
      q + 1 < |r| && r[q] == body[c] && r[q + 1].tag == SummaryTag
      && (forall j :: 0 <= j < q ==> r[j].tag != SummaryTag)
      && RemoveAt(r, q) == RemoveAt(body, c)
  {
    var c := FirstConai(body).value;
    var s := FindChild(body, SummaryTag).value;
    var rest := RemoveAt(body, c);
    var q := ShiftedPast(s, c);
    var r := InsertAt(rest, q, body[c]);
    assert s != c;
    assert rest[q] == body[s];
    forall j | 0 <= j < q ensures r[j].tag != SummaryTag {
      assert r[j] == rest[j];
      if j < c { assert rest[j] == body[j]; } else { assert rest[j] == body[j + 1]; }
    }
    assert RemoveAt(r, q) == rest;
  }

  /** Repositioning changes neither the number of detail lines nor, when
      nothing needs moving, the children. */
  lemma {:induction false} ConaiRepositionedCount(body: seq<Node>)
    ensures LineCount(ConaiRepositioned(body)) == LineCount(body)
    ensures FirstConai(body).None? || FindChild(body, SummaryTag).None? ==> ConaiRepositioned(body) == body
  {
    match FirstConai(body)
      case None =>
      case Some(c) =>
        match FindChild(body, SummaryTag)
          case None =>
          case Some(s) =>
            LineCountRemove(body, c);
            LineCountInsert(RemoveAt(body, c), ShiftedPast(s, c), body[c]);
  }

  /** With a single CONAI line, repositioning a second time changes nothing. */
  lemma {:induction false} ConaiRepositionedIdempotent(body: seq<Node>)
    requires SingleConai(body)
    ensures ConaiRepositioned(ConaiRepositioned(body)) == ConaiRepositioned(body)
  {
    if FirstConai(body).Some? && FindChild(body, SummaryTag).Some? {
      var c := FirstConai(body).value;
      var q := ShiftedPast(FindChild(body, SummaryTag).value, c);
      var r := ConaiRepositioned(body);
      ConaiRepositionedMeaning(body);
      var rest := RemoveAt(body, c);
      assert r == InsertAt(rest, q, body[c]);
      forall j | 0 <= j < |r| && j != q ensures !IsExactConaiLine(r[j]) {
        var j1 := if j < q then j else j - 1;
        InsertAtIndex(rest, q, body[c], j);
        RemoveAtIndex(body, c, j1);
      }
      assert FirstConai(r) == Some(q);
      FindChildSummaryAt(r, q + 1);
      assert ShiftedPast(q + 1, q) == q;
      InsertRemove(r, q);
    }
  }

  /** `find` returns the first child with the tag. */
  lemma {:induction false} FindChildSummaryAt(body: seq<Node>, s: nat)
    requires s < |body| && body[s].tag == SummaryTag
    requires forall j :: 0 <= j < s ==> body[j].tag != SummaryTag
    ensures FindChild(body, SummaryTag) == Some(s)
  {
  }

  // ----- the renumbering pass of delete_line -----

  /** A line's NumeroLinea text set to `str(k)`, when it has a NumeroLinea
      child; a line without one is left as it is. */
  function SetExistingNumber(n: Node, k: nat): Node
  {
    match FindChild(n.children, NumberTag)
      case None => n
      case Some(c) => n.(children := n.children[c := n.children[c].(text := NatToString(k))])
  }

  lemma {:induction false} SetExistingNumberEffect(n: Node, k: nat)
    ensures SetExistingNumber(n, k).tag == n.tag
    ensures NumberOf(SetExistingNumber(n, k)) == if NumberOf(n).Some? then Some(NatToString(k)) else None
    ensures IsExactConaiLine(SetExistingNumber(n, k)) == IsExactConaiLine(n)
  {
    var r := SetExistingNumber(n, k);
    match FindChild(n.children, NumberTag)
      case None =>
      case Some(c) =>
        FindChildSameTags(r.children, n.children, NumberTag);
        TagsDistinct();
        forall j | 0 <= j < |n.children| ensures IsExactDescription(r.children[j]) == IsExactDescription(n.children[j]) {
          if j == c { assert r.children[j].tag == NumberTag; }
        }
        HasExactDescriptionMeaning(r.children);
        HasExactDescriptionMeaning(n.children);
  }

  /** Every detail line, counted from 1 in document order, gets its count as
      NumeroLinea text; lines without NumeroLinea and other children stay. */
  function NumberedExisting(body: seq<Node>): (r: seq<Node>)
    ensures |r| == |body|
  {
    if body == [] then []
    else
      var pre := body[..|body| - 1];
      var last := body[|body| - 1];
      NumberedExisting(pre) + [if IsLine(last) then SetExistingNumber(last, LineCount(pre) + 1) else last]
  }

  lemma {:induction false} NumberedExistingAt(body: seq<Node>, i: nat)
    requires i < |body|
    ensures NumberedExisting(body)[i] == if IsLine(body[i]) then SetExistingNumber(body[i], LineCount(body[..i]) + 1) else body[i]
  {
    var pre := body[..|body| - 1];
    if i < |pre| {
      NumberedExistingAt(pre, i);
      assert pre[..i] == body[..i];
    }
  }

  /** The number of detail lines only depends on the tags. */
  lemma {:induction false} LineCountSameTags(a: seq<Node>, b: seq<Node>)
    requires |a| == |b| && forall i :: 0 <= i < |a| ==> a[i].tag == b[i].tag
    ensures LineCount(a) == LineCount(b)
  {
    if a != [] {
      LineCountSameTags(a[..|a| - 1], b[..|b| - 1]);
    }
  }

  /** `has_conai` gives the same answer on children that agree on which are CONAI lines. */
  lemma {:induction false} FirstConaiSame(a: seq<Node>, b: seq<Node>)
    requires |a| == |b| && forall i :: 0 <= i < |a| ==> IsExactConaiLine(a[i]) == IsExactConaiLine(b[i])
    ensures FirstConai(a) == FirstConai(b)
  {
    match FirstConai(a)
      case Some(p) => FirstConaiAt(b, p);
      case None => assert forall q :: 0 <= q < |b| ==> !IsExactConaiLine(b[q]);
  }

  /** `x` is line `n` with its NumeroLinea, if any, set to `str(k)`. */
  predicate NumberedAs(x: Node, n: Node, k: nat)
  {
    NumberOf(x) == if NumberOf(n).Some? then Some(NatToString(k)) else None
  }

  /** The renumbering pass on the child at position `i`: a detail line gets
      its 1-based rank among the lines as number when it has a NumeroLinea,
      keeps its tag and stays CONAI or not; any other child is left alone. */
  lemma {:induction false} NumberedExistingPointwise(body: seq<Node>, i: nat)
    requires i < |body|
    ensures NumberedExisting(body)[i].tag == body[i].tag
    ensures IsExactConaiLine(NumberedExisting(body)[i]) == IsExactConaiLine(body[i])
    ensures !IsLine(body[i]) ==> NumberedExisting(body)[i] == body[i]
    ensures IsLine(body[i]) ==>
              NumberedAs(NumberedExisting(body)[i], body[i], LineCount(body[..i]) + 1)
  {
    var x := NumberedExisting(body)[i];
    NumberedExistingAt(body, i);
    if IsLine(body[i]) {
      var k := LineCount(body[..i]) + 1;
      assert x == SetExistingNumber(body[i], k);
      SetExistingNumberEffect(body[i], k);
    }
  }

  /** The renumbering pass leaves alone what the CONAI manager looks at:
      the other children, the line count, the first CONAI line and the first
      DatiRiepilogo. */
  lemma {:induction false} NumberedExistingMeaning(body: seq<Node>)
    ensures forall i :: 0 <= i < |body| && !IsLine(body[i]) ==> NumberedExisting(body)[i] == body[i]
    ensures LineCount(NumberedExisting(body)) == LineCount(body)
    ensures FirstConai(NumberedExisting(body)) == FirstConai(body)
    ensures FindChild(NumberedExisting(body), SummaryTag) == FindChild(body, SummaryTag)
  {
    var r := NumberedExisting(body);
    forall i | 0 <= i < |body|
      ensures r[i].tag == body[i].tag && IsExactConaiLine(r[i]) == IsExactConaiLine(body[i])
      ensures !IsLine(body[i]) ==> r[i] == body[i]
    {
      NumberedExistingPointwise(body, i);
    }
    LineCountSameTags(r, body);
    FirstConaiSame(r, body);
    FindChildSameTags(r, body, SummaryTag);
  }

  /** Rekeying by the deleted index keeps every line's edits with that line:
      after deleting `linee[d]`, line `j` is the old line `Source(j, d)` and
      has that line's entry, if it had one. */
  lemma {:induction false} EditsFollowLines<V>(body: seq<Node>, m: map<nat, V>, d: nat)
    requires d < LineCount(body)
    ensures var after := RemoveAt(body, LinePosition(body, d));
      var r := Rekeyed(m, d);
      LineCount(after) == LineCount(body) - 1
      && forall j: nat :: j < LineCount(after) ==>
           Lines(after)[j] == Lines(body)[Source(j, d)]
           && (j in r <==> Source(j, d) in m)
           && (j in r ==> r[j] == m[Source(j, d)])
  {
    var after := RemoveAt(body, LinePosition(body, d));
    LinesRemove(body, d);
    RekeyedMeaning(m, d);
    forall j: nat | j < LineCount(after) ensures Lines(after)[j] == Lines(body)[Source(j, d)] {
      RemoveAtIndex(Lines(body), d, j);
    }
  }

  // ----- add_conai, remove_conai and add_normal_line on the children -----

  /** The index stays on a line whenever there is one. */
  predicate IndexInRange(index: nat, totalLines: int)
  {
    totalLines <= 0 || index < totalLines
  }

  /** Appending a CONAI line where there was none makes it the CONAI line. */
  lemma {:induction false} AppendConai(body: seq<Node>, number: nat)
    requires FirstConai(body).None?
    ensures FirstConai(body + [NewConaiLine(number)]) == Some(|body|)
    ensures LineCount(body + [NewConaiLine(number)]) == LineCount(body) + 1
  {
    var x := NewConaiLine(number);
    NewConaiLineIsConai(number);
    assert FirstConai(body + [x]) == Some(|body|) by {
      forall q | 0 <= q < |body| ensures !IsExactConaiLine((body + [x])[q]) {
        assert (body + [x])[q] == body[q];
      }
      FirstConaiAt(body + [x], |body|);
    }
    SnocPrefix(body, x);
  }

  /** The first CONAI line is the one at `p` when none comes before it. */
  lemma {:induction false} FirstConaiAt(body: seq<Node>, p: nat)
    requires p < |body| && IsExactConaiLine(body[p])
    requires forall q :: 0 <= q < p ==> !IsExactConaiLine(body[q])
    ensures FirstConai(body) == Some(p)
  {
    match FirstConai(body)
      case None =>
      case Some(v) => assert !(v < p) && !(p < v);
  }

  /** No child is a detail line. */
  lemma {:induction false} LinesEmpty(s: seq<Node>)
    requires forall q :: 0 <= q < |s| ==> !IsLine(s[q])
    ensures Lines(s) == []
  {
    if s != [] {
      LinesEmpty(s[..|s| - 1]);
    }
  }

  /** Where `add_normal_line` puts the new line when there is no CONAI line:
      at the end, as the last detail line, and there is still no CONAI line. */
  lemma {:induction false} NormalLineAppended(body: seq<Node>, x: Node)
    requires IsLine(x) && !IsExactConaiLine(x) && FirstConai(body).None?
    ensures LineCount(body + [x]) == LineCount(body) + 1
    ensures Lines(body + [x])[LineCount(body)] == x
    ensures FirstConai(body + [x]).None?
  {
    LinesSnoc(body, x);
    LinesSingle(x);
    NoConaiAppended(body, x);
  }

  lemma {:induction false} NoConaiAppended(body: seq<Node>, x: Node)
    requires !IsExactConaiLine(x) && FirstConai(body).None?
    ensures FirstConai(body + [x]).None?
  {
    forall q | 0 <= q < |body + [x]| ensures !IsExactConaiLine((body + [x])[q]) {
      if q < |body| { assert (body + [x])[q] == body[q]; }
    }
  }

  /** The lines after inserting a detail line at position `p`. */
  lemma {:induction false} LinesInsert(body: seq<Node>, p: nat, x: Node)
    requires p <= |body| && IsLine(x)
    ensures Lines(InsertAt(body, p, x)) == Lines(body[..p]) + [x] + Lines(body[p..])
  {
    var a, b := body[..p], body[p..];
    CutAt(body, p, x);
    LinesConcat(a + [x], b);
    LinesSnoc(a, x);
    LinesSingle(x);
  }

  /** When no detail line follows the line at `c`, it is the last line. */
  lemma {:induction false} LastLine(body: seq<Node>, c: nat)
    requires c < |body| && IsLine(body[c]) && NoLineAfter(body, c)
    ensures LineCount(body[..c]) == LineCount(body) - 1
  {
    var b := body[c + 1..];
    LineSplit(body, c);
    LinesSingle(body[c]);
    assert forall q :: 0 <= q < |b| ==> b[q] == body[c + 1 + q];
    LinesEmpty(b);
  }

  /** Inserting a line that is not a CONAI line right before the first CONAI
      line moves that line up by one and leaves it the first. */
  lemma {:induction false} ConaiAfterInsert(body: seq<Node>, c: nat, x: Node)
    requires !IsExactConaiLine(x) && FirstConai(body) == Some(c)
    ensures FirstConai(InsertAt(body, c, x)) == Some(c + 1)
  {
    var nb := InsertAt(body, c, x);
    forall q | 0 <= q < c + 1 ensures !IsExactConaiLine(nb[q]) {
      InsertAtIndex(body, c, x, q);
    }
    InsertAtIndex(body, c, x, c + 1);
    FirstConaiAt(nb, c + 1);
  }

  /** Where `add_normal_line` puts the new line when there is a CONAI line at
      `c`: right before it, counted; when no detail line follows the CONAI
      line, the new line is the last but one. */
  lemma {:induction false} NormalLineBeforeConai(body: seq<Node>, c: nat, x: Node)
    requires IsLine(x) && c < |body| && IsLine(body[c])
    ensures LineCount(body) >= 1
    ensures LineCount(InsertAt(body, c, x)) == LineCount(body) + 1
    ensures NoLineAfter(body, c) ==> Lines(InsertAt(body, c, x))[LineCount(body) - 1] == x
  {
    LineCountAt(body, c);
    LineCountInsert(body, c, x);
    if NoLineAfter(body, c) {
      LinesInsert(body, c, x);
      LastLine(body, c);
    }
  }

  /** Moving the line at `c` right before the DatiRiepilogo at `s` makes it
      the last line when no line follows that DatiRiepilogo. */
  lemma {:induction false} MovedLineIsLast(body: seq<Node>, c: nat, s: nat)
    requires c < |body| && IsLine(body[c]) && s < |body| && body[s].tag == SummaryTag
    requires forall p :: s < p < |body| ==> !IsLine(body[p])
    ensures NoLineAfter(InsertAt(RemoveAt(body, c), ShiftedPast(s, c), body[c]), ShiftedPast(s, c))
  {
    var q := ShiftedPast(s, c);
    var rest := RemoveAt(body, c);
    var r := InsertAt(rest, q, body[c]);
    TagsDistinct();
    assert c < s;
    forall j | q < j < |r| ensures !IsLine(r[j]) {
      InsertAtIndex(rest, q, body[c], j);
      RemoveAtIndex(body, c, j - 1);
      assert r[j] == body[j] && s <= j;
    }
  }

  /** When no detail line follows the first DatiRiepilogo, repositioning
      leaves the CONAI line as the last detail line. */
  lemma {:induction false} RepositionedConaiIsLast(body: seq<Node>)
    requires FirstConai(body).Some? && FindChild(body, SummaryTag).Some?
    requires forall p :: FindChild(body, SummaryTag).value < p < |body| ==> !IsLine(body[p])
    ensures NoLineAfter(ConaiRepositioned(body), ShiftedPast(FindChild(body, SummaryTag).value, FirstConai(body).value))
  {
    var c := FirstConai(body).value;
    var s := FindChild(body, SummaryTag).value;
    ConaiRepositionedMoves(body, c, s);
    MovedLineIsLast(body, c, s);
  }

  /** With both a CONAI line and a DatiRiepilogo, repositioning moves the line. */
  lemma {:induction false} ConaiRepositionedMoves(body: seq<Node>, c: nat, s: nat)
    requires FirstConai(body) == Some(c) && FindChild(body, SummaryTag) == Some(s)
    ensures c < |body| && s < |body| && IsLine(body[c]) && body[s].tag == SummaryTag
    ensures ConaiRepositioned(body) == InsertAt(RemoveAt(body, c), ShiftedPast(s, c), body[c])
  {
  }

  /** The children once `add_normal_line` has added a line numbered one
      past the line count: right before the first CONAI line, or appended. */
  function WithNormalLine(body: seq<Node>): (r: seq<Node>)
  {
    var line := NewNormalLine(LineCount(body) + 1);
    match FirstConai(body)
      case Some(c) => InsertAt(body, c, line)
      case None => body + [line]
  }

  /** The line `add_normal_line` makes current: the one before the CONAI
      line when there is one, otherwise the new last line. */
  function NormalLineIndex(body: seq<Node>): int
  {
    if FirstConai(body).Some? then LineCount(body) - 1 else LineCount(body)
  }

  /** Without a CONAI line the new line is appended: it is counted, it is
      the line the index designates and there is still no CONAI line. */
  lemma {:induction false} WithNormalLineAppends(body: seq<Node>)
    requires FirstConai(body).None?
    ensures LineCount(WithNormalLine(body)) == LineCount(body) + 1
    ensures NormalLineIndex(body) == LineCount(body)
    ensures FirstConai(WithNormalLine(body)).None?
    ensures Lines(WithNormalLine(body))[NormalLineIndex(body)] == NewNormalLine(LineCount(body) + 1)
  {
    var line := NewNormalLine(LineCount(body) + 1);
    NewNormalLineIsNotConai(LineCount(body) + 1);
    NormalLineAppended(body, line);
  }

  /** With a CONAI line at `c` the new line goes right before it: it is
      counted, the CONAI line moves up by one and stays the first, and when no
      line follows the CONAI line the new line is the one the index
      designates. */
  lemma {:induction false} WithNormalLineBeforeConai(body: seq<Node>, c: nat)
    requires FirstConai(body) == Some(c)
    ensures LineCount(WithNormalLine(body)) == LineCount(body) + 1
    ensures 0 <= NormalLineIndex(body) == LineCount(body) - 1
    ensures FirstConai(WithNormalLine(body)) == Some(c + 1)
    ensures NoLineAfter(body, c) ==>
      Lines(WithNormalLine(body))[NormalLineIndex(body)] == NewNormalLine(LineCount(body) + 1)
  {
    var line := NewNormalLine(LineCount(body) + 1);
    NewNormalLineIsNotConai(LineCount(body) + 1);
    assert WithNormalLine(body) == InsertAt(body, c, line);
    ConaiAfterInsert(body, c, line);
    NormalLineBeforeConai(body, c, line);
  }

  /** The new line is counted and the index designates a line. */
  lemma {:induction false} WithNormalLineCount(body: seq<Node>)
    ensures LineCount(WithNormalLine(body)) == LineCount(body) + 1
    ensures 0 <= NormalLineIndex(body) < LineCount(WithNormalLine(body))
  {
    match FirstConai(body)
      case Some(c) => WithNormalLineBeforeConai(body, c);
      case None => WithNormalLineAppends(body);
  }

  /** What `delete_line` reports. */
  datatype DeleteOutcome =
    | Refused  // there is at most one line: a warning, nothing changes
    | Failed   // `linee[current_line_index]` is out of range: the error is caught, nothing changes
    | Deleted

  /** `ConaiManager`: finds, appends, removes and repositions the CONAI line
      among the children of the viewer it belongs to. `conaiLine` is the
      CONAI line it handled last, which nothing else reads. */
  class ConaiManager {
    const viewer: FatturaViewer
    var conaiLine: Option<Node>

    constructor (viewer: FatturaViewer)
      ensures this.viewer == viewer && conaiLine.None?
    {
      this.viewer := viewer;
      conaiLine := None;
    }

    /** `add_conai`: nothing but recording the line when there is a CONAI
        line; otherwise a CONAI line numbered one past the line count is
        appended as the last child and counted. */
    method AddConai()
      modifies this`conaiLine, viewer`body, viewer`totalLines
      ensures FirstConai(old(viewer.body)).Some? ==>
        viewer.body == old(viewer.body) && viewer.totalLines == old(viewer.totalLines)
      ensures FirstConai(old(viewer.body)).None? ==>
        viewer.body == old(viewer.body) + [NewConaiLine(LineCount(old(viewer.body)) + 1)]
        && viewer.totalLines == old(viewer.totalLines) + 1
      ensures FirstConai(viewer.body).Some?
      ensures conaiLine == Some(viewer.body[FirstConai(viewer.body).value])
      ensures old(Counted(viewer.body, viewer.totalLines)) ==> Counted(viewer.body, viewer.totalLines)
    {
      var existing := FirstConai(viewer.body);
      if existing.Some? {
        conaiLine := Some(viewer.body[existing.value]);
        return;
      }
      var num := LineCount(viewer.body);
      var line := NewConaiLine(num + 1);
      AppendConai(viewer.body, num + 1);
      viewer.body := viewer.body + [line];
      conaiLine := Some(line);
      viewer.totalLines := viewer.totalLines + 1;
    }

    /** `remove_conai`: nothing when there is no CONAI line; otherwise the
        first CONAI line is removed and uncounted. */
    method RemoveConai()
      modifies this`conaiLine, viewer`body, viewer`totalLines
      ensures FirstConai(old(viewer.body)).None? ==>
        viewer.body == old(viewer.body) && viewer.totalLines == old(viewer.totalLines) && conaiLine == old(conaiLine)
      ensures FirstConai(old(viewer.body)).Some? ==>
        viewer.body == RemoveAt(old(viewer.body), FirstConai(old(viewer.body)).value)
        && viewer.totalLines == old(viewer.totalLines) - 1 && conaiLine.None?
      ensures old(Counted(viewer.body, viewer.totalLines)) ==> Counted(viewer.body, viewer.totalLines)
    {
      var existing := FirstConai(viewer.body);
      if existing.None? {
        return;
      }
      LineCountRemove(viewer.body, existing.value);
      viewer.body := RemoveAt(viewer.body, existing.value);
      conaiLine := None;
      viewer.totalLines := viewer.totalLines - 1;
    }

    /** `ensure_conai_position`: the first CONAI line is moved right before
        the first DatiRiepilogo, when there are both. */
    method EnsureConaiPosition()
      modifies viewer`body
      ensures viewer.body == ConaiRepositioned(old(viewer.body))
      ensures LineCount(viewer.body) == LineCount(old(viewer.body))
    {
      ConaiRepositionedCount(viewer.body);
      var existing := FirstConai(viewer.body);
      if existing.None? {
        return;
      }
      var summary := FindChild(viewer.body, SummaryTag);
      if summary.None? {
        return;
      }
      var c := existing.value;
      var line := viewer.body[c];
      viewer.body := RemoveAt(viewer.body, c);
      viewer.body := InsertAt(viewer.body, ShiftedPast(summary.value, c), line);
    }
  }

  /** The part of `FatturaViewer` that edits the detail lines: the children
      of DatiBeniServizi, `total_lines`, the current line (from 0), the
      pending edits of each line (line index to field path to value) and the
      CONAI manager. */
  class FatturaViewer {
    var body: seq<Node>
    var totalLines: int
    var currentLineIndex: nat
    var lineModifications: map<nat, map<string, string>>
    var conaiManager: ConaiManager?

    /** The state once an invoice is opened for editing: every detail line
        counted, the first line current, no pending edits. */
    constructor (children: seq<Node>)
      ensures body == children && totalLines == LineCount(children) && currentLineIndex == 0
      ensures lineModifications == map[]
      ensures conaiManager != null && conaiManager.viewer == this && conaiManager.conaiLine.None?
      ensures Counted(body, totalLines) && IndexInRange(currentLineIndex, totalLines)
    {
      body := children;
      totalLines := LineCount(children);
      currentLineIndex := 0;
      lineModifications := map[];
      conaiManager := null;
      new;
      conaiManager := new ConaiManager(this);
    }

    /** `save_current_line_data`: the edit fields of the current line become
        its pending edits, when it has any. */
    method SaveCurrentLineData(fields: map<string, string>)
      modifies this`lineModifications
      ensures lineModifications == Saved(old(lineModifications), fields, currentLineIndex)
    {
      var lineData := CollectLineFields(fields, currentLineIndex + 1);
      if lineData != map[] {
        lineModifications := lineModifications[currentLineIndex := lineData];
      }
    }

    /** `prev_line`: unless on the first line, saves the current line and
        moves one line back. */
    method PrevLine(fields: map<string, string>)
      modifies this`currentLineIndex, this`lineModifications
      ensures old(currentLineIndex) > 0 ==>
        currentLineIndex == old(currentLineIndex) - 1
        && lineModifications == Saved(old(lineModifications), fields, old(currentLineIndex))
      ensures old(currentLineIndex) == 0 ==>
        currentLineIndex == 0 && lineModifications == old(lineModifications)
      ensures old(IndexInRange(currentLineIndex, totalLines)) ==> IndexInRange(currentLineIndex, totalLines)
    {
      if currentLineIndex > 0 {
        SaveCurrentLineData(fields);
        currentLineIndex := currentLineIndex - 1;
      }
    }

    /** `next_line`: unless on the last line, saves the current line and
        moves one line on. */
    method NextLine(fields: map<string, string>)
      modifies this`currentLineIndex, this`lineModifications
      ensures old(currentLineIndex) < totalLines - 1 ==>
        currentLineIndex == old(currentLineIndex) + 1
        && lineModifications == Saved(old(lineModifications), fields, old(currentLineIndex))
      ensures old(currentLineIndex) >= totalLines - 1 ==>
        currentLineIndex == old(currentLineIndex) && lineModifications == old(lineModifications)
      ensures old(IndexInRange(currentLineIndex, totalLines)) ==> IndexInRange(currentLineIndex, totalLines)
    {
      if currentLineIndex < totalLines - 1 {
        SaveCurrentLineData(fields);
        currentLineIndex := currentLineIndex + 1;
      }
    }

    /** `add_normal_line`: saves the current line, then adds a new normal
        line as `WithNormalLine` says, counts it and makes it current. */
    method AddNormalLine(fields: map<string, string>)
      modifies this`body, this`totalLines, this`currentLineIndex, this`lineModifications
      ensures lineModifications == Saved(old(lineModifications), fields, old(currentLineIndex))
      ensures body == WithNormalLine(old(body)) && currentLineIndex == NormalLineIndex(old(body))
      ensures totalLines == old(totalLines) + 1
      ensures old(Counted(body, totalLines)) ==> Counted(body, totalLines) && IndexInRange(currentLineIndex, totalLines)
    {
      SaveCurrentLineData(fields);
      var b := body;
      var count := LineCount(b);
      var conai := FirstConai(b);
      var line := NewNormalLine(count + 1);
      WithNormalLineCount(b);
      if conai.Some? {
        body := InsertAt(b, conai.value, line);
        currentLineIndex := count - 1;
      } else {
        body := b + [line];
        currentLineIndex := count;
      }
      totalLines := totalLines + 1;
    }

    /** The renumbering loop of `delete_line`: the i-th detail line gets
        `str(i)` as NumeroLinea text, when it has a NumeroLinea. */
    method RenumberExistingLines()
      modifies this`body
      ensures body == NumberedExisting(old(body))
    {
      ghost var b0 := body;
      var b := body;
      var i := 0;
      var k := 0;
      while i < |b|
        invariant 0 <= i <= |b| && |b| == |b0|
        invariant forall q :: 0 <= q < i ==> b[q] == NumberedExisting(b0)[q]
        invariant forall q :: i <= q < |b| ==> b[q] == b0[q]
        invariant k == LineCount(b0[..i])
      {
        NumberedExistingAt(b0, i);
        LineCountStep(b0, i);
        if IsLine(b[i]) {
          k := k + 1;
          b := b[i := SetExistingNumber(b[i], k)];
        }
        i := i + 1;
      }
      SameElements(b, NumberedExisting(b0));
      body := b;
    }

    /** The removal and renumbering steps of `delete_line`: the `d`-th
        detail line leaves the children, one line fewer is counted, and the
        remaining lines are renumbered. */
    method RemoveLine(d: nat)
      requires d < LineCount(body)
      modifies this`body
      ensures body == NumberedExisting(RemoveAt(old(body), LinePosition(old(body), d)))
      ensures LineCount(body) == LineCount(old(body)) - 1
    {
      var p := LinePosition(body, d);
      LineCountRemove(body, p);
      body := RemoveAt(body, p);
      NumberedExistingMeaning(body);
      RenumberExistingLines();
    }

    /** The steps of `delete_line` once line `d` is known to exist: the
        `d`-th detail line is removed, the rest renumbered, the CONAI line
        moved back before the first DatiRiepilogo, the count decremented, the
        index clamped, and the pending edits rekeyed with the clamped index,
        in that order. */
    method DeleteAt(d: nat)
      requires conaiManager != null && conaiManager.viewer == this
      requires d < LineCount(body) && d == currentLineIndex
      modifies this`body, this`totalLines, this`currentLineIndex, this`lineModifications
      ensures body == ConaiRepositioned(NumberedExisting(RemoveAt(old(body), LinePosition(old(body), d))))
      ensures LineCount(body) == LineCount(old(body)) - 1
      ensures totalLines == old(totalLines) - 1
      ensures currentLineIndex == (if d < totalLines then d else if totalLines - 1 > 0 then totalLines - 1 else 0)
      ensures lineModifications == ModificationsAfterDeleteAsWritten(old(lineModifications), d, totalLines)
    {
      RemoveAndReposition(d);
      totalLines := totalLines - 1;
      if currentLineIndex >= totalLines {
        currentLineIndex := if totalLines - 1 > 0 then totalLines - 1 else 0;
      }
      RekeyModifications(currentLineIndex);
    }

    /** The pending edits are rebuilt as if line `c` had been deleted. */
    method RekeyModifications(c: nat)
      modifies this`lineModifications
      ensures lineModifications == Rekeyed(old(lineModifications), c)
    {
      lineModifications := RebuildModifications(lineModifications, c);
    }

    method RemoveAndReposition(d: nat)
      requires conaiManager != null && conaiManager.viewer == this
      requires d < LineCount(body)
      modifies this`body
      ensures body == ConaiRepositioned(NumberedExisting(RemoveAt(old(body), LinePosition(old(body), d))))
      ensures LineCount(body) == LineCount(old(body)) - 1
    {
      ghost var target := NumberedExisting(RemoveAt(body, LinePosition(body, d)));
      ghost var count := LineCount(body) - 1;
      RemoveLine(d);
      assert body == target && LineCount(body) == count;
      if FirstConai(body).Some? {
        conaiManager.EnsureConaiPosition();
      } else {
        ConaiRepositionedCount(target);
      }
    }

    /** `delete_line`: refused while there is at most one line; otherwise
        the current line is removed and uncounted, the remaining lines are
        renumbered, the CONAI line is moved back before the first
        DatiRiepilogo, the index is clamped to the last line, and the pending
        edits are rebuilt around the clamped index. That is the deleted
        line's index unless the last line was deleted; then the edits of the
        deleted line move onto the new last line, whose own are dropped. */
    method DeleteLine() returns (outcome: DeleteOutcome)
      requires conaiManager != null && conaiManager.viewer == this
      modifies this`body, this`totalLines, this`currentLineIndex, this`lineModifications
      ensures outcome == Refused <==> old(totalLines) <= 1
      ensures outcome == Failed <==> old(totalLines) > 1 && old(currentLineIndex) >= LineCount(old(body))
      ensures outcome != Deleted ==>
        body == old(body) && totalLines == old(totalLines)
        && currentLineIndex == old(currentLineIndex) && lineModifications == old(lineModifications)
      ensures outcome == Deleted ==>
        old(currentLineIndex) < LineCount(old(body))
        && body == ConaiRepositioned(NumberedExisting(RemoveAt(old(body), LinePosition(old(body), old(currentLineIndex)))))
        && totalLines == old(totalLines) - 1
        && currentLineIndex == (if old(currentLineIndex) < totalLines then old(currentLineIndex) else totalLines - 1)
        && lineModifications == ModificationsAfterDeleteAsWritten(old(lineModifications), old(currentLineIndex), totalLines)
      ensures outcome == Deleted && old(currentLineIndex) < totalLines ==>
        lineModifications == Rekeyed(old(lineModifications), old(currentLineIndex))
      ensures old(Counted(body, totalLines)) ==> Counted(body, totalLines)
      ensures outcome == Deleted ==> IndexInRange(currentLineIndex, totalLines)
    {
      if totalLines <= 1 {
        return Refused;
      }
      var deleted := currentLineIndex;
      if deleted >= LineCount(body) {
        return Failed;
      }
      DeleteAt(deleted);
      return Deleted;
    }
  }
}
