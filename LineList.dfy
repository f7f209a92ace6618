/** The children of DatiBeniServizi as the line editor sees them
    (FatturaPA blocks 2.2.1 DettaglioLinee and 2.2.2 DatiRiepilogo): which
    detail lines are normal, which one is the CONAI contribution line, the
    dense renumbering of NumeroLinea, and where new lines go. */
module LineList {
  import opened Wrappers
  import opened Text
  import opened XmlTree
  import opened Partition
  import opened LineKind

  /** The kind of every child, in document order. */
  function Kinds(body: seq<Node>): (ks: seq<Kind>)
    ensures |ks| == |body|
    ensures forall i :: 0 <= i < |body| ==> ks[i] == KindOf(body[i])
  {
    seq(|body|, i requires 0 <= i < |body| => KindOf(body[i]))
  }

  lemma {:induction false} KindsPrefix(body: seq<Node>, n: nat)
    requires n <= |body|
    ensures Kinds(body[..n]) == Kinds(body)[..n]
  {
  }

  lemma {:induction false} KindsInsert(body: seq<Node>, pos: nat, x: Node)
    requires pos <= |body|
    ensures Kinds(InsertAt(body, pos, x)) == InsertAt(Kinds(body), pos, KindOf(x))
  {
    var a := Kinds(InsertAt(body, pos, x));
    var b := InsertAt(Kinds(body), pos, KindOf(x));
    forall j | 0 <= j < |a| ensures a[j] == b[j] {
      InsertAtIndex(body, pos, x, j);
      InsertAtIndex(Kinds(body), pos, KindOf(x), j);
    }
    SameElements(a, b);
  }

  lemma {:induction false} KindsRemove(body: seq<Node>, p: nat)
    requires p < |body|
    ensures Kinds(RemoveAt(body, p)) == RemoveAt(Kinds(body), p)
  {
    var a := Kinds(RemoveAt(body, p));
    var b := RemoveAt(Kinds(body), p);
    forall j | 0 <= j < |a| ensures a[j] == b[j] {
      RemoveAtIndex(body, p, j);
      RemoveAtIndex(Kinds(body), p, j);
    }
    SameElements(a, b);
  }

  /** Positions of the detail lines that are not the CONAI line, in document
      order (the editor's `normal_lines`, as positions among the children). */
  function NormalPositions(body: seq<Node>): (ps: seq<nat>)
    ensures forall i :: 0 <= i < |ps| ==> ps[i] < |body|
  {
    Positions(Kinds(body), Normal)
  }

  /** The position of the CONAI line (the editor's `conai_line`). */
  function ConaiPosition(body: seq<Node>): (r: Option<nat>)
    ensures r.Some? ==> r.value < |body|
  {
    LastOf(Kinds(body), Conai)
  }

  /** The normal lines are exactly the lines failing the CONAI test, in order. */
  lemma {:induction false} NormalPositionsMeaning(body: seq<Node>)
    ensures forall p: nat :: p in NormalPositions(body) <==> p < |body| && IsNormalLine(body[p])
    ensures forall i, j :: 0 <= i < j < |NormalPositions(body)| ==> NormalPositions(body)[i] < NormalPositions(body)[j]
  {
  }

  /** The CONAI line is the last line passing the CONAI test. */
  lemma {:induction false} ConaiPositionMeaning(body: seq<Node>)
    ensures ConaiPosition(body).Some? ==> IsConaiLine(body[ConaiPosition(body).value])
    ensures ConaiPosition(body).Some? ==> forall j :: ConaiPosition(body).value < j < |body| ==> !IsConaiLine(body[j])
    ensures ConaiPosition(body).None? <==> forall j :: 0 <= j < |body| ==> !IsConaiLine(body[j])
  {
    var ks := Kinds(body);
    assert ConaiPosition(body).None? ==> forall j :: 0 <= j < |body| ==> ks[j] != Conai;
    assert (forall j :: 0 <= j < |body| ==> !IsConaiLine(body[j])) ==> Conai !in ks;
  }

  /** The normal lines themselves, in document order. */
  function NormalLines(body: seq<Node>): (ls: seq<Node>)
    ensures |ls| <= |body|
  {
    Select(body, Kinds(body), Normal)
  }

  lemma {:induction false} NormalLinesAtPositions(body: seq<Node>)
    ensures |NormalLines(body)| == |NormalPositions(body)|
    ensures forall k :: 0 <= k < |NormalLines(body)| ==> NormalLines(body)[k] == body[NormalPositions(body)[k]]
  {
    SelectAtPositions(body, Kinds(body), Normal);
  }

  predicate AtMostOneConai(body: seq<Node>)
  {
    forall i, j :: 0 <= i < |body| && 0 <= j < |body| && IsConaiLine(body[i]) && IsConaiLine(body[j]) ==> i == j
  }

  /** With at most one CONAI line, every line is a normal line or the CONAI
      line; a second CONAI line would be in neither. */
  lemma {:induction false} PartitionCovers(body: seq<Node>, p: nat)
    requires p < |body| && IsLine(body[p])
    requires AtMostOneConai(body)
    ensures p in NormalPositions(body) || ConaiPosition(body) == Some(p)
  {
    NormalPositionsMeaning(body);
    ConaiPositionMeaning(body);
    if !IsNormalLine(body[p]) {
      assert IsConaiLine(body[p]);
      var c := ConaiPosition(body).value;
      assert IsConaiLine(body[c]);
    }
  }

  function LineCount(body: seq<Node>): (k: nat)
    ensures k <= |body|
  {
    if body == [] then 0
    else LineCount(body[..|body| - 1]) + (if IsLine(body[|body| - 1]) then 1 else 0)
  }

  lemma {:induction false} LineCountConcat(a: seq<Node>, b: seq<Node>)
    ensures LineCount(a + b) == LineCount(a) + LineCount(b)
  {
    if b == [] {
      assert a + b == a;
    } else {
      assert (a + b)[..|a + b| - 1] == a + b[..|b| - 1];
      LineCountConcat(a, b[..|b| - 1]);
    }
  }

  /** `SetNumber(n, k)`: the first NumeroLinea child gets the text `str(k)`,
      or a NumeroLinea child with that text is appended. */
  function SetNumber(n: Node, k: nat): (r: Node)
    ensures r.tag == n.tag
  {
    match FindChild(n.children, NumberTag)
      case Some(c) => n.(children := n.children[c := n.children[c].(text := NatToString(k))])
      case None => n.(children := n.children + [Leaf(NumberTag, NatToString(k))])
  }

  /** The number a line carries, None when it has no NumeroLinea child. */
  function NumberOf(n: Node): Option<string> { ChildText(n, NumberTag) }

  lemma {:induction false} SetNumberEffect(n: Node, k: nat)
    ensures NumberOf(SetNumber(n, k)) == Some(NatToString(k))
    ensures HasConaiDescription(SetNumber(n, k)) == HasConaiDescription(n)
    ensures ChildText(SetNumber(n, k), DescriptionTag) == ChildText(n, DescriptionTag)
  {
    var r := SetNumber(n, k);
    match FindChild(n.children, NumberTag)
      case Some(c) =>
        FindChildSameTags(r.children, n.children, NumberTag);
        FindChildSameTags(r.children, n.children, DescriptionTag);
      case None =>
        FindChildAppendMatch(n.children, Leaf(NumberTag, NatToString(k)), NumberTag);
        FindChildAppend(n.children, Leaf(NumberTag, NatToString(k)), DescriptionTag);
  }

  lemma {:induction false} SetNumberTwice(n: Node, k: nat)
    ensures SetNumber(SetNumber(n, k), k) == SetNumber(n, k)
  {
    var r := SetNumber(n, k);
    SetNumberEffect(n, k);
    var c := FindChild(r.children, NumberTag).value;
    assert r.children[c].text == NatToString(k);
    assert r.children[c := r.children[c].(text := NatToString(k))] == r.children;
  }

  /** Every line gets its 1-based position among the lines as its number. */
  function Renumbered(body: seq<Node>): (r: seq<Node>)
    ensures |r| == |body|
  {
    if body == [] then []
    else
      var pre := body[..|body| - 1];
      var last := body[|body| - 1];
      Renumbered(pre) + [if IsLine(last) then SetNumber(last, LineCount(pre) + 1) else last]
  }

  lemma {:induction false} RenumberedAt(body: seq<Node>, i: nat)
    requires i < |body|
    ensures Renumbered(body)[i] ==
      if IsLine(body[i]) then SetNumber(body[i], LineCount(body[..i]) + 1) else body[i]
  {
    var pre := body[..|body| - 1];
    if i < |pre| {
      RenumberedAt(pre, i);
      assert pre[i] == body[i] && pre[..i] == body[..i];
    } else {
      assert body[..i] == pre;
    }
  }

  lemma {:induction false} RenumberedPrefix(body: seq<Node>, i: nat)
    requires i <= |body|
    ensures Renumbered(body)[..i] == Renumbered(body[..i])
  {
    if i < |body| {
      var pre := body[..|body| - 1];
      RenumberedPrefix(pre, i);
      assert pre[..i] == body[..i];
    } else {
      assert body[..i] == body;
    }
  }

  /** One more child counted: the count goes up exactly when it is a line. */
  lemma {:induction false} LineCountStep(body: seq<Node>, i: nat)
    requires i < |body|
    ensures LineCount(body[..i + 1]) == LineCount(body[..i]) + (if IsLine(body[i]) then 1 else 0)
  {
    PrefixStep(body, i);
  }

  /** Renumbering leaves the kind of every child alone. */
  lemma {:induction false} RenumberedKinds(body: seq<Node>)
    ensures Kinds(Renumbered(body)) == Kinds(body)
  {
    var a := Kinds(Renumbered(body));
    var b := Kinds(body);
    forall i | 0 <= i < |body| ensures a[i] == b[i] {
      RenumberedKindAt(body, i);
    }
    SameElements(a, b);
  }

  lemma {:induction false} RenumberedKindAt(body: seq<Node>, i: nat)
    requires i < |body|
    ensures |Renumbered(body)| == |body| && KindOf(Renumbered(body)[i]) == KindOf(body[i])
  {
    RenumberedAt(body, i);
    if IsLine(body[i]) { SetNumberKind(body[i], LineCount(body[..i]) + 1); }
  }

  /** Setting the number changes neither the tag nor the description. */
  lemma {:induction false} SetNumberKind(n: Node, k: nat)
    ensures KindOf(SetNumber(n, k)) == KindOf(n)
  {
    SetNumberEffect(n, k);
  }

  /** So the normal lines, the CONAI line and the line count stay where they are. */
  lemma {:induction false} RenumberedKeepsPartition(body: seq<Node>)
    ensures NormalPositions(Renumbered(body)) == NormalPositions(body)
    ensures ConaiPosition(Renumbered(body)) == ConaiPosition(body)
    ensures LineCount(Renumbered(body)) == LineCount(body)
  {
    RenumberedKinds(body);
    RenumberedLineCount(body);
  }

  lemma {:induction false} RenumberedLineCount(body: seq<Node>)
    ensures LineCount(Renumbered(body)) == LineCount(body)
  {
    if body != [] {
      var pre := body[..|body| - 1];
      var r := Renumbered(body);
      assert r[..|r| - 1] == Renumbered(pre);
      RenumberedLineCount(pre);
    }
  }

  /** The numbers of the lines in document order (None for a line without one). */
  function LineNumbers(body: seq<Node>): (ns: seq<Option<string>>)
    ensures |ns| == LineCount(body)
  {
    if body == [] then []
    else
      var last := body[|body| - 1];
      LineNumbers(body[..|body| - 1]) + (if IsLine(last) then [NumberOf(last)] else [])
  }

  /** The numbers 1, 2, ..., n as strings. */
  function Dense(n: nat): (ns: seq<Option<string>>)
    ensures |ns| == n
    ensures forall k :: 0 <= k < n ==> ns[k] == Some(NatToString(k + 1))
  {
    seq(n, k requires 0 <= k => Some(NatToString(k + 1)))
  }

  /** After renumbering, the lines carry exactly the numbers 1..n in document order. */
  lemma {:induction false} RenumberedIsDense(body: seq<Node>)
    ensures LineNumbers(Renumbered(body)) == Dense(LineCount(body))
  {
    if body != [] {
      var pre := body[..|body| - 1];
      var last := body[|body| - 1];
      var y := if IsLine(last) then SetNumber(last, LineCount(pre) + 1) else last;
      RenumberedIsDense(pre);
      SnocPrefix(Renumbered(pre), y);
      DenseStep(Renumbered(pre), Renumbered(body), last, LineCount(pre));
    }
  }

  /** One more child at the end of a densely numbered list. */
  lemma {:induction false} DenseStep(rpre: seq<Node>, r: seq<Node>, last: Node, n: nat)
    requires r != [] && r[..|r| - 1] == rpre
    requires r[|r| - 1] == if IsLine(last) then SetNumber(last, n + 1) else last
    requires LineNumbers(rpre) == Dense(n)
    ensures LineNumbers(r) == Dense(n + if IsLine(last) then 1 else 0)
  {
    var y := r[|r| - 1];
    if IsLine(last) {
      SetNumberEffect(last, n + 1);
      SetNumberKind(last, n + 1);
      assert IsLine(y);
      assert Dense(n + 1) == Dense(n) + [Some(NatToString(n + 1))];
    }
  }

  /** Renumbering twice is renumbering once. */
  lemma {:induction false} RenumberedIdempotent(body: seq<Node>)
    ensures Renumbered(Renumbered(body)) == Renumbered(body)
  {
    if body != [] {
      var pre := body[..|body| - 1];
      var last := body[|body| - 1];
      var k := LineCount(pre) + 1;
      var y := if IsLine(last) then SetNumber(last, k) else last;
      assert Renumbered(body) == Renumbered(pre) + [y];
      RenumberedIdempotent(pre);
      RenumberedLineCount(pre);
      RenumberedSnoc(Renumbered(pre), y);
      if IsLine(last) { SetNumberTwice(last, k); }
    }
  }

  /** Renumbering a list with one more child at the end. */
  lemma {:induction false} RenumberedSnoc(s: seq<Node>, y: Node)
    ensures Renumbered(s + [y]) == Renumbered(s) + [if IsLine(y) then SetNumber(y, LineCount(s) + 1) else y]
  {
    SnocPrefix(s, y);
  }

  /** Where a new normal line goes: before the CONAI line, else before the
      first DatiRiepilogo, else at the end. */
  function NewLinePosition(body: seq<Node>): (pos: nat)
    ensures pos <= |body|
    ensures ConaiPosition(body).Some? ==> pos == ConaiPosition(body).value
    ensures ConaiPosition(body).None? ==> pos == SummaryPosition(body)
  {
    match ConaiPosition(body)
      case Some(c) => c
      case None => SummaryPosition(body)
  }

  /** Where the CONAI line goes: the first DatiRiepilogo, else the end. */
  function SummaryPosition(body: seq<Node>): (pos: nat)
    ensures pos <= |body|
    ensures forall j :: 0 <= j < pos ==> body[j].tag != SummaryTag
    ensures pos < |body| ==> body[pos].tag == SummaryTag
  {
    match FindChild(body, SummaryTag)
      case Some(r) => r
      case None => |body|
  }

  /** Inserting a normal line at `pos` adds exactly that line to the normal
      lines, at its place among them, and moves the CONAI line along. */
  lemma {:induction false} NormalLineInserted(body: seq<Node>, pos: nat, x: Node)
    requires pos <= |body| && KindOf(x) == Normal
    ensures |NormalPositions(InsertAt(body, pos, x))| == |NormalPositions(body)| + 1
    ensures ConaiPosition(InsertAt(body, pos, x)) == ShiftUp(ConaiPosition(body), pos)
    ensures NormalLines(body) == NormalLines(body[..pos]) + NormalLines(body[pos..])
    ensures NormalLines(InsertAt(body, pos, x)) == NormalLines(body[..pos]) + [x] + NormalLines(body[pos..])
  {
    var ks := Kinds(body);
    assert |NormalPositions(InsertAt(body, pos, x))| == |NormalPositions(body)| + 1 by {
      KindsInsert(body, pos, x);
      CountInsert(ks, pos, Normal, Normal);
    }
    assert ConaiPosition(InsertAt(body, pos, x)) == ShiftUp(ConaiPosition(body), pos) by {
      KindsInsert(body, pos, x);
      LastOfInsertOther(ks, pos, Normal, Conai);
    }
    NormalLinesSplit(body, pos);
    NormalLinesInsert(body, pos, x);
  }

  /** The normal lines of the two parts of a cut list. */
  lemma {:induction false} NormalLinesSplit(body: seq<Node>, pos: nat)
    requires pos <= |body|
    ensures Kinds(body)[..pos] == Kinds(body[..pos]) && Kinds(body)[pos..] == Kinds(body[pos..])
    ensures NormalLines(body) == NormalLines(body[..pos]) + NormalLines(body[pos..])
  {
    SelectSplit(body, Kinds(body), pos, Normal);
    KindsPrefix(body, pos);
  }

  lemma {:induction false} NormalLinesInsert(body: seq<Node>, pos: nat, x: Node)
    requires pos <= |body| && KindOf(x) == Normal
    ensures NormalLines(InsertAt(body, pos, x)) == NormalLines(body[..pos]) + [x] + NormalLines(body[pos..])
  {
    KindsInsert(body, pos, x);
    NormalLinesSplit(body, pos);
    SelectInsert(body, Kinds(body), pos, x, Normal, Normal);
  }

  /** Inserting a CONAI line where there was none makes it the CONAI line and
      leaves the normal lines as they were. */
  lemma {:induction false} ConaiLineInserted(body: seq<Node>, pos: nat, x: Node)
    requires pos <= |body| && KindOf(x) == Conai && ConaiPosition(body).None?
    ensures |NormalPositions(InsertAt(body, pos, x))| == |NormalPositions(body)|
    ensures ConaiPosition(InsertAt(body, pos, x)) == Some(pos)
    ensures NormalLines(InsertAt(body, pos, x)) == NormalLines(body)
  {
    var ks := Kinds(body);
    KindsInsert(body, pos, x);
    CountInsert(ks, pos, Conai, Normal);
    LastOfInsertOnly(ks, pos, Conai);
    SelectInsertOther(body, ks, pos, x, Conai, Normal);
  }

  /** Removing the `k`-th normal line removes exactly that one from the normal
      lines and moves the CONAI line back. */
  lemma {:induction false} NormalLineRemoved(body: seq<Node>, k: nat)
    requires k < |NormalPositions(body)|
    ensures |NormalLines(body)| == |NormalPositions(body)|
    ensures |NormalPositions(RemoveAt(body, NormalPositions(body)[k]))| == |NormalPositions(body)| - 1
    ensures ConaiPosition(RemoveAt(body, NormalPositions(body)[k])) == ShiftDown(ConaiPosition(body), NormalPositions(body)[k])
    ensures NormalLines(RemoveAt(body, NormalPositions(body)[k])) == RemoveAt(NormalLines(body), k)
  {
    var ks := Kinds(body);
    var p := NormalPositions(body)[k];
    KindsRemove(body, p);
    CountRemove(ks, p, Normal);
    LastOfRemoveOther(ks, p, Conai);
    SelectRemove(body, ks, k, Normal);
  }

  /** Removing the CONAI line leaves the normal lines as they were; when it
      was the only one, no CONAI line is left. */
  lemma {:induction false} ConaiLineRemoved(body: seq<Node>)
    requires ConaiPosition(body).Some?
    ensures |NormalPositions(RemoveAt(body, ConaiPosition(body).value))| == |NormalPositions(body)|
    ensures NormalLines(RemoveAt(body, ConaiPosition(body).value)) == NormalLines(body)
    ensures AtMostOneConai(body) ==> ConaiPosition(RemoveAt(body, ConaiPosition(body).value)).None?
  {
    var ks := Kinds(body);
    var c := ConaiPosition(body).value;
    KindsRemove(body, c);
    CountRemove(ks, c, Normal);
    SelectRemoveOther(body, ks, c, Normal);
    if AtMostOneConai(body) {
      ConaiPositionMeaning(body);
      assert forall j :: 0 <= j < |ks| && ks[j] == Conai ==> IsConaiLine(body[j]);
      LastOfRemoveOnly(ks, c, Conai);
    }
  }

  /** A normal line inserted at `pos` (as `add_line` does at
      `NewLinePosition`) is the last normal line exactly when no normal line
      sits at or after the insertion point. */
  lemma {:induction false} InsertedLineIsLast(body: seq<Node>, pos: nat, x: Node)
    requires pos <= |body| && KindOf(x) == Normal
    ensures |NormalPositions(InsertAt(body, pos, x))| > 0
    ensures Last(NormalPositions(InsertAt(body, pos, x))) == pos <==>
      forall p :: pos <= p < |body| ==> !IsNormalLine(body[p])
  {
    KindsInsert(body, pos, x);
    InsertedIsLast(Kinds(body), pos, Normal);
    NoNormalAfter(body, pos);
  }

  lemma {:induction false} NoNormalAfter(body: seq<Node>, pos: nat)
    requires pos <= |body|
    ensures Normal !in Kinds(body)[pos..] <==> forall p :: pos <= p < |body| ==> !IsNormalLine(body[p])
  {
    var ks := Kinds(body);
    assert forall p :: pos <= p < |body| ==> ks[pos..][p - pos] == ks[p];
  }
}
