/** The detail-line editor of the invoice window: the children of
    DatiBeniServizi and the editor's view of them (`normal_lines`,
    `conai_line`, `total_lines`, `current_line_index`), with the operations
    that add, delete and renumber lines and save the edited fields. */
module LineEditor {
  import opened Wrappers
  import opened Text
  import opened XmlTree
  import opened Partition
  import opened LineKind
  import opened LineList
  import opened NumericField

  /** The index check of `refresh_lines_data`: an index past the end becomes
      `max(0, n - 1)`. */
  function Clamp(i: nat, n: nat): (r: nat)
    ensures r < n || (n == 0 && r == 0)
    ensures i < n ==> r == i
    ensures i >= n && n > 0 ==> r == n - 1
  {
    if i >= n then (if n == 0 then 0 else n - 1) else i
  }

  /** One edited field written back to its element: numeric fields go through
      the save formatting, a value the formatting rejects leaves the element
      alone, and a field whose element is missing writes nothing. */
  function SaveField(n: Node, name: string, value: string): (r: Node)
    ensures r.tag == n.tag && |r.children| == |n.children|
    ensures forall c :: 0 <= c < |n.children| ==> r.children[c].tag == n.children[c].tag
  {
    match SaveText(name, value)
      case None => n
      case Some(v) =>
        match FindChild(n.children, name)
          case None => n
          case Some(c) => n.(children := n.children[c := n.children[c].(text := v)])
  }

  /** All edited fields written back, in order. */
  function SaveFields(n: Node, fields: seq<(string, string)>): (r: Node)
    ensures r.tag == n.tag && |r.children| == |n.children|
    ensures forall c :: 0 <= c < |n.children| ==> r.children[c].tag == n.children[c].tag
  {
    if fields == [] then n
    else
      var last := fields[|fields| - 1];
      SaveField(SaveFields(n, fields[..|fields| - 1]), last.0, last.1)
  }

  predicate DistinctNames(fields: seq<(string, string)>)
  {
    forall i, j :: 0 <= i < j < |fields| ==> fields[i].0 != fields[j].0
  }

  /** What the element of a field holds after saving. */
  function SavedValue(n: Node, name: string, value: string): Option<string>
  {
    if FindChild(n.children, name).Some? && SaveText(name, value).Some? then SaveText(name, value)
    else ChildText(n, name)
  }

  /** Writing one field leaves the text of every other field alone. */
  lemma {:induction false} SaveFieldOther(n: Node, name: string, value: string, other: string)
    requires other != name
    ensures ChildText(SaveField(n, name, value), other) == ChildText(n, other)
  {
    FindChildSameTags(SaveField(n, name, value).children, n.children, other);
  }

  /** Writing one field sets its element's text to the saved value. */
  lemma {:induction false} SaveFieldSelf(n: Node, name: string, value: string)
    ensures ChildText(SaveField(n, name, value), name) == SavedValue(n, name, value)
  {
    FindChildSameTags(SaveField(n, name, value).children, n.children, name);
  }

  /** With one entry per field name (the editor keeps them in a dictionary),
      every field's element ends up holding that field's saved value. */
  lemma {:induction false} SaveFieldsEffect(n: Node, fields: seq<(string, string)>, j: nat)
    requires DistinctNames(fields) && j < |fields|
    ensures ChildText(SaveFields(n, fields), fields[j].0) == SavedValue(n, fields[j].0, fields[j].1)
  {
    var pre := fields[..|fields| - 1];
    var last := fields[|fields| - 1];
    FindChildSameTags(SaveFields(n, pre).children, n.children, fields[j].0);
    if j == |fields| - 1 {
      SaveFieldSelf(SaveFields(n, pre), last.0, last.1);
      SaveFieldsUntouched(n, pre, last.0);
    } else {
      assert pre[j] == fields[j];
      SaveFieldsEffect(n, pre, j);
      SaveFieldOther(SaveFields(n, pre), last.0, last.1, fields[j].0);
    }
  }

  /** A field name that is not among the entries keeps its text. */
  lemma {:induction false} SaveFieldsUntouched(n: Node, fields: seq<(string, string)>, name: string)
    requires forall i :: 0 <= i < |fields| ==> fields[i].0 != name
    ensures ChildText(SaveFields(n, fields), name) == ChildText(n, name)
  {
    if fields != [] {
      var pre := fields[..|fields| - 1];
      var last := fields[|fields| - 1];
      SaveFieldsUntouched(n, pre, name);
      SaveFieldOther(SaveFields(n, pre), last.0, last.1, name);
    }
  }

  /** `add_line` adds exactly one normal line, and the line it makes current
      is the new one exactly when no normal line follows the insertion point. */
  lemma {:induction false} AddLineEffect(b: seq<Node>, nb: seq<Node>)
    requires nb == Renumbered(InsertAt(b, NewLinePosition(b), DefaultLine()))
    ensures |NormalPositions(nb)| == |NormalPositions(b)| + 1
      && (Last(NormalPositions(nb)) == NewLinePosition(b) <==>
          forall p :: NewLinePosition(b) <= p < |b| ==> !IsNormalLine(b[p]))
  {
    var pos := NewLinePosition(b);
    DefaultLineIsNormal();
    NormalLineInserted(b, pos, DefaultLine());
    InsertedLineIsLast(b, pos, DefaultLine());
    RenumberedKeepsPartition(InsertAt(b, pos, DefaultLine()));
  }

  /** `delete_line` removes exactly one normal line. */
  lemma {:induction false} DeleteLineEffect(b: seq<Node>, k: nat)
    requires k < |NormalPositions(b)|
    ensures |NormalPositions(Renumbered(RemoveAt(b, NormalPositions(b)[k])))| == |NormalPositions(b)| - 1
  {
    NormalLineRemoved(b, k);
    RenumberedKeepsPartition(RemoveAt(b, NormalPositions(b)[k]));
  }

  /** `add_conai_line` on a document without one: the new line is the CONAI
      line and the normal lines are not touched. */
  lemma {:induction false} AddConaiEffect(b: seq<Node>)
    requires ConaiPosition(b).None?
    ensures var nb := Renumbered(InsertAt(b, SummaryPosition(b), ConaiLine()));
      |NormalPositions(nb)| == |NormalPositions(b)| && ConaiPosition(nb) == Some(SummaryPosition(b))
  {
    ConaiLineIsConai();
    ConaiLineInserted(b, SummaryPosition(b), ConaiLine());
    RenumberedKeepsPartition(InsertAt(b, SummaryPosition(b), ConaiLine()));
  }

  /** `remove_conai_line` keeps every normal line. */
  lemma {:induction false} RemoveConaiEffect(b: seq<Node>)
    requires ConaiPosition(b).Some?
    ensures |NormalPositions(Renumbered(RemoveAt(b, ConaiPosition(b).value)))| == |NormalPositions(b)|
  {
    ConaiLineRemoved(b);
    RenumberedKeepsPartition(RemoveAt(b, ConaiPosition(b).value));
  }

  /** `normal_lines`, `conai_line` and `total_lines` as `refresh_lines_data`
      computes them from the children. */
  predicate ViewOf(body: seq<Node>, normalLines: seq<nat>, conaiLine: Option<nat>, totalLines: nat)
  {
    normalLines == NormalPositions(body) && conaiLine == ConaiPosition(body)
    && totalLines == |normalLines|
  }

  class InvoiceEditor {
    /** The children of DatiBeniServizi. */
    var body: seq<Node>
    /** Positions in `body` of the normal lines, in document order. */
    var normalLines: seq<nat>
    /** Position in `body` of the CONAI line. */
    var conaiLine: Option<nat>
    var totalLines: nat
    var currentLineIndex: nat

    /** The editor as `__init__` leaves it, on a loaded document. */
    constructor (children: seq<Node>)
      ensures body == children && normalLines == [] && conaiLine.None?
      ensures totalLines == 0 && currentLineIndex == 0
    {
      body := children;
      normalLines := [];
      conaiLine := None;
      totalLines := 0;
      currentLineIndex := 0;
    }

    /** `refresh_lines_data`: sorts the lines into normal lines and the CONAI
        line, counts the normal lines and brings the index back in range. */
    method RefreshLinesData()
      modifies this
      ensures body == old(body)
      ensures ViewOf(body, normalLines, conaiLine, totalLines)
      ensures currentLineIndex == Clamp(old(currentLineIndex), totalLines)
    {
      ghost var ks := Kinds(body);
      normalLines := [];
      conaiLine := None;
      var i := 0;
      while i < |body|
        invariant 0 <= i <= |body| && body == old(body)
        invariant normalLines == Positions(ks[..i], Normal)
        invariant conaiLine == LastOf(ks[..i], Conai)
        invariant currentLineIndex == old(currentLineIndex)
      {
        var line := body[i];
        PositionsStep(ks, i, Normal);
        LastOfStep(ks, i, Conai);
        if IsLine(line) {
          if HasConaiDescription(line) {
            conaiLine := Some(i);
          } else {
            normalLines := normalLines + [i];
          }
        }
        i := i + 1;
      }
      assert ks[..|body|] == ks;
      totalLines := |normalLines|;
      if currentLineIndex >= totalLines {
        var m: int := totalLines - 1;
        currentLineIndex := if m > 0 then m else 0;
      }
    }

    /** `update_line_numbers`: the k-th detail line gets NumeroLinea `k`,
        counting from 1, with a NumeroLinea child created where missing. */
    method UpdateLineNumbers()
      modifies this
      ensures body == Renumbered(old(body))
      ensures normalLines == old(normalLines) && conaiLine == old(conaiLine)
      ensures totalLines == old(totalLines) && currentLineIndex == old(currentLineIndex)
      ensures old(ViewOf(body, normalLines, conaiLine, totalLines)) ==> ViewOf(body, normalLines, conaiLine, totalLines)
    {
      ghost var b0 := body;
      var i := 0;
      var k := 0;
      while i < |body|
        invariant 0 <= i <= |body| && |body| == |b0|
        invariant forall q :: 0 <= q < i ==> body[q] == Renumbered(b0)[q]
        invariant forall q :: i <= q < |body| ==> body[q] == b0[q]
        invariant k == LineCount(b0[..i])
        invariant normalLines == old(normalLines) && conaiLine == old(conaiLine)
        invariant totalLines == old(totalLines) && currentLineIndex == old(currentLineIndex)
      {
        RenumberedAt(b0, i);
        LineCountStep(b0, i);
        if IsLine(body[i]) {
          k := k + 1;
          body := body[i := SetNumber(body[i], k)];
        }
        i := i + 1;
      }
      SameElements(body, Renumbered(b0));
      RenumberedKeepsPartition(b0);
    }

    /** `add_line`: inserts the default line before the CONAI line, else
        before the first DatiRiepilogo, else at the end; renumbers; and makes
        the last normal line current. */
    method AddLine()
      modifies this
      ensures body == Renumbered(InsertAt(old(body), NewLinePosition(old(body)), DefaultLine()))
      ensures ViewOf(body, normalLines, conaiLine, totalLines)
      ensures totalLines == |NormalPositions(old(body))| + 1
      ensures currentLineIndex == totalLines - 1
      ensures Last(normalLines) == NewLinePosition(old(body)) <==>
        forall p :: NewLinePosition(old(body)) <= p < |old(body)| ==> !IsNormalLine(old(body)[p])
    {
      ghost var b0 := body;
      var newLine := DefaultLine();
      RefreshLinesData();
      var pos := InsertionPoint();
      body := InsertAt(body, pos, newLine);
      UpdateLineNumbers();
      AddLineEffect(b0, body);
      RefreshLinesData();
      currentLineIndex := totalLines - 1;
    }

    /** Where `add_line` inserts: before the CONAI line, else before the
        first DatiRiepilogo, else at the end. */
    method InsertionPoint() returns (pos: nat)
      requires ViewOf(body, normalLines, conaiLine, totalLines)
      ensures pos == NewLinePosition(body)
    {
      var summary := FindChild(body, SummaryTag);
      if conaiLine.Some? {
        pos := conaiLine.value;
      } else if summary.Some? {
        pos := summary.value;
      } else {
        pos := |body|;
      }
    }

    /** `delete_line`: with no normal line there is nothing to delete (the
        editor shows a warning, reported here as `false`); otherwise the
        current normal line is removed, the lines renumbered and the index
        brought back in range. */
    method DeleteLine() returns (deleted: bool)
      modifies this
      ensures ViewOf(body, normalLines, conaiLine, totalLines)
      ensures var n0 := |NormalPositions(old(body))|;
        var k := Clamp(old(currentLineIndex), n0);
        if n0 == 0 then !deleted && body == old(body) && currentLineIndex == 0
        else (deleted && body == Renumbered(RemoveAt(old(body), NormalPositions(old(body))[k]))
              && totalLines == n0 - 1 && currentLineIndex == Clamp(k, n0 - 1))
    {
      ghost var b0 := body;
      RefreshLinesData();
      if totalLines <= 0 {
        deleted := false;
        return;
      }
      ghost var k := currentLineIndex;
      var p := normalLines[currentLineIndex];
      body := RemoveAt(body, p);
      UpdateLineNumbers();
      RefreshLinesData();
      DeleteLineEffect(b0, k);
      deleted := true;
    }

    /** `add_conai_line`: nothing happens when a CONAI line exists; otherwise
        the CONAI line goes before the first DatiRiepilogo, else at the end,
        and the lines are renumbered. */
    method AddConaiLine()
      modifies this
      ensures ConaiPosition(old(body)).Some? ==> body == old(body)
      ensures ConaiPosition(old(body)).None? ==>
        body == Renumbered(InsertAt(old(body), SummaryPosition(old(body)), ConaiLine()))
        && conaiLine == Some(SummaryPosition(old(body)))
      ensures ViewOf(body, normalLines, conaiLine, totalLines)
      ensures totalLines == |NormalPositions(old(body))|
      ensures currentLineIndex == Clamp(old(currentLineIndex), totalLines)
    {
      ghost var b0 := body;
      RefreshLinesData();
      if conaiLine.Some? {
        return;
      }
      var line := ConaiLine();
      var pos: nat;
      var summary := FindChild(body, SummaryTag);
      if summary.Some? {
        pos := summary.value;
      } else {
        pos := |body|;
      }
      assert pos == SummaryPosition(b0);
      body := InsertAt(body, pos, line);
      UpdateLineNumbers();
      RefreshLinesData();
      AddConaiEffect(b0);
    }

    /** `remove_conai_line`: nothing happens without a CONAI line; otherwise
        it is detached and the lines renumbered. */
    method RemoveConaiLine()
      modifies this
      ensures ConaiPosition(old(body)).None? ==> body == old(body)
      ensures ConaiPosition(old(body)).Some? ==>
        body == Renumbered(RemoveAt(old(body), ConaiPosition(old(body)).value))
      ensures ViewOf(body, normalLines, conaiLine, totalLines)
      ensures totalLines == |NormalPositions(old(body))|
      ensures currentLineIndex == Clamp(old(currentLineIndex), totalLines)
    {
      ghost var b0 := body;
      RefreshLinesData();
      if conaiLine.None? {
        return;
      }
      var c := conaiLine.value;
      body := RemoveAt(body, c);
      UpdateLineNumbers();
      RefreshLinesData();
      RemoveConaiEffect(b0);
    }

    /** `save_current_line_data`: with a current normal line, each edited
        field (name and entry text) is written back to its element, then the
        lines are renumbered. */
    method SaveCurrentLineData(fields: seq<(string, string)>)
      requires ViewOf(body, normalLines, conaiLine, totalLines)
      modifies this
      ensures normalLines == old(normalLines) && conaiLine == old(conaiLine)
      ensures totalLines == old(totalLines) && currentLineIndex == old(currentLineIndex)
      ensures old(totalLines) == 0 || old(currentLineIndex) >= old(totalLines) ==> body == old(body)
      ensures old(totalLines) > 0 && old(currentLineIndex) < old(totalLines) ==>
        var p := old(normalLines)[old(currentLineIndex)];
        body == Renumbered(old(body)[p := SaveFields(old(body)[p], fields)])
    {
      if totalLines <= 0 || currentLineIndex >= totalLines {
        return;
      }
      var p := normalLines[currentLineIndex];
      ghost var line0 := body[p];
      ghost var b0 := body;
      var j := 0;
      while j < |fields|
        invariant 0 <= j <= |fields| && |body| == |b0| && p < |body|
        invariant body == b0[p := SaveFields(line0, fields[..j])]
        invariant normalLines == old(normalLines) && conaiLine == old(conaiLine)
        invariant totalLines == old(totalLines) && currentLineIndex == old(currentLineIndex)
      {
        var (name, value) := fields[j];
        assert fields[..j + 1][..j] == fields[..j];
        body := body[p := SaveField(body[p], name, value)];
        j := j + 1;
      }
      assert fields[..|fields|] == fields;
      UpdateLineNumbers();
    }
  }
}
