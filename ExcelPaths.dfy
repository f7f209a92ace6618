/** The tag paths of the sheet read back as element steps: a segment is a
    local name, optionally followed by `[n]`, and `_normalize_xpath` turns a
    whole path into a `local-name()` XPath expression. */
module ExcelPaths {
  import opened Wrappers
  import opened Text

  /** One path segment: `name`, or `name[index]`. */
  datatype Step = Plain(name: string) | Indexed(name: string, index: int)

  /** `tag_name, index_str = seg.split("[")` followed by
      `int(index_str.rstrip("]"))` when the segment holds a `[`; None where
      Python raises ValueError (more than one `[`, or an index that is not
      an integer). */
  function ParseStep(seg: string): (r: Option<Step>)
    ensures '[' !in seg ==> r == Some(Plain(seg))
    ensures r.Some? ==> '[' !in r.value.name
    ensures r.Some? && r.value.Indexed? ==> '[' in seg
  {
    if '[' !in seg then Some(Plain(seg))
    else
      var ps := Split(seg, '[');
      if |ps| != 2 then None
      else match ParseInt(RStripChar(ps[1], ']'))
        case None => None
        case Some(k) => Some(Indexed(ps[0], k))
  }

  /** The segment text that denotes a step. */
  function Render(st: Step): string
  {
    match st
    case Plain(n) => n
    case Indexed(n, i) => n + "[" + IntToString(i) + "]"
  }

  /** A step that a path can carry: no separator in its name, and a plain
      step is not empty (empty segments are skipped). */
  predicate WellFormed(st: Step)
  {
    '[' !in st.name && '/' !in st.name && (st.Plain? ==> st.name != "")
  }

  lemma {:induction false} IntToStringChars(i: int)
    ensures IntToString(i) != [] && IsDigit(IntToString(i)[|IntToString(i)| - 1])
    ensures '[' !in IntToString(i) && '/' !in IntToString(i) && ']' !in IntToString(i)
  {
    var d := NatToString(if i < 0 then -i else i);
    assert forall k :: 0 <= k < |d| ==> IsDigit(d[k]);
    if i < 0 {
      assert IntToString(i) == "-" + d;
      assert forall k :: 0 < k < |"-" + d| ==> ("-" + d)[k] == d[k - 1];
    }
  }

  /** Reading a rendered step gives the step back. */
  lemma {:induction false} ParseRender(st: Step)
    requires '[' !in st.name
    ensures ParseStep(Render(st)) == Some(st)
  {
    if st.Indexed? {
      var d := IntToString(st.index);
      IntToStringChars(st.index);
      var s := st.name + "[" + d + "]";
      assert s == st.name + ['['] + (d + "]");
      SplitPrefix(st.name, d + "]", '[');
      SplitNoSep(d + "]", '[');
      assert Split(s, '[') == [st.name, d + "]"];
      assert (d + "]")[..|d|] == d;
      assert RStripChar(d + "]", ']') == RStripChar(d, ']');
      assert RStripChar(d, ']') == d;
      ParseIntOfInt(st.index);
    }
  }

  /** The XPath step `_normalize_xpath` writes for a segment. */
  function XPathStep(st: Step): string
  {
    match st
    case Plain(n) => "*[local-name()='" + n + "']"
    case Indexed(n, i) => "*[local-name()='" + n + "'][" + IntToString(i) + "]"
  }

  /** The loop over the segments: empty segments are skipped, any other is
      parsed and rendered; None when a segment does not parse. */
  function NormalizeParts(parts: seq<string>): Option<seq<string>>
  {
    if parts == [] then Some([])
    else if parts[0] == "" then NormalizeParts(parts[1..])
    else match ParseStep(parts[0])
      case None => None
      case Some(st) =>
        match NormalizeParts(parts[1..])
        case None => None
        case Some(rest) => Some([XPathStep(st)] + rest)
  }

  /** `_normalize_xpath(path)`: `"//"` followed by the rendered steps
      joined with `/`. */
  function NormalizeXpath(path: string): (r: Option<string>)
    ensures r.Some? ==> StartsWith(r.value, "//")
  {
    match NormalizeParts(Split(path, '/'))
    case None => None
    case Some(ns) => Some("//" + Join(ns, "/"))
  }

  /** Some non-empty segment does not parse. */
  predicate HasBadSegment(parts: seq<string>)
  {
    exists k :: 0 <= k < |parts| && parts[k] != "" && ParseStep(parts[k]).None?
  }

  lemma {:induction false} NormalizePartsNone(parts: seq<string>)
    ensures NormalizeParts(parts).None? <==> HasBadSegment(parts)
  {
    if parts != [] {
      NormalizePartsNone(parts[1..]);
      if HasBadSegment(parts[1..]) {
        var k :| 0 <= k < |parts[1..]| && parts[1..][k] != "" && ParseStep(parts[1..][k]).None?;
        assert parts[k + 1] == parts[1..][k];
      }
      if HasBadSegment(parts) {
        var k :| 0 <= k < |parts| && parts[k] != "" && ParseStep(parts[k]).None?;
        if k > 0 { assert parts[1..][k - 1] == parts[k]; }
      }
    }
  }

  /** Normalisation fails exactly when some non-empty segment does not parse. */
  lemma {:induction false} NormalizeXpathNone(path: string)
    ensures NormalizeXpath(path).None? <==> HasBadSegment(Split(path, '/'))
  {
    NormalizePartsNone(Split(path, '/'));
  }

  function Renders(steps: seq<Step>): (r: seq<string>)
    ensures |r| == |steps|
  {
    if steps == [] then [] else [Render(steps[0])] + Renders(steps[1..])
  }

  function XPathSteps(steps: seq<Step>): (r: seq<string>)
    ensures |r| == |steps|
  {
    if steps == [] then [] else [XPathStep(steps[0])] + XPathSteps(steps[1..])
  }

  lemma {:induction false} RendersAt(steps: seq<Step>, k: nat)
    requires k < |steps|
    ensures Renders(steps)[k] == Render(steps[k])
  {
    if k > 0 { RendersAt(steps[1..], k - 1); }
  }

  lemma {:induction false} NormalizeRenders(steps: seq<Step>)
    requires forall k :: 0 <= k < |steps| ==> WellFormed(steps[k])
    ensures NormalizeParts(Renders(steps)) == Some(XPathSteps(steps))
  {
    if steps != [] {
      var st := steps[0];
      assert WellFormed(st);
      ParseRender(st);
      assert Render(st) != "" by {
        if st.Indexed? { assert Render(st)[|st.name|] == '['; }
      }
      NormalizeRenders(steps[1..]);
      assert Renders(steps)[1..] == Renders(steps[1..]);
    }
  }

  /** A well-formed step is written without a separator. */
  lemma {:induction false} RenderNoSlash(st: Step)
    requires WellFormed(st)
    ensures '/' !in Render(st)
  {
    if st.Indexed? {
      IntToStringChars(st.index);
      var n, d := st.name, IntToString(st.index);
      var tail := "[" + d + "]";
      assert Render(st) == n + tail;
      assert forall j :: 0 <= j < |tail| ==> tail[j] == '[' || tail[j] == ']' || tail[j] in d;
    }
  }

  /** A path written from well-formed steps normalises to the XPath steps
      of exactly those steps, in order. */
  lemma {:induction false} NormalizeRendered(steps: seq<Step>)
    requires |steps| >= 1
    requires forall k :: 0 <= k < |steps| ==> WellFormed(steps[k])
    ensures NormalizeXpath(Join(Renders(steps), "/")) == Some("//" + Join(XPathSteps(steps), "/"))
  {
    forall k | 0 <= k < |Renders(steps)| ensures '/' !in Renders(steps)[k] {
      RendersAt(steps, k);
      RenderNoSlash(steps[k]);
    }
    SplitJoin(Renders(steps), '/');
    NormalizeRenders(steps);
  }

  /** Empty segments are skipped, so a leading `/` changes nothing. */
  lemma {:induction false} NormalizeLeadingSlash(path: string)
    ensures NormalizeXpath("/" + path) == NormalizeXpath(path)
  {
    SplitPrefix("", path, '/');
    assert "" + ['/'] + path == "/" + path;
  }
}
