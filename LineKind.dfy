/** What kind of child of DatiBeniServizi a node is: a detail line
    (DettaglioLinee), and among the lines the CONAI contribution line; and
    the two lines the editor creates. */
module LineKind {
  import opened Wrappers
  import opened Text
  import opened XmlTree
  import opened Partition

  const LineTag: string := "DettaglioLinee"
  const SummaryTag: string := "DatiRiepilogo"
  const NumberTag: string := "NumeroLinea"
  const DescriptionTag: string := "Descrizione"
  const ConaiDescription: string := "CONTRIBUTO CONAI ASSOLTO"

  predicate IsLine(n: Node) { n.tag == LineTag }

  /** The tags the line operations tell apart are different strings. */
  lemma {:induction false} TagsDistinct()
    ensures LineTag != SummaryTag && NumberTag != DescriptionTag
  {
    assert LineTag[1] != SummaryTag[1];
    assert NumberTag[0] != DescriptionTag[0];
  }

  /** The editor's CONAI test: the first Descrizione child has a non-empty
      text whose upper-cased form contains the CONAI description. */
  predicate HasConaiDescription(n: Node)
  {
    match ChildText(n, DescriptionTag)
      case None => false
      case Some(t) => t != "" && Contains(Upper(t), ConaiDescription)
  }

  predicate IsConaiLine(n: Node) { IsLine(n) && HasConaiDescription(n) }

  predicate IsNormalLine(n: Node) { IsLine(n) && !HasConaiDescription(n) }

  function KindOf(n: Node): (k: Kind)
    ensures k == Other <==> !IsLine(n)
    ensures k == Normal <==> IsNormalLine(n)
    ensures k == Conai <==> IsConaiLine(n)
  {
    if !IsLine(n) then Other else if HasConaiDescription(n) then Conai else Normal
  }

  /** The line `add_line` creates (its number is set by the renumbering). */
  function DefaultLine(): Node
  {
    Node(LineTag, "", "", [], [
      Leaf(NumberTag, "0"), Leaf(DescriptionTag, "Nuovo articolo"), Leaf("Quantita", "1.0000000"),
      Leaf("UnitaMisura", "NR"), Leaf("PrezzoUnitario", "0.0000000"),
      Leaf("PrezzoTotale", "0.0000000"), Leaf("AliquotaIVA", "22.00")])
  }

  /** The line `add_conai_line` creates. */
  function ConaiLine(): Node
  {
    Node(LineTag, "", "", [], [
      Leaf(NumberTag, "0"), Leaf(DescriptionTag, ConaiDescription),
      Leaf("PrezzoUnitario", "0.0000000"), Leaf("PrezzoTotale", "0.0000000"),
      Leaf("AliquotaIVA", "22.00")])
  }

  /** Both created lines carry their description in the second child. */
  lemma {:induction false} SecondChildIsDescription(n: Node)
    requires n == DefaultLine() || n == ConaiLine()
    ensures ChildText(n, DescriptionTag) == Some(n.children[1].text)
  {
    assert NumberTag[0] != DescriptionTag[0];
    FindChildSecond(n.children, DescriptionTag);
  }

  lemma {:induction false} DefaultLineIsNormal()
    ensures KindOf(DefaultLine()) == Normal
  {
    var t := "Nuovo articolo";
    SecondChildIsDescription(DefaultLine());
    assert |t| == 14;
    assert '\U{DF}' !in t;
    UpperLength(t);
    if Contains(Upper(t), ConaiDescription) { ContainsLength(Upper(t), ConaiDescription); }
  }

  lemma {:induction false} ConaiLineIsConai()
    ensures KindOf(ConaiLine()) == Conai
  {
    SecondChildIsDescription(ConaiLine());
    ConaiDescriptionIsUpper();
    ContainsSelf(ConaiDescription);
  }

  lemma {:induction false} ConaiDescriptionIsUpper()
    ensures Upper(ConaiDescription) == ConaiDescription
  {
    UpperOfCapitals(ConaiDescription);
  }
}
