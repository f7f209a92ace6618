/** Flattening an invoice tree into spreadsheet rows, as
    `ExcelXmlManager.export_xml_to_excel` prepares them: one row
    (path, value, description, row number) per element that carries a value
    or matters on its own, one per attribute, in document order. */
module ExcelExport {
  import opened Wrappers
  import opened Text
  import opened XmlTree
  import opened OrderedDict

  /** The local name of a tag: the piece after the first `}` (up to a
      second one, as `split("}")[1]` cuts), or the tag itself. */
  function TagName(tag: string): (r: string)
    ensures '}' !in tag ==> r == tag
    ensures '}' !in r
  {
    if '}' in tag then SplitAtSeparator(tag, '}'); Split(tag, '}')[1] else tag
  }

  /** A tag in Clark notation `{uri}local` loses exactly its namespace part. */
  lemma {:induction false} ClarkLocalName(uri: string, local: string)
    requires '}' !in uri && '}' !in local
    ensures TagName("{" + uri + "}" + local) == local
  {
    var tag := "{" + uri + "}" + local;
    assert tag == ("{" + uri) + ['}'] + local;
    assert '}' !in "{" + uri;
    SplitPrefix("{" + uri, local, '}');
    SplitNoSep(local, '}');
  }

  /** The description column, keyed by local tag name. */
  const Descriptions: Dict<string> := [
    ("FatturaElettronica", "Documento principale della fattura elettronica"),
    ("FatturaElettronicaHeader", "Intestazione della fattura"),
    ("DatiTrasmissione", "Dati trasmissione verso SDI"),
    ("IdTrasmittente", "Identificativo del trasmittente"),
    ("IdPaese", "Codice ISO del paese"),
    ("IdCodice", "Codice identificativo fiscale"),
    ("ProgressivoInvio", "Numero progressivo di invio"),
    ("FormatoTrasmissione", "Formato trasmissione (FPR12, FPA12)"),
    ("CodiceDestinatario", "Codice destinatario SDI"),
    ("CedentePrestatore", "Fornitore"),
    ("CessionarioCommittente", "Cliente"),
    ("DatiAnagrafici", "Dati anagrafici"),
    ("IdFiscaleIVA", "Identificativo fiscale IVA"),
    ("CodiceFiscale", "Codice fiscale"),
    ("Anagrafica", "Dati anagrafici"),
    ("Denominazione", "Denominazione o ragione sociale"),
    ("Nome", "Nome persona fisica"),
    ("Cognome", "Cognome persona fisica"),
    ("RegimeFiscale", "Regime fiscale"),
    ("Sede", "Sede legale o amministrativa"),
    ("Indirizzo", "Indirizzo"),
    ("NumeroCivico", "Numero civico"),
    ("CAP", "Codice Avviamento Postale"),
    ("Comune", "Comune"),
    ("Provincia", "Provincia (sigla)"),
    ("Nazione", "Nazione (codice ISO)"),
    ("FatturaElettronicaBody", "Corpo della fattura"),
    ("DatiGenerali", "Dati generali del documento"),
    ("DatiGeneraliDocumento", "Dati generali documento"),
    ("TipoDocumento", "Tipo documento (TD01, TD02, ...)"),
    ("Divisa", "Valuta del documento"),
    ("Data", "Data del documento"),
    ("Numero", "Numero del documento"),
    ("ImportoTotaleDocumento", "Importo totale del documento"),
    ("DatiBeniServizi", "Dati relativi ai beni/servizi"),
    ("DettaglioLinee", "Dettaglio linee del documento"),
    ("NumeroLinea", "Numero progressivo della linea"),
    ("Descrizione", "Descrizione della linea"),
    ("Quantita", "Quantit\U{E0}"),
    ("UnitaMisura", "Unit\U{E0} di misura"),
    ("PrezzoUnitario", "Prezzo unitario"),
    ("PrezzoTotale", "Prezzo totale"),
    ("AliquotaIVA", "Aliquota IVA"),
    ("DatiRiepilogo", "Dati di riepilogo"),
    ("ImponibileImporto", "Imponibile"),
    ("Imposta", "Imposta"),
    ("EsigibilitaIVA", "Esigibilit\U{E0} IVA"),
    ("DatiPagamento", "Dati del pagamento"),
    ("CondizioniPagamento", "Condizioni di pagamento"),
    ("DettaglioPagamento", "Dettaglio del pagamento"),
    ("ModalitaPagamento", "Modalit\U{E0} di pagamento"),
    ("DataScadenzaPagamento", "Data scadenza pagamento"),
    ("ImportoPagamento", "Importo del pagamento")
  ]

  /** `descriptions.get(tag, "")` over a description table; the rows below
      take the table as a parameter and the export passes `Descriptions`. */
  function Describe(table: Dict<string>, tag: string): string
  {
    match Get(table, tag)
    case None => ""
    case Some(d) => d
  }

  /** `_get_description_for_tag`. */
  function DescriptionForTag(tag: string): string
  {
    Describe(Descriptions, tag)
  }

  /** A sheet row before it is given a row number. */
  datatype Entry = Entry(path: string, value: string, description: string)

  /** A sheet row: the tuple (percorso_tag, valore, descrizione, riga). */
  datatype Row = Row(path: string, value: string, description: string, row: int)

  /** Rows numbered consecutively from `start`. */
  function NumberFrom(es: seq<Entry>, start: int): (rows: seq<Row>)
    ensures |rows| == |es|
  {
    if es == [] then []
    else [Row(es[0].path, es[0].value, es[0].description, start)] + NumberFrom(es[1..], start + 1)
  }

  function Numbered(es: Option<seq<Entry>>, start: int): Option<seq<Row>>
  {
    match es
    case None => None
    case Some(s) => Some(NumberFrom(s, start))
  }

  /** `f"{parent_path}/{tag}" if parent_path else tag`. */
  function CurrentPath(parentPath: string, tag: string): string
  {
    if parentPath != "" then parentPath + "/" + tag else tag
  }

  /** The text, or "" when it is missing or blank. */
  function NodeText(n: Node): string
  {
    if Strip(n.text) != "" then n.text else ""
  }

  /** The node gets a row of its own: it has a value, no children, or is a
      line or summary block. */
  predicate EmitsOwnRow(n: Node)
  {
    NodeText(n) != "" || |n.children| == 0
    || TagName(n.tag) == "DettaglioLinee" || TagName(n.tag) == "DatiRiepilogo"
  }

  function AttrEntries(attrs: seq<(string, string)>, cp: string, tag: string): (es: seq<Entry>)
    ensures |es| == |attrs|
    ensures forall k :: 0 <= k < |attrs| ==>
      es[k] == Entry(cp + "/@" + attrs[k].0, attrs[k].1, "Attributo di " + tag)
  {
    seq(|attrs|, k requires 0 <= k < |attrs| =>
      Entry(cp + "/@" + attrs[k].0, attrs[k].1, "Attributo di " + tag))
  }

  /** The rows a node produces before those of its children. */
  function OwnEntries(n: Node, cp: string, table: Dict<string>): seq<Entry>
  {
    var tag := TagName(n.tag);
    (if EmitsOwnRow(n) then [Entry(cp, NodeText(n), Describe(table, tag))] else [])
    + AttrEntries(n.attrs, cp, tag)
  }

  /** The index written into a line's path: the text of its `NumeroLinea`
      child (printed as "None" when that element is empty), or "?". */
  function LineIndexText(line: Node): string
  {
    match FindChild(line.children, "NumeroLinea")
    case None => "?"
    case Some(j) => if line.children[j].text == "" then "None" else line.children[j].text
  }

  /** The parent path handed to child `i`; None where `siblings.index`
      raises, a namespaced child among repeated un-namespaced siblings. */
  function ChildPath(n: Node, cp: string, i: nat): (r: Option<string>)
    requires i < |n.children|
    ensures r.Some? ==> StartsWith(r.value, cp)
    ensures r.None? <==>
      (TagName(n.children[i].tag) != "DettaglioLinee"
       && CountTag(n.children, TagName(n.children[i].tag)) > 1
       && n.children[i].tag != TagName(n.children[i].tag))
  {
    var ct := TagName(n.children[i].tag);
    if ct == "DettaglioLinee" then Some(cp + "[" + LineIndexText(n.children[i]) + "]")
    else if CountTag(n.children, ct) > 1 then
      if n.children[i].tag == ct then Some(cp + "[" + NatToString(CountTag(n.children[..i], ct) + 1) + "]")
      else None
    else Some(cp)
  }

  /** The rows of a subtree, in document order, before numbering; None when
      a child path cannot be built. */
  function Entries(n: Node, parentPath: string, table: Dict<string>): Option<seq<Entry>>
    decreases n, |n.children| + 1
  {
    var cp := CurrentPath(parentPath, TagName(n.tag));
    match ChildrenEntries(n, cp, |n.children|, table)
    case None => None
    case Some(cs) => Some(OwnEntries(n, cp, table) + cs)
  }

  /** The rows of the first `m` children of `n`, whose own path is `cp`. */
  function ChildrenEntries(n: Node, cp: string, m: nat, table: Dict<string>): Option<seq<Entry>>
    requires m <= |n.children|
    decreases n, m
  {
    if m == 0 then Some([])
    else match ChildrenEntries(n, cp, m - 1, table)
      case None => None
      case Some(pre) =>
        match ChildEntries(n, cp, m - 1, table)
        case None => None
        case Some(e) => Some(pre + e)
  }

  /** The rows of child `i` under its parent path; None when the path or
      the child's rows cannot be built. */
  function ChildEntries(n: Node, cp: string, i: nat, table: Dict<string>): Option<seq<Entry>>
    requires i < |n.children|
    decreases n, 0
  {
    match ChildPath(n, cp, i)
    case None => None
    case Some(p) => Entries(n.children[i], p, table)
  }

  /** `max(r[3] for r in rows)`. */
  function MaxRow(rows: seq<Row>): int
    requires rows != []
  {
    if |rows| == 1 then rows[0].row
    else var m := MaxRow(rows[1..]); if rows[0].row > m then rows[0].row else m
  }

  lemma {:induction false} MaxRowNumbered(es: seq<Entry>, start: int)
    requires es != []
    ensures MaxRow(NumberFrom(es, start)) == start + |es| - 1
  {
    if |es| > 1 {
      assert NumberFrom(es, start)[1..] == NumberFrom(es[1..], start + 1);
      MaxRowNumbered(es[1..], start + 1);
    }
  }

  lemma {:induction false} NumberFromAt(es: seq<Entry>, start: int, i: nat)
    requires i < |es|
    ensures NumberFrom(es, start)[i] == Row(es[i].path, es[i].value, es[i].description, start + i)
  {
    if i > 0 { NumberFromAt(es[1..], start + 1, i - 1); }
  }

  /** The numbered rows count up by one from `start`. */
  lemma {:induction false} NumberFromRows(es: seq<Entry>, start: int)
    ensures forall i :: 0 <= i < |es| ==> NumberFrom(es, start)[i].row == start + i
  {
    forall i | 0 <= i < |es| ensures NumberFrom(es, start)[i].row == start + i {
      NumberFromAt(es, start, i);
    }
  }

  lemma {:induction false} RowsCombine(oe: seq<Entry>, cs: seq<Entry>, own: seq<Row>, cr: seq<Row>, start: int, next: int)
    requires own == NumberFrom(oe, start) && cr == NumberFrom(cs, next) && next == start + |oe|
    ensures own + cr == NumberFrom(oe + cs, start)
  {
    NumberFromAppend(oe, cs, start);
  }

  lemma {:induction false} NumberFromOne(x: Entry, start: int)
    ensures NumberFrom([x], start) == [Row(x.path, x.value, x.description, start)]
  {
    assert [x][1..] == [];
  }

  lemma {:induction false} NumberFromAppend(a: seq<Entry>, b: seq<Entry>, start: int)
    ensures NumberFrom(a, start) + NumberFrom(b, start + |a|) == NumberFrom(a + b, start)
  {
    var l := NumberFrom(a, start) + NumberFrom(b, start + |a|);
    var r := NumberFrom(a + b, start);
    forall i | 0 <= i < |r| ensures l[i] == r[i] {
      NumberFromAt(a + b, start, i);
      if i < |a| {
        NumberFromAt(a, start, i);
      } else {
        NumberFromAt(b, start + |a|, i - |a|);
      }
    }
  }

  /** `_extract_nodes(node, parent_path, start_row)`. */
  method ExtractNodes(node: Node, parentPath: string, startRow: int, table: Dict<string>) returns (rows: Option<seq<Row>>)
    decreases node, 2
    ensures rows == Numbered(Entries(node, parentPath, table), startRow)
    ensures rows.Some? ==> |rows.value| >= 1
    ensures rows.Some? ==> forall i :: 0 <= i < |rows.value| ==> rows.value[i].row == startRow + i
  {
    var tag := TagName(node.tag);
    var currentPath := if parentPath != "" then parentPath + "/" + tag else tag;
    var own := OwnRows(node, currentPath, startRow, table);
    var next := startRow + |own|;
    var children := ChildRows(node, currentPath, next, table);
    assert currentPath == CurrentPath(parentPath, TagName(node.tag));
    if children.None? {
      assert Entries(node, parentPath, table).None?;
      rows := None;
    } else {
      ghost var cs := ChildrenEntries(node, currentPath, |node.children|, table).value;
      ghost var oe := OwnEntries(node, currentPath, table);
      assert children.value == NumberFrom(cs, next);
      assert own == NumberFrom(oe, startRow);
      assert next == startRow + |oe|;
      assert Entries(node, parentPath, table) == Some(oe + cs);
      RowsCombine(oe, cs, own, children.value, startRow, next);
      rows := Some(own + children.value);
      EntriesNonEmpty(node, parentPath, table);
      NumberFromRows(OwnEntries(node, currentPath, table) + cs, startRow);
    }
  }

  /** The rows `export_xml_to_excel` writes below the header row: those of
      the whole document from row 2, described from `Descriptions`; None
      where the export fails. */
  method SheetRows(root: Node) returns (rows: Option<seq<Row>>)
    ensures rows == Numbered(Entries(root, "", Descriptions), 2)
    ensures rows.Some? ==> |rows.value| >= 1 && rows.value[0].row == 2
  {
    rows := ExtractNodes(root, "", 2, Descriptions);
  }

  /** The node's own row, when it gets one, and its attribute rows. */
  method OwnRows(node: Node, currentPath: string, startRow: int, table: Dict<string>) returns (acc: seq<Row>)
    ensures acc == NumberFrom(OwnEntries(node, currentPath, table), startRow)
  {
    var tag := TagName(node.tag);
    var text := if Strip(node.text) != "" then node.text else "";
    var description := Describe(table, tag);
    acc := [];
    var currentRow := startRow;
    ghost var own: seq<Entry> := [];
    if text != "" || |node.children| == 0 || tag == "DettaglioLinee" || tag == "DatiRiepilogo" {
      acc := [Row(currentPath, text, description, currentRow)];
      own := [Entry(currentPath, text, description)];
      NumberFromOne(own[0], startRow);
      currentRow := currentRow + 1;
    }
    assert own + AttrEntries(node.attrs[..0], currentPath, tag) == own;
    var k := 0;
    while k < |node.attrs|
      invariant k <= |node.attrs|
      invariant acc == NumberFrom(own + AttrEntries(node.attrs[..k], currentPath, tag), startRow)
      invariant currentRow == startRow + |acc|
    {
      var (name, value) := node.attrs[k];
      ghost var before := AttrEntries(node.attrs[..k], currentPath, tag);
      ghost var x := Entry(currentPath + "/@" + name, value, "Attributo di " + tag);
      assert AttrEntries(node.attrs[..k + 1], currentPath, tag) == before + [x];
      var row := Row(currentPath + "/@" + name, value, "Attributo di " + tag, currentRow);
      NumberFromOne(x, currentRow);
      RowsCombine(own + before, [x], acc, [row], startRow, currentRow);
      assert own + (before + [x]) == (own + before) + [x];
      acc := acc + [row];
      currentRow := currentRow + 1;
      k := k + 1;
    }
    assert node.attrs[..k] == node.attrs;
  }

  /** The rows of the children, each numbered after the rows before it. */
  method ChildRows(node: Node, currentPath: string, startRow: int, table: Dict<string>) returns (rows: Option<seq<Row>>)
    decreases node, 1
    ensures rows.Some? <==> ChildrenEntries(node, currentPath, |node.children|, table).Some?
    ensures rows.Some? ==> rows.value == NumberFrom(ChildrenEntries(node, currentPath, |node.children|, table).value, startRow)
  {
    var acc: seq<Row> := [];
    var currentRow := startRow;
    var i := 0;
    ghost var pre: seq<Entry> := [];
    while i < |node.children|
      invariant i <= |node.children|
      invariant ChildrenEntries(node, currentPath, i, table) == Some(pre)
      invariant acc == NumberFrom(pre, startRow)
      invariant currentRow == startRow + |acc|
    {
      var childRows := ChildAt(node, currentPath, i, currentRow, table);
      if childRows.None? {
        ChildFailure(node, currentPath, i, table, pre);
        return None;
      }
      ghost var e := ChildEntries(node, currentPath, i, table).value;
      ChildRowsStep(node, currentPath, i, table, pre, e, acc, childRows.value, startRow, currentRow);
      acc := acc + childRows.value;
      if |childRows.value| > 0 {
        currentRow := MaxRow(childRows.value) + 1;
      }
      pre := pre + e;
      i := i + 1;
    }
    rows := Some(acc);
  }

  /** The path of the i-th child and its rows from `currentRow`; None when
      either raises. */
  method ChildAt(node: Node, currentPath: string, i: nat, currentRow: int, table: Dict<string>) returns (childRows: Option<seq<Row>>)
    requires i < |node.children|
    decreases node, 0
    ensures childRows == Numbered(ChildEntries(node, currentPath, i, table), currentRow)
  {
    var childPath := ChildPath(node, currentPath, i);
    if childPath.None? {
      return None;
    }
    childRows := ExtractNodes(node.children[i], childPath.value, currentRow, table);
  }

  /** One more child whose path and rows can be built extends the rows. */
  lemma {:induction false} ChildRowsStep(n: Node, cp: string, i: nat, table: Dict<string>, pre: seq<Entry>, e: seq<Entry>,
                                         acc: seq<Row>, cr: seq<Row>, startRow: int, currentRow: int)
    requires i < |n.children| && ChildrenEntries(n, cp, i, table) == Some(pre)
    requires ChildEntries(n, cp, i, table) == Some(e)
    requires acc == NumberFrom(pre, startRow) && currentRow == startRow + |acc| && cr == NumberFrom(e, currentRow)
    ensures ChildrenEntries(n, cp, i + 1, table) == Some(pre + e)
    ensures acc + cr == NumberFrom(pre + e, startRow)
    ensures (if |cr| > 0 then MaxRow(cr) + 1 else currentRow) == startRow + |acc + cr|
  {
    RowsCombine(pre, e, acc, cr, startRow, currentRow);
    if cr != [] {
      MaxRowNumbered(e, currentRow);
    }
  }

  /** A child whose path or rows cannot be built fails the whole list. */
  lemma {:induction false} ChildFailure(n: Node, cp: string, i: nat, table: Dict<string>, pre: seq<Entry>)
    requires i < |n.children| && ChildrenEntries(n, cp, i, table) == Some(pre)
    requires ChildEntries(n, cp, i, table).None?
    ensures ChildrenEntries(n, cp, |n.children|, table).None?
  {
    ChildrenFailure(n, cp, i + 1, |n.children|, table);
  }

  /** Once a child fails, so does the whole list: the exception propagates. */
  lemma {:induction false} ChildrenFailure(n: Node, cp: string, i: nat, m: nat, table: Dict<string>)
    requires i <= m <= |n.children| && ChildrenEntries(n, cp, i, table).None?
    decreases m - i
    ensures ChildrenEntries(n, cp, m, table).None?
  {
    if i < m {
      ChildrenFailure(n, cp, i + 1, m, table);
    }
  }

  /** Every subtree yields at least one row. */
  lemma {:induction false} EntriesNonEmpty(n: Node, parentPath: string, table: Dict<string>)
    decreases n, 1
    ensures Entries(n, parentPath, table).Some? ==> |Entries(n, parentPath, table).value| >= 1
  {
    var cp := CurrentPath(parentPath, TagName(n.tag));
    if !EmitsOwnRow(n) {
      ChildrenNonEmpty(n, cp, |n.children|, table);
    }
  }

  lemma {:induction false} ChildrenNonEmpty(n: Node, cp: string, m: nat, table: Dict<string>)
    requires 0 < m <= |n.children|
    decreases n, 0
    ensures ChildrenEntries(n, cp, m, table).Some? ==> |ChildrenEntries(n, cp, m, table).value| >= 1
  {
    if ChildrenEntries(n, cp, m, table).Some? {
      assert ChildEntries(n, cp, m - 1, table).Some?;
      EntriesNonEmpty(n.children[m - 1], ChildPath(n, cp, m - 1).value, table);
    }
  }

  /** Every tag has a non-empty local name, as lxml requires of elements. */
  predicate NamedTags(n: Node)
    decreases n
  {
    TagName(n.tag) != "" && forall i :: 0 <= i < |n.children| ==> NamedTags(n.children[i])
  }

  /** Every row path lies strictly under `cp`. */
  predicate Below(es: seq<Entry>, cp: string)
  {
    forall k :: 0 <= k < |es| ==> StartsWith(es[k].path, cp) && |es[k].path| > |cp|
  }

  lemma {:induction false} BelowAppend(a: seq<Entry>, b: seq<Entry>, cp: string)
    requires Below(a, cp) && Below(b, cp)
    ensures Below(a + b, cp)
  {
    forall k | 0 <= k < |a + b| ensures StartsWith((a + b)[k].path, cp) && |(a + b)[k].path| > |cp| {
      if k < |a| { assert (a + b)[k] == a[k]; } else { assert (a + b)[k] == b[k - |a|]; }
    }
  }

  lemma {:induction false} AttrBelow(attrs: seq<(string, string)>, cp: string, tag: string)
    ensures Below(AttrEntries(attrs, cp, tag), cp)
  {
    var es := AttrEntries(attrs, cp, tag);
    forall k | 0 <= k < |es| ensures StartsWith(es[k].path, cp) && |es[k].path| > |cp| {
      assert es[k].path == cp + "/@" + attrs[k].0;
      assert (cp + "/@" + attrs[k].0)[..|cp|] == cp;
    }
  }

  /** Every row path starts with `cp`. */
  predicate Under(es: seq<Entry>, cp: string)
  {
    forall k :: 0 <= k < |es| ==> StartsWith(es[k].path, cp)
  }

  /** A node's rows are its own rows followed by its children's. */
  lemma {:induction false} EntriesShape(n: Node, parentPath: string, table: Dict<string>)
    ensures var cp := CurrentPath(parentPath, TagName(n.tag));
      (Entries(n, parentPath, table).Some? <==> ChildrenEntries(n, cp, |n.children|, table).Some?)
      && (Entries(n, parentPath, table).Some? ==>
            Entries(n, parentPath, table).value
            == OwnEntries(n, cp, table) + ChildrenEntries(n, cp, |n.children|, table).value)
  {
  }

  lemma {:induction false} OwnUnder(n: Node, cp: string, table: Dict<string>)
    ensures Under(OwnEntries(n, cp, table), cp)
  {
    var tag := TagName(n.tag);
    var own: seq<Entry> := if EmitsOwnRow(n) then [Entry(cp, NodeText(n), Describe(table, tag))] else [];
    var attrs := AttrEntries(n.attrs, cp, tag);
    AttrBelow(n.attrs, cp, tag);
    assert OwnEntries(n, cp, table) == own + attrs;
    forall k | 0 <= k < |own + attrs| ensures StartsWith((own + attrs)[k].path, cp) {
      if k < |own| { assert (own + attrs)[k].path == cp; } else { assert (own + attrs)[k] == attrs[k - |own|]; }
    }
  }

  lemma {:induction false} UnderAppend(a: seq<Entry>, b: seq<Entry>, cp: string)
    requires Under(a, cp) && Below(b, cp)
    ensures Under(a + b, cp)
  {
    forall k | 0 <= k < |a + b| ensures StartsWith((a + b)[k].path, cp) {
      if k < |a| { assert (a + b)[k] == a[k]; } else { assert (a + b)[k] == b[k - |a|]; }
    }
  }

  /** The rows of a subtree all have paths that start with the subtree's path. */
  lemma {:induction false} EntriesUnder(n: Node, parentPath: string, table: Dict<string>)
    requires NamedTags(n)
    decreases n, |n.children| + 1
    ensures Entries(n, parentPath, table).Some? ==>
      Under(Entries(n, parentPath, table).value, CurrentPath(parentPath, TagName(n.tag)))
  {
    var cp := CurrentPath(parentPath, TagName(n.tag));
    EntriesShape(n, parentPath, table);
    if ChildrenEntries(n, cp, |n.children|, table).Some? {
      ChildrenBelow(n, cp, |n.children|, table);
      OwnUnder(n, cp, table);
      UnderAppend(OwnEntries(n, cp, table), ChildrenEntries(n, cp, |n.children|, table).value, cp);
    }
  }

  lemma {:induction false} CurrentPathExtends(p: string, tag: string)
    requires tag != ""
    ensures StartsWith(CurrentPath(p, tag), p) && |CurrentPath(p, tag)| > |p|
  {
    if p != "" { assert CurrentPath(p, tag)[..|p|] == p; }
  }

  /** The rows of the children lie strictly under the parent's path. */
  lemma {:induction false} ChildrenBelow(n: Node, cp: string, m: nat, table: Dict<string>)
    requires m <= |n.children| && forall i :: 0 <= i < |n.children| ==> NamedTags(n.children[i])
    decreases n, m
    ensures ChildrenEntries(n, cp, m, table).Some? ==> Below(ChildrenEntries(n, cp, m, table).value, cp)
  {
    if m > 0 && ChildrenEntries(n, cp, m, table).Some? {
      ChildrenBelow(n, cp, m - 1, table);
      var pre := ChildrenEntries(n, cp, m - 1, table).value;
      var child := n.children[m - 1];
      var p := ChildPath(n, cp, m - 1).value;
      var e := Entries(child, p, table).value;
      var cp' := CurrentPath(p, TagName(child.tag));
      assert ChildrenEntries(n, cp, m, table).value == pre + e;
      EntriesUnder(child, p, table);
      CurrentPathExtends(p, TagName(child.tag));
      forall k | 0 <= k < |e| ensures StartsWith(e[k].path, cp) && |e[k].path| > |cp| {
        StartsWithTrans(e[k].path, cp', p);
        StartsWithTrans(e[k].path, p, cp);
      }
      BelowAppend(pre, e, cp);
    }
  }

  /** `_extract_nodes` gives a node a row with its own path exactly when it
      has a value, has no children, or is a `DettaglioLinee` or
      `DatiRiepilogo` block; that row comes first and holds the text and
      the description. */
  lemma {:induction false} OwnRowIff(n: Node, parentPath: string, table: Dict<string>)
    requires NamedTags(n) && Entries(n, parentPath, table).Some?
    ensures var es := Entries(n, parentPath, table).value;
      var cp := CurrentPath(parentPath, TagName(n.tag));
      (EmitsOwnRow(n) <==> exists k :: 0 <= k < |es| && es[k].path == cp)
      && (EmitsOwnRow(n) ==> es[0] == Entry(cp, NodeText(n), Describe(table, TagName(n.tag))))
  {
    var tag := TagName(n.tag);
    var cp := CurrentPath(parentPath, tag);
    var cs := ChildrenEntries(n, cp, |n.children|, table).value;
    var attrs := AttrEntries(n.attrs, cp, tag);
    var own: seq<Entry> := if EmitsOwnRow(n) then [Entry(cp, NodeText(n), Describe(table, tag))] else [];
    EntriesShape(n, parentPath, table);
    var es := Entries(n, parentPath, table).value;
    if EmitsOwnRow(n) {
      assert OwnEntries(n, cp, table)[0] == own[0];
      assert es[0] == OwnEntries(n, cp, table)[0];
    } else {
      assert OwnEntries(n, cp, table) == attrs;
      ChildrenBelow(n, cp, |n.children|, table);
      AttrBelow(n.attrs, cp, tag);
      BelowAppend(attrs, cs, cp);
    }
  }

  /** After the node's own row come its attributes, one row each, in
      attribute order, with path `<path>/@<name>`. */
  lemma {:induction false} AttributeRows(n: Node, parentPath: string, table: Dict<string>, k: nat)
    requires k < |n.attrs| && Entries(n, parentPath, table).Some?
    ensures var es := Entries(n, parentPath, table).value;
      var cp := CurrentPath(parentPath, TagName(n.tag));
      var o := if EmitsOwnRow(n) then 1 else 0;
      o + k < |es|
      && es[o + k] == Entry(cp + "/@" + n.attrs[k].0, n.attrs[k].1, "Attributo di " + TagName(n.tag))
  {
    var cp := CurrentPath(parentPath, TagName(n.tag));
    var own := if EmitsOwnRow(n) then [Entry(cp, NodeText(n), Describe(table, TagName(n.tag)))] else [];
    var attrs := AttrEntries(n.attrs, cp, TagName(n.tag));
    var cs := ChildrenEntries(n, cp, |n.children|, table).value;
    assert Entries(n, parentPath, table).value == (own + attrs) + cs;
    assert ((own + attrs) + cs)[|own| + k] == attrs[k];
  }

  lemma {:induction false} BracketInjective(cp: string, x: string, y: string)
    requires x != y
    ensures cp + "[" + x + "]" != cp + "[" + y + "]"
  {
    var s1 := cp + "[" + x + "]";
    var s2 := cp + "[" + y + "]";
    if |x| == |y| {
      assert s1[|cp| + 1..|cp| + 1 + |x|] == x;
      assert s2[|cp| + 1..|cp| + 1 + |y|] == y;
    } else {
      assert |s1| != |s2|;
    }
  }

  /** Repeated un-namespaced siblings get indices `[1]`, `[2]`, ... in
      document order, within the number of such siblings, so their paths
      differ. */
  lemma {:induction false} SiblingPathsDistinct(n: Node, cp: string, i: nat, j: nat)
    requires i < j < |n.children|
    requires n.children[i].tag == n.children[j].tag
    requires '}' !in n.children[i].tag && n.children[i].tag != "DettaglioLinee"
    ensures var t := n.children[i].tag;
      1 <= CountTag(n.children[..i], t) + 1 < CountTag(n.children[..j], t) + 1 <= CountTag(n.children, t)
    ensures ChildPath(n, cp, i).Some? && ChildPath(n, cp, j).Some?
    ensures ChildPath(n, cp, i) != ChildPath(n, cp, j)
  {
    var t := n.children[i].tag;
    var a := CountTag(n.children[..i], t) + 1;
    var b := CountTag(n.children[..j], t) + 1;
    assert a < b <= CountTag(n.children, t) by {
      SiblingCounts(n.children, i, j, t);
    }
    assert TagName(t) == t;
    assert ChildPath(n, cp, i) == Some(cp + "[" + NatToString(a) + "]");
    assert ChildPath(n, cp, j) == Some(cp + "[" + NatToString(b) + "]");
    assert NatToString(a) != NatToString(b) by {
      NatToStringValue(a);
      NatToStringValue(b);
    }
    BracketInjective(cp, NatToString(a), NatToString(b));
  }

}
