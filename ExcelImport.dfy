/** Reading the `dati` sheet back (`_extract_excel_data`) and building a
    new invoice from its path/value pairs (`_create_xml_from_excel`). */
module ExcelImport {
  import opened Wrappers
  import opened XmlTree
  import opened Text
  import opened OrderedDict
  import opened Sorting
  import opened XmlBuild

  /** Columns A and B of one sheet row from row 2 on; None is an empty cell. */
  datatype SheetRow = SheetRow(tagPath: Option<string>, value: Option<string>)

  /** An empty value cell is read as "". */
  function CellText(v: Option<string>): string
  {
    match v
    case None => ""
    case Some(s) => s
  }

  /** One iteration of the row loop: a row with an empty path is skipped,
      any other assigns its value to its path. */
  function LoadRow(d: Dict<string>, row: SheetRow): Dict<string>
  {
    match row.tagPath
    case None => d
    case Some(p) => if p == "" then d else Set(d, p, CellText(row.value))
  }

  /** The dictionary `_extract_excel_data` returns, in insertion order. */
  function ExcelData(rows: seq<SheetRow>): Dict<string>
    decreases |rows|
  {
    if rows == [] then [] else LoadRow(ExcelData(rows[..|rows| - 1]), rows[|rows| - 1])
  }

  /** `_extract_excel_data(sheet)` over the rows of the sheet. */
  method ExtractExcelData(rows: seq<SheetRow>) returns (data: Dict<string>)
    ensures data == ExcelData(rows)
  {
    data := [];
    for i := 0 to |rows|
      invariant data == ExcelData(rows[..i])
    {
      assert rows[..i + 1][..i] == rows[..i];
      var row := rows[i];
      if row.tagPath.Some? && row.tagPath.value != "" {
        var value := if row.value.None? then "" else row.value.value;
        data := Set(data, row.tagPath.value, value);
      }
    }
    assert rows[..|rows|] == rows;
  }

  /** The value of the last row whose path is `p`. */
  function LastValue(rows: seq<SheetRow>, p: string): Option<string>
    decreases |rows|
  {
    if rows == [] then None
    else if rows[|rows| - 1].tagPath == Some(p) then Some(CellText(rows[|rows| - 1].value))
    else LastValue(rows[..|rows| - 1], p)
  }

  /** No row has the path exactly when there is no last such row. */
  lemma {:induction false} LastValueNone(rows: seq<SheetRow>, p: string)
    ensures LastValue(rows, p).None? <==> forall i :: 0 <= i < |rows| ==> rows[i].tagPath != Some(p)
  {
    if rows != [] {
      var pre := rows[..|rows| - 1];
      LastValueNone(pre, p);
      assert forall i :: 0 <= i < |pre| ==> pre[i] == rows[i];
    }
  }

  /** The value read for a path is the one in the last row carrying that
      path; an empty path is never a key. */
  lemma {:induction false} ExcelDataLastWins(rows: seq<SheetRow>, p: string)
    ensures Get(ExcelData(rows), p) == if p == "" then None else LastValue(rows, p)
  {
    if rows != [] {
      ExcelDataLastWins(rows[..|rows| - 1], p);
    }
  }

  /** Each path appears once among the keys. */
  lemma {:induction false} ExcelDataDistinct(rows: seq<SheetRow>)
    ensures DistinctKeys(ExcelData(rows))
  {
    if rows != [] {
      ExcelDataDistinct(rows[..|rows| - 1]);
      var row := rows[|rows| - 1];
      if row.tagPath.Some? && row.tagPath.value != "" {
        SetDistinct(ExcelData(rows[..|rows| - 1]), row.tagPath.value, CellText(row.value));
      }
    }
  }

  /** The keys are exactly the non-empty paths that occur in the sheet. */
  lemma {:induction false} ExcelDataKeys(rows: seq<SheetRow>, p: string)
    ensures p in Keys(ExcelData(rows)) <==> p != "" && exists i :: 0 <= i < |rows| && rows[i].tagPath == Some(p)
  {
    GetNone(ExcelData(rows), p);
    ExcelDataLastWins(rows, p);
    LastValueNone(rows, p);
  }

  /** The namespace `_create_xml_from_excel` puts the new tree in. */
  const FatturaNs := "http://ivaservizi.agenziaentrate.gov.it/docs/xsd/fatture/v1.2"

  /** The root element's name: the first segment of the first key. */
  function RootName(data: Dict<string>): string
    requires data != []
  {
    Split(data[0].0, '/')[0]
  }

  /** The loop `for path, value in sorted(xml_structure.items())` over the
      first paths; None once a write raises. Every path handed in is a key, so
      the lookup does not miss. */
  function WriteAll(root: Node, data: Dict<string>, paths: seq<string>, ns: string): (r: Option<Node>)
    decreases |paths|
    ensures r.Some? ==> r.value.tag == root.tag
  {
    if paths == [] then Some(root)
    else match WriteAll(root, data, paths[..|paths| - 1], ns)
      case None => None
      case Some(t) =>
        match Get(data, paths[|paths| - 1])
        case None => Some(t)
        case Some(v) => WritePath(t, paths[|paths| - 1], v, ns)
  }

  /** One more path written. */
  lemma {:induction false} WriteAllStep(root: Node, data: Dict<string>, paths: seq<string>, i: nat, ns: string)
    requires i < |paths|
    ensures WriteAll(root, data, paths[..i + 1], ns) ==
      match WriteAll(root, data, paths[..i], ns)
      case None => None
      case Some(t) =>
        match Get(data, paths[i])
        case None => Some(t)
        case Some(v) => WritePath(t, paths[i], v, ns)
  {
    assert paths[..i + 1][..i] == paths[..i];
  }

  lemma {:induction false} WriteAllFailure(root: Node, data: Dict<string>, paths: seq<string>, i: nat, ns: string)
    requires i <= |paths| && WriteAll(root, data, paths[..i], ns).None?
    decreases |paths| - i
    ensures WriteAll(root, data, paths, ns).None?
  {
    if i < |paths| {
      assert paths[..i + 1][..i] == paths[..i];
      WriteAllFailure(root, data, paths, i + 1, ns);
    } else {
      assert paths[..i] == paths;
    }
  }

  /** `_create_xml_from_excel(xml_structure)`: None for an empty sheet
      (`next(iter(...))` raises) or when a write raises; otherwise the root
      `{ns}<first segment of the first key>` with every path written in
      sorted order. The keys are distinct, so sorting the items sorts the
      paths. */
  function CreatedXml(data: Dict<string>, ns: string): (r: Option<Node>)
    ensures data == [] ==> r.None?
    ensures r.Some? ==> r.value.tag == NsTag(ns, RootName(data))
  {
    if data == [] then None
    else WriteAll(Leaf(NsTag(ns, RootName(data)), ""), data, Sort(Keys(data)), ns)
  }

  /** The paths are written in Python's string order, each key once. */
  lemma {:induction false} WriteOrder(data: Dict<string>)
    requires DistinctKeys(data)
    ensures Sorted(Sort(Keys(data))) && NoDuplicates(Sort(Keys(data)))
    ensures forall p :: p in Sort(Keys(data)) <==> p in Keys(data)
  {
    var ks := Keys(data);
    assert NoDuplicates(ks) by {
      forall i, j | 0 <= i < j < |ks| ensures ks[i] != ks[j] {
        KeysAt(data, i);
        KeysAt(data, j);
      }
    }
    NoDuplicatesPermutation(ks, Sort(ks));
    forall p ensures p in Sort(ks) <==> p in ks {
      assert p in Sort(ks) <==> p in multiset(Sort(ks));
      assert p in ks <==> p in multiset(ks);
    }
  }

  /** `_create_xml_from_excel` with its loop. */
  method CreateXmlFromExcel(data: Dict<string>, ns: string) returns (r: Option<Node>)
    ensures r == CreatedXml(data, ns)
  {
    if data == [] {
      return None;
    }
    var root := Leaf(NsTag(ns, Split(data[0].0, '/')[0]), "");
    var paths := Sort(Keys(data));
    var cur := root;
    for i := 0 to |paths|
      invariant WriteAll(root, data, paths[..i], ns) == Some(cur)
    {
      WriteAllStep(root, data, paths, i, ns);
      var value := Get(data, paths[i]);
      if value.Some? {
        var next := EnsurePathExists(cur, paths[i], value.value, ns);
        if next.None? {
          WriteAllFailure(root, data, paths, i + 1, ns);
          return None;
        }
        cur := next.value;
      }
    }
    assert paths[..|paths|] == paths;
    r := Some(cur);
  }
}
