/** The dataset builder create_comuni_json.py: the CAP lists gathered from
    the postcode CSV (`get_cap_from_istat`), the CAP chosen for each
    municipality and the merge of the municipality list into the result
    dictionary (`create_comuni_json`), the manual addition of one
    municipality (`add_comuni_manually`) and the shape check of a JSON
    file (`check_json_format`). */
module ComuniJson {
  import opened Wrappers
  import opened OrderedDict
  import opened Sorting

  /** A JSON value as `json.load` returns it; numbers, booleans and null
      are `JOther`. */
  datatype Json = JStr(s: string) | JList(items: seq<Json>) | JObj(fields: Dict<Json>) | JOther

  // ---------------------------------------------------------------- CSV

  /** One `csv.DictReader` row: column name to cell text. */
  type CsvRow = Dict<string>

  /** `row.get(a, '') or row.get(b, '') or ...`: the first non-empty cell
      among the given columns, "" when there is none. */
  function Column(row: CsvRow, names: seq<string>): string
  {
    if names == [] then ""
    else match Get(row, names[0])
      case Some(v) => if v != "" then v else Column(row, names[1..])
      case None => Column(row, names[1..])
  }

  const ComuneColumns: seq<string> := ["comune", "Comune", "COMUNE"]
  const CapColumns: seq<string> := ["cap", "Cap", "CAP"]

  function ComuneOf(row: CsvRow): string { Column(row, ComuneColumns) }
  function CapOf(row: CsvRow): string { Column(row, CapColumns) }

  /** One row of the CSV loop: ignored unless both the municipality and
      the CAP are non-empty; a new municipality gets a list, and a CAP not
      yet in its list is appended. */
  function AddCap(m: Dict<seq<string>>, row: CsvRow): Dict<seq<string>>
  {
    var comune, cap := ComuneOf(row), CapOf(row);
    if comune == "" || cap == "" then m
    else match Get(m, comune)
      case None => Set(m, comune, [cap])
      case Some(l) => if cap in l then m else Set(m, comune, l + [cap])
  }

  /** `comune_cap` after the CSV loop over `rows`. */
  function CapTable(rows: seq<CsvRow>): Dict<seq<string>>
    decreases |rows|
  {
    if rows == [] then [] else AddCap(CapTable(rows[..|rows| - 1]), rows[|rows| - 1])
  }

  /** The CSV loop of `get_cap_from_istat`. */
  method GetCapFromCsv(rows: seq<CsvRow>) returns (comuneCap: Dict<seq<string>>)
    ensures comuneCap == CapTable(rows)
  {
    comuneCap := [];
    for i := 0 to |rows|
      invariant comuneCap == CapTable(rows[..i])
    {
      assert rows[..i + 1][..i] == rows[..i];
      assert CapTable(rows[..i + 1]) == AddCap(CapTable(rows[..i]), rows[i]);
      var comune := ComuneOf(rows[i]);
      var cap := CapOf(rows[i]);
      ghost var before := comuneCap;
      if comune != "" && cap != "" {
        if Get(comuneCap, comune).None? {
          SetTwice(comuneCap, comune, [], [cap]);
          comuneCap := Set(comuneCap, comune, []);
          assert [] + [cap] == [cap];
        }
        var caps := Get(comuneCap, comune).value;
        if cap !in caps {
          comuneCap := Set(comuneCap, comune, caps + [cap]);
        }
      }
      assert comuneCap == AddCap(before, rows[i]);
    }
    assert rows[..|rows|] == rows;
  }

  /** Every CAP the usable rows give municipality `c`, in row order,
      repetitions included. */
  function CapsOf(rows: seq<CsvRow>, c: string): seq<string>
    decreases |rows|
  {
    if rows == [] then []
    else
      var row := rows[|rows| - 1];
      CapsOf(rows[..|rows| - 1], c)
        + (if ComuneOf(row) == c && c != "" && CapOf(row) != "" then [CapOf(row)] else [])
  }

  /** The distinct elements of `s` in the order they first appear. */
  function Dedup(s: seq<string>): seq<string>
    decreases |s|
  {
    if s == [] then []
    else
      var d := Dedup(s[..|s| - 1]);
      if s[|s| - 1] in d then d else d + [s[|s| - 1]]
  }

  /** Where `x` first occurs in `s`. */
  function FirstIndex(s: seq<string>, x: string): (i: nat)
    requires x in s
    ensures i < |s| && s[i] == x && x !in s[..i]
  {
    if s[0] == x then 0
    else
      assert x in s[1..] by { var k :| 0 <= k < |s| && s[k] == x; assert s[1..][k - 1] == x; }
      var j := FirstIndex(s[1..], x);
      assert s[..j + 1] == [s[0]] + s[1..][..j];
      j + 1
  }

  lemma {:induction false} FirstIndexSnoc(s: seq<string>, x: string, y: string)
    requires y in s
    ensures FirstIndex(s + [x], y) == FirstIndex(s, y)
  {
    var i, j := FirstIndex(s, y), FirstIndex(s + [x], y);
    assert forall k :: 0 <= k < i ==> s[k] != y by {
      forall k | 0 <= k < i ensures s[k] != y { assert s[..i][k] == s[k]; }
    }
    assert forall k :: 0 <= k < j && k < |s| ==> s[k] != y by {
      forall k | 0 <= k < j && k < |s| ensures s[k] != y { assert (s + [x])[..j][k] == s[k]; }
    }
    assert j < |s| ==> s[j] == y;
  }

  lemma {:induction false} FirstIndexLast(s: seq<string>, x: string)
    requires x !in s
    ensures FirstIndex(s + [x], x) == |s|
  {
    assert (s + [x])[..|s|] == s;
  }

  /** Deduplication keeps exactly the elements, each once, in order of
      first appearance. */
  lemma {:induction false} DedupFacts(s: seq<string>)
    ensures forall x :: x in Dedup(s) <==> x in s
    ensures NoDuplicates(Dedup(s))
    ensures forall i, j :: 0 <= i < j < |Dedup(s)| ==> FirstIndex(s, Dedup(s)[i]) < FirstIndex(s, Dedup(s)[j])
    decreases |s|
  {
    if s != [] {
      var pre, x := s[..|s| - 1], s[|s| - 1];
      assert s == pre + [x];
      DedupFacts(pre);
      var d := Dedup(pre);
      forall y | y in pre ensures FirstIndex(s, y) == FirstIndex(pre, y) { FirstIndexSnoc(pre, x, y); }
      if x !in d {
        FirstIndexLast(pre, x);
        forall i, j | 0 <= i < j < |d + [x]| ensures (d + [x])[i] != (d + [x])[j] {
          if j == |d| { assert (d + [x])[i] == d[i] && d[i] in d; } else { assert (d + [x])[i] == d[i] && (d + [x])[j] == d[j]; }
        }
        forall i, j | 0 <= i < j < |d + [x]| ensures FirstIndex(s, (d + [x])[i]) < FirstIndex(s, (d + [x])[j]) {
          assert (d + [x])[i] == d[i] && d[i] in pre;
          if j < |d| { assert (d + [x])[j] == d[j] && d[j] in pre; }
        }
      } else {
        forall i, j | 0 <= i < j < |d| ensures FirstIndex(s, d[i]) < FirstIndex(s, d[j]) {
          assert d[i] in pre && d[j] in pre;
        }
      }
    }
  }

  /** The list the CSV loop builds for a municipality holds each CAP of its
      usable rows once, in order of first appearance; a municipality
      without usable rows, or with an empty name, gets no entry. */
  lemma {:induction false} CapTableLookup(rows: seq<CsvRow>, c: string)
    ensures Get(CapTable(rows), c) == if CapsOf(rows, c) == [] then None else Some(Dedup(CapsOf(rows, c)))
    ensures c == "" ==> CapsOf(rows, c) == []
    decreases |rows|
  {
    if rows != [] {
      var pre, row := rows[..|rows| - 1], rows[|rows| - 1];
      CapTableLookup(pre, c);
      AddCapLookup(CapTable(pre), row, c);
      var s := CapsOf(pre, c);
      if ComuneOf(row) == c && c != "" && CapOf(row) != "" {
        assert CapsOf(rows, c) == s + [CapOf(row)];
        DedupSnoc(s, CapOf(row));
      } else {
        assert CapsOf(rows, c) == s;
      }
    }
  }

  /** How one CSV row changes the entry of municipality `c`. */
  lemma {:induction false} AddCapLookup(m: Dict<seq<string>>, row: CsvRow, c: string)
    ensures Get(AddCap(m, row), c) ==
      if ComuneOf(row) == c && c != "" && CapOf(row) != "" then
        match Get(m, c)
        case None => Some([CapOf(row)])
        case Some(l) => Some(if CapOf(row) in l then l else l + [CapOf(row)])
      else Get(m, c)
  {
  }

  lemma {:induction false} DedupSnoc(s: seq<string>, x: string)
    ensures Dedup(s + [x]) == if x in Dedup(s) then Dedup(s) else Dedup(s) + [x]
  {
    assert (s + [x])[..|s|] == s;
  }

  /** The CAP lists the CSV loop builds hold no repeated CAP. */
  lemma {:induction false} CapTableNoDuplicates(rows: seq<CsvRow>, c: string)
    requires Get(CapTable(rows), c).Some?
    ensures NoDuplicates(Get(CapTable(rows), c).value) && Get(CapTable(rows), c).value != []
    ensures forall cap :: cap in Get(CapTable(rows), c).value <==> cap in CapsOf(rows, c)
  {
    CapTableLookup(rows, c);
    DedupFacts(CapsOf(rows, c));
  }

  // ---------------------------------------------------------------- CAP choice

  /** Where `cap_data` came from: the province and city tables of
      `generate_cap_from_province`, or the CSV table of
      `get_cap_from_istat`. */
  datatype CapData = Generated(province: Dict<string>, cities: Dict<seq<string>>) | FromCsv(comuneCap: Dict<seq<string>>)

  /** `get_cap_from_istat`: the CSV table when a download produced a
      non-empty one, the generated tables otherwise. The two generated
      tables are constants of the program, passed in. */
  function CapDataFrom(download: Option<seq<CsvRow>>, province: Dict<string>, cities: Dict<seq<string>>): (r: CapData)
    ensures r.FromCsv? ==> download.Some? && r.comuneCap == CapTable(download.value) && r.comuneCap != []
    ensures r.Generated? ==> r == Generated(province, cities)
  {
    if download.Some? && CapTable(download.value) != [] then FromCsv(CapTable(download.value))
    else Generated(province, cities)
  }

  /** The CAP list of a municipality, with the lookups in the CSV case
      going to the municipality's own list: a non-empty entry of the city
      table, else the province's CAP, else the placeholder `00000`; from a
      CSV table, the municipality's list, else `00000`. */
  function CapFor(data: CapData, nome: string, provincia: string): (r: seq<string>)
    ensures r != []
  {
    match data
    case Generated(province, cities) =>
      var l := match Get(cities, nome)
        case Some(caps) => caps
        case None => (match Get(province, provincia) case Some(cap) => [cap] case None => []);
      if l == [] then ["00000"] else l
    case FromCsv(m) =>
      match Get(m, nome)
      case Some(caps) => if caps == [] then ["00000"] else caps
      case None => ["00000"]
  }

  /** The fallback chain with the generated tables: the city table first
      (an empty list there gives the placeholder, the province is not
      consulted), then the province, then `00000`. */
  lemma {:induction false} CapForChain(province: Dict<string>, cities: Dict<seq<string>>, nome: string, provincia: string)
    ensures var r := CapFor(Generated(province, cities), nome, provincia);
      (Get(cities, nome).Some? && Get(cities, nome).value != [] ==> r == Get(cities, nome).value)
      && (Get(cities, nome) == Some([]) ==> r == ["00000"])
      && (nome !in Keys(cities) && Get(province, provincia).Some? ==> r == [Get(province, provincia).value])
      && (nome !in Keys(cities) && provincia !in Keys(province) ==> r == ["00000"])
  {
    GetNone(cities, nome);
    GetNone(province, provincia);
  }

  /** From a CSV table a municipality gets its own CAP list. */
  lemma {:induction false} CapForCsv(m: Dict<seq<string>>, nome: string, provincia: string)
    ensures Get(m, nome).Some? && Get(m, nome).value != [] ==> CapFor(FromCsv(m), nome, provincia) == Get(m, nome).value
    ensures Get(m, nome).None? ==> CapFor(FromCsv(m), nome, provincia) == ["00000"]
  {
  }

  /** `x in v` for the value `cap_data.get(key, {})`: membership in the
      list stored under that key, false for the empty default. */
  predicate InLookup(v: Option<seq<string>>, x: string)
  {
    v.Some? && x in v.value
  }

  /** The CAP list as `create_comuni_json` computes it: with a CSV table,
      `cap_data.get('cities', {})` and `cap_data.get('province', {})` look
      up municipalities named `cities` and `province`; when the name (or
      province) is among those lists, the next subscript indexes a list
      with a string and raises (None); otherwise the placeholder. */
  function CapForAsWritten(data: CapData, nome: string, provincia: string): (r: Option<seq<string>>)
    ensures data.Generated? ==> r == Some(CapFor(data, nome, provincia))
  {
    match data
    case Generated(_, _) => Some(CapFor(data, nome, provincia))
    case FromCsv(m) =>
      if InLookup(Get(m, "cities"), nome) || InLookup(Get(m, "province"), provincia) then None
      else Some(["00000"])
  }

  /** As written, a CSV table without municipalities named `cities` or
      `province` gives every municipality the placeholder. */
  lemma {:induction false} CsvCapsIgnored(m: Dict<seq<string>>, nome: string, provincia: string)
    requires "cities" !in Keys(m) && "province" !in Keys(m)
    ensures CapForAsWritten(FromCsv(m), nome, provincia) == Some(["00000"])
  {
    GetNone(m, "cities");
    GetNone(m, "province");
  }

  /** Rome with its CSV list: as written it gets `00000`, with the
      intended lookup its own CAP. */
  lemma {:induction false} CsvCapsIgnoredExample()
    ensures CapForAsWritten(FromCsv([("Roma", ["00118"])]), "Roma", "RM") == Some(["00000"])
    ensures CapFor(FromCsv([("Roma", ["00118"])]), "Roma", "RM") == ["00118"]
  {
    var m := [("Roma", ["00118"])];
    assert Keys(m) == ["Roma"];
    CsvCapsIgnored(m, "Roma", "RM");
  }

  // ---------------------------------------------------------------- merge

  /** A municipality of the downloaded list, as its name and province
      sigla (each "" when the record lacks it). */
  datatype ComuneRecord = ComuneRecord(nome: string, provincia: string)

  /** A value of the result dictionary: `{"provincia": ..., "cap": [...]}`. */
  datatype CapEntry = CapEntry(provincia: string, cap: seq<string>)

  /** Whether the merge loop looks the record up: it has a name and a
      province. */
  predicate Usable(c: ComuneRecord)
  {
    c.nome != "" && c.provincia != ""
  }

  /** One iteration of the merge loop as written: a record without name or
      province is skipped, any other assigns the name its province and the
      CAP list of `CapForAsWritten`; a lookup that raises ends the merge
      (None). */
  function MergeOne(result: Dict<CapEntry>, c: ComuneRecord, data: CapData): Option<Dict<CapEntry>>
  {
    if Usable(c) then
      match CapForAsWritten(data, c.nome, c.provincia)
      case None => None
      case Some(caps) => Some(Set(result, c.nome, CapEntry(c.provincia, caps)))
    else Some(result)
  }

  /** `result` after the merge loop over `comuni`, or None when a lookup
      raised. */
  function Merged(comuni: seq<ComuneRecord>, data: CapData): Option<Dict<CapEntry>>
    decreases |comuni|
  {
    if comuni == [] then Some([])
    else
      match Merged(comuni[..|comuni| - 1], data)
      case None => None
      case Some(pre) => MergeOne(pre, comuni[|comuni| - 1], data)
  }

  /** The merge loop of `create_comuni_json`; None when it raises. */
  method MergeComuni(comuni: seq<ComuneRecord>, data: CapData) returns (result: Option<Dict<CapEntry>>)
    ensures result == Merged(comuni, data)
  {
    var acc: Dict<CapEntry> := [];
    for i := 0 to |comuni|
      invariant Merged(comuni[..i], data) == Some(acc)
    {
      assert comuni[..i + 1][..i] == comuni[..i];
      var nomeComune := comuni[i].nome;
      var provincia := comuni[i].provincia;
      if nomeComune != "" && provincia != "" {
        var capList := CapForAsWritten(data, nomeComune, provincia);
        if capList.None? {
          MergedFailureSticks(comuni, data, i + 1);
          return None;
        }
        acc := Set(acc, nomeComune, CapEntry(provincia, capList.value));
      }
    }
    assert comuni[..|comuni|] == comuni;
    return Some(acc);
  }

  /** Once a prefix of the records fails, the whole merge fails. */
  lemma {:induction false} MergedFailureSticks(comuni: seq<ComuneRecord>, data: CapData, n: nat)
    requires n <= |comuni| && Merged(comuni[..n], data).None?
    ensures Merged(comuni, data).None?
    decreases |comuni| - n
  {
    if n < |comuni| {
      assert comuni[..n + 1][..n] == comuni[..n];
      MergedFailureSticks(comuni, data, n + 1);
    } else {
      assert comuni[..n] == comuni;
    }
  }

  /** The merge fails exactly when some usable record's lookup raises; with
      the generated tables it never fails. */
  lemma {:induction false} MergedFails(comuni: seq<ComuneRecord>, data: CapData)
    ensures Merged(comuni, data).None? <==>
      exists i :: 0 <= i < |comuni| && Usable(comuni[i]) && CapForAsWritten(data, comuni[i].nome, comuni[i].provincia).None?
    ensures data.Generated? ==> Merged(comuni, data).Some?
    decreases |comuni|
  {
    if comuni != [] {
      var pre := comuni[..|comuni| - 1];
      MergedFails(pre, data);
      forall i | 0 <= i < |pre| ensures comuni[i] == pre[i] { }
    }
  }

  /** The last usable record with this name. */
  function LastRecord(comuni: seq<ComuneRecord>, nome: string): Option<ComuneRecord>
    decreases |comuni|
  {
    if comuni == [] then None
    else
      var c := comuni[|comuni| - 1];
      if c.nome == nome && c.provincia != "" then Some(c) else LastRecord(comuni[..|comuni| - 1], nome)
  }

  /** When the merge succeeds, a name maps to the province of its last
      usable record and that record's CAP list as written; a name without
      one, or the empty name, is absent. */
  lemma {:induction false} MergedLookup(comuni: seq<ComuneRecord>, data: CapData, nome: string)
    requires Merged(comuni, data).Some?
    ensures Get(Merged(comuni, data).value, nome) ==
      if nome == "" then None
      else match LastRecord(comuni, nome)
        case None => None
        case Some(c) =>
          match CapForAsWritten(data, nome, c.provincia)
          case None => None
          case Some(caps) => Some(CapEntry(c.provincia, caps))
    decreases |comuni|
  {
    if comuni != [] {
      MergedLookup(comuni[..|comuni| - 1], data, nome);
    }
  }

  /** From a CSV table, a merge that succeeds gives every municipality the
      placeholder; from the generated tables, the CAP list of `CapFor`. */
  lemma {:induction false} MergedCaps(comuni: seq<ComuneRecord>, data: CapData, nome: string)
    requires Merged(comuni, data).Some? && Get(Merged(comuni, data).value, nome).Some?
    ensures data.FromCsv? ==> Get(Merged(comuni, data).value, nome).value.cap == ["00000"]
    ensures data.Generated? ==>
      Get(Merged(comuni, data).value, nome).value.cap == CapFor(data, nome, Get(Merged(comuni, data).value, nome).value.provincia)
  {
    MergedLookup(comuni, data, nome);
  }

  /** Each name is a key once. */
  lemma {:induction false} MergedDistinct(comuni: seq<ComuneRecord>, data: CapData)
    requires Merged(comuni, data).Some?
    ensures DistinctKeys(Merged(comuni, data).value)
    decreases |comuni|
  {
    if comuni != [] {
      var pre := comuni[..|comuni| - 1];
      MergedDistinct(pre, data);
      var c := comuni[|comuni| - 1];
      if Usable(c) {
        SetDistinct(Merged(pre, data).value, c.nome, CapEntry(c.provincia, CapForAsWritten(data, c.nome, c.provincia).value));
      }
    }
  }

  // ---------------------------------------------------------------- JSON

  function StrList(s: seq<string>): (r: seq<Json>)
    ensures |r| == |s|
  {
    if s == [] then [] else [JStr(s[0])] + StrList(s[1..])
  }

  /** The JSON object `json.dump` writes for a result value. */
  function EntryJson(e: CapEntry): Json
  {
    JObj([("provincia", JStr(e.provincia)), ("cap", JList(StrList(e.cap)))])
  }

  function ResultJson(d: Dict<CapEntry>): (r: Dict<Json>)
    ensures |r| == |d|
  {
    if d == [] then [] else [(d[0].0, EntryJson(d[0].1))] + ResultJson(d[1..])
  }

  lemma {:induction false} ResultJsonAt(d: Dict<CapEntry>, i: nat)
    requires i < |d|
    ensures ResultJson(d)[i] == (d[i].0, EntryJson(d[i].1))
  {
    if i > 0 { ResultJsonAt(d[1..], i - 1); }
  }

  /** What `check_json_format` asks of one value: a dict holding
      `provincia` and a list under `cap`. */
  predicate EntryOk(info: Json)
  {
    info.JObj? && Get(info.fields, "provincia").Some?
    && Get(info.fields, "cap").Some? && Get(info.fields, "cap").value.JList?
  }

  /** How many entries `check_json_format` inspects. */
  const CheckedEntries := 10

  /** The verdict of `check_json_format` on a loaded document: a dict whose
      first ten values pass `EntryOk`. */
  predicate FormatOk(data: Json)
  {
    data.JObj? && forall i :: 0 <= i < |data.fields| && i < CheckedEntries ==> EntryOk(data.fields[i].1)
  }

  /** `check_json_format` on the loaded document, with its counting loop. */
  method CheckJsonFormat(data: Json) returns (ok: bool)
    ensures ok == FormatOk(data)
  {
    if !data.JObj? {
      return false;
    }
    var items := data.fields;
    var count := 0;
    var i := 0;
    while i < |items|
      invariant 0 <= i <= |items| && i < CheckedEntries && count == i
      invariant forall j :: 0 <= j < i ==> EntryOk(items[j].1)
    {
      var info := items[i].1;
      if !info.JObj? {
        return false;
      }
      if Get(info.fields, "provincia").None? {
        return false;
      }
      if Get(info.fields, "cap").None? {
        return false;
      }
      if !Get(info.fields, "cap").value.JList? {
        return false;
      }
      count := count + 1;
      i := i + 1;
      if count >= CheckedEntries {
        break;
      }
    }
    return true;
  }

  /** Entries after the tenth are never inspected. */
  lemma {:induction false} FormatOkIgnoresTail(fields: Dict<Json>, more: Dict<Json>)
    requires |fields| >= CheckedEntries
    ensures FormatOk(JObj(fields + more)) == FormatOk(JObj(fields))
  {
    assert forall i :: 0 <= i < CheckedEntries ==> (fields + more)[i] == fields[i];
  }

  /** The file `create_comuni_json` writes passes `check_json_format`. */
  lemma {:induction false} MergedPassesCheck(comuni: seq<ComuneRecord>, data: CapData)
    requires Merged(comuni, data).Some?
    ensures FormatOk(JObj(ResultJson(Merged(comuni, data).value)))
  {
    var d := Merged(comuni, data).value;
    forall i | 0 <= i < |d| && i < CheckedEntries ensures EntryOk(ResultJson(d)[i].1) {
      ResultJsonAt(d, i);
    }
  }

  /** `add_comuni_manually` on the loaded document: a dict gets the entry
      `{provincia, [cap]}` under the name, replacing an existing one in
      place; anything else raises on the assignment (None). */
  function AddComune(data: Json, nome: string, provincia: string, cap: string): (r: Option<Json>)
    ensures r.Some? <==> data.JObj?
    ensures r.Some? ==>
      (r.value.JObj?
       && Get(r.value.fields, nome) == Some(EntryJson(CapEntry(provincia, [cap])))
       && forall k :: k != nome ==> Get(r.value.fields, k) == Get(data.fields, k))
  {
    match data
    case JObj(fields) => Some(JObj(Set(fields, nome, EntryJson(CapEntry(provincia, [cap])))))
    case _ => None
  }

  /** Adding a municipality to a file that passes the check keeps it
      passing. */
  lemma {:induction false} AddComuneKeepsFormat(data: Json, nome: string, provincia: string, cap: string)
    requires FormatOk(data)
    ensures AddComune(data, nome, provincia, cap).Some? && FormatOk(AddComune(data, nome, provincia, cap).value)
  {
    var v := EntryJson(CapEntry(provincia, [cap]));
    var r := Set(data.fields, nome, v);
    forall i | 0 <= i < |r| && i < CheckedEntries ensures EntryOk(r[i].1) {
      SetAt(data.fields, nome, v, i);
    }
  }
}
