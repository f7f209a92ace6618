# FattureXML in Dafny

FattureXML is a desktop editor for Italian electronic invoices
(FatturaPA XML). This project models its core in Dafny and proves
properties of the model:

- **Line editor.** The detail-line editor works on the `DettaglioLinee`
  children of `DatiBeniServizi`. It splits them into normal lines and the
  CONAI contribution line; adds, deletes and renumbers lines; and saves
  the edit fields back into the document. FattureXML.py holds this code,
  and FattureXML_20250327.py repeats it line for line.
- **Earlier viewer.** The 2025-03-25 viewer (FattureXML_20250325.py) has
  its own CONAI manager. It counts the CONAI line among the lines and
  keeps pending edits keyed by line index.
- **Numeric fields.** Quantita, PrezzoUnitario and PrezzoTotale have a
  keystroke validator, a focus-out formatter, the formatting of the
  loaded value, and the formatting applied when the line is saved.
- **VAT rate.** The `AliquotaIVA` combo box shows the offered rate
  nearest to the stored value.
- **Excel bridge.** The Excel⇄XML manager (excel_xml_manager.py) exports
  a tree as (path, value, description, row) rows. It reads a sheet back
  as a path→value dictionary, rebuilds an invoice from those paths,
  normalises paths to XPath, and indents the result.
- **Municipality widgets.** There are two widgets: the entry-plus-listbox
  widget (autocomplete_comuni.py) and the combobox widget
  (Funzionanti/autocomplete_comuni.py). Both suggest municipalities, and
  both fill the province and CAP fields.
- **Dataset builder.** The municipality dataset builder
  (create_comuni_json.py) aggregates CAPs from a CSV, merges municipality
  records with CAP data, adds an entry by hand, and checks the resulting
  JSON.

**How the model represents the source**

- The XML tree is a value, `XmlTree.Node(tag, text, tail, attrs,
  children)`. lxml's `None` text or tail is `""`.
- A reference to an element of `DatiBeniServizi` (`normal_lines`,
  `conai_line`) is the element's position among the children.
- Objects whose fields the source updates are classes:
  - `LineEditor.InvoiceEditor`;
  - `LineViewer.FatturaViewer` and `LineViewer.ConaiManager`;
  - `Autocomplete.AutocompleteComune`;
  - `ComboAutocomplete.AutocompleteComune`.
- Their fields hold sequences and maps, which the methods reassign.
- The pure computations are functions. The loops of the source are
  methods with loop invariants, each proved equal to a specification
  function.
- Python dictionaries whose order matters are ordered association lists
  (`OrderedDict.Dict`). Assigning to an existing key keeps its place.
  This covers the sheet dictionary, the CAP table, the result JSON and
  the municipality table.
- Integers are unbounded. The 15-digit and 7-digit limits of the numeric
  fields are written out as explicit checks.
- Floating-point comparison of VAT rates becomes exact integer
  arithmetic on decimal literals.

## Model

| member | source | states |
|---|---|---|
| LineKind.KindOf | FattureXML.py:1535-1540 | a child is a normal line exactly when it is a `DettaglioLinee` without the CONAI description, a CONAI line exactly when it is a `DettaglioLinee` whose first `Descrizione` has non-empty text containing the description once upper-cased, and neither when it is not a detail line |
| LineKind.DefaultLineIsNormal | FattureXML.py:1454-1461 | the line `add_line` creates is a normal line |
| LineKind.ConaiLineIsConai | FattureXML.py:975-980 | the line `add_conai_line` creates is recognised as the CONAI line |
| LineList.NormalPositionsMeaning | FattureXML.py:1529-1542 | `normal_lines` holds exactly the positions of the normal lines, in document order |
| LineList.ConaiPositionMeaning | FattureXML.py:1529-1540 | `conai_line` is the last CONAI line in document order, and it is absent exactly when there is none |
| LineList.PartitionCovers | FattureXML.py:1535-1540 | with at most one CONAI line, every detail line is either a normal line or the CONAI line; the same code is at FattureXML_20250327.py:1001-1006 |
| LineList.RenumberedIsDense | FattureXML.py:1504-1521 | after `update_line_numbers` the detail lines are numbered 1, 2, …, n in document order, lines without NumeroLinea included; the same code is at FattureXML_20250327.py:970-987 |
| LineList.RenumberedIdempotent | FattureXML.py:1504-1521 | renumbering a second time changes nothing |
| LineList.RenumberedKeepsPartition | FattureXML.py:1504-1521 | renumbering changes neither which children are normal or CONAI lines nor how many detail lines there are |
| LineList.NewLinePosition | FattureXML.py:1471-1480 | a new line goes where the CONAI line is, or else before the first DatiRiepilogo, or else at the end |
| LineList.SummaryPosition | FattureXML.py:983-987 | the position of the first DatiRiepilogo, or the end of the children when there is none |
| LineList.InsertedLineIsLast | FattureXML.py:1489-1491 | the inserted line is the last normal line exactly when no normal line follows its position |
| LineList.NormalLineRemoved | FattureXML.py:1421-1426 | deleting the k-th normal line removes exactly that line from the normal lines and shifts the CONAI position |
| LineEditor.Clamp | FattureXML.py:1548-1550 | the current index is kept when in range, otherwise it becomes the last index, or 0 when there is no line |
| LineEditor.SaveFieldsEffect | FattureXML.py:1367-1399 | with distinct field names, each field's element gets the field's value, numeric fields formatted as `SaveText` says; a field whose formatting raises, or whose line has no such element, keeps its text |
| LineEditor.SaveFieldsUntouched | FattureXML.py:1367-1399 | elements of fields not being saved keep their text |
| LineEditor.InvoiceEditor.constructor | FattureXML.py:40-43 | an editor over the children of DatiBeniServizi with no normal line, no CONAI line, no line counted and index 0 |
| LineEditor.InvoiceEditor.RefreshLinesData | FattureXML.py:1523-1551 | the view (normal lines, CONAI line, line count) is recomputed from the children and the current index clamped; the same code is at FattureXML_20250327.py:989-1017 |
| LineEditor.InvoiceEditor.UpdateLineNumbers | FattureXML.py:1504-1521 | the children become their renumbering; the view stays a correct view |
| LineEditor.InvoiceEditor.AddLine | FattureXML.py:1448-1502 | the new line is inserted at `NewLinePosition` and the lines renumbered; one more normal line is counted and the current index is the last normal line, which is the new line exactly when no normal line followed it; the same code is at FattureXML_20250327.py:914-968 |
| LineEditor.InvoiceEditor.DeleteLine | FattureXML.py:1407-1446 | with no normal line nothing changes; otherwise the current (clamped) normal line is removed, the rest renumbered, one line fewer counted and the index clamped; the same code is at FattureXML_20250327.py:873-912 |
| LineEditor.InvoiceEditor.AddConaiLine | FattureXML.py:963-1000 | with a CONAI line nothing changes; otherwise a CONAI line is inserted before the first DatiRiepilogo, the lines are renumbered and the normal lines are unchanged in number; the same code is at FattureXML_20250327.py:528-565 |
| LineEditor.InvoiceEditor.RemoveConaiLine | FattureXML.py:1002-1026 | without a CONAI line nothing changes; otherwise it is removed, the lines are renumbered and the normal lines are unchanged in number; the same code is at FattureXML_20250327.py:567-591 |
| LineEditor.InvoiceEditor.SaveCurrentLineData | FattureXML.py:1357-1405 | with no current normal line nothing changes; otherwise the fields are saved into the current line and the lines renumbered, the view unchanged |
| LineEditor.AddLineEffect | FattureXML.py:1448-1502 | adding a line adds exactly one normal line, which is last exactly when no normal line followed the insertion point |
| LineEditor.DeleteLineEffect | FattureXML.py:1421-1432 | deleting a normal line leaves exactly one normal line fewer |
| LineEditor.AddConaiEffect | FattureXML.py:975-993 | adding the CONAI line keeps the number of normal lines and makes the CONAI line the child before the first DatiRiepilogo |
| LineEditor.RemoveConaiEffect | FattureXML.py:1010-1018 | removing the CONAI line keeps the number of normal lines |
| NumericField.ValidateAcceptsShaped | FattureXML.py:1101-1130 | the validator accepts digits optionally followed by a dot and at most 7 digits, with at most 15 integer digits except for PrezzoTotale; the same code is at FattureXML_20250327.py:644-673 |
| NumericField.ValidateOnlyShaped | FattureXML.py:1101-1130 | the validator accepts nothing else, so accepted text has that shape |
| NumericField.FocusOut | FattureXML.py:1135-1175 | after commas become dots: more than one dot fails (the field is flagged), an empty field becomes 0.0000000, anything else becomes canonical (no superfluous leading zero, exactly 7 decimals); the same code is at FattureXML_20250327.py:676-718 |
| NumericField.FocusOutKeepsValue | FattureXML.py:1148-1161 | formatting text the validator accepts keeps its numeric value |
| NumericField.FocusOutKeepsValid | FattureXML.py:1101-1161 | formatted accepted text is still accepted |
| NumericField.FocusOutIdempotent | FattureXML.py:1135-1175 | formatting formatted text changes nothing |
| NumericField.InitialText | FattureXML.py:1264-1279 | an empty stored value stays empty; a value with more than one dot shows 0.0000000; any other value is shown formatted |
| NumericField.InitialTextIsFocusOut | FattureXML.py:1264-1279 | for a non-empty value without commas and with at most one dot, the loaded text is what the focus-out formatter produces |
| NumericField.SaveText | FattureXML.py:1378-1391 | non-numeric fields and empty values are saved as typed; more than one dot fails; a value without a dot gets `.0000000`; otherwise the integer part keeps its last 15 digits (not for PrezzoTotale) and the decimals are padded or cut to 7; the same code is at FattureXML_20250327.py:844-857 |
| NumericField.SavedShape | FattureXML.py:1378-1391 | a saved non-empty numeric value has one dot and exactly 7 decimals |
| NumericField.SaveKeepsFocusOutText | FattureXML.py:1135-1175 | saving text the focus-out formatter produced from accepted input leaves it unchanged |
| NumericField.SaveIdempotent | FattureXML.py:1378-1391 | saving a saved value again changes nothing |
| VatRate.DisplayedRate | FattureXML.py:622-636 | an offered rate is shown as is; an empty or unparsable value shows 22.00; any other value shows the offered rate nearest to it, the first on a tie; the line editor's combo box at FattureXML.py:1233-1247 applies the same rule |
| VatRate.NearestUnique | FattureXML.py:629-630 | the nearest rate, first on ties, is unique |
| VatRate.TieGoesToFirst | FattureXML.py:629-630 | a tie (7.5 between 5 and 10) goes to the rate listed first |
| LineViewer.FirstConai | FattureXML_20250325.py:19-34 | `has_conai` finds the first detail line in document order that has a Descrizione whose string-value is exactly the CONAI description, and none exactly when no line has one |
| LineViewer.NewNormalLineIsNotConai | FattureXML_20250325.py:949-959 | the line `add_normal_line` creates is never taken for the CONAI line |
| LineViewer.ConaiRepositionedMeaning | FattureXML_20250325.py:103-135 | after `ensure_conai_position` the CONAI line stands right before the first DatiRiepilogo and the other children keep their order |
| LineViewer.ConaiRepositionedIdempotent | FattureXML_20250325.py:103-135 | with a single CONAI line, repositioning twice is repositioning once |
| LineViewer.RepositionedConaiIsLast | FattureXML_20250325.py:103-135 | when no detail line follows the first DatiRiepilogo, the repositioned CONAI line is the last detail line |
| LineViewer.NumberedExistingMeaning | FattureXML_20250325.py:1043-1047 | the renumbering loop of `delete_line` changes only detail lines, and neither the line count nor the CONAI line nor the first DatiRiepilogo |
| LineViewer.NumberedExistingPointwise | FattureXML_20250325.py:1043-1047 | the i-th detail line gets `str(i)` as NumeroLinea when it has one; lines without NumeroLinea get none |
| LineViewer.EditsFollowLines | FattureXML_20250325.py:1036-1061 | when rekeyed by the deleted index, each remaining line's pending edits are the edits it had before the deletion |
| LineViewer.WithNormalLineAppends | FattureXML_20250325.py:942-971 | without a CONAI line the new line is appended, counted and made current |
| LineViewer.WithNormalLineBeforeConai | FattureXML_20250325.py:942-971 | with a CONAI line the new line goes before it; when the CONAI line is the last line, the index `add_normal_line` chooses is the new line's |
| LineViewer.ConaiManager.AddConai | FattureXML_20250325.py:36-82 | with a CONAI line only that line is recorded; otherwise a CONAI line numbered one past the line count is appended and counted |
| LineViewer.ConaiManager.RemoveConai | FattureXML_20250325.py:84-101 | without a CONAI line nothing changes; otherwise the first one is removed and uncounted |
| LineViewer.ConaiManager.EnsureConaiPosition | FattureXML_20250325.py:103-135 | the children become their repositioning and the line count stays |
| LineViewer.FatturaViewer.constructor | FattureXML_20250325.py:474-487 | every detail line counted, the first line current, no pending edits |
| LineViewer.FatturaViewer.SaveCurrentLineData | FattureXML_20250325.py:898-910 | the current line's fields become its pending edits when it has any |
| LineViewer.FatturaViewer.PrevLine | FattureXML_20250325.py:983-996 | except on the first line, the line is saved and the index moves back one |
| LineViewer.FatturaViewer.NextLine | FattureXML_20250325.py:999-1012 | except on the last line, the line is saved and the index moves on one |
| LineViewer.FatturaViewer.AddNormalLine | FattureXML_20250325.py:913-981 | after saving, the new line is added as `WithNormalLine` says, counted and made current |
| LineViewer.FatturaViewer.RenumberExistingLines | FattureXML_20250325.py:1043-1047 | the renumbering loop computes `NumberedExisting` |
| LineViewer.FatturaViewer.DeleteLine | FattureXML_20250325.py:1014-1075 | refused with at most one line; fails with nothing changed when the index is out of range; otherwise the line is removed and uncounted, the rest renumbered, the CONAI line moved back before DatiRiepilogo, the index clamped and the pending edits rebuilt around the clamped index, which is the deleted line's own index (so the edits follow their lines) unless the last line was deleted |
| Modifications.RekeyedMeaning | FattureXML_20250325.py:1053-1061 | after deleting line c, index j has an entry exactly when the line now at j had one, and it is that entry |
| Modifications.RebuildModifications | FattureXML_20250325.py:1053-1061 | the rebuild loop, in any iteration order, computes the rekeyed dictionary |
| Modifications.DeleteLastLineMovesEdits | FattureXML_20250325.py:1050-1061 | as written, deleting the last of two lines gives the kept line the deleted line's edits |
| Modifications.CollectLineFields | FattureXML_20250325.py:898-905 | collects exactly the edit fields whose path names line `idx` |
| ExcelExport.TagName | excel_xml_manager.py:192-205 | the local name after `}`, or the tag itself when it has no namespace |
| ExcelExport.ClarkLocalName | excel_xml_manager.py:192-205 | a Clark-notation tag `{uri}local` gives `local` |
| ExcelExport.ChildPath | excel_xml_manager.py:165-179 | a child's path begins with the current path; it fails exactly for a namespaced child other than DettaglioLinee when more than one sibling has its local name as its whole tag, i.e. more than one un-namespaced sibling of that name (the XPath count only sees those); a namespaced child repeated among namespaced siblings does not fail |
| ExcelExport.SiblingPathsDistinct | excel_xml_manager.py:172-176 | repeated siblings get distinct indexed paths |
| ExcelExport.ExtractNodes | excel_xml_manager.py:124-190 | the rows emitted are the node's entries numbered consecutively from the start row (at least one row when it succeeds) |
| ExcelExport.SheetRows | excel_xml_manager.py:100 | the export numbers rows from 2 |
| ExcelExport.OwnRowIff | excel_xml_manager.py:146-153 | a node has a row of its own exactly when it has text, has no children or is a DettaglioLinee/DatiRiepilogo, and that row comes first with path, text and description |
| ExcelExport.AttributeRows | excel_xml_manager.py:155-160 | each attribute gets a row after the node's own row |
| ExcelExport.EntriesUnder | excel_xml_manager.py:124-190 | every row's path lies under the node's own path |
| ExcelImport.ExtractExcelData | excel_xml_manager.py:353-382 | the row loop computes `ExcelData` |
| ExcelImport.ExcelDataLastWins | excel_xml_manager.py:366-380 | a path maps to the value of the last row that names it (an empty cell read as ""), and empty paths are skipped |
| ExcelImport.ExcelDataKeys | excel_xml_manager.py:366-380 | the keys are exactly the non-empty paths that occur |
| ExcelImport.ExcelDataDistinct | excel_xml_manager.py:353-382 | each path occurs once |
| ExcelImport.CreatedXml | excel_xml_manager.py:427-459 | an empty sheet fails; a result has the namespaced first segment of the first key as root |
| ExcelImport.WriteOrder | excel_xml_manager.py:451 | the paths are written once each, in sorted order |
| ExcelImport.WriteAllFailure | excel_xml_manager.py:450-459 | once one write raises, the whole creation fails |
| ExcelImport.CreateXmlFromExcel | excel_xml_manager.py:427-459 | the method computes `CreatedXml` |
| ExcelPaths.ParseRender | excel_xml_manager.py:510-512 | parsing a rendered step gives the step back |
| ExcelPaths.NormalizeXpath | excel_xml_manager.py:542-565 | a normalised path starts with `//` |
| ExcelPaths.NormalizeXpathNone | excel_xml_manager.py:554-557 | normalisation fails exactly when a segment has a malformed index |
| ExcelPaths.NormalizeRendered | excel_xml_manager.py:542-565 | a path made of steps normalises to the local-name XPath of those steps |
| ExcelPaths.NormalizeLeadingSlash | excel_xml_manager.py:552-553 | a leading slash makes no difference |
| XmlBuild.PlainStep | excel_xml_manager.py:527-538 | a plain segment enters the first child with that tag, created at the end when missing |
| XmlBuild.IndexedStep | excel_xml_manager.py:510-526 | an indexed segment pads the children with new elements up to the index and enters the one at that index, Python negative indices included; it raises exactly when the index is below the negative range |
| XmlBuild.PaddedCount | excel_xml_manager.py:521-523 | padding keeps the existing children and brings the tag's count to the index |
| XmlBuild.EnsureInTarget | excel_xml_manager.py:489-540 | the element reached has the last segment's tag and carries the value written |
| XmlBuild.EnsureInIdem | excel_xml_manager.py:489-540 | ensuring the same path again changes nothing |
| XmlBuild.EnsureIgnoresRoot | excel_xml_manager.py:503-506 | the first segment is ignored |
| XmlBuild.WritePathAttribute | excel_xml_manager.py:472-479 | a `/@` path sets the attribute on the element path before it |
| XmlBuild.WritePathIdem | excel_xml_manager.py:461-487 | writing the same value to the same path twice is writing it once |
| XmlBuild.EnsurePathExists | excel_xml_manager.py:461-487 | the method computes `WritePath` |
| XmlBuild.EnsureElementPath | excel_xml_manager.py:489-540 | the segment loop computes `EnsureIn` |
| XmlIndent.IndentedFields | excel_xml_manager.py:567-585 | blank text of an element with children becomes newline plus the next level's indentation, blank tails the element's own level, everything else is kept |
| XmlIndent.IndentIdem | excel_xml_manager.py:567-585 | indenting an indented tree changes nothing |
| XmlIndent.Indent | excel_xml_manager.py:567-585 | the recursive method computes `Indented` |
| Comuni.PrefixMatchesIn | autocomplete_comuni.py:102-103 | the first pass keeps exactly the municipalities whose lower-cased name starts with the lower-cased text |
| Comuni.ContainsMatchesIn | autocomplete_comuni.py:107-108 | the second pass keeps exactly those containing it that the first pass missed |
| Comuni.CandidatesMatch | autocomplete_comuni.py:100-109 | every candidate is a municipality containing the text, case-insensitively |
| Comuni.CandidatesPrefix | autocomplete_comuni.py:102-103 | every prefix match is a candidate |
| Comuni.CandidatesTopUp | autocomplete_comuni.py:106-109 | with fewer than 10 prefix matches they are topped up to 10, or to all matches when fewer; otherwise only prefix matches are kept |
| Comuni.CandidatesComplete | autocomplete_comuni.py:106-109 | fewer than 10 candidates means every match is among them |
| Comuni.SuggestionsShape | autocomplete_comuni.py:93-111 | the suggestions are sorted, distinct, at most 100, municipalities, and contain the text when there is one |
| Comuni.SuggestionsEmptyText | autocomplete_comuni.py:96-98 | for an empty text the first 100 municipalities in order, all of them when there are at most 100 |
| Comuni.SuggestionsPrefix | autocomplete_comuni.py:100-111 | with at most 100 prefix matches, every prefix match is suggested |
| Comuni.SuggestionsUncappedRelation | Funzionanti/autocomplete_comuni.py:95-113 | the combobox suggestions are those of the entry widget without the cap of 100, sorted and distinct |
| Comuni.ProvinciaCap | autocomplete_comuni.py:517-531 | found exactly when the municipality is known; unknown leaves both fields |
| Comuni.ProvinciaCapKnown | autocomplete_comuni.py:520-529 | a known municipality sets the province when it has one and the CAP to its first CAP when the list is non-empty |
| Comuni.ProvinciaCapIdem | autocomplete_comuni.py:517-531 | filling twice is filling once |
| Autocomplete.Edited | autocomplete_comuni.py:438-464 | the entry's cursor stays within its text |
| Autocomplete.EditedInsert | autocomplete_comuni.py:441-454 | a letter, digit or space is inserted at the cursor, which moves past it, keeping the text around it |
| Autocomplete.EditedBackSpace | autocomplete_comuni.py:456-462 | BackSpace removes exactly the character before the cursor, and nothing at the start |
| Autocomplete.InsertThenBackSpace | autocomplete_comuni.py:438-464 | BackSpace right after typing a character undoes it |
| Autocomplete.NavUp | autocomplete_comuni.py:358-384 | a selection in range stays in range |
| Autocomplete.NavDown | autocomplete_comuni.py:386-411 | a selection in range stays in range |
| Autocomplete.NavRoundTrips | autocomplete_comuni.py:358-411 | Down then Up returns to the item, except from the last; Up then Down likewise, except from the top; Down stays only on the last item; Up clears only from the top |
| Autocomplete.AutocompleteComune.OnListboxKey | autocomplete_comuni.py:413-464 | the key edits the entry as `Edited` says |
| Autocomplete.AutocompleteComune.OnListboxUp | autocomplete_comuni.py:358-384 | the selection moves as `NavUp` says |
| Autocomplete.AutocompleteComune.OnListboxDown | autocomplete_comuni.py:386-411 | the selection moves as `NavDown` says |
| Autocomplete.AutocompleteComune.AggiornaProvinciaCap | autocomplete_comuni.py:517-531 | the fields and the result are those `ProvinciaCap` gives |
| ComboAutocomplete.OpensDropdownThreshold | Funzionanti/autocomplete_comuni.py:135-154 | the dropdown opens exactly for a non-empty suggestion list and a text that would have scheduled an update, i.e. any text but a one-character one |
| ComboAutocomplete.EmptyTextOpens | Funzionanti/autocomplete_comuni.py:143-154 | for an empty text the dropdown opens exactly when there is a municipality |
| ComboAutocomplete.AutocompleteComune.OnKeyrelease | Funzionanti/autocomplete_comuni.py:123-141 | navigation keys change nothing; any other key leaves an update scheduled exactly when the text is not one character long |
| ComboAutocomplete.AutocompleteComune.UpdateSuggestions | Funzionanti/autocomplete_comuni.py:143-159 | the values become the suggestions and the dropdown opens as `OpensDropdown` says |
| ComboAutocomplete.AutocompleteComune.AggiornaProvinciaCap | Funzionanti/autocomplete_comuni.py:187-203 | the fields and the result are those `ProvinciaCap` gives |
| ComuniJson.GetCapFromCsv | create_comuni_json.py:52-61 | the CSV loop computes `CapTable` |
| ComuniJson.CapTableLookup | create_comuni_json.py:52-61 | a municipality maps to its CAPs in first-seen order without repeats, and is absent when it has no row with both fields; an empty name never appears |
| ComuniJson.CapTableNoDuplicates | create_comuni_json.py:59-61 | each CAP list is non-empty, distinct, and holds exactly the CAPs of the municipality's rows |
| ComuniJson.DedupFacts | create_comuni_json.py:60-61 | deduplication keeps each value once, in first-seen order |
| ComuniJson.CapDataFrom | create_comuni_json.py:68-76 | the CSV table is used when it is non-empty, otherwise the generated tables |
| ComuniJson.CapFor | create_comuni_json.py:140-150 | the CAP list is never empty |
| ComuniJson.CapForChain | create_comuni_json.py:140-150 | the cities table wins, then the province's CAP, then `00000` |
| ComuniJson.CapForCsv | create_comuni_json.py:140-150 | with CSV data a known municipality gets its CSV CAPs, an unknown one `00000` |
| ComuniJson.CapForAsWritten | create_comuni_json.py:140-150 | with generated tables, the code as written agrees with `CapFor` |
| ComuniJson.CsvCapsIgnored | create_comuni_json.py:140-150 | as written, CSV data gives every municipality `00000` |
| ComuniJson.CsvCapsIgnoredExample | create_comuni_json.py:140-150 | Roma with CSV CAP 00118: as written `00000`, corrected `00118` |
| ComuniJson.MergeComuni | create_comuni_json.py:131-155 | the merge loop computes `Merged`, which takes each usable record's CAP list from the lookup as written and fails when that lookup raises |
| ComuniJson.MergedFailureSticks | create_comuni_json.py:131-155 | once a lookup has raised, the merge of any longer list fails too |
| ComuniJson.MergedFails | create_comuni_json.py:131-155 | the merge fails exactly when some record with name and province makes the lookup raise, and never with the generated tables |
| ComuniJson.MergedLookup | create_comuni_json.py:131-155 | after a successful merge a name maps to the province of its last usable record and that record's CAP list as written; names without a record, or empty, are absent |
| ComuniJson.MergedCaps | create_comuni_json.py:131-155 | after a successful merge every municipality has `["00000"]` when the CAPs came from the CSV, and the `CapFor` list when they came from the generated tables |
| ComuniJson.MergedDistinct | create_comuni_json.py:131-155 | after a successful merge each municipality occurs once |
| ComuniJson.CheckJsonFormat | create_comuni_json.py:292-320 | the loop computes `FormatOk` |
| ComuniJson.FormatOkIgnoresTail | create_comuni_json.py:313-315 | only the first 10 entries are checked |
| ComuniJson.MergedPassesCheck | create_comuni_json.py:131-209 | the dataset the builder writes, when the merge does not raise, passes the format check |
| ComuniJson.AddComune | create_comuni_json.py:271-274 | a JSON object gains the entry under the name, and every other name keeps its entry; anything else fails |
| ComuniJson.AddComuneKeepsFormat | create_comuni_json.py:253-284 | adding an entry to a well-formed file keeps it well-formed |

## Left out

- The Tkinter user interface is not modelled:
  - widgets, layout, focus, message boxes, logging, traceback printing;
  - the timers of the combobox widget;
  - the Return, Escape, Home and End branches of `on_listbox_key`;
  - `update_listbox`, which fills the listbox items.
- Floating-point arithmetic is not modelled: totals, `imposta`, `calculate_total_price`, `update_riepilogo_totals`.
- `float()` is modelled only on plain decimal literals, with optional sign and surrounding blanks. Exponents, `inf`, `nan` and underscores are not.
- `int()` on index strings accepts an optional sign and digits. Underscores are not accepted.
- `str.lower` and `str.upper` are modelled on ASCII and Latin-1 only. Other scripts are not.
- `str.isdigit` and `str.isalnum` are modelled on ASCII only: `Text.IsDigit` is `0`–`9` and `Text.IsAsciiLetter` is `a`–`z`, `A`–`Z`. Python also accepts other Unicode digits and letters, such as `²`, `٣` or `à`.
- NumericField.ValidateOnlyShaped: a digit is an ASCII `0`–`9`. The validator as written also lets through texts made of other characters that `str.isdigit` accepts, such as `²` or `٣`; the model's validator rejects them, so the shape it proves is not promised for such texts.
- Autocomplete.EditedInsert: only ASCII letters and digits count as one-character alphanumeric keysyms. A one-character keysym outside ASCII that `isalnum` accepts is inserted by the source but not by the model.
- Only documents with a single FatturaElettronicaBody and a single DatiBeniServizi are modelled. `get_num_linee` counts the DettaglioLinee of every body, while adding and deleting lines act on the first DatiBeniServizi; with several bodies the count and the edited list differ.
- File, network and console I/O are parameters:
  - the sheet rows and the XML tree are given;
  - the CSV rows are given as dictionaries;
  - the downloaded municipality records are given as (name, province) pairs;
  - `input()` values are parameters.
- The three dataset formats' field extraction, the CSV encoding retries and the exception handlers around downloads are not modelled.
- `create_sample_json` is not modelled, nor its use as the fallback when no municipality is found.
- `generate_cap_from_province` and its fixed tables are not modelled. The tables it returns are parameters of `ComuniJson.CapDataFrom`.
- The description table of `_get_description_for_tag` is a parameter of the export rows. The module gives its contents as a constant.
- `_update_xml_from_excel` is not modelled: it evaluates XPath expressions with lxml against a template. Only its path normaliser is modelled.
- lxml's name validation and the `nsmap` declaration are not modelled. The namespace is part of the tag (`{uri}local`).
- `datetime` cells are not modelled, nor `str()` of non-string cells.
- The XML tree is a value, so element identity and aliasing are not modelled.
  - A tree operation returns the new tree and the positions it went through, rather than mutating elements in place.
  - An element reference in the source is its position among the children.
- The ordering of the municipality table is taken as given: sorting the dictionary's items and sorting its keys coincide because keys are distinct.
- Threads (`thread_lock`) are not modelled.
- The edit fields of `save_current_line_data` reach the document through the element each field was created for. The model takes that element to be the first child of the current line with the field's name, and passes the fields as (name, value) pairs.
- LineEditor.InvoiceEditor.DeleteLine: the second clamp of the current index after `refresh_lines_data` is omitted. The refresh has already clamped, so it can change nothing.
- ComboAutocomplete.AutocompleteComune.UpdateSuggestions: the model does not clear `pending`. The source never resets `update_timer_id` once the refresh has run.
- `on_dropdown_requested` is not modelled separately. It sets the combobox values exactly as `UpdateSuggestions` does, without opening the list.
- The `ConaiManager.add_conai` removal of existing CONAI lines is not modelled separately. It only runs when no CONAI line was found, so it removes nothing.

## Findings

| source | as written | input that shows it | evidently intended | confidence | as-written member | corrected member |
|---|---|---|---|---|---|---|
| FattureXML_20250325.py:1050-1061 | the pending edits are rekeyed using the current index after it has been clamped to the new last line | two lines, edits on both, delete the second (index 1): the index is clamped to 0, so the first line's edits are dropped and the deleted line's edits land on the first line | rekey by the index of the deleted line, so the remaining line keeps its own edits | not executed | Modifications.DeleteLastLineMovesEdits | LineViewer.EditsFollowLines |
| create_comuni_json.py:140-150 | the CAP lookup reads `cap_data.get('cities')` and `cap_data.get('province')` even when `cap_data` is the municipality→CAPs dictionary built from the CSV, so the CSV CAPs are never used | a CSV row giving Roma the CAP 00118: Roma gets `["00000"]` | look the municipality up in the CSV dictionary when that is what was obtained | not executed | ComuniJson.CsvCapsIgnoredExample | ComuniJson.CapForCsv |
