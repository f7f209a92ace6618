/** The combobox variant of the municipality widget
    (Funzionanti/autocomplete_comuni.py): a key released in the combobox
    schedules a debounced refresh of its values unless the text is a
    single character, and the refresh opens the dropdown only for an
    empty text or one of at least two characters. */
module ComboAutocomplete {
  import opened Wrappers
  import opened OrderedDict
  import opened Sorting
  import opened Comuni

  /** The keys `on_keyrelease` ignores. */
  predicate IsNavigationKey(key: string)
  {
    key == "Up" || key == "Down" || key == "Left" || key == "Right" || key == "Escape"
  }

  /** `not (0 < len(text) < 2)`: after a key release an update is
      scheduled for this text. */
  predicate SchedulesUpdate(text: string)
  {
    !(0 < |text| < 2)
  }

  /** `suggestions and (len(text) >= 2 or text == "")`. */
  predicate OpensDropdown(suggestions: seq<string>, text: string)
  {
    suggestions != [] && (|text| >= 2 || text == "")
  }

  /** The dropdown opens exactly when there is something to show for a
      text that would have scheduled an update: only a one-character text
      is held back. */
  lemma {:induction false} OpensDropdownThreshold(suggestions: seq<string>, text: string)
    ensures OpensDropdown(suggestions, text) <==> suggestions != [] && SchedulesUpdate(text)
    ensures SchedulesUpdate(text) <==> |text| != 1
  {
  }

  /** For an empty text the refresh opens the dropdown as soon as the
      table has a municipality. */
  lemma {:induction false} EmptyTextOpens(keys: seq<string>)
    ensures OpensDropdown(SuggestionsUncapped(keys, ""), "") <==> keys != []
  {
    assert |Sort(keys)| == |keys|;
  }

  /** The combobox widget's state: the combobox text and values, whether
      a refresh is scheduled (a live `update_timer_id`), and the province
      and CAP fields. */
  class AutocompleteComune {
    var comuniData: Dict<ComuneInfo>
    var text: string
    var values: seq<string>
    var pending: bool
    var provincia: string
    var cap: string

    constructor (data: Dict<ComuneInfo>)
      ensures comuniData == data && text == "" && values == [] && !pending
      ensures provincia == "" && cap == ""
    {
      comuniData := data;
      text := "";
      values := [];
      pending := false;
      provincia := "";
      cap := "";
    }

    /** `on_keyrelease`: navigation keys change nothing; any other key
        cancels the scheduled refresh and schedules a new one unless the
        text is a single character. */
    method OnKeyrelease(key: string)
      modifies this`pending
      ensures IsNavigationKey(key) ==> pending == old(pending)
      ensures !IsNavigationKey(key) ==> (pending <==> SchedulesUpdate(text))
    {
      if IsNavigationKey(key) {
        return;
      }
      pending := false;
      if 0 < |text| < 2 {
        return;
      }
      pending := true;
    }

    /** `update_suggestions`: the values become the suggestions for the
        text; the result says whether the dropdown is opened. */
    method UpdateSuggestions() returns (opens: bool)
      modifies this`values
      ensures values == SuggestionsUncapped(Keys(comuniData), text)
      ensures opens <==> OpensDropdown(values, text)
    {
      var suggestions := SuggestionsUncapped(Keys(comuniData), text);
      values := suggestions;
      opens := suggestions != [] && (|text| >= 2 || text == "");
    }

    /** `aggiorna_provincia_cap(comune)`. */
    method AggiornaProvinciaCap(comune: string) returns (found: bool)
      modifies this`provincia, this`cap
      ensures Fill(found, provincia, cap) == ProvinciaCap(comuniData, comune, old(provincia), old(cap))
    {
      found := false;
      var info := Get(comuniData, comune);
      if info.Some? {
        if info.value.provincia.Some? {
          provincia := info.value.provincia.value;
        }
        if info.value.cap.Some? && info.value.cap.value != [] {
          cap := info.value.cap.value[0];
        }
        found := true;
      }
    }
  }
}
