/** The state behind the entry-plus-listbox widget of
    autocomplete_comuni.py: the entry's text and insertion cursor, the
    suggestions shown in the listbox and its selection, and the province
    and CAP fields it fills. */
module Autocomplete {
  import opened Wrappers
  import opened Text
  import opened OrderedDict
  import opened Comuni

  /** The entry's text and its insertion cursor. */
  datatype EntryState = EntryState(text: string, cursor: nat)

  /** Tk keeps the insertion cursor within the text. */
  predicate CursorInText(e: EntryState)
  {
    e.cursor <= |e.text|
  }

  /** `len(key) == 1 and key.isalnum()` for a key symbol. */
  predicate IsAlnumKey(key: string)
  {
    |key| == 1 && (IsDigit(key[0]) || IsAsciiLetter(key[0]))
  }

  /** The character the text-edit branch of `on_listbox_key` inserts, if any: the
      key itself for a letter or digit, a blank for `space`. */
  function Inserted(key: string): Option<char>
  {
    if IsAlnumKey(key) then Some(key[0]) else if key == "space" then Some(' ') else None
  }

  /** The entry after the text-edit branch of `on_listbox_key`: a letter,
      digit or `space` is inserted at the cursor, which moves past it;
      `BackSpace` deletes the character before a cursor that is not at the
      start, and moves the cursor back; nothing else changes the entry. */
  function Edited(e: EntryState, key: string): (r: EntryState)
    requires CursorInText(e)
    ensures CursorInText(r)
  {
    match Inserted(key)
    case Some(ch) => EntryState(e.text[..e.cursor] + [ch] + e.text[e.cursor..], e.cursor + 1)
    case None =>
      if key == "BackSpace" && e.cursor > 0 then EntryState(e.text[..e.cursor - 1] + e.text[e.cursor..], e.cursor - 1)
      else e
  }

  /** An inserted character lands at the cursor, with the text before and
      after it kept, and the cursor right after it. */
  lemma {:induction false} EditedInsert(e: EntryState, key: string, ch: char)
    requires CursorInText(e) && Inserted(key) == Some(ch)
    ensures var r := Edited(e, key);
      |r.text| == |e.text| + 1 && r.text[e.cursor] == ch && r.cursor == e.cursor + 1
      && r.text[..e.cursor] == e.text[..e.cursor] && r.text[e.cursor + 1..] == e.text[e.cursor..]
  {
    var r := Edited(e, key);
    var a, b := e.text[..e.cursor], e.text[e.cursor..];
    assert r.text == a + [ch] + b;
    assert r.text[..e.cursor] == a;
    assert r.text[e.cursor + 1..] == b;
  }

  /** `BackSpace` removes exactly the character before the cursor; at the
      start of the text it changes nothing, as does any key that is not a
      letter, digit, `space` or `BackSpace`. */
  lemma {:induction false} EditedBackSpace(e: EntryState)
    requires CursorInText(e)
    ensures var r := Edited(e, "BackSpace");
      (e.cursor == 0 ==> r == e)
      && (e.cursor > 0 ==>
            |r.text| == |e.text| - 1 && r.cursor == e.cursor - 1
            && r.text[..r.cursor] == e.text[..r.cursor] && r.text[r.cursor..] == e.text[e.cursor..])
  {
    if e.cursor > 0 {
      var r := Edited(e, "BackSpace");
      var a, b := e.text[..e.cursor - 1], e.text[e.cursor..];
      assert r.text == a + b;
      assert r.text[..r.cursor] == a;
      assert r.text[r.cursor..] == b;
    }
  }

  /** `BackSpace` right after typing a character undoes it. */
  lemma {:induction false} InsertThenBackSpace(e: EntryState, key: string)
    requires CursorInText(e) && Inserted(key).Some?
    ensures Edited(Edited(e, key), "BackSpace") == e
  {
    var ch := Inserted(key).value;
    var r := Edited(e, key);
    var a, b := e.text[..e.cursor], e.text[e.cursor..];
    assert r.text == a + [ch] + b;
    assert r.text[..r.cursor - 1] == a;
    assert r.text[r.cursor..] == b;
    assert a + b == e.text;
  }

  /** `on_listbox_up` on the listbox selection: from the top it clears the
      selection (focus goes back to the entry), otherwise it moves one up;
      with nothing selected it selects the first item of a non-empty list. */
  function NavUp(sel: Option<nat>, size: nat): (r: Option<nat>)
    ensures (sel.Some? ==> sel.value < size) ==> (r.Some? ==> r.value < size)
  {
    match sel
    case Some(i) => if i == 0 then None else Some(i - 1)
    case None => if size > 0 then Some(0) else None
  }

  /** `on_listbox_down`: at the last item the selection stays, otherwise it
      moves one down; with nothing selected it selects the first item of a
      non-empty list. */
  function NavDown(sel: Option<nat>, size: nat): (r: Option<nat>)
    ensures (sel.Some? ==> sel.value < size) ==> (r.Some? ==> r.value < size)
  {
    match sel
    case Some(i) => if i == size - 1 then Some(i) else Some(i + 1)
    case None => if size > 0 then Some(0) else None
  }

  /** Down then Up returns to the item selected before, except from the
      last item, where Down does not move; Up then Down likewise, except
      from the top, where Up clears the selection. */
  lemma {:induction false} NavRoundTrips(i: nat, size: nat)
    requires i < size
    ensures i + 1 < size ==> NavUp(NavDown(Some(i), size), size) == Some(i)
    ensures i > 0 ==> NavDown(NavUp(Some(i), size), size) == Some(i)
    ensures NavDown(Some(i), size) == Some(i) <==> i == size - 1
    ensures NavUp(Some(i), size).None? <==> i == 0
  {
  }

  /** The entry-plus-listbox widget's state. */
  class AutocompleteComune {
    var comuniData: Dict<ComuneInfo>
    var entry: EntryState
    var items: seq<string>
    var selection: Option<nat>
    var provincia: string
    var cap: string

    /** The cursor is within the text and the selection within the list. */
    predicate Valid()
      reads this
    {
      CursorInText(entry) && (selection.Some? ==> selection.value < |items|)
    }

    /** A widget over the table, with an empty entry and list. */
    constructor (data: Dict<ComuneInfo>)
      ensures comuniData == data && entry == EntryState("", 0) && items == [] && selection == None
      ensures provincia == "" && cap == ""
      ensures Valid()
    {
      comuniData := data;
      entry := EntryState("", 0);
      items := [];
      selection := None;
      provincia := "";
      cap := "";
    }

    /** The text-edit branch of `on_listbox_key`. */
    method OnListboxKey(key: string)
      requires Valid()
      modifies this`entry
      ensures entry == Edited(old(entry), key)
      ensures Valid()
    {
      var text := entry.text;
      var cursorPos := entry.cursor;
      if IsAlnumKey(key) {
        entry := EntryState(text[..cursorPos] + key + text[cursorPos..], cursorPos + 1);
      } else if key == "space" {
        entry := EntryState(text[..cursorPos] + " " + text[cursorPos..], cursorPos + 1);
      } else if key == "BackSpace" {
        if cursorPos > 0 {
          entry := EntryState(text[..cursorPos - 1] + text[cursorPos..], cursorPos - 1);
        }
      }
    }

    /** `on_listbox_up` on the selection. */
    method OnListboxUp()
      requires Valid()
      modifies this`selection
      ensures selection == NavUp(old(selection), |items|)
      ensures Valid()
    {
      if selection.Some? {
        var currentIndex := selection.value;
        if currentIndex == 0 {
          selection := None;
          return;
        }
        selection := Some(currentIndex - 1);
      } else if |items| > 0 {
        selection := Some(0);
      }
    }

    /** `on_listbox_down` on the selection. */
    method OnListboxDown()
      requires Valid()
      modifies this`selection
      ensures selection == NavDown(old(selection), |items|)
      ensures Valid()
    {
      if selection.Some? {
        var currentIndex := selection.value;
        var lastIndex := |items| - 1;
        if currentIndex == lastIndex {
          return;
        }
        selection := Some(currentIndex + 1);
      } else if |items| > 0 {
        selection := Some(0);
      }
    }

    /** `aggiorna_provincia_cap(comune)`. */
    method AggiornaProvinciaCap(comune: string) returns (found: bool)
      modifies this`provincia, this`cap
      ensures Fill(found, provincia, cap) == ProvinciaCap(comuniData, comune, old(provincia), old(cap))
    {
      found := false;
      var info := Get(comuniData, comune);
      if info.Some? {
        if info.value.provincia.Some? {
          provincia := info.value.provincia.value;
        }
        if info.value.cap.Some? && info.value.cap.value != [] {
          cap := info.value.cap.value[0];
        }
        found := true;
      }
    }
  }
}
