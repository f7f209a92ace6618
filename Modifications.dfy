/** The dictionary of pending edits, keyed by line index, and how deleting
    a line rebuilds it. */
module Modifications {
  import opened Text

  /** The index a line had before line `d` was deleted, given its index after. */
  function Source(j: nat, d: nat): nat
  {
    if j < d then j else j + 1
  }

  /** The rebuilt `line_modifications` once line `c` is gone: entries below
      `c` stay, entries above `c` move down by one, the entry at `c` is dropped. */
  function Rekeyed<V>(m: map<nat, V>, c: nat): map<nat, V>
  {
    map j | j in RekeyedKeys(m.Keys, c) :: m[Source(j, c)]
  }

  /** The indices the surviving entries move to. */
  function RekeyedKeys(ks: set<nat>, c: nat): set<nat>
  {
    set k | k in ks && k != c :: Target(k, c)
  }

  /** The index after deleting line `c` of a line other than `c`. */
  function Target(k: nat, c: nat): (j: nat)
    requires k != c
    ensures Source(j, c) == k
  {
    if k < c then k else k - 1
  }

  /** Index `j` has an entry afterwards exactly when the line that now has
      index `j` had one before, and it is that entry. */
  lemma {:induction false} RekeyedMeaning<V>(m: map<nat, V>, c: nat)
    ensures forall j: nat :: j in Rekeyed(m, c) <==> Source(j, c) in m
    ensures forall j: nat :: j in Rekeyed(m, c) ==> Rekeyed(m, c)[j] == m[Source(j, c)]
  {
    var r := Rekeyed(m, c);
    forall j: nat ensures j in r <==> Source(j, c) in m {
      if Source(j, c) in m {
        var k := Source(j, c);
        assert k != c && Target(k, c) == j;
      }
    }
  }

  /** The loop of `delete_line` that builds the new dictionary: every entry
      below `c` is copied, every entry above `c` is copied one index lower.
      The entries are visited in whatever order the dictionary yields them. */
  method RebuildModifications<V>(m: map<nat, V>, c: nat) returns (r: map<nat, V>)
    ensures r == Rekeyed(m, c)
  {
    r := map[];
    var remaining := m.Keys;
    while remaining != {}
      invariant remaining <= m.Keys
      invariant forall j: nat :: j in r <==> Source(j, c) in m && Source(j, c) !in remaining
      invariant forall j: nat :: j in r ==> r[j] == m[Source(j, c)]
      decreases |remaining|
    {
      var k :| k in remaining;
      if k < c {
        r := r[k := m[k]];
      } else if k > c {
        r := r[k - 1 := m[k]];
      }
      remaining := remaining - {k};
    }
    RekeyedMeaning(m, c);
    assert r.Keys == Rekeyed(m, c).Keys;
  }

  /** The rebuilding of `line_modifications` as `delete_line` is written: it
      uses the current index after it has been clamped to the new last line,
      not the index of the line that was deleted. */
  function ModificationsAfterDeleteAsWritten<V>(m: map<nat, V>, index: nat, totalAfter: int): map<nat, V>
  {
    Rekeyed(m, if index >= totalAfter then (if totalAfter - 1 > 0 then totalAfter - 1 else 0) else index)
  }

  /** Deleting the last of two lines: as written, the edits of the deleted
      line end up on the line that remains and that line's own edits are
      lost; rekeying by the deleted index keeps the remaining line's edits. */
  lemma {:induction false} DeleteLastLineMovesEdits()
    ensures ModificationsAfterDeleteAsWritten(map[0 := "A", 1 := "B"], 1, 1) == map[0 := "B"]
    ensures Rekeyed(map[0 := "A", 1 := "B"], 1) == map[0 := "A"]
  {
    var m: map<nat, string> := map[0 := "A", 1 := "B"];
    var asWritten := Rekeyed(m, 0);
    assert 1 in m.Keys && Target(1, 0) == 0;
    assert 0 in asWritten && asWritten[0] == "B";
    forall j | j in asWritten ensures j == 0 {
    }
    assert asWritten.Keys == {0};
    var intended := Rekeyed(m, 1);
    assert 0 in m.Keys && Target(0, 1) == 0;
    assert 0 in intended && intended[0] == "A";
    forall j | j in intended ensures j == 0 {
    }
    assert intended.Keys == {0};
  }

  /** The text `DettaglioLinee[idx]` found in the paths of the edit fields
      of the line whose XPath index (counted from 1) is `idx`. */
  function LineMarker(idx: nat): string
  {
    "DettaglioLinee[" + NatToString(idx) + "]"
  }

  /** The edit fields, path to current value, whose path contains the
      marker of line `idx`. */
  function LineFields(fields: map<string, string>, idx: nat): map<string, string>
  {
    map x | x in fields && Contains(x, LineMarker(idx)) :: fields[x]
  }

  /** The loop of `save_current_line_data` over the edit fields. */
  method CollectLineFields(fields: map<string, string>, idx: nat) returns (d: map<string, string>)
    ensures d == LineFields(fields, idx)
  {
    d := map[];
    var remaining := fields.Keys;
    var marker := LineMarker(idx);
    while remaining != {}
      invariant remaining <= fields.Keys
      invariant forall x :: x in d <==> x in fields && x !in remaining && Contains(x, marker)
      invariant forall x :: x in d ==> d[x] == fields[x]
      decreases |remaining|
    {
      var x :| x in remaining;
      if Contains(x, marker) {
        d := d[x := fields[x]];
      }
      remaining := remaining - {x};
    }
    assert d.Keys == LineFields(fields, idx).Keys;
  }

  /** `line_modifications` after saving the current line `index` (counted
      from 0): the fields of that line replace its entry, unless there are
      none, in which case nothing changes. */
  function Saved(mods: map<nat, map<string, string>>, fields: map<string, string>, index: nat): map<nat, map<string, string>>
  {
    var d := LineFields(fields, index + 1);
    if d == map[] then mods else mods[index := d]
  }
}
