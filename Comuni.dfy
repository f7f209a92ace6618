/** The municipality table shared by both autocomplete widgets
    (`comuni_data`: name to a record with optional `provincia` and `cap`
    entries), the suggestion rule of `get_suggestions` and the
    province/CAP fill rule of `aggiorna_provincia_cap`. */
module Comuni {
  import opened Wrappers
  import opened Text
  import opened Sorting
  import opened OrderedDict

  /** One value of `comuni_data`: its `provincia` and `cap` entries, None
      when the record has no such key. */
  datatype ComuneInfo = ComuneInfo(provincia: Option<string>, cap: Option<seq<string>>)

  /** How many entries `get_suggestions` aims for before it stops adding
      contains-matches, and the cap on the sorted result. */
  const TopUpTarget := 10
  const MaxSuggestions := 100

  /** `[c for c in keys if c.lower().startswith(t)]`. */
  function PrefixMatches(keys: seq<string>, t: string): (r: seq<string>)
    ensures |r| <= |keys|
  {
    if keys == [] then []
    else (if StartsWith(Lower(keys[0]), t) then [keys[0]] else []) + PrefixMatches(keys[1..], t)
  }

  /** `[c for c in keys if c.lower().find(t) != -1 and c not in pre]`. */
  function ContainsMatches(keys: seq<string>, t: string, pre: seq<string>): (r: seq<string>)
    ensures |r| <= |keys|
  {
    if keys == [] then []
    else (if Contains(Lower(keys[0]), t) && keys[0] !in pre then [keys[0]] else []) + ContainsMatches(keys[1..], t, pre)
  }

  lemma {:induction false} PrefixMatchesIn(keys: seq<string>, t: string, x: string)
    ensures x in PrefixMatches(keys, t) <==> x in keys && StartsWith(Lower(x), t)
  {
    if keys != [] {
      PrefixMatchesIn(keys[1..], t, x);
      assert keys == [keys[0]] + keys[1..];
    }
  }

  lemma {:induction false} ContainsMatchesIn(keys: seq<string>, t: string, pre: seq<string>, x: string)
    ensures x in ContainsMatches(keys, t, pre) <==> x in keys && Contains(Lower(x), t) && x !in pre
  {
    if keys != [] {
      ContainsMatchesIn(keys[1..], t, pre, x);
      assert keys == [keys[0]] + keys[1..];
    }
  }

  lemma {:induction false} ConsNoDuplicates<T>(x: T, s: seq<T>)
    requires x !in s && NoDuplicates(s)
    ensures NoDuplicates([x] + s)
  {
    forall i, j | 0 <= i < j < |[x] + s| ensures ([x] + s)[i] != ([x] + s)[j] {
      assert ([x] + s)[j] == s[j - 1];
      if i > 0 { assert ([x] + s)[i] == s[i - 1]; }
    }
  }

  lemma {:induction false} AppendNoDuplicates<T>(a: seq<T>, b: seq<T>)
    requires NoDuplicates(a) && NoDuplicates(b)
    requires forall x :: x in a ==> x !in b
    ensures NoDuplicates(a + b)
  {
    forall i, j | 0 <= i < j < |a + b| ensures (a + b)[i] != (a + b)[j] {
      if j >= |a| {
        assert (a + b)[j] == b[j - |a|];
        if i >= |a| { assert (a + b)[i] == b[i - |a|]; } else { assert (a + b)[i] == a[i] && a[i] in a; }
      } else {
        assert (a + b)[i] == a[i] && (a + b)[j] == a[j];
      }
    }
  }

  lemma {:induction false} TailNoDuplicates<T>(s: seq<T>)
    requires s != [] && NoDuplicates(s)
    ensures s[0] !in s[1..] && NoDuplicates(s[1..])
  {
    forall k | 0 <= k < |s[1..]| ensures s[1..][k] != s[0] { assert s[1..][k] == s[k + 1]; }
  }

  lemma {:induction false} PrefixMatchesNoDuplicates(keys: seq<string>, t: string)
    requires NoDuplicates(keys)
    ensures NoDuplicates(PrefixMatches(keys, t))
  {
    if keys != [] {
      TailNoDuplicates(keys);
      PrefixMatchesNoDuplicates(keys[1..], t);
      PrefixMatchesIn(keys[1..], t, keys[0]);
      if StartsWith(Lower(keys[0]), t) {
        ConsNoDuplicates(keys[0], PrefixMatches(keys[1..], t));
      }
    }
  }

  lemma {:induction false} ContainsMatchesNoDuplicates(keys: seq<string>, t: string, pre: seq<string>)
    requires NoDuplicates(keys)
    ensures NoDuplicates(ContainsMatches(keys, t, pre))
  {
    if keys != [] {
      TailNoDuplicates(keys);
      ContainsMatchesNoDuplicates(keys[1..], t, pre);
      ContainsMatchesIn(keys[1..], t, pre, keys[0]);
      if Contains(Lower(keys[0]), t) && keys[0] !in pre {
        ConsNoDuplicates(keys[0], ContainsMatches(keys[1..], t, pre));
      }
    }
  }

  /** The list `get_suggestions` sorts: the prefix matches, followed, when
      there are fewer than ten of them, by as many of the other keys that
      contain the text as bring the total to ten. */
  function Candidates(keys: seq<string>, text: string): seq<string>
  {
    var t := Lower(text);
    var pre := PrefixMatches(keys, t);
    if |pre| < TopUpTarget then pre + Take(ContainsMatches(keys, t, pre), TopUpTarget - |pre|) else pre
  }

  /** `get_suggestions(text)` of autocomplete_comuni.py. */
  function Suggestions(keys: seq<string>, text: string): seq<string>
  {
    if text == "" then Take(Sort(keys), MaxSuggestions) else Take(Sort(Candidates(keys, text)), MaxSuggestions)
  }

  /** `get_suggestions(text)` of the combobox widget: the same, except
      that a non-empty text is not capped. */
  function SuggestionsUncapped(keys: seq<string>, text: string): seq<string>
  {
    if text == "" then Take(Sort(keys), MaxSuggestions) else Sort(Candidates(keys, text))
  }

  /** Every candidate is a key containing the text, case-insensitively. */
  lemma {:induction false} CandidatesMatch(keys: seq<string>, text: string, x: string)
    requires x in Candidates(keys, text)
    ensures x in keys && Contains(Lower(x), Lower(text))
  {
    var t := Lower(text);
    var pre := PrefixMatches(keys, t);
    if x in pre {
      PrefixMatchesIn(keys, t, x);
      StartsWithContains(Lower(x), t);
    } else {
      var extra := ContainsMatches(keys, t, pre);
      assert x in Take(extra, TopUpTarget - |pre|);
      ContainsMatchesIn(keys, t, pre, x);
    }
  }

  /** Every key whose lower-case form starts with the lower-cased text is
      a candidate. */
  lemma {:induction false} CandidatesPrefix(keys: seq<string>, text: string, x: string)
    requires x in keys && StartsWith(Lower(x), Lower(text))
    ensures x in Candidates(keys, text)
  {
    PrefixMatchesIn(keys, Lower(text), x);
  }

  lemma {:induction false} CandidatesNoDuplicates(keys: seq<string>, text: string)
    requires NoDuplicates(keys)
    ensures NoDuplicates(Candidates(keys, text))
  {
    var t := Lower(text);
    var pre := PrefixMatches(keys, t);
    PrefixMatchesNoDuplicates(keys, t);
    if |pre| < TopUpTarget {
      var extra := ContainsMatches(keys, t, pre);
      var more := Take(extra, TopUpTarget - |pre|);
      assert NoDuplicates(more) by {
        ContainsMatchesNoDuplicates(keys, t, pre);
        assert more == extra[..|more|];
      }
      assert forall x :: x in pre ==> x !in more by {
        forall x | x in pre ensures x !in more {
          if x in more {
            assert x in extra by { assert more == extra[..|more|]; }
            ContainsMatchesIn(keys, t, pre, x);
          }
        }
      }
      AppendNoDuplicates(pre, more);
      assert Candidates(keys, text) == pre + more;
    }
  }

  /** With fewer than ten prefix matches the list is topped up to ten, or
      to all the matches there are when those are fewer. */
  lemma {:induction false} CandidatesTopUp(keys: seq<string>, text: string)
    ensures var t := Lower(text);
      var pre := PrefixMatches(keys, t);
      var total := |pre| + |ContainsMatches(keys, t, pre)|;
      |pre| < TopUpTarget ==> |Candidates(keys, text)| == if total < TopUpTarget then total else TopUpTarget
    ensures var pre := PrefixMatches(keys, Lower(text));
      |pre| >= TopUpTarget ==> Candidates(keys, text) == pre
  {
  }

  /** Fewer than ten candidates means every key containing the text is one. */
  lemma {:induction false} CandidatesComplete(keys: seq<string>, text: string, x: string)
    requires |Candidates(keys, text)| < TopUpTarget
    requires x in keys && Contains(Lower(x), Lower(text))
    ensures x in Candidates(keys, text)
  {
    var t := Lower(text);
    var pre := PrefixMatches(keys, t);
    var extra := ContainsMatches(keys, t, pre);
    assert |pre| < TopUpTarget;
    assert Take(extra, TopUpTarget - |pre|) == extra;
    ContainsMatchesIn(keys, t, pre, x);
  }

  lemma {:induction false} CandidatesSize(keys: seq<string>, text: string)
    ensures |Candidates(keys, text)| <= if |PrefixMatches(keys, Lower(text))| < TopUpTarget then TopUpTarget else |PrefixMatches(keys, Lower(text))|
  {
  }

  lemma {:induction false} TakeFacts(s: seq<string>, n: nat)
    ensures forall x :: x in Take(s, n) ==> x in s
    ensures Sorted(s) ==> Sorted(Take(s, n))
    ensures NoDuplicates(s) ==> NoDuplicates(Take(s, n))
    ensures |Take(s, n)| <= n
  {
    var r := Take(s, n);
    assert forall i :: 0 <= i < |r| ==> r[i] == s[i];
  }

  lemma {:induction false} SortFacts(s: seq<string>, x: string)
    ensures x in Sort(s) <==> x in s
    ensures NoDuplicates(s) ==> NoDuplicates(Sort(s))
  {
    assert x in Sort(s) <==> x in multiset(Sort(s));
    assert x in s <==> x in multiset(s);
    if NoDuplicates(s) { NoDuplicatesPermutation(s, Sort(s)); }
  }

  /** The suggestions are sorted, each key at most once, at most a hundred
      of them, all keys of the table, and, for a non-empty text, all
      containing the text case-insensitively. */
  lemma {:induction false} SuggestionsShape(keys: seq<string>, text: string)
    requires NoDuplicates(keys)
    ensures var r := Suggestions(keys, text);
      Sorted(r) && NoDuplicates(r) && |r| <= MaxSuggestions
      && (forall x :: x in r ==> x in keys)
      && (text != "" ==> forall x :: x in r ==> Contains(Lower(x), Lower(text)))
  {
    var src := if text == "" then keys else Candidates(keys, text);
    if text != "" { CandidatesNoDuplicates(keys, text); }
    assert Suggestions(keys, text) == Take(Sort(src), MaxSuggestions);
    TakeFacts(Sort(src), MaxSuggestions);
    SortFacts(src, "");
    forall x ensures x in Sort(src) <==> x in src { SortFacts(src, x); }
    forall x | x in Suggestions(keys, text) ensures x in keys && (text != "" ==> Contains(Lower(x), Lower(text))) {
      if text != "" { CandidatesMatch(keys, text, x); }
    }
  }

  /** With an empty text and at most a hundred keys, every key is
      suggested; beyond that the first hundred in sorted order are. */
  lemma {:induction false} SuggestionsEmptyText(keys: seq<string>)
    ensures |Suggestions(keys, "")| == if |keys| < MaxSuggestions then |keys| else MaxSuggestions
    ensures |keys| <= MaxSuggestions ==> forall x :: x in Suggestions(keys, "") <==> x in keys
  {
    if |keys| <= MaxSuggestions {
      forall x ensures x in Suggestions(keys, "") <==> x in keys { SortFacts(keys, x); }
    }
  }

  /** A key starting with the text is suggested unless more than a
      hundred keys do. */
  lemma {:induction false} SuggestionsPrefix(keys: seq<string>, text: string, x: string)
    requires text != "" && x in keys && StartsWith(Lower(x), Lower(text))
    requires |PrefixMatches(keys, Lower(text))| <= MaxSuggestions
    ensures x in Suggestions(keys, text)
  {
    CandidatesSize(keys, text);
    CandidatesPrefix(keys, text, x);
    SortFacts(Candidates(keys, text), x);
  }

  /** The combobox widget returns the same list before the cap, so it
      always suggests every key that starts with the text. */
  lemma {:induction false} SuggestionsUncappedRelation(keys: seq<string>, text: string, x: string)
    ensures Suggestions(keys, text) == Take(SuggestionsUncapped(keys, text), MaxSuggestions)
    ensures text != "" && x in keys && StartsWith(Lower(x), Lower(text)) ==> x in SuggestionsUncapped(keys, text)
    ensures NoDuplicates(keys) ==> Sorted(SuggestionsUncapped(keys, text)) && NoDuplicates(SuggestionsUncapped(keys, text))
  {
    if text != "" && x in keys && StartsWith(Lower(x), Lower(text)) {
      CandidatesPrefix(keys, text, x);
      SortFacts(Candidates(keys, text), x);
    }
    if NoDuplicates(keys) {
      if text == "" {
        SortFacts(keys, "");
        TakeFacts(Sort(keys), MaxSuggestions);
      } else {
        CandidatesNoDuplicates(keys, text);
        SortFacts(Candidates(keys, text), "");
      }
    }
  }

  /** What `aggiorna_provincia_cap` returns and the two bound fields after it. */
  datatype Fill = Fill(found: bool, provincia: string, cap: string)

  /** `aggiorna_provincia_cap(comune)`: for a name in the table, the
      province when the record has one and the first CAP when its list is
      non-empty; for any other name, False and the fields as they were. */
  function ProvinciaCap(data: Dict<ComuneInfo>, comune: string, provincia: string, cap: string): (r: Fill)
    ensures r.found <==> comune in Keys(data)
    ensures !r.found ==> r.provincia == provincia && r.cap == cap
  {
    GetNone(data, comune);
    match Get(data, comune)
    case None => Fill(false, provincia, cap)
    case Some(info) =>
      Fill(true,
           if info.provincia.Some? then info.provincia.value else provincia,
           if info.cap.Some? && info.cap.value != [] then info.cap.value[0] else cap)
  }

  /** For a known name the province field shows the record's province
      and the CAP field its first CAP, where the record has them. */
  lemma {:induction false} ProvinciaCapKnown(data: Dict<ComuneInfo>, comune: string, provincia: string, cap: string, info: ComuneInfo)
    requires Get(data, comune) == Some(info)
    ensures var r := ProvinciaCap(data, comune, provincia, cap);
      r.found
      && (info.provincia.Some? ==> r.provincia == info.provincia.value)
      && (info.provincia.None? ==> r.provincia == provincia)
      && (info.cap.Some? && info.cap.value != [] ==> r.cap in info.cap.value && r.cap == info.cap.value[0])
      && (info.cap.None? || info.cap.value == [] ==> r.cap == cap)
  {
  }

  /** Selecting the same municipality twice fills the same values. */
  lemma {:induction false} ProvinciaCapIdem(data: Dict<ComuneInfo>, comune: string, provincia: string, cap: string)
    ensures var r := ProvinciaCap(data, comune, provincia, cap);
      ProvinciaCap(data, comune, r.provincia, r.cap) == r
  {
  }
}
