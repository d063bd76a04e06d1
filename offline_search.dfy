/** tools/main.py: the offline prefix search over the catalogue's product
    names, with its own normalisation (which, unlike the other two tools,
    does not fold `ё`), the wrong-keyboard-layout map and the fuzzy test
    `difflib.SequenceMatcher(...).ratio() >= 0.8`.  Reading the XML file
    and the CSV of queries is not modelled: the name texts and the prefixes
    are inputs. */
module OfflineSearch {
  import opened Wrappers
  import opened TextBasics
  import opened SequenceMatcher
  import Evaluate

  // ---------------------------------------------------------------------
  // normalize_text and lat_to_ru_keymap

  /** Lower-case, strip, drop every character that is neither a word
      character nor whitespace, squeeze whitespace runs. */
  function NormalizeText(text: string): string {
    SqueezeSpaces(RemoveNonWord(Strip(LowerStr(text))))
  }

  /** The normalised text holds only word characters and single spaces, and
      nothing that lower-casing would change. */
  lemma NormalizeTextClean(text: string)
    ensures var r := NormalizeText(text);
            && (forall i :: 0 <= i < |r| ==> IsWordChar(r[i]) || r[i] == ' ')
            && NoDoubleSpace(r)
            && (forall i :: 0 <= i < |r| ==> Lower(r[i]) == r[i])
  {
    var lowered := LowerStr(text);
    forall i | 0 <= i < |lowered| ensures Lower(lowered[i]) == lowered[i] {
      LowerIdempotent(text[i]);
    }
    StripMembers(lowered);
    var r := NormalizeText(text);
    assert forall c :: c in r ==> (IsWordChar(c) || c == ' ') && Lower(c) == c;
  }

  /** Normalising keeps every word character of the lower-cased text in
      order and adds nothing but spaces. */
  lemma NormalizeTextKeepsWords(text: string)
    ensures RemoveChar(NormalizeText(text), ' ') == WordChars(LowerStr(text))
    ensures NonSpace(NormalizeText(text)) == WordChars(LowerStr(text))
  {
    CleanUpKeepsWords(LowerStr(text));
  }

  /** Without the `ё` fold this copy differs from the other two tools':
      `Ёж` stays `ёж` here and becomes `еж` there. */
  lemma NoYoFold()
    ensures NormalizeText("Ёж") == "ёж"
    ensures Evaluate.NormalizeText("Ёж") == "еж"
  {
    assert LowerStr("Ёж") == "ёж";
    assert ReplaceChar("ёж", 'ё', 'е') == "еж";
    assert StripLeft("ёж") == "ёж" && StripRight("ёж") == "ёж";
    assert StripLeft("еж") == "еж" && StripRight("еж") == "еж";
    assert RemoveNonWord("ёж") == "ёж" && RemoveNonWord("еж") == "еж";
    assert SqueezeSpaces("ёж") == "ёж" && SqueezeSpaces("еж") == "еж";
  }

  /** `lat_to_ru_keymap`; the table of tools/main.py holds the same 33 pairs
      as that of tools/evaluate.py, so the evaluation tool's function is
      used. */
  function LatToRuKeymap(text: string): (r: string)
    ensures |r| == |text|
    ensures forall i :: 0 <= i < |text| ==> r[i] == Evaluate.LatToRuChar(text[i])
  {
    Evaluate.LatToRuKeymap(text)
  }

  /** The layout map sends each key to the letter on the same key of the
      Russian layout, so a Latin spelling is not transliterated by sound:
      `molok` becomes `ьщдщл`, not `молок`. */
  lemma KeymapIsNotPhonetic()
    ensures LatToRuKeymap("molok") == "ьщдщл"
  {
    var r := LatToRuKeymap("molok");
    assert r[0] == 'ь' && r[1] == 'щ' && r[2] == 'д' && r[3] == 'щ' && r[4] == 'л';
  }

  // ---------------------------------------------------------------------
  // prefix_search

  predicate AllAscii(s: string) {
    forall i :: 0 <= i < |s| ==> IsAscii(s[i])
  }

  /** The four forms of the prefix that `prefix_search` computes before its
      loop. */
  datatype PrefixForms = PrefixForms(norm: string, normNs: string, translit: string, translitNs: string)

  function FormsOf(prefix: string): PrefixForms {
    var norm := NormalizeText(prefix);
    var translit := if AllAscii(norm) then LatToRuKeymap(norm) else "";
    PrefixForms(norm, RemoveChar(norm, ' '), translit, if translit != "" then RemoveChar(translit, ' ') else "")
  }

  /** The four assignments before the loop of `prefix_search`. */
  method ComputeForms(prefix: string) returns (f: PrefixForms)
    ensures f == FormsOf(prefix)
    ensures f.norm == NormalizeText(prefix) && f.normNs == RemoveChar(f.norm, ' ')
    ensures f.translit != "" <==> f.norm != "" && AllAscii(f.norm)
    ensures f.translit != "" ==> |f.translit| == |f.norm| && f.translit == LatToRuKeymap(f.norm)
    ensures f.translitNs == RemoveChar(f.translit, ' ')
  {
    TranslitLength(prefix);
    var normPrefix := NormalizeText(prefix);
    var normPrefixNs := RemoveChar(normPrefix, ' ');
    var isAscii := AllAscii(normPrefix);
    var translitPrefix := if isAscii then LatToRuKeymap(normPrefix) else "";
    var translitPrefixNs := if translitPrefix != "" then RemoveChar(translitPrefix, ' ') else "";
    f := PrefixForms(normPrefix, normPrefixNs, translitPrefix, translitPrefixNs);
  }

  /** `name.startswith(p) or SequenceMatcher(None, name[:len(p)], p).ratio() >= 0.8`. */
  predicate StartsOrResembles(name: string, p: string) {
    StartsWith(name, p) || Similar(Take(name, |p|), p)
  }

  /** The strict-or-fuzzy test and the no-space test. */
  predicate PlainMatch(normName: string, f: PrefixForms) {
    StartsOrResembles(normName, f.norm) || StartsOrResembles(RemoveChar(normName, ' '), f.normNs)
  }

  /** The two transliteration tests, tried only for a non-empty
      transliterated prefix. */
  predicate TranslitMatch(normName: string, f: PrefixForms) {
    f.translit != "" &&
    (StartsOrResembles(normName, f.translit) || StartsOrResembles(RemoveChar(normName, ' '), f.translitNs))
  }

  /** One of the four tests accepts the normalised name. */
  predicate Admitted(normName: string, f: PrefixForms) {
    PlainMatch(normName, f) || TranslitMatch(normName, f)
  }

  /** The name is added to the results for this prefix. */
  predicate NameMatches(name: string, prefix: string) {
    Admitted(NormalizeText(name), FormsOf(prefix))
  }

  /** `prefix_search(product_names, prefix)`. */
  method PrefixSearch(productNames: seq<string>, prefix: string) returns (r: seq<string>)
    ensures StrictlySorted(r)
    ensures forall x :: x in r <==> prefix != "" && x in productNames && NameMatches(x, prefix)
  {
    if prefix == "" {
      return [];
    }
    var forms := ComputeForms(prefix);
    ghost var keep: string -> bool := x => NameMatches(x, prefix);
    var results: set<string> := {};
    for i := 0 to |productNames|
      invariant results == Matching(productNames[..i], keep)
    {
      MatchingStep(productNames, keep, i);
      var originalName := productNames[i];
      var add := Admits(originalName, forms);
      if add {
        results := results + {originalName};
      }
    }
    assert productNames[..|productNames|] == productNames;
    r := SortedList(results);
    forall x ensures x in r <==> x in productNames && NameMatches(x, prefix) {
      MatchingMembers(productNames, keep, x);
    }
  }

  /** The body of the loop of `prefix_search` for one name: the four tests
      in order, each success adding the name and going on to the next. */
  method Admits(originalName: string, f: PrefixForms) returns (add: bool)
    ensures add == Admitted(NormalizeText(originalName), f)
  {
    var normName := NormalizeText(originalName);
    var normNameNs := RemoveChar(normName, ' ');
    if StartsOrResembles(normName, f.norm) {
      return true;
    }
    if StartsOrResembles(normNameNs, f.normNs) {
      return true;
    }
    if f.translit != "" {
      if StartsOrResembles(normName, f.translit) {
        return true;
      }
      if StartsOrResembles(normNameNs, f.translitNs) {
        return true;
      }
    }
    return false;
  }

  /** The names of the list that pass the test `keep`, as a set. */
  function Matching(names: seq<string>, keep: string -> bool): set<string> {
    if names == [] then {}
    else
      var n := |names| - 1;
      Matching(names[..n], keep) + (if keep(names[n]) then {names[n]} else {})
  }

  lemma MatchingStep(names: seq<string>, keep: string -> bool, i: nat)
    requires i < |names|
    ensures Matching(names[..i + 1], keep) ==
            Matching(names[..i], keep) + (if keep(names[i]) then {names[i]} else {})
  {
    assert names[..i + 1][..i] == names[..i];
  }

  lemma {:induction false} MatchingMembers(names: seq<string>, keep: string -> bool, x: string)
    ensures x in Matching(names, keep) <==> x in names && keep(x)
  {
    if names != [] {
      var n := |names| - 1;
      MatchingMembers(names[..n], keep, x);
      assert names == names[..n] + [names[n]];
    }
  }

  /** A prefix that normalises to nothing (only punctuation or spaces)
      matches every name, since every string starts with `""`. */
  lemma BlankPrefixMatchesAll(prefix: string, name: string)
    requires NormalizeText(prefix) == ""
    ensures NameMatches(name, prefix)
  {
    assert StartsWith(NormalizeText(name), "");
  }

  /** A name whose normalised form starts with the normalised prefix, or
      whose normalised form without spaces starts with the prefix's, is
      found. */
  lemma PrefixedNamesMatch(prefix: string, name: string)
    requires StartsWith(NormalizeText(name), NormalizeText(prefix)) ||
             StartsWith(RemoveChar(NormalizeText(name), ' '), RemoveChar(NormalizeText(prefix), ' '))
    ensures NameMatches(name, prefix)
  {
  }

  /** For a prefix that is not all ASCII after normalisation there is no
      transliterated form, and only the first two tests decide. */
  lemma NonAsciiPrefix(prefix: string, name: string)
    requires !AllAscii(NormalizeText(prefix))
    ensures FormsOf(prefix).translit == "" && FormsOf(prefix).translitNs == ""
    ensures NameMatches(name, prefix) <==> PlainMatch(NormalizeText(name), FormsOf(prefix))
  {
  }

  /** The transliterated prefix is exactly as long as the normalised one
      when it exists, and empty exactly when the normalised prefix is not
      all ASCII or is empty. */
  lemma TranslitLength(prefix: string)
    ensures var f := FormsOf(prefix);
            && (AllAscii(f.norm) ==> |f.translit| == |f.norm|)
            && (f.translit == "" <==> !AllAscii(f.norm) || f.norm == "")
  {
  }

  /** The result depends only on the set of names: two lists of product
      names with the same elements, in any order and with any repetitions,
      give the same result. */
  lemma ResultDependsOnNameSet(names1: seq<string>, names2: seq<string>, prefix: string,
                               r1: seq<string>, r2: seq<string>)
    requires forall x :: x in names1 <==> x in names2
    requires StrictlySorted(r1) && forall x :: x in r1 <==> prefix != "" && x in names1 && NameMatches(x, prefix)
    requires StrictlySorted(r2) && forall x :: x in r2 <==> prefix != "" && x in names2 && NameMatches(x, prefix)
    ensures r1 == r2
  {
    StrictlySortedUnique(r1, r2);
  }

  // ---------------------------------------------------------------------
  // load_product_names

  /** The names `load_product_names` collects from the `<name>` texts of
      the products (`None` for a product without a name element or with an
      empty one). */
  function NameSet(texts: seq<Option<string>>): set<string> {
    if texts == [] then {}
    else
      var n := |texts| - 1;
      var t := texts[n];
      NameSet(texts[..n]) + (if t.Some? && t.value != "" && Strip(t.value) != "" then {Strip(t.value)} else {})
  }

  /** The collected names are exactly the non-empty stripped name texts. */
  lemma NameSetMembers(texts: seq<Option<string>>, x: string)
    ensures x in NameSet(texts) <==>
            exists i :: 0 <= i < |texts| && texts[i].Some? && x == Strip(texts[i].value) && x != ""
  {
    if x in NameSet(texts) {
      NameSetSound(texts, x);
    }
    if exists i :: 0 <= i < |texts| && texts[i].Some? && x == Strip(texts[i].value) && x != "" {
      NameSetComplete(texts, x);
    }
  }

  lemma {:induction false} NameSetSound(texts: seq<Option<string>>, x: string)
    requires x in NameSet(texts)
    ensures exists i :: 0 <= i < |texts| && texts[i].Some? && x == Strip(texts[i].value) && x != ""
  {
    var n := |texts| - 1;
    if x in NameSet(texts[..n]) {
      NameSetSound(texts[..n], x);
      var i :| 0 <= i < n && texts[..n][i].Some? && x == Strip(texts[..n][i].value) && x != "";
      assert texts[i] == texts[..n][i];
    } else {
      assert texts[n].Some? && x == Strip(texts[n].value) && x != "";
    }
  }

  lemma {:induction false} NameSetComplete(texts: seq<Option<string>>, x: string)
    requires exists i :: 0 <= i < |texts| && texts[i].Some? && x == Strip(texts[i].value) && x != ""
    ensures x in NameSet(texts)
  {
    var n := |texts| - 1;
    var i :| 0 <= i < |texts| && texts[i].Some? && x == Strip(texts[i].value) && x != "";
    if i < n {
      assert texts[..n][i] == texts[i];
      NameSetComplete(texts[..n], x);
    } else {
      assert texts[n].value != "";
    }
  }

  /** A collected name is non-empty and has no whitespace at either end. */
  lemma NamesAreStripped(texts: seq<Option<string>>, x: string)
    requires x in NameSet(texts)
    ensures x != "" && Strip(x) == x
  {
    NameSetMembers(texts, x);
    var i :| 0 <= i < |texts| && texts[i].Some? && x == Strip(texts[i].value) && x != "";
    var a := StripIsSlice(texts[i].value);
    StripOfStripped(x);
  }

  /** `load_product_names` over the `<name>` texts: the loop collecting the
      stripped names in a set, then `sorted(list(names))`. */
  method LoadProductNames(texts: seq<Option<string>>) returns (r: seq<string>)
    ensures StrictlySorted(r)
    ensures forall x :: x in r <==> x in NameSet(texts)
  {
    var names: set<string> := {};
    for i := 0 to |texts|
      invariant names == NameSet(texts[..i])
    {
      assert texts[..i + 1][..i] == texts[..i];
      if texts[i].Some? && texts[i].value != "" {
        var original := Strip(texts[i].value);
        if original != "" {
          names := names + {original};
        }
      }
    }
    assert texts[..|texts|] == texts;
    r := SortedList(names);
  }
}
