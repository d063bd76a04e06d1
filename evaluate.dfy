/** tools/evaluate.py: query normalisation, the wrong-keyboard-layout maps,
    extraction of a quantity filter, post-processing of the hybrid search's
    hits, the quality judgement and the metric loop of the evaluation run.
    The search backend and the embedding model are not modelled: the hits the
    backend returns are an input, and the request records the text the query
    vector is computed from. */
module Evaluate {
  import opened Wrappers
  import opened TextBasics

  // ---------------------------------------------------------------------
  // normalize_text

  /** Lower-case, fold `ё` to `е`, strip, drop every character that is
      neither a word character nor whitespace, squeeze whitespace runs. */
  function NormalizeText(text: string): string {
    SqueezeSpaces(RemoveNonWord(Strip(ReplaceChar(LowerStr(text), 'ё', 'е'))))
  }

  /** The normalised text holds only word characters and single spaces, no
      `ё`, and nothing that lower-casing would change. */
  lemma NormalizeTextClean(text: string)
    ensures var r := NormalizeText(text);
            && (forall i :: 0 <= i < |r| ==> IsWordChar(r[i]) || r[i] == ' ')
            && NoDoubleSpace(r)
            && 'ё' !in r
            && (forall i :: 0 <= i < |r| ==> Lower(r[i]) == r[i])
  {
    var lowered := ReplaceChar(LowerStr(text), 'ё', 'е');
    FoldedIsClean(text);
    StripMembers(lowered);
    var kept := RemoveNonWord(Strip(lowered));
    var r := SqueezeSpaces(kept);
    assert forall c :: c in r ==> (IsWordChar(c) || c == ' ') && Clean(c);
  }

  /** Normalising keeps every word character of the lower-cased, `ё`-folded
      text in order: with the spaces removed, the result is exactly those
      characters. */
  lemma NormalizeTextKeepsWords(text: string)
    ensures RemoveChar(NormalizeText(text), ' ') == WordChars(ReplaceChar(LowerStr(text), 'ё', 'е'))
    ensures NonSpace(NormalizeText(text)) == WordChars(ReplaceChar(LowerStr(text), 'ё', 'е'))
  {
    CleanUpKeepsWords(ReplaceChar(LowerStr(text), 'ё', 'е'));
  }

  /** Neither `ё` nor a character that lower-casing would change. */
  predicate Clean(c: char) { c != 'ё' && Lower(c) == c }

  lemma FoldedIsClean(text: string)
    ensures forall c :: c in ReplaceChar(LowerStr(text), 'ё', 'е') ==> Clean(c)
  {
    var lowered := ReplaceChar(LowerStr(text), 'ё', 'е');
    forall i | 0 <= i < |lowered| ensures Clean(lowered[i]) {
      LowerIdempotent(text[i]);
    }
  }

  /** Whitespace is stripped before punctuation is removed, so punctuation at
      either end leaves a space behind: normalising is not idempotent. */
  lemma NormalizeNotIdempotent()
    ensures NormalizeText("a !") == "a "
    ensures NormalizeText("a ") == "a"
  {
    PunctuationLeavesSpace();
    SpaceIsStripped();
  }

  lemma PunctuationLeavesSpace()
    ensures NormalizeText("a !") == "a "
  {
    assert LowerStr("a !") == "a !";
    assert ReplaceChar("a !", 'ё', 'е') == "a !";
    assert StripLeft("a !") == "a !";
    assert StripRight("a !") == "a !";
    assert !IsWordChar('!') && !IsSpace('!');
    assert RemoveNonWord("!") == "";
    assert RemoveNonWord(" !") == " ";
    assert RemoveNonWord("a !") == "a ";
    assert SqueezeSpaces("a ") == "a ";
  }

  lemma SpaceIsStripped()
    ensures NormalizeText("a ") == "a"
  {
    assert LowerStr("a ") == "a ";
    assert ReplaceChar("a ", 'ё', 'е') == "a ";
    assert StripLeft("a ") == "a ";
    assert StripRight("a ") == "a";
    assert RemoveNonWord("a") == "a";
    assert SqueezeSpaces("a") == "a";
  }

  /** A second normalisation only strips what the first one left at the ends. */
  lemma NormalizeTwice(x: string)
    ensures NormalizeText(NormalizeText(x)) == Strip(NormalizeText(x))
  {
    var y := NormalizeText(x);
    NormalizeTextClean(x);
    LowerStrOfLowered(y);
    assert ReplaceChar(LowerStr(y), 'ё', 'е') == y;
    var z := Strip(y);
    StripMembers(y);
    assert forall c :: c in y ==> IsWordChar(c) || c == ' ';
    assert forall c :: c in z ==> IsWordChar(c) || c == ' ';
    WordCharsAreNotSpaces(z);
    assert RemoveNonWord(z) == z;
    StripKeepsNoDoubleSpace(y);
    SqueezeSpacesOfSqueezed(z);
  }

  lemma WordCharsAreNotSpaces(z: string)
    requires forall c :: c in z ==> IsWordChar(c) || c == ' '
    ensures forall i :: 0 <= i < |z| ==> IsWordChar(z[i]) || IsSpace(z[i])
    ensures forall i :: 0 <= i < |z| ==> z[i] == ' ' || !IsSpace(z[i])
  {
    forall i | 0 <= i < |z| ensures z[i] == ' ' || !IsSpace(z[i]) {
      assert z[i] in z;
      WordCharIsNotSpace(z[i]);
    }
  }

  // ---------------------------------------------------------------------
  // Keyboard-layout maps

  /** `LAT_TO_RU_KEYMAP`: the character that the key carrying a Latin letter
      or punctuation mark types on a Russian layout; `None` for characters
      that are not keys of the table. */
  function LatToRuKey(c: char): Option<char> {
    match c
    case 'a' => Some('ф')
    case 'b' => Some('и')
    case 'c' => Some('с')
    case 'd' => Some('в')
    case 'e' => Some('у')
    case 'f' => Some('а')
    case 'g' => Some('п')
    case 'h' => Some('р')
    case 'i' => Some('ш')
    case 'j' => Some('о')
    case 'k' => Some('л')
    case 'l' => Some('д')
    case 'm' => Some('ь')
    case 'n' => Some('т')
    case 'o' => Some('щ')
    case 'p' => Some('з')
    case 'q' => Some('й')
    case 'r' => Some('к')
    case 's' => Some('ы')
    case 't' => Some('е')
    case 'u' => Some('г')
    case 'v' => Some('м')
    case 'w' => Some('ц')
    case 'x' => Some('ч')
    case 'y' => Some('н')
    case 'z' => Some('я')
    case ';' => Some('ж')
    case '\'' => Some('э')
    case ',' => Some('б')
    case '.' => Some('ю')
    case '/' => Some('.')
    case '[' => Some('х')
    case ']' => Some('ъ')
    case _ => None
  }

  /** `RU_TO_LAT_KEYMAP`, the forward table inverted with the pairs that map
      a character to itself left out (there are none). */
  function RuToLatKey(c: char): Option<char> {
    match c
    case 'ф' => Some('a')
    case 'и' => Some('b')
    case 'с' => Some('c')
    case 'в' => Some('d')
    case 'у' => Some('e')
    case 'а' => Some('f')
    case 'п' => Some('g')
    case 'р' => Some('h')
    case 'ш' => Some('i')
    case 'о' => Some('j')
    case 'л' => Some('k')
    case 'д' => Some('l')
    case 'ь' => Some('m')
    case 'т' => Some('n')
    case 'щ' => Some('o')
    case 'з' => Some('p')
    case 'й' => Some('q')
    case 'к' => Some('r')
    case 'ы' => Some('s')
    case 'е' => Some('t')
    case 'г' => Some('u')
    case 'м' => Some('v')
    case 'ц' => Some('w')
    case 'ч' => Some('x')
    case 'н' => Some('y')
    case 'я' => Some('z')
    case 'ж' => Some(';')
    case 'э' => Some('\'')
    case 'б' => Some(',')
    case 'ю' => Some('.')
    case '.' => Some('/')
    case 'х' => Some('[')
    case 'ъ' => Some(']')
    case _ => None
  }

  /** `LAT_TO_RU_KEYMAP.get(c, c)`. */
  function LatToRuChar(c: char): char {
    if LatToRuKey(c).Some? then LatToRuKey(c).value else c
  }

  /** `RU_TO_LAT_KEYMAP.get(c, c)`. */
  function RuToLatChar(c: char): char {
    if RuToLatKey(c).Some? then RuToLatKey(c).value else c
  }

  /** The inverse table is exactly the comprehension over the forward one:
      every forward pair `k := v` (never with `v == k`) is the inverse pair
      `v := k`, and every inverse pair comes from a forward pair.  In
      particular the forward values are pairwise distinct. */
  lemma KeymapsInverse(c: char)
    ensures LatToRuKey(c).Some? ==>
              LatToRuKey(c).value != c && RuToLatKey(LatToRuKey(c).value) == Some(c)
    ensures RuToLatKey(c).Some? ==> LatToRuKey(RuToLatKey(c).value) == Some(c)
  {
    KeymapsInverseForward(c);
    KeymapsInverseBackward(c);
  }

  lemma KeymapsInverseForward(c: char)
    ensures LatToRuKey(c).Some? ==> RuToLatKey(LatToRuKey(c).value) == Some(c)
  {
    match c
    case 'a' => case 'b' => case 'c' => case 'd' => case 'e' => case 'f' => case 'g' => case 'h' =>
    case 'i' => case 'j' => case 'k' => case 'l' => case 'm' => case 'n' => case 'o' => case 'p' =>
    case 'q' => case 'r' => case 's' => case 't' => case 'u' => case 'v' => case 'w' => case 'x' =>
    case 'y' => case 'z' => case ';' => case '\'' => case ',' => case '.' => case '/' => case '[' =>
    case ']' =>
    case _ =>
  }

  lemma KeymapsInverseBackward(c: char)
    ensures RuToLatKey(c).Some? ==> LatToRuKey(RuToLatKey(c).value) == Some(c)
  {
    match c
    case 'ф' => case 'и' => case 'с' => case 'в' => case 'у' => case 'а' => case 'п' => case 'р' =>
    case 'ш' => case 'о' => case 'л' => case 'д' => case 'ь' => case 'т' => case 'щ' => case 'з' =>
    case 'й' => case 'к' => case 'ы' => case 'е' => case 'г' => case 'м' => case 'ц' => case 'ч' =>
    case 'н' => case 'я' => case 'ж' => case 'э' => case 'б' => case 'ю' => case '.' => case 'х' =>
    case 'ъ' =>
    case _ =>
  }

  /** `''.join(LAT_TO_RU_KEYMAP.get(c, c) for c in text)`. */
  function LatToRuKeymap(text: string): string {
    MapChars(text, LatToRuChar)
  }

  /** `''.join(RU_TO_LAT_KEYMAP.get(c, c) for c in text)`. */
  function RuToLatKeymap(text: string): string {
    MapChars(text, RuToLatChar)
  }

  /** Transliterating one character there and back restores it exactly when
      it is a key of the forward table or not one of its values. */
  lemma CharRoundTrip(c: char)
    ensures RuToLatChar(LatToRuChar(c)) == c <==>
            (LatToRuKey(c).Some? || RuToLatKey(c).None?)
  {
    KeymapsInverse(c);
    if LatToRuKey(c).None? && RuToLatKey(c).Some? {
      KeymapsInverse(RuToLatKey(c).value);
    }
  }

  /** Every ASCII string survives the round trip Latin -> Cyrillic -> Latin:
      the only ASCII value of the forward table is `.`, and `.` is a key. */
  lemma AsciiRoundTrip(s: string)
    requires forall i :: 0 <= i < |s| ==> IsAscii(s[i])
    ensures RuToLatKeymap(LatToRuKeymap(s)) == s
  {
    forall i | 0 <= i < |s| ensures RuToLatChar(LatToRuChar(s[i])) == s[i] {
      AsciiCharRoundTrip(s[i]);
    }
  }

  lemma AsciiCharRoundTrip(c: char)
    requires IsAscii(c)
    ensures RuToLatChar(LatToRuChar(c)) == c
  {
    CharRoundTrip(c);
    assert RuToLatKey(c).Some? ==> c == '.';
  }

  /** The way back is lossy: Latin `/` is no key of the inverse table, so it
      is kept, and then typed as `.` on the Russian layout. */
  lemma LatinRoundTripLossy()
    ensures LatToRuKeymap(RuToLatKeymap("/")) == "."
  {
    assert RuToLatKeymap("/") == "/";
  }

  /** `generate_translit_variants`: the deduplicated strings `text`, its
      Latin and its Cyrillic transliteration (the list order, which depends
      on string hashing, is not modelled). */
  function GenerateTranslitVariants(text: string): (r: set<string>)
    ensures text in r
    ensures RuToLatKeymap(text) in r && LatToRuKeymap(text) in r
    ensures |r| <= 3
    ensures forall v :: v in r ==> v == text || v == RuToLatKeymap(text) || v == LatToRuKeymap(text)
    ensures forall v :: v in r ==> |v| == |text|
  {
    var r := {text, RuToLatKeymap(text), LatToRuKeymap(text)};
    AtMostThree(text, RuToLatKeymap(text), LatToRuKeymap(text));
    r
  }

  lemma AtMostThree<T>(x: T, y: T, z: T)
    ensures |{x, y, z}| <= 3
  {
    assert {x, y, z} == {x} + {y} + {z};
  }

  // ---------------------------------------------------------------------
  // extract_numeric_filter: re.search(r'(\d+)(л|кг|г|мл|шт)', query.lower())

  /** One of the units `л`, `кг`, `г`, `мл`, `шт` starts at `k`. */
  predicate UnitAt(s: string, k: nat) {
    k < |s| &&
    (s[k] == 'л' || s[k] == 'г' ||
     (k + 1 < |s| &&
      ((s[k] == 'к' && s[k + 1] == 'г') || (s[k] == 'м' && s[k + 1] == 'л') ||
       (s[k] == 'ш' && s[k + 1] == 'т'))))
  }

  predicate AllDigits(s: string) {
    forall i :: 0 <= i < |s| ==> IsDigit(s[i])
  }

  /** The pattern matches at `i` with group 1 equal to `s[i..k]`. */
  predicate MatchAt(s: string, i: nat, k: nat) {
    i < k <= |s| && AllDigits(s[i..k]) && UnitAt(s, k)
  }

  /** The match `re.search` reports: no match starts further left. */
  ghost predicate LeftmostMatch(s: string, i: nat, k: nat) {
    MatchAt(s, i, k) && forall i': nat, k': nat :: i' < i ==> !MatchAt(s, i', k')
  }

  /** `float(digits)` of a run of decimal digits. */
  function DigitsValue(d: string): nat
    requires AllDigits(d)
  {
    if d == [] then 0 else 10 * DigitsValue(d[..|d| - 1]) + (d[|d| - 1] as int - '0' as int)
  }

  /** Leading zeros do not change the value: `float("007") == 7.0`. */
  lemma {:induction false} DigitsValueLeadingZero(d: string)
    requires AllDigits(d)
    ensures AllDigits(['0'] + d) && DigitsValue(['0'] + d) == DigitsValue(d)
    decreases |d|
  {
    var e := ['0'] + d;
    assert AllDigits(e) by {
      forall i | 0 <= i < |e| ensures IsDigit(e[i]) {
        if i > 0 { assert e[i] == d[i - 1]; }
      }
    }
    if d != [] {
      var init := d[..|d| - 1];
      assert AllDigits(init) by {
        forall i | 0 <= i < |init| ensures IsDigit(init[i]) { assert init[i] == d[i]; }
      }
      assert e[..|e| - 1] == ['0'] + init;
      assert e[|e| - 1] == d[|d| - 1];
      DigitsValueLeadingZero(init);
    }
  }

  /** The end of the maximal digit run that starts at `i`. */
  function DigitRunEnd(s: string, i: nat): (k: nat)
    requires i <= |s|
    ensures i <= k <= |s| && AllDigits(s[i..k])
    ensures k == |s| || !IsDigit(s[k])
    decreases |s| - i
  {
    if i < |s| && IsDigit(s[i]) then
      var k := DigitRunEnd(s, i + 1);
      assert s[i..k] == [s[i]] + s[i + 1..k];
      k
    else i
  }

  /** A unit follows only the whole digit run: `\d+` cannot stop inside it. */
  lemma MatchAtRunEnd(s: string, i: nat, k: nat)
    requires i <= |s|
    ensures MatchAt(s, i, k) <==> k == DigitRunEnd(s, i) && i < k && UnitAt(s, k)
  {
    var e := DigitRunEnd(s, i);
    if MatchAt(s, i, k) {
      forall j | i <= j < k ensures IsDigit(s[j]) { assert s[j] == s[i..k][j - i]; }
      forall j | i <= j < e ensures IsDigit(s[j]) { assert s[j] == s[i..e][j - i]; }
    }
  }

  /** The regex engine's search: try each start position in turn. */
  function SearchFrom(s: string, i: nat): (r: Option<nat>)
    requires i <= |s|
    decreases |s| - i
  {
    if i == |s| then None
    else
      var k := DigitRunEnd(s, i);
      if i < k && UnitAt(s, k) then Some(DigitsValue(s[i..k])) else SearchFrom(s, i + 1)
  }

  lemma {:induction false} SearchFromFindsFirst(s: string, i: nat)
    requires i <= |s|
    ensures SearchFrom(s, i).Some? ==>
              exists p: nat, k: nat :: i <= p && MatchAt(s, p, k) && SearchFrom(s, i).value == DigitsValue(s[p..k]) &&
                forall p': nat, k': nat :: i <= p' < p ==> !MatchAt(s, p', k')
    ensures SearchFrom(s, i).None? ==> forall p: nat, k: nat :: i <= p ==> !MatchAt(s, p, k)
    decreases |s| - i
  {
    if i < |s| {
      var k := DigitRunEnd(s, i);
      forall k' ensures MatchAt(s, i, k') <==> k' == k && i < k && UnitAt(s, k) {
        MatchAtRunEnd(s, i, k');
      }
      if !(i < k && UnitAt(s, k)) {
        SearchFromFindsFirst(s, i + 1);
        if SearchFrom(s, i).Some? {
          var p: nat, k2: nat :| i + 1 <= p && MatchAt(s, p, k2) && SearchFrom(s, i).value == DigitsValue(s[p..k2]) &&
                forall p': nat, k': nat :: i + 1 <= p' < p ==> !MatchAt(s, p', k');
          assert forall p': nat, k': nat :: i <= p' < p ==> !MatchAt(s, p', k');
        }
      } else {
        assert MatchAt(s, i, k);
      }
    } else {
      forall p: nat, k: nat | i <= p ensures !MatchAt(s, p, k) { }
    }
  }

  /** `extract_numeric_filter(query)`: the `gte` bound of the weight filter,
      the number written in the leftmost quantity token of the lower-cased
      query, or `None` when there is none. */
  function ExtractNumericFilter(query: string): Option<nat> {
    SearchFrom(LowerStr(query), 0)
  }

  /** The filter is the value of the leftmost match of the pattern in the
      lower-cased query, and there is none exactly when nothing matches. */
  lemma ExtractNumericFilterIsLeftmost(query: string)
    ensures var s, r := LowerStr(query), ExtractNumericFilter(query);
            && (r.Some? ==> exists i: nat, k: nat :: LeftmostMatch(s, i, k) && r.value == DigitsValue(s[i..k]))
            && (r.None? <==> forall i: nat, k: nat :: !MatchAt(s, i, k))
  {
    assert ExtractNumericFilter(query) == SearchFrom(LowerStr(query), 0);
    SearchIsLeftmost(LowerStr(query));
  }

  lemma SearchIsLeftmost(s: string)
    ensures SearchFrom(s, 0).Some? ==>
              exists i: nat, k: nat :: LeftmostMatch(s, i, k) && SearchFrom(s, 0).value == DigitsValue(s[i..k])
    ensures SearchFrom(s, 0).None? <==> forall i: nat, k: nat :: !MatchAt(s, i, k)
  {
    SearchFromFindsFirst(s, 0);
    if SearchFrom(s, 0).Some? {
      var p: nat, k: nat :| MatchAt(s, p, k) && SearchFrom(s, 0).value == DigitsValue(s[p..k]) &&
                forall p': nat, k': nat :: p' < p ==> !MatchAt(s, p', k');
      assert LeftmostMatch(s, p, k);
    }
  }

  /** The leftmost match is a whole digit run: it starts where a run starts
      and ends where that run ends. */
  lemma LeftmostMatchIsMaximalRun(s: string, i: nat, k: nat)
    requires LeftmostMatch(s, i, k)
    ensures i == 0 || !IsDigit(s[i - 1])
    ensures k == |s| || !IsDigit(s[k])
  {
    if i > 0 {
      assert s[i - 1..k] == [s[i - 1]] + s[i..k];
      assert !MatchAt(s, i - 1, k);
    }
  }

  /** A quantity token anywhere in the query is found. */
  lemma QuantityExample()
    ensures ExtractNumericFilter("Вода 10л") == Some(10)
  {
    LowerVoda();
    SearchVoda();
  }

  lemma SearchVoda()
    ensures SearchFrom("вода 10л", 0) == Some(10)
  {
    var s := "вода 10л";
    assert DigitRunEnd(s, 7) == 7;
    assert DigitRunEnd(s, 5) == 7;
    assert s[5..7] == "10";
    assert DigitsValue("1") == 1;
    assert DigitsValue("10") == 10;
    assert SearchFrom(s, 5) == Some(10);
    assert SearchFrom(s, 4) == Some(10);
    assert SearchFrom(s, 3) == Some(10);
    assert SearchFrom(s, 2) == Some(10);
    assert SearchFrom(s, 1) == Some(10);
  }

  lemma LowerVoda()
    ensures LowerStr("Вода 10л") == "вода 10л"
  {
    var rest := "ода 10л";
    assert "Вода 10л"[1..] == rest;
    assert Lower('В') == 'в';
    LowerStrOfLowered(rest);
  }

  /** No digits, no filter. */
  lemma NoQuantityExample()
    ensures ExtractNumericFilter("Хлеб") == None
  {
    var s := "хлеб";
    assert LowerStr("Хлеб") == s;
    assert SearchFrom(s, 4) == None;
    assert SearchFrom(s, 3) == None;
    assert SearchFrom(s, 2) == None;
    assert SearchFrom(s, 1) == None;
  }

  /** A decimal point breaks the digit run: only the `5` before `л` counts. */
  lemma DecimalPointExample()
    ensures ExtractNumericFilter("0.5л") == Some(5)
  {
    var s := "0.5л";
    assert LowerStr("0.5л") == s;
    assert DigitRunEnd(s, 1) == 1;
    assert DigitRunEnd(s, 0) == 1;
    assert DigitRunEnd(s, 3) == 3;
    assert DigitRunEnd(s, 2) == 3;
    assert s[2..3] == "5";
    assert DigitsValue("5") == 5;
    assert SearchFrom(s, 2) == Some(5);
    assert SearchFrom(s, 1) == Some(5);
  }

  // ---------------------------------------------------------------------
  // search_es: the request, the prefix bonus and the re-ranking

  /** A search hit: `hit['_source']['name']` and `hit['_score']`. */
  datatype Hit = Hit(name: string, score: real)

  /** The text of a `multi_match`: the normalised query, or the variants
      joined by spaces (the join order, which follows string hashing, is not
      modelled, so the variants are kept as a set). */
  datatype MatchText = Text(text: string) | Terms(terms: set<string>)

  datatype MultiMatch = MultiMatch(query: MatchText, fields: seq<string>, matchType: Option<string>,
                                   fuzziness: string)

  /** `{"range": {field: {"gte": gte}}}`. */
  datatype RangeFilter = RangeGte(field: string, gte: nat)

  datatype BoolQuery = BoolQuery(must: seq<RangeFilter>, should: seq<MultiMatch>, minimumShouldMatch: nat)

  /** The k-nearest-neighbour clause; the query vector is the embedding of
      `vectorText`. */
  datatype Knn = Knn(field: string, vectorText: string, k: nat, numCandidates: nat)

  /** `es_query`. */
  datatype SearchRequest = SearchRequest(query: BoolQuery, boostMode: string, knn: Knn, size: nat,
                                         minScore: real, source: seq<string>)

  /** `"must": [numeric_filter] if numeric_filter else []`. */
  function MustClause(originalQuery: string): (must: seq<RangeFilter>)
    ensures must == [] <==> ExtractNumericFilter(originalQuery).None?
    ensures ExtractNumericFilter(originalQuery).Some? ==>
              must == [RangeGte("weight_num", ExtractNumericFilter(originalQuery).value)]
  {
    var numericFilter := ExtractNumericFilter(originalQuery);
    if numericFilter.Some? then [RangeGte("weight_num", numericFilter.value)] else []
  }

  /** The request `search_es` sends for a query: the filter, a prefix match
      of the normalised query, a match of its layout variants, and a vector
      search on the normalised query. */
  function BuildRequest(originalQuery: string): (r: SearchRequest)
    ensures r.query.must == MustClause(originalQuery)
    ensures |r.query.should| == 2 && r.query.minimumShouldMatch == 1
    ensures r.query.should[0].query == Text(NormalizeText(originalQuery))
    ensures r.query.should[1].query == Terms(GenerateTranslitVariants(NormalizeText(originalQuery)))
    ensures NormalizeText(originalQuery) in r.query.should[1].query.terms
    ensures r.knn.field == "vector" && r.knn.vectorText == NormalizeText(originalQuery)
    ensures r.knn.k == 20 && r.knn.numCandidates == 100
    ensures r.size == 10 && r.minScore == 0.0 && r.boostMode == "replace"
  {
    var normQuery := NormalizeText(originalQuery);
    var boolQuery := BoolQuery(
      MustClause(originalQuery),
      [MultiMatch(Text(normQuery), ["name^3", "name_variants^2", "description"], Some("bool_prefix"), "AUTO"),
       MultiMatch(Terms(GenerateTranslitVariants(normQuery)), ["name_variants"], None, "AUTO")],
      1);
    SearchRequest(boolQuery, "replace", Knn("vector", normQuery, 20, 100), 10, 0.0,
                  ["name", "category", "price", "weight"])
  }

  /** The hit's name, normalised, starts with the normalised query. */
  predicate PrefixHit(h: Hit, normQuery: string) {
    StartsWith(NormalizeText(h.name), normQuery)
  }

  /** `hit['_score'] += 1.0 if name.startswith(norm_query) else 0.0`. */
  function Boost(h: Hit, normQuery: string): Hit {
    Hit(h.name, h.score + if PrefixHit(h, normQuery) then 1.0 else 0.0)
  }

  /** The bonus keeps the name and raises the score by exactly 1.0 when the
      name matches the query, and otherwise leaves it alone. */
  lemma BoostSpec(h: Hit, normQuery: string)
    ensures Boost(h, normQuery).name == h.name
    ensures Boost(h, normQuery).score == h.score + 1.0 <==> PrefixHit(h, normQuery)
    ensures Boost(h, normQuery).score == h.score <==> !PrefixHit(h, normQuery)
    ensures PrefixHit(Boost(h, normQuery), normQuery) <==> PrefixHit(h, normQuery)
  {
  }

  /** The hits after the bonus loop. */
  function Boosted(hits: seq<Hit>, normQuery: string): (r: seq<Hit>)
    ensures |r| == |hits|
    ensures forall i :: 0 <= i < |hits| ==> r[i].name == hits[i].name
    ensures forall i :: 0 <= i < |hits| ==>
              r[i].score == if PrefixHit(hits[i], normQuery) then hits[i].score + 1.0 else hits[i].score
    ensures forall i :: 0 <= i < |hits| ==> r[i] == Boost(hits[i], normQuery)
  {
    seq(|hits|, i requires 0 <= i < |hits| => Boost(hits[i], normQuery))
  }

  /** Ordered by non-increasing score. */
  predicate SortedDesc(s: seq<Hit>) {
    forall i, j :: 0 <= i < j < |s| ==> s[i].score >= s[j].score
  }

  /** The hits of `s` whose score is `x`, in the order of `s`. */
  function WithScore(s: seq<Hit>, x: real): seq<Hit> {
    if s == [] then [] else (if s[0].score == x then [s[0]] else []) + WithScore(s[1..], x)
  }

  lemma WithScoreCons(h: Hit, s: seq<Hit>, x: real)
    ensures WithScore([h] + s, x) == (if h.score == x then [h] else []) + WithScore(s, x)
  {
    assert ([h] + s)[1..] == s;
  }

  lemma {:induction false} WithScoreMembers(s: seq<Hit>, x: real, h: Hit)
    ensures h in WithScore(s, x) <==> h in s && h.score == x
    decreases |s|
  {
    if s != [] {
      WithScoreMembers(s[1..], x, h);
      assert s == [s[0]] + s[1..];
    }
  }

  /** One insertion step of a stable sort by `-score`: `h`, which came first
      in the input, goes before every hit whose score is not above its own. */
  function Insert(h: Hit, s: seq<Hit>): (r: seq<Hit>)
    ensures multiset(r) == multiset(s) + multiset{h}
  {
    if s == [] || h.score >= s[0].score then [h] + s
    else
      assert s == [s[0]] + s[1..];
      [s[0]] + Insert(h, s[1..])
  }

  lemma {:induction false} InsertSorted(h: Hit, s: seq<Hit>)
    requires SortedDesc(s)
    ensures SortedDesc(Insert(h, s))
    decreases |s|
  {
    if s != [] && h.score < s[0].score {
      var rest := Insert(h, s[1..]);
      InsertSorted(h, s[1..]);
      forall k | 0 <= k < |rest| ensures rest[k].score <= s[0].score {
        assert rest[k] in multiset(rest);
        if rest[k] != h {
          assert rest[k] in multiset(s[1..]);
          var m :| 0 <= m < |s[1..]| && s[1..][m] == rest[k];
          assert s[1..][m] == s[m + 1];
        }
      }
      var r := [s[0]] + rest;
      forall i, j | 0 <= i < j < |r| ensures r[i].score >= r[j].score {
        assert r[j] == rest[j - 1];
        if i > 0 { assert r[i] == rest[i - 1]; }
      }
    }
  }

  lemma {:induction false} InsertStable(h: Hit, s: seq<Hit>, x: real)
    requires SortedDesc(s)
    ensures WithScore(Insert(h, s), x) == (if h.score == x then [h] else []) + WithScore(s, x)
    decreases |s|
  {
    if s == [] || h.score >= s[0].score {
      WithScoreCons(h, s, x);
    } else {
      InsertStable(h, s[1..], x);
      WithScoreCons(s[0], Insert(h, s[1..]), x);
      WithScoreCons(s[0], s[1..], x);
      assert [s[0]] + s[1..] == s;
    }
  }

  /** `sorted(hits, key=lambda h: -h['_score'])`: Python's sort is stable, so
      hits with equal scores keep their input order. */
  function SortDesc(s: seq<Hit>): (r: seq<Hit>)
    ensures SortedDesc(r)
    ensures multiset(r) == multiset(s) && |r| == |s|
    ensures forall x :: WithScore(r, x) == WithScore(s, x)
  {
    if s == [] then []
    else
      var rest := SortDesc(s[1..]);
      InsertKeeps(s[0], s[1..], rest);
      assert s == [s[0]] + s[1..];
      Insert(s[0], rest)
  }

  /** Inserting the first hit into a stable sort of the others gives a
      stable sort of all of them. */
  lemma InsertKeeps(h: Hit, s: seq<Hit>, rest: seq<Hit>)
    requires SortedDesc(rest) && multiset(rest) == multiset(s) && |rest| == |s|
    requires forall x :: WithScore(rest, x) == WithScore(s, x)
    ensures SortedDesc(Insert(h, rest))
    ensures multiset(Insert(h, rest)) == multiset([h] + s) && |Insert(h, rest)| == |[h] + s|
    ensures forall x :: WithScore(Insert(h, rest), x) == WithScore([h] + s, x)
  {
    InsertSorted(h, rest);
    forall x ensures WithScore(Insert(h, rest), x) == WithScore([h] + s, x) {
      InsertStable(h, rest, x);
      WithScoreCons(h, s, x);
    }
    assert |multiset(Insert(h, rest))| == |Insert(h, rest)|;
  }

  /** The head of a sequence sorted by non-increasing score carries the
      largest score. */
  lemma HeadIsMax(r: seq<Hit>, h: Hit)
    requires SortedDesc(r) && h in r
    ensures h.score <= r[0].score
  {
    var k :| 0 <= k < |r| && r[k] == h;
  }

  /** Sortedness and stability pin the order down: two sequences sorted by
      non-increasing score that list the hits of every score in the same
      order are equal.  So `SortDesc(s)` is the only stable sort of `s`. */
  lemma {:induction false} StableSortUnique(r1: seq<Hit>, r2: seq<Hit>)
    requires SortedDesc(r1) && SortedDesc(r2)
    requires forall x :: WithScore(r1, x) == WithScore(r2, x)
    ensures r1 == r2
    decreases |r1|
  {
    if r1 != [] {
      assert r1 == [r1[0]] + r1[1..];
      WithScoreCons(r1[0], r1[1..], r1[0].score);
      WithScoreMembers(r2, r1[0].score, r1[0]);
    }
    if r2 != [] {
      assert r2 == [r2[0]] + r2[1..];
      WithScoreCons(r2[0], r2[1..], r2[0].score);
      WithScoreMembers(r1, r2[0].score, r2[0]);
    }
    if r1 != [] && r2 != [] {
      HeadIsMax(r1, r2[0]);
      HeadIsMax(r2, r1[0]);
      var a := r1[0].score;
      WithScoreCons(r1[0], r1[1..], a);
      WithScoreCons(r2[0], r2[1..], a);
      assert r1[0] == WithScore(r1, a)[0] == WithScore(r2, a)[0] == r2[0];
      forall x ensures WithScore(r1[1..], x) == WithScore(r2[1..], x) {
        WithScoreCons(r1[0], r1[1..], x);
        WithScoreCons(r2[0], r2[1..], x);
        var w := WithScore(r1, x);
        assert w == WithScore(r2, x);
        if a == x {
          assert WithScore(r1[1..], x) == w[1..] == WithScore(r2[1..], x);
        } else {
          assert [] + WithScore(r1[1..], x) == WithScore(r1[1..], x);
          assert [] + WithScore(r2[1..], x) == WithScore(r2[1..], x);
        }
      }
      StableSortUnique(r1[1..], r2[1..]);
    }
  }

  lemma SortDescIsTheStableSort(s: seq<Hit>, r: seq<Hit>)
    requires SortedDesc(r) && forall x :: WithScore(r, x) == WithScore(s, x)
    ensures r == SortDesc(s)
  {
    StableSortUnique(r, SortDesc(s));
  }

  /** `search_es` after the backend call: the bonus loop updates the hits in
      place, then the hits are sorted by descending score. */
  method SearchEs(originalQuery: string, hits: array<Hit>) returns (reranked: seq<Hit>, request: SearchRequest)
    modifies hits
    ensures request == BuildRequest(originalQuery)
    ensures hits[..] == Boosted(old(hits[..]), NormalizeText(originalQuery))
    ensures reranked == SortDesc(hits[..])
  {
    var normQuery := NormalizeText(originalQuery);
    request := BuildRequest(originalQuery);
    AddPrefixBonus(hits, normQuery);
    reranked := SortDesc(hits[..]);
  }

  /** `for hit in hits: hit['_score'] += 1.0 if ... else 0.0`. */
  method AddPrefixBonus(hits: array<Hit>, normQuery: string)
    modifies hits
    ensures hits[..] == Boosted(old(hits[..]), normQuery)
  {
    ghost var original := hits[..];
    for i := 0 to hits.Length
      invariant forall k :: 0 <= k < i ==> hits[k] == Boost(original[k], normQuery)
      invariant forall k :: i <= k < hits.Length ==> hits[k] == original[k]
    {
      hits[i] := Boost(hits[i], normQuery);
    }
    assert hits[..] == Boosted(original, normQuery);
  }

  /** With backend scores in `[0, 1)`, the bonus puts every hit whose name
      starts with the query before every other hit. */
  lemma PrefixHitsFirst(hits: seq<Hit>, normQuery: string)
    requires forall h :: h in hits ==> 0.0 <= h.score < 1.0
    ensures var r := SortDesc(Boosted(hits, normQuery));
            forall i, j :: 0 <= i < j < |r| && PrefixHit(r[j], normQuery) ==> PrefixHit(r[i], normQuery)
  {
    var r := SortDesc(Boosted(hits, normQuery));
    forall i, j | 0 <= i < j < |r| && PrefixHit(r[j], normQuery) ensures PrefixHit(r[i], normQuery) {
      MarkedByScore(hits, normQuery, r[i]);
      MarkedByScore(hits, normQuery, r[j]);
    }
  }

  /** After the bonus, with backend scores in `[0, 1)`, a hit matches the
      query exactly when its score reached 1. */
  lemma MarkedByScore(hits: seq<Hit>, normQuery: string, h: Hit)
    requires forall h :: h in hits ==> 0.0 <= h.score < 1.0
    requires h in SortDesc(Boosted(hits, normQuery))
    ensures PrefixHit(h, normQuery) <==> h.score >= 1.0
  {
    var b := Boosted(hits, normQuery);
    assert h in multiset(SortDesc(b));
    assert h in multiset(b);
    var k :| 0 <= k < |b| && b[k] == h;
    assert hits[k] in hits;
    assert h == Boost(hits[k], normQuery);
    BoostSpec(hits[k], normQuery);
  }

  // ---------------------------------------------------------------------
  // get_judgement and the score cells

  datatype Judgement = Good | Fair | Bad

  /** `get_judgement(score)`. */
  function GetJudgement(score: real): (j: Judgement)
    ensures j == Good <==> score > 0.7
    ensures j == Fair <==> 0.5 <= score <= 0.7
    ensures j == Bad <==> score < 0.5
  {
    if score > 0.7 then Good else if score >= 0.5 then Fair else Bad
  }

  function Rank(j: Judgement): nat {
    match j
    case Bad => 0
    case Fair => 1
    case Good => 2
  }

  /** A higher score never gets a worse judgement. */
  lemma JudgementMonotone(x: real, y: real)
    requires x <= y
    ensures Rank(GetJudgement(x)) <= Rank(GetJudgement(y))
  {
  }

  /** `f"{x:.2f}"` read back with `float`: the nearest whole number of
      hundredths, a tie going to the even one. */
  function Hundredths(x: real): (n: int)
    ensures n as real - 0.5 <= 100.0 * x <= n as real + 0.5
    ensures 100.0 * x == n as real - 0.5 || 100.0 * x == n as real + 0.5 ==> n % 2 == 0
  {
    var f := (100.0 * x).Floor;
    var frac := 100.0 * x - f as real;
    if frac < 0.5 then f
    else if frac > 0.5 then f + 1
    else if f % 2 == 0 then f
    else f + 1
  }

  function Round2(x: real): (r: real)
    ensures -0.005 <= r - x <= 0.005
  {
    Hundredths(x) as real / 100.0
  }

  /** The judgement is taken on the rounded top score, and the precision
      count on the raw one: `0.704` counts as a relevant hit but its row is
      judged fair. */
  lemma JudgementUsesRoundedScore()
    ensures GetJudgement(0.704) == Good
    ensures Round2(0.704) == 0.7 && GetJudgement(Round2(0.704)) == Fair
  {
    assert (70.4).Floor == 70;
  }

  // ---------------------------------------------------------------------
  // evaluate_and_fill

  /** A row of the queries file; `None` for a column the row does not have. */
  datatype QueryRow = QueryRow(query: Option<string>, site: Option<string>, kind: Option<string>,
                               notes: Option<string>)

  /** `row.get("query", "")`.  A row too short to have a `query` cell reads
      as `""` here; `csv.DictReader` gives `None` for it, on which
      `normalize_text` would raise. */
  function QueryOf(row: QueryRow): string {
    if row.query.Some? then row.query.value else ""
  }

  /** A row of the evaluation file: the names and the rounded scores of the
      first three results (the cells of missing results are empty) and the
      judgement.  The latency column is not modelled. */
  datatype EvalRow = EvalRow(query: string, site: Option<string>, kind: Option<string>, notes: Option<string>,
                             topNames: seq<string>, topScores: seq<real>, judgement: Judgement)

  /** `f"Query: '{query}', Results: {len(results)}"`. */
  datatype LogLine = LogLine(query: string, resultCount: nat)

  /** The contents of `metrics.json`. */
  datatype Metrics = Metrics(coverage: real, total: nat, success: nat, avgPrecisionAt3: real)

  /** `results[:3]`. */
  function TopThree(results: seq<Hit>): (top: seq<Hit>)
    ensures |top| == if |results| < 3 then |results| else 3
    ensures top <= results
  {
    if |results| <= 3 then results else results[..3]
  }

  /** `sum(1 for r in top_results if r['_score'] > 0.7)`. */
  function RelevantCount(top: seq<Hit>): (n: nat)
    ensures n <= |top|
  {
    if top == [] then 0 else (if top[0].score > 0.7 then 1 else 0) + RelevantCount(top[1..])
  }

  /** What a query adds to `precision_at_3`: the share of relevant hits
      among its first three, counted only when it has results. */
  function PrecisionContribution(results: seq<Hit>): (p: real)
    ensures 0.0 <= p <= 1.0
    ensures results == [] ==> p == 0.0
  {
    if |results| > 0 then RelevantCount(TopThree(results)) as real / 3.0 else 0.0
  }

  /** A query adds a full 1 exactly when it has three results, all above
      the relevance threshold. */
  lemma FullPrecision(results: seq<Hit>)
    ensures PrecisionContribution(results) == 1.0 <==>
            |results| >= 3 && forall k :: 0 <= k < 3 ==> results[k].score > 0.7
  {
    if |results| > 0 {
      var top := TopThree(results);
      AllRelevant(top);
      assert forall k :: 0 <= k < |top| ==> top[k] == results[k];
    }
  }

  lemma {:induction false} AllRelevant(top: seq<Hit>)
    ensures RelevantCount(top) == |top| <==> forall k :: 0 <= k < |top| ==> top[k].score > 0.7
  {
    if top != [] {
      AllRelevant(top[1..]);
      assert forall k :: 1 <= k < |top| ==> top[k] == top[1..][k - 1];
    }
  }

  /** The score the judgement is taken on: the `top_1_score` cell read back,
      or 0.0 when the cell is empty. */
  function JudgedScore(results: seq<Hit>): real {
    if |results| > 0 then Round2(results[0].score) else 0.0
  }

  /** The written row for a query and its re-ranked results. */
  function RowOf(row: QueryRow, results: seq<Hit>): EvalRow {
    var top := TopThree(results);
    EvalRow(QueryOf(row), row.site, row.kind, row.notes, Names(top), ScoreCells(top),
            GetJudgement(JudgedScore(results)))
  }

  /** A row shows the first three results with their rounded scores, and
      is judged bad when there are no results. */
  lemma RowOfCells(row: QueryRow, results: seq<Hit>)
    ensures var r := RowOf(row, results);
            && r.query == QueryOf(row)
            && |r.topNames| == |r.topScores| == |TopThree(results)|
            && (forall k :: 0 <= k < |r.topNames| ==>
                  r.topNames[k] == results[k].name && r.topScores[k] == Round2(results[k].score))
            && (results == [] ==> r.judgement == Bad)
            && (results != [] ==> r.judgement == GetJudgement(Round2(results[0].score)))
  {
  }

  /** The `top_k` cells. */
  function Names(top: seq<Hit>): (r: seq<string>)
    ensures |r| == |top| && forall k :: 0 <= k < |top| ==> r[k] == top[k].name
  {
    if top == [] then [] else [top[0].name] + Names(top[1..])
  }

  /** The `top_k_score` cells, each score rounded to hundredths. */
  function ScoreCells(top: seq<Hit>): (r: seq<real>)
    ensures |r| == |top| && forall k :: 0 <= k < |top| ==> r[k] == Round2(top[k].score)
  {
    if top == [] then [] else [Round2(top[0].score)] + ScoreCells(top[1..])
  }

  /** `search_es(query)[0]` for a row, given the hits the backend returns. */
  function Reranked(row: QueryRow, hits: seq<Hit>): seq<Hit> {
    SortDesc(Boosted(hits, NormalizeText(QueryOf(row))))
  }

  /** The number of queries with at least one result. */
  function SuccessCount(results: seq<seq<Hit>>): (n: nat)
    ensures n <= |results|
  {
    if results == [] then 0
    else SuccessCount(results[..|results| - 1]) + if |results[|results| - 1]| > 0 then 1 else 0
  }

  /** The final value of `precision_at_3`. */
  function PrecisionSum(results: seq<seq<Hit>>): real {
    if results == [] then 0.0
    else PrecisionSum(results[..|results| - 1]) + PrecisionContribution(results[|results| - 1])
  }

  /** Each query adds at most 1, and nothing when it has no results. */
  lemma {:induction false} PrecisionSumBounds(results: seq<seq<Hit>>)
    ensures 0.0 <= PrecisionSum(results) <= SuccessCount(results) as real
  {
    if results != [] {
      PrecisionSumBounds(results[..|results| - 1]);
    }
  }

  /** `coverage` and `avg_precision_at_3`. */
  function FinalMetrics(total: nat, success: nat, precision: real): Metrics {
    Metrics(if total > 0 then success as real / total as real * 100.0 else 0.0, total, success,
            if total > 0 then precision / total as real * 100.0 else 0.0)
  }

  /** `f` applied to every row and its response, built one row at a time
      as the loop of `evaluate_and_fill` does. */
  function MapRows<T>(rows: seq<QueryRow>, responses: seq<seq<Hit>>, f: (QueryRow, seq<Hit>) -> T): (r: seq<T>)
    requires |responses| == |rows|
    ensures |r| == |rows|
  {
    if rows == [] then []
    else
      var n := |rows| - 1;
      MapRows(rows[..n], responses[..n], f) + [f(rows[n], responses[n])]
  }

  /** Entry `i` depends on row `i` alone. */
  lemma {:induction false} MapRowsAt<T>(rows: seq<QueryRow>, responses: seq<seq<Hit>>,
                                        f: (QueryRow, seq<Hit>) -> T, i: nat)
    requires |responses| == |rows| && i < |rows|
    ensures MapRows(rows, responses, f)[i] == f(rows[i], responses[i])
    decreases |rows|
  {
    var n := |rows| - 1;
    var prefix := MapRows(rows[..n], responses[..n], f);
    assert MapRows(rows, responses, f) == prefix + [f(rows[n], responses[n])];
    if i < n {
      MapRowsAt(rows[..n], responses[..n], f, i);
      assert rows[..n][i] == rows[i] && responses[..n][i] == responses[i];
      assert MapRows(rows, responses, f)[i] == prefix[i];
    }
  }

  /** The prefix of length `i + 1` is the prefix of length `i` and entry `i`. */
  lemma MapRowsStep<T>(rows: seq<QueryRow>, responses: seq<seq<Hit>>, f: (QueryRow, seq<Hit>) -> T, i: nat)
    requires |responses| == |rows| && i < |rows|
    ensures MapRows(rows[..i + 1], responses[..i + 1], f) ==
            MapRows(rows[..i], responses[..i], f) + [f(rows[i], responses[i])]
  {
    assert rows[..i + 1][..i] == rows[..i] && responses[..i + 1][..i] == responses[..i];
    assert rows[..i + 1][i] == rows[i] && responses[..i + 1][i] == responses[i];
  }

  /** The written row of one query. */
  function EvaluatedRow(row: QueryRow, hits: seq<Hit>): EvalRow {
    RowOf(row, Reranked(row, hits))
  }

  /** The log line of one query. */
  function LogOf(row: QueryRow, hits: seq<Hit>): LogLine {
    LogLine(QueryOf(row), |hits|)
  }

  /** The results of every row. */
  function AllResults(rows: seq<QueryRow>, responses: seq<seq<Hit>>): seq<seq<Hit>>
    requires |responses| == |rows|
  {
    MapRows(rows, responses, Reranked)
  }

  /** The written rows. */
  function OutRows(rows: seq<QueryRow>, responses: seq<seq<Hit>>): seq<EvalRow>
    requires |responses| == |rows|
  {
    MapRows(rows, responses, EvaluatedRow)
  }

  /** The lines of `evaluation_logs.txt`. */
  function LogLines(rows: seq<QueryRow>, responses: seq<seq<Hit>>): seq<LogLine>
    requires |responses| == |rows|
  {
    MapRows(rows, responses, LogOf)
  }

  /** Row `i` of the run is the row of query `i` alone: the rows do not
      influence each other. */
  lemma RowsAreIndependent(rows: seq<QueryRow>, responses: seq<seq<Hit>>, i: nat)
    requires |responses| == |rows| && i < |rows|
    ensures AllResults(rows, responses)[i] == Reranked(rows[i], responses[i])
    ensures OutRows(rows, responses)[i] == RowOf(rows[i], Reranked(rows[i], responses[i]))
    ensures LogLines(rows, responses)[i] == LogLine(QueryOf(rows[i]), |responses[i]|)
  {
    MapRowsAt(rows, responses, Reranked, i);
    MapRowsAt(rows, responses, EvaluatedRow, i);
    MapRowsAt(rows, responses, LogOf, i);
  }

  /** The metrics of the run. */
  function RunMetrics(rows: seq<QueryRow>, responses: seq<seq<Hit>>): Metrics
    requires |responses| == |rows|
  {
    var results := AllResults(rows, responses);
    FinalMetrics(|rows|, SuccessCount(results), PrecisionSum(results))
  }

  /** `evaluate_and_fill` over the rows of the queries file, `responses[i]`
      being the hits the backend returns for row `i`. */
  method EvaluateAndFill(rows: seq<QueryRow>, responses: seq<seq<Hit>>)
      returns (out: seq<EvalRow>, logs: seq<LogLine>, metrics: Metrics)
    requires |responses| == |rows|
    ensures out == OutRows(rows, responses)
    ensures logs == LogLines(rows, responses)
    ensures metrics == RunMetrics(rows, responses)
  {
    var total, success, precisionAt3 := 0, 0, 0.0;
    out, logs := [], [];
    for i := 0 to |rows|
      invariant total == i
      invariant success == SuccessCount(AllResults(rows[..i], responses[..i]))
      invariant precisionAt3 == PrecisionSum(AllResults(rows[..i], responses[..i]))
      invariant out == OutRows(rows[..i], responses[..i])
      invariant logs == LogLines(rows[..i], responses[..i])
    {
      total := total + 1;
      success, precisionAt3, out, logs := EvaluateNext(rows, responses, i, success, precisionAt3, out, logs);
    }
    assert rows[..|rows|] == rows && responses[..|rows|] == responses;
    metrics := FinalMetrics(total, success, precisionAt3);
  }

  /** The loop body for row `i`: evaluate it and fold it into the counters,
      the rows and the log. */
  method EvaluateNext(rows: seq<QueryRow>, responses: seq<seq<Hit>>, i: nat,
                      success: nat, precisionAt3: real, out: seq<EvalRow>, logs: seq<LogLine>)
      returns (success': nat, precisionAt3': real, out': seq<EvalRow>, logs': seq<LogLine>)
    requires |responses| == |rows| && i < |rows|
    requires success == SuccessCount(AllResults(rows[..i], responses[..i]))
    requires precisionAt3 == PrecisionSum(AllResults(rows[..i], responses[..i]))
    requires out == OutRows(rows[..i], responses[..i])
    requires logs == LogLines(rows[..i], responses[..i])
    ensures success' == SuccessCount(AllResults(rows[..i + 1], responses[..i + 1]))
    ensures precisionAt3' == PrecisionSum(AllResults(rows[..i + 1], responses[..i + 1]))
    ensures out' == OutRows(rows[..i + 1], responses[..i + 1])
    ensures logs' == LogLines(rows[..i + 1], responses[..i + 1])
  {
    var results, evalRow, log := EvaluateRow(rows[i], responses[i]);
    var added := if |results| > 0 then 1 else 0;
    var share := if |results| > 0 then PrecisionContribution(results) else 0.0;
    StepAppends(rows, responses, i, results, added, share);
    success', precisionAt3' := success + added, precisionAt3 + share;
    out', logs' := out + [evalRow], logs + [log];
  }

  /** One more row appends its results, its row and its log line, and adds
      its share to the counters. */
  lemma StepAppends(rows: seq<QueryRow>, responses: seq<seq<Hit>>, i: nat, x: seq<Hit>, added: nat, share: real)
    requires |responses| == |rows| && i < |rows|
    requires x == Reranked(rows[i], responses[i])
    requires added == (if |x| > 0 then 1 else 0)
    requires share == (if |x| > 0 then PrecisionContribution(x) else 0.0)
    ensures var r, r' := AllResults(rows[..i], responses[..i]), AllResults(rows[..i + 1], responses[..i + 1]);
            && SuccessCount(r') == SuccessCount(r) + added
            && PrecisionSum(r') == PrecisionSum(r) + share
    ensures OutRows(rows[..i + 1], responses[..i + 1]) == OutRows(rows[..i], responses[..i]) + [RowOf(rows[i], x)]
    ensures LogLines(rows[..i + 1], responses[..i + 1]) ==
            LogLines(rows[..i], responses[..i]) + [LogLine(QueryOf(rows[i]), |responses[i]|)]
  {
    PrefixStep(rows, responses, i);
    var r := AllResults(rows[..i], responses[..i]);
    CountersStep(r, x);
  }

  /** The prefix of length `i + 1` is the prefix of length `i` and row `i`. */
  lemma PrefixStep(rows: seq<QueryRow>, responses: seq<seq<Hit>>, i: nat)
    requires |responses| == |rows| && i < |rows|
    ensures AllResults(rows[..i + 1], responses[..i + 1]) ==
            AllResults(rows[..i], responses[..i]) + [Reranked(rows[i], responses[i])]
    ensures OutRows(rows[..i + 1], responses[..i + 1]) ==
            OutRows(rows[..i], responses[..i]) + [RowOf(rows[i], Reranked(rows[i], responses[i]))]
    ensures LogLines(rows[..i + 1], responses[..i + 1]) ==
            LogLines(rows[..i], responses[..i]) + [LogLine(QueryOf(rows[i]), |responses[i]|)]
  {
    MapRowsStep(rows, responses, Reranked, i);
    MapRowsStep(rows, responses, EvaluatedRow, i);
    MapRowsStep(rows, responses, LogOf, i);
  }

  lemma CountersStep(r: seq<seq<Hit>>, x: seq<Hit>)
    ensures SuccessCount(r + [x]) == SuccessCount(r) + (if |x| > 0 then 1 else 0)
    ensures PrecisionSum(r + [x]) == PrecisionSum(r) + PrecisionContribution(x)
  {
    assert (r + [x])[..|r|] == r;
  }

  /** One pass of the loop body: search, take the first three results, judge
      the row and log the number of results. */
  method EvaluateRow(row: QueryRow, response: seq<Hit>) returns (results: seq<Hit>, evalRow: EvalRow, log: LogLine)
    ensures results == Reranked(row, response)
    ensures evalRow == RowOf(row, results)
    ensures log == LogLine(QueryOf(row), |response|)
  {
    var query := QueryOf(row);
    var hits := new Hit[|response|](k requires 0 <= k < |response| => response[k]);
    assert hits[..] == response;
    var request;
    results, request := SearchEs(query, hits);
    var top := TopThree(results);
    var judgement := GetJudgement(if |top| > 0 then Round2(top[0].score) else 0.0);
    evalRow := EvalRow(query, row.site, row.kind, row.notes, Names(top), ScoreCells(top), judgement);
    log := LogLine(query, |results|);
  }

  /** The reported figures stay in range: no more successes than queries,
      and coverage and average precision between 0 and 100, the average
      never above the coverage; both are 0 for an empty file. */
  lemma MetricsBounds(rows: seq<QueryRow>, responses: seq<seq<Hit>>)
    requires |responses| == |rows|
    ensures var m := RunMetrics(rows, responses);
            && m.total == |rows| && m.success <= m.total
            && 0.0 <= m.avgPrecisionAt3 <= m.coverage <= 100.0
            && (m.total == 0 ==> m.coverage == 0.0 && m.avgPrecisionAt3 == 0.0)
  {
    var results := AllResults(rows, responses);
    PrecisionSumBounds(results);
    if |rows| > 0 {
      Percentages(PrecisionSum(results), SuccessCount(results) as real, |rows| as real);
    }
  }

  lemma Percentages(p: real, s: real, t: real)
    requires 0.0 <= p <= s <= t && t > 0.0
    ensures 0.0 <= p / t * 100.0 <= s / t * 100.0 <= 100.0
  {
    var ps, ss := p / t, s / t;
    assert ps * t == p && ss * t == s;
  }
}
