# Prefix search over a grocery catalogue

A Dafny model of the three tools of a prefix-search test bench for a
Russian-language product catalogue. The tools are:

- `tools/evaluate.py` (module `Evaluate`). Given a query, it normalises it and
  builds the hybrid request: a keyword prefix match, a match of the query's
  keyboard-layout variants, a vector search and an optional weight filter. It
  then adds a bonus to the hits whose name starts with the query, re-ranks
  them, judges the top score and accumulates coverage and precision@3 over a
  file of queries.
- `tools/load_catalog.py` (module `LoadCatalog`). It turns product records
  into the documents of a bulk index request. Each document carries its
  normalised name and that name's Latin and Cyrillic variants.
- `tools/main.py` (module `OfflineSearch`). It is an offline prefix search
  over the catalogue's product names, built from four tests: strict or fuzzy,
  on the name with and without spaces, each also with the prefix typed on the
  wrong keyboard layout. The fuzzy test is `difflib`'s similarity ratio
  compared with 0.8.

Shared pieces:

- `TextBasics` covers Python's `str.lower`, `str.strip`, the regular-expression
  classes `\w`, `\s` and `\d`, `str.startswith`, slicing and `sorted`.
- `SequenceMatcher` is the Ratcliff/Obershelp matcher of
  `difflib.SequenceMatcher(None, a, b).ratio()`. It implements the first
  longest matching block and the recursive matched-character count. `Similar`
  states `ratio() >= 0.8` exactly, in integers.
- `Wrappers` holds `Option`.

Each tool's `normalize_text` is modelled separately, because they differ:
`tools/main.py` does not fold `ё` (`OfflineSearch.NoYoFold`). Each loop of
the source is a method with loop invariants, proved against a function:

- `Evaluate.EvaluateAndFill` against the prefix-recursive `MapRows`,
  `SuccessCount` and `PrecisionSum`, with `FinalMetrics` for the metrics;
- `LoadCatalog.LoadAndIndex` against the prefix-recursive `Bulk`;
- `OfflineSearch.PrefixSearch`: its loop against the prefix-recursive
  `Matching`, its result against `NameMatches`;
- `OfflineSearch.LoadProductNames` against the prefix-recursive `NameSet`;
- `Evaluate.AddPrefixBonus`, which works on an array in place, against
  `Boosted`, a per-position comprehension.

`TextBasics.SortedList` is a method too, but it stands for the library call
`sorted(list(...))`, not for a loop of the source. It is proved against
`StrictlySorted` and membership.

Two properties of the code are worth knowing:

- `normalize_text` is not idempotent. `strip()` runs before punctuation is
  removed, so `"a !"` becomes `"a "`, and normalising that again gives `"a"`
  (`Evaluate.NormalizeNotIdempotent`). A second pass only strips the ends
  (`Evaluate.NormalizeTwice`).
- The layout table maps keys, not sounds: `molok` becomes `ьщдщл`
  (`OfflineSearch.KeymapIsNotPhonetic`). For an all-ASCII prefix such as
  `molok` all four tests of `prefix_search` run, but the two
  transliteration tests compare names with that key-for-key form.

## Model

| member | source | states |
|---|---|---|
| TextBasics.Lower | tools/evaluate.py:46 | lower-casing a character keeps it whitespace, a word character or ASCII exactly when it was |
| TextBasics.LowerIdempotent | tools/evaluate.py:46 | lower-casing twice is lower-casing once |
| TextBasics.LowerStr | tools/evaluate.py:46 | `s.lower()` has the length of `s` and lower-cases each character in place |
| TextBasics.LowerStrOfLowered | tools/main.py:10 | a text of lower-case characters is unchanged by `lower()` |
| TextBasics.ReplaceChar | tools/evaluate.py:46 | `s.replace('ё', 'е')` keeps the length, replaces every occurrence in place and leaves every other character, and is the identity without one |
| TextBasics.RemoveChar | tools/main.py:46 | `s.replace(' ', '')` leaves no occurrence of the character, introduces none, and is the identity without one; pinned down by `RemoveCharConcat` and `RemoveCharSnoc` |
| TextBasics.RemoveCharConcat | tools/main.py:46 | removal acts character by character: the result for `s + t` is the result for `s` followed by that for `t` |
| TextBasics.RemoveCharSnoc | tools/main.py:56 | one more character is kept exactly when it is not the removed one |
| TextBasics.MapChars | tools/evaluate.py:52 | `''.join(f(c) for c in s)` has the length of `s` and holds `f` of each character in place |
| TextBasics.WordCharIsNotSpace | tools/evaluate.py:47 | no word character is whitespace |
| TextBasics.IsSpace | tools/evaluate.py:48 | the regex class `\s` on the modelled tables: ASCII whitespace, the separators U+001C..U+001F, U+0085, U+00A0 and the Unicode space separators; used by every whitespace contract |
| TextBasics.IsWordChar | tools/evaluate.py:47 | the regex class `\w`: letters, digits and `_`; `WordCharIsNotSpace` proves it disjoint from `\s` |
| TextBasics.IsDigit | tools/evaluate.py:71 | the regex class `\d` and `str.isdigit` on ASCII digits |
| TextBasics.IsAlpha | tools/load_catalog.py:28 | `str.isalpha` on ASCII and basic Cyrillic letters |
| TextBasics.StripLeftSpec | tools/evaluate.py:46 | `lstrip` removes exactly the leading whitespace and leaves a suffix starting with a non-space |
| TextBasics.StripRightSpec | tools/evaluate.py:46 | `rstrip` removes exactly the trailing whitespace and leaves a prefix ending with a non-space |
| TextBasics.StripIsSlice | tools/evaluate.py:46 | `strip()` is a slice with only whitespace cut from either end, and it starts and ends with non-spaces |
| TextBasics.StripMembers | tools/evaluate.py:46 | stripping is no longer than the input and introduces no character |
| TextBasics.StripKeepsNoDoubleSpace | tools/evaluate.py:46-48 | stripping a text without two adjacent spaces keeps it so |
| TextBasics.StripOfStripped | tools/main.py:35 | a text that neither starts nor ends with whitespace is its own `strip()` |
| TextBasics.RemoveNonWord | tools/evaluate.py:47 | `re.sub(r'[^\w\s]', '', s)` keeps only word and whitespace characters of `s`, and keeps a text of such characters whole |
| TextBasics.RemoveNonWordConcat | tools/evaluate.py:47 | removal acts character by character: the result for `s + t` is the result for `s` followed by that for `t` |
| TextBasics.RemoveNonWordSnoc | tools/evaluate.py:47 | one more character is kept exactly when it is a word character or whitespace |
| TextBasics.SqueezeSpaces | tools/evaluate.py:48 | `re.sub(r'\s+', ' ', s)` leaves no whitespace but single `' '`, never two in a row, and turns a leading whitespace run into one space; `SqueezeSpacesKeepsText` proves every other character is kept in order |
| TextBasics.SqueezeSpacesExample | tools/evaluate.py:48 | `"a \t b"` squeezes to `"a b"`: a mixed whitespace run becomes one space |
| TextBasics.SqueezeSpacesOfSqueezed | tools/evaluate.py:48 | a text whose only whitespace is single spaces is unchanged by squeezing |
| TextBasics.NonSpace | tools/evaluate.py:46-48 | the non-whitespace characters of a text, in order: only non-whitespace characters of the text |
| TextBasics.WordChars | tools/evaluate.py:47 | the word characters of a text, in order: only word characters of the text |
| TextBasics.WordCharsConcat | tools/evaluate.py:47 | the word characters of `s + t` are those of `s` followed by those of `t` |
| TextBasics.DropSpacesKeepsText | tools/evaluate.py:48 | one match of `\s+` removes no non-whitespace character |
| TextBasics.SqueezeSpacesKeepsText | tools/evaluate.py:48 | squeezing keeps exactly the non-whitespace characters of the text, in order |
| TextBasics.StripLeftKeepsWords | tools/evaluate.py:46 | `lstrip` keeps every word character, in order |
| TextBasics.StripRightKeepsWords | tools/evaluate.py:46 | `rstrip` keeps every word character, in order |
| TextBasics.StripKeepsWords | tools/evaluate.py:46 | `strip` keeps every word character, in order |
| TextBasics.RemoveNonWordKeepsWords | tools/evaluate.py:47 | after `re.sub(r'[^\w\s]', '', s)` the non-whitespace characters are exactly the word characters of `s`, in order |
| TextBasics.RemoveSpaceIsNonSpace | tools/main.py:46 | in a text whose only whitespace is `' '`, `replace(' ', '')` removes exactly the whitespace |
| TextBasics.CleanUpKeepsWords | tools/evaluate.py:46-48 | strip, removal and squeezing together keep every word character in order and add only spaces: without spaces the result is exactly the word characters |
| TextBasics.Strip | tools/evaluate.py:46 | `str.strip()`; its contract is stated by `StripLeftSpec`, `StripRightSpec`, `StripIsSlice` and `StripOfStripped` |
| TextBasics.StartsWith | tools/main.py:62 | `str.startswith`: the prefix is an initial segment of the name; used by `PrefixedNamesMatch` and `BlankPrefixMatchesAll` |
| TextBasics.Take | tools/main.py:63 | `s[:n]` is a prefix of `s` of length `min(n, len(s))` |
| TextBasics.LexLess | tools/main.py:38 | Python's code-point string order; `LexLessIrreflexive`, `LexLessTransitive` and `LexLessTotal` prove it a strict total order |
| TextBasics.LexLessIrreflexive | tools/main.py:38 | Python's string order is irreflexive |
| TextBasics.LexLessTransitive | tools/main.py:38 | Python's string order is transitive |
| TextBasics.LexLessTotal | tools/main.py:38 | two different strings are ordered one way or the other |
| TextBasics.LeastExists | tools/main.py:38 | every non-empty set of strings has a least element |
| TextBasics.SortedList | tools/main.py:38 | `sorted(list(names))` is strictly increasing and holds exactly the set's elements |
| TextBasics.StrictlySortedUnique | tools/main.py:38 | two strictly sorted lists with the same elements are equal, so the sorted list of a set is unique |
| SequenceMatcher.RunLength | tools/main.py:63 | the longest block starting at a pair of positions: the slices agree and cannot be extended |
| SequenceMatcher.BlockWithinRun | tools/main.py:63 | no matching block starting at a pair of positions is longer than the run there |
| SequenceMatcher.LongestFrom | tools/main.py:63 | the scan over start positions ends with the first longest block |
| SequenceMatcher.NextRowKeeps | tools/main.py:63 | moving the scan to the next position in `a` keeps "first longest so far" |
| SequenceMatcher.NextPositionKeeps | tools/main.py:63 | a strictly longer run replaces the best block, a tie does not, and "first longest so far" is kept |
| SequenceMatcher.FindLongestMatch | tools/main.py:63 | `find_longest_match` returns a common block inside the ranges, no common block is longer, and no longest block starts earlier |
| SequenceMatcher.MatchedIn | tools/main.py:63 | the matched-character count never exceeds either range |
| SequenceMatcher.Matched | tools/main.py:63 | `M` is at most the length of each string |
| SequenceMatcher.Ratio | tools/main.py:63 | `ratio()` lies in `[0, 1]` |
| SequenceMatcher.Similar | tools/main.py:52-63 | the fuzzy test `ratio() >= 0.8` in integers, as `SimilarIsRatioThreshold` proves |
| SequenceMatcher.SimilarIsRatioThreshold | tools/main.py:52-63 | `Similar(a, b)` holds exactly when `ratio() >= 0.8` |
| SequenceMatcher.SelfMatch | tools/main.py:63 | a string matches itself completely and its ratio is 1 |
| SequenceMatcher.SelfBlock | tools/main.py:63 | the longest block of a string against itself is the whole string |
| Evaluate.NormalizeText | tools/evaluate.py:45-49 | `normalize_text`; its contract is stated by `NormalizeTextClean`, `NormalizeTextKeepsWords`, `NormalizeTwice` and `NormalizeNotIdempotent` |
| Evaluate.NormalizeTextClean | tools/evaluate.py:45-49 | the normalised text has only word characters and single spaces, no `ё`, and nothing `lower()` would change |
| Evaluate.NormalizeTextKeepsWords | tools/evaluate.py:45-49 | the word characters of the lower-cased, `ё`-folded text all survive in order: the result without spaces is exactly them |
| Evaluate.FoldedIsClean | tools/evaluate.py:46 | after lower-casing and the `ё` fold no character is `ё` or upper case |
| Evaluate.NormalizeNotIdempotent | tools/evaluate.py:45-49 | `normalize_text("a !") == "a "` while `normalize_text("a ") == "a"` |
| Evaluate.PunctuationLeavesSpace | tools/evaluate.py:46-48 | punctuation after a space is removed after stripping and leaves the space |
| Evaluate.SpaceIsStripped | tools/evaluate.py:46 | a trailing space is stripped |
| Evaluate.NormalizeTwice | tools/evaluate.py:45-49 | normalising a normalised text equals stripping it |
| Evaluate.LatToRuKey | tools/evaluate.py:37-42 | `LAT_TO_RU_KEYMAP` as a partial map of its 33 pairs; `KeymapsInverse` proves it against the inverse table |
| Evaluate.RuToLatKey | tools/evaluate.py:43 | `RU_TO_LAT_KEYMAP`; `KeymapsInverse` proves it is exactly the inverted forward table |
| Evaluate.LatToRuChar | tools/evaluate.py:52 | `LAT_TO_RU_KEYMAP.get(c, c)`; `CharRoundTrip` states when the way back restores `c` |
| Evaluate.RuToLatChar | tools/evaluate.py:55 | `RU_TO_LAT_KEYMAP.get(c, c)`; `CharRoundTrip` states when it undoes `LatToRuChar` |
| Evaluate.KeymapsInverse | tools/evaluate.py:37-43 | `RU_TO_LAT_KEYMAP` is the exact inverse of `LAT_TO_RU_KEYMAP`: no pair maps a key to itself and each table undoes the other on its keys |
| Evaluate.KeymapsInverseForward | tools/evaluate.py:37-43 | every forward pair is an inverse pair |
| Evaluate.KeymapsInverseBackward | tools/evaluate.py:37-43 | every inverse pair comes from a forward pair |
| Evaluate.LatToRuKeymap | tools/evaluate.py:51-52 | `lat_to_ru_keymap` is `MapChars` with `LAT_TO_RU_KEYMAP.get(c, c)`, whose contract keeps the length and maps each character in place |
| Evaluate.RuToLatKeymap | tools/evaluate.py:54-55 | `ru_to_lat_keymap` is `MapChars` with `RU_TO_LAT_KEYMAP.get(c, c)`; `AsciiRoundTrip` proves it undoes `lat_to_ru_keymap` on ASCII |
| Evaluate.CharRoundTrip | tools/evaluate.py:37-55 | Latin to Cyrillic and back restores a character exactly when it is a forward key or no forward value |
| Evaluate.AsciiCharRoundTrip | tools/evaluate.py:37-55 | every ASCII character survives Latin to Cyrillic and back |
| Evaluate.AsciiRoundTrip | tools/evaluate.py:51-55 | `ru_to_lat_keymap(lat_to_ru_keymap(s)) == s` for every ASCII string |
| Evaluate.LatinRoundTripLossy | tools/evaluate.py:41-55 | the other direction loses information: `/` comes back as `.` |
| Evaluate.GenerateTranslitVariants | tools/evaluate.py:57-58 | the variants are exactly the text and its two layout maps (so at most three strings), all of the text's length |
| Evaluate.UnitAt | tools/evaluate.py:71 | the alternation `(л\|кг\|г\|мл\|шт)` matches at a position; used by `MatchAtRunEnd` |
| Evaluate.MatchAt | tools/evaluate.py:71 | the whole pattern matches at `i` with group 1 `s[i..k]`; `MatchAtRunEnd` characterises it |
| Evaluate.LeftmostMatch | tools/evaluate.py:71 | the match `re.search` reports: no match starts further left; `SearchIsLeftmost` proves the search returns it |
| Evaluate.DigitsValue | tools/evaluate.py:73 | `float(match.group(1))` of a digit run as an exact number; `DigitsValueLeadingZero` and the examples state it |
| Evaluate.DigitsValueLeadingZero | tools/evaluate.py:73 | a leading zero does not change the value of a digit run |
| Evaluate.DigitRunEnd | tools/evaluate.py:71 | the end of the maximal run of digits starting at a position |
| Evaluate.MatchAtRunEnd | tools/evaluate.py:71 | `(\d+)(unit)` matches at a position exactly when the whole digit run there is followed by a unit |
| Evaluate.SearchFrom | tools/evaluate.py:71 | the regex engine's scan over start positions; `SearchFromFindsFirst` states its result |
| Evaluate.SearchFromFindsFirst | tools/evaluate.py:71 | the search from a position returns the value of the first match there or later, and `None` exactly when there is none |
| Evaluate.ExtractNumericFilter | tools/evaluate.py:69-75 | `extract_numeric_filter`; its contract is stated by `ExtractNumericFilterIsLeftmost` and the three examples |
| Evaluate.ExtractNumericFilterIsLeftmost | tools/evaluate.py:69-75 | the filter value is group 1 of the leftmost match in the lower-cased query, and there is no filter exactly when nothing matches |
| Evaluate.SearchIsLeftmost | tools/evaluate.py:71 | `re.search` reports the leftmost match, and `None` exactly when nothing matches |
| Evaluate.LeftmostMatchIsMaximalRun | tools/evaluate.py:71 | the leftmost match's digits are a maximal run, with no digit on either side |
| Evaluate.QuantityExample | tools/evaluate.py:69-75 | `Вода 10л` gives the bound 10 |
| Evaluate.LowerVoda | tools/evaluate.py:71 | `"Вода 10л".lower() == "вода 10л"` |
| Evaluate.SearchVoda | tools/evaluate.py:71 | the search in `вода 10л` finds 10 |
| Evaluate.NoQuantityExample | tools/evaluate.py:69-75 | `Хлеб` gives no filter |
| Evaluate.DecimalPointExample | tools/evaluate.py:69-75 | in `0.5л` only the `5` before the unit is group 1 |
| Evaluate.MustClause | tools/evaluate.py:81-84 | the `must` list is empty exactly when there is no numeric filter, else it holds that filter on `weight_num` |
| Evaluate.BuildRequest | tools/evaluate.py:77-119 | the request holds the filter, two `should` clauses with `minimum_should_match` 1, the first on the normalised query and the second on exactly its layout variants, a `vector` search on the normalised query with `k` 20 and 100 candidates, `size` 10, `min_score` 0.0 and `boost_mode` `replace` |
| Evaluate.PrefixHit | tools/evaluate.py:127-128 | the normalised name starts with the normalised query; `BoostSpec` and `MarkedByScore` use it |
| Evaluate.Boost | tools/evaluate.py:127-128 | the bonus for one hit; its contract is stated by `BoostSpec` |
| Evaluate.BoostSpec | tools/evaluate.py:126-128 | the bonus keeps the name and adds exactly 1.0 when the normalised name starts with the normalised query, else nothing |
| Evaluate.Boosted | tools/evaluate.py:126-128 | each hit keeps its name and position, and its score rises by 1.0 exactly when its normalised name starts with the normalised query |
| Evaluate.AddPrefixBonus | tools/evaluate.py:126-128 | the array after the loop is the boosted array before it |
| Evaluate.Insert | tools/evaluate.py:130 | an insertion step adds the one hit to the multiset of hits |
| Evaluate.InsertSorted | tools/evaluate.py:130 | inserting into a list sorted by descending score keeps it sorted |
| Evaluate.InsertStable | tools/evaluate.py:130 | the inserted hit goes before every later hit of equal score |
| Evaluate.WithScoreMembers | tools/evaluate.py:130 | the hits of one score are exactly the hits with that score |
| Evaluate.SortDesc | tools/evaluate.py:130 | `sorted(hits, key=-score)` is sorted by descending score, a permutation, and stable |
| Evaluate.HeadIsMax | tools/evaluate.py:130 | the first re-ranked hit has the highest score |
| Evaluate.StableSortUnique | tools/evaluate.py:130 | two score-sorted lists that order each score's hits alike are equal |
| Evaluate.SortDescIsTheStableSort | tools/evaluate.py:130 | any stable descending sort of the hits is `SortDesc` |
| Evaluate.Reranked | tools/evaluate.py:126-130 | the re-ranked results of one query: `SortDesc` of the boosted hits, whose contracts state their order and contents |
| Evaluate.SearchEs | tools/evaluate.py:77-131 | `search_es` sends the request, boosts the hits in place and returns them sorted |
| Evaluate.PrefixHitsFirst | tools/evaluate.py:126-130 | with backend scores below 1, every hit whose name starts with the query comes before every other hit |
| Evaluate.MarkedByScore | tools/evaluate.py:126-130 | with backend scores in `[0, 1)`, a re-ranked hit matches the query exactly when its score is at least 1 |
| Evaluate.GetJudgement | tools/evaluate.py:133-136 | good exactly above 0.7, fair exactly on `[0.5, 0.7]`, bad exactly below 0.5 |
| Evaluate.JudgementMonotone | tools/evaluate.py:133-136 | a higher score never gets a lower judgement |
| Evaluate.Hundredths | tools/evaluate.py:154 | `:.2f` picks the nearest number of hundredths, a tie going to the even one |
| Evaluate.Round2 | tools/evaluate.py:154 | the rounded score is within 0.005 of the score |
| Evaluate.JudgementUsesRoundedScore | tools/evaluate.py:154-163 | the judgement reads the rounded cell and precision reads the raw score: 0.704 is relevant but its row is judged fair |
| Evaluate.TopThree | tools/evaluate.py:151 | `results[:3]` is a prefix of length `min(3, len)` |
| Evaluate.RelevantCount | tools/evaluate.py:163 | at most the number of top results |
| Evaluate.PrecisionContribution | tools/evaluate.py:161-163 | a query adds between 0 and 1 to `precision_at_3`, and 0 without results |
| Evaluate.FullPrecision | tools/evaluate.py:161-163 | a query adds exactly 1 iff it has three results all scoring above 0.7 |
| Evaluate.AllRelevant | tools/evaluate.py:163 | all top results count iff every one scores above 0.7 |
| Evaluate.RowOf | tools/evaluate.py:151-180 | the written row of one query, an `EvalRow` of the cells at lines 167-180; its contract is stated by `RowOfCells` |
| Evaluate.RowOfCells | tools/evaluate.py:151-180 | the written row shows the first three names with rounded scores, judges the rounded top score and is bad without results |
| Evaluate.Names | tools/evaluate.py:153-157 | the `top_k` cells are the names of the top results in order |
| Evaluate.ScoreCells | tools/evaluate.py:154-158 | the `top_k_score` cells are the rounded scores of the top results in order |
| Evaluate.SuccessCount | tools/evaluate.py:161-162 | never more successes than queries |
| Evaluate.PrecisionSumBounds | tools/evaluate.py:161-163 | `precision_at_3` lies between 0 and `success` |
| Evaluate.PrecisionSum | tools/evaluate.py:161-163 | `precision_at_3` after a prefix of the rows, one share per row; `PrecisionSumBounds` bounds it and `EvaluateAndFill` computes it |
| Evaluate.FinalMetrics | tools/evaluate.py:182-183 | `coverage` and `avg_precision_at_3`, 0 for no rows; `MetricsBounds` bounds them |
| Evaluate.QueryOf | tools/evaluate.py:149 | `row.get("query", "")`; `RowsAreIndependent` states that row `i`'s outputs use query `i` |
| Evaluate.LogOf | tools/evaluate.py:165 | the log line, a `LogLine` of the query and the result count; `StepAppends` and `RowsAreIndependent` state it |
| Evaluate.MapRows | tools/evaluate.py:147-180 | one entry per row, built in row order |
| Evaluate.MapRowsAt | tools/evaluate.py:147-180 | the entry for a row depends on that row alone |
| Evaluate.MapRowsStep | tools/evaluate.py:147-180 | one more row appends exactly its own entry |
| Evaluate.RowsAreIndependent | tools/evaluate.py:147-180 | row `i`'s results, written row and log line are those of query `i` alone |
| Evaluate.EvaluateRow | tools/evaluate.py:148-165 | one iteration searches, writes the row of the re-ranked results and logs the result count |
| Evaluate.StepAppends | tools/evaluate.py:147-180 | one iteration adds 1 to `success` iff there are results, adds its precision share, and appends its row and log line |
| Evaluate.EvaluateNext | tools/evaluate.py:147-180 | the loop body keeps counters, rows and log equal to those of the rows processed so far |
| Evaluate.EvaluateAndFill | tools/evaluate.py:138-192 | the written rows, the log lines and the metrics are those of all query rows |
| Evaluate.MetricsBounds | tools/evaluate.py:182-183 | `total` counts the rows, `success <= total`, `0 <= avg_precision_at_3 <= coverage <= 100`, and both are 0 for an empty file |
| LoadCatalog.NormalizeText | tools/load_catalog.py:14-18 | the loader's `normalize_text`; its contract is stated by `SameAsEvaluate`, `NormalizeTextClean` and `NormalizeTextKeepsWords` |
| LoadCatalog.SameAsEvaluate | tools/load_catalog.py:14-18 | the loader's `normalize_text` computes what the evaluator's does |
| LoadCatalog.NormalizeTextClean | tools/load_catalog.py:14-18 | the normalised name has only word characters and single spaces, no `ё`, and nothing `lower()` would change |
| LoadCatalog.NormalizeTextKeepsWords | tools/load_catalog.py:14-18 | the word characters of the lower-cased, `ё`-folded name all survive in order: the result without spaces is exactly them |
| LoadCatalog.LatToRu | tools/load_catalog.py:20-24 | `LAT_TO_RU` as a partial map of its 26 letter pairs; `TablesInverse` states its keys and values |
| LoadCatalog.RuToLat | tools/load_catalog.py:25 | `RU_TO_LAT`; `TablesInverse` proves it inverts `LAT_TO_RU` both ways |
| LoadCatalog.LatToRuChar | tools/load_catalog.py:29 | `LAT_TO_RU.get(c, c)`; `AsciiCharRoundTrip` states the way back |
| LoadCatalog.RuToLatChar | tools/load_catalog.py:28 | `RU_TO_LAT.get(c, c)`; `AsciiCharRoundTrip` proves it undoes `LatToRuChar` on ASCII |
| LoadCatalog.Kept | tools/load_catalog.py:28-29 | the filter `c.isalpha() or c.isdigit() or c == ' '`; `KeptCharsSnoc` uses it |
| LoadCatalog.TablesInverse | tools/load_catalog.py:20-25 | `LAT_TO_RU`'s keys are exactly the 26 small Latin letters, its values Cyrillic letters, and `RU_TO_LAT` inverts it both ways |
| LoadCatalog.TablesInverseForward | tools/load_catalog.py:20-25 | `RU_TO_LAT` undoes `LAT_TO_RU` |
| LoadCatalog.TablesInverseBackward | tools/load_catalog.py:20-25 | `LAT_TO_RU` undoes `RU_TO_LAT` |
| LoadCatalog.LettersOfKeymap | tools/load_catalog.py:20-24 | the loader's table is the letter part of the evaluator's keyboard table |
| LoadCatalog.KeptChars | tools/load_catalog.py:28-29 | the filter keeps only letters, digits and spaces of the text |
| LoadCatalog.KeptCharsConcat | tools/load_catalog.py:28-29 | the filter acts character by character: the result for `s + t` is the result for `s` followed by that for `t` |
| LoadCatalog.KeptCharsSnoc | tools/load_catalog.py:28-29 | one more character is kept exactly when it is a letter, a digit or a space |
| LoadCatalog.LatVariant | tools/load_catalog.py:28 | `lat_variant` is `MapChars` of the kept characters with `RU_TO_LAT.get(c, c)`; `VariantsShape` and `KeptWhole` state it |
| LoadCatalog.RuVariant | tools/load_catalog.py:29 | `ru_variant` is `MapChars` of the kept characters with `LAT_TO_RU.get(c, c)`; `VariantsShape` and `AsciiVariantRoundTrip` state it |
| LoadCatalog.GenerateTranslitVariants | tools/load_catalog.py:27-31 | `generate_translit_variants`; its contract is stated by `VariantsOf`, `VariantsShape` and `KeptWhole` |
| LoadCatalog.VariantsOf | tools/load_catalog.py:27-31 | the variants are the text and its two variants, at most three strings |
| LoadCatalog.VariantsShape | tools/load_catalog.py:27-31 | both variants have the kept length, contain only letters, digits and spaces (no `_`), and the Cyrillic one has no small Latin letter |
| LoadCatalog.KeptWhole | tools/load_catalog.py:27-31 | a text of letters, digits and spaces is kept whole, so its variants are its plain letter-by-letter maps |
| LoadCatalog.KeptAll | tools/load_catalog.py:28-29 | the filter keeps a text of kept characters unchanged |
| LoadCatalog.AsciiCharRoundTrip | tools/load_catalog.py:20-25 | an ASCII character survives Latin to Cyrillic and back |
| LoadCatalog.AsciiVariantRoundTrip | tools/load_catalog.py:25-29 | for an ASCII text, mapping the Cyrillic variant back gives the kept characters |
| LoadCatalog.DocumentOf | tools/load_catalog.py:70-83 | the document of one kept record; its contract is stated by `DocumentOfFields` |
| LoadCatalog.DocumentOfFields | tools/load_catalog.py:70-82 | the document has the stripped name and description, its normalised name among at most three variants, and the embedding text `norm_name + " " + description` |
| LoadCatalog.KeptProducts | tools/load_catalog.py:69-79 | the indexed records are exactly those whose stripped name is non-empty |
| LoadCatalog.Skipped | tools/load_catalog.py:78 | `not doc["name"]` on the stripped name; `KeptProducts` keeps exactly the records it does not hold for |
| LoadCatalog.Bulk | tools/load_catalog.py:68-85 | `bulk_data` after the loop; its contract is stated by `BulkAlternates` and `BulkDocument` |
| LoadCatalog.BulkAlternates | tools/load_catalog.py:68-88 | `bulk_data` alternates an index action and the document of each kept record, in order, and has twice as many entries as kept records |
| LoadCatalog.BulkWithAlternates | tools/load_catalog.py:68-85 | that alternation holds for any enrichment of the records |
| LoadCatalog.BulkWithDoc | tools/load_catalog.py:84-85 | a document entry sits at an odd position and is the document of the kept record at half that position |
| LoadCatalog.BulkDocument | tools/load_catalog.py:78-85 | every indexed document has a non-empty name and carries its normalised name among its variants |
| LoadCatalog.LoadAndIndex | tools/load_catalog.py:65-88 | the loop builds `bulk_data` and the reported count is `len(bulk_data) // 2`, the number of kept records |
| OfflineSearch.NormalizeTextClean | tools/main.py:8-13 | the normalised text has only word characters and single spaces, and nothing `lower()` would change |
| OfflineSearch.NormalizeText | tools/main.py:8-13 | `normalize_text` of the offline search; its contract is stated by `NormalizeTextClean`, `NormalizeTextKeepsWords` and `NoYoFold` |
| OfflineSearch.NormalizeTextKeepsWords | tools/main.py:8-13 | the letters, digits and `_` of the lower-cased text all survive in order: the result without spaces is exactly them |
| OfflineSearch.NoYoFold | tools/main.py:10 | without the `ё` fold, `Ёж` normalises to `ёж` here and to `еж` in the evaluator |
| OfflineSearch.LatToRuKeymap | tools/main.py:16-25 | `lat_to_ru_keymap` maps each character by the same 33-pair table as the evaluator's, keeping the length |
| OfflineSearch.KeymapIsNotPhonetic | tools/main.py:16-25 | `lat_to_ru_keymap("molok") == "ьщдщл"` |
| OfflineSearch.AllAscii | tools/main.py:47 | `all(ord(c) < 128 for c in norm_prefix)`; `TranslitLength` and `NonAsciiPrefix` state its effect |
| OfflineSearch.FormsOf | tools/main.py:45-49 | the four prefix forms; their contract is stated by `ComputeForms`, `TranslitLength` and `NonAsciiPrefix` |
| OfflineSearch.ComputeForms | tools/main.py:45-49 | the normalised prefix and its space-free form; a transliterated form that is non-empty exactly for a non-empty all-ASCII prefix, then the key map of the normalised prefix of the same length; and its space-free form |
| OfflineSearch.TranslitLength | tools/main.py:47-49 | the transliterated prefix is as long as the normalised one when it exists, and empty exactly when the prefix is not all ASCII or is empty |
| OfflineSearch.StartsOrResembles | tools/main.py:61-63 | one strict-or-fuzzy test: `startswith`, or the ratio of the name's slice of the prefix's length against the prefix at least 0.8; `PrefixedNamesMatch` uses it |
| OfflineSearch.PlainMatch | tools/main.py:61-71 | the first two tests, on the name and on its space-free form; `NonAsciiPrefix` shows they decide alone for a non-ASCII prefix |
| OfflineSearch.TranslitMatch | tools/main.py:73-84 | the two transliteration tests, tried only when the transliterated prefix is non-empty; `NonAsciiPrefix` proves it false otherwise |
| OfflineSearch.NameMatches | tools/main.py:55-84 | one of the four tests accepts the normalised name; `Admits` proves the loop body computes it |
| OfflineSearch.Admits | tools/main.py:54-84 | the loop body adds a name exactly when one of the four strict-or-fuzzy tests accepts its normalised form |
| OfflineSearch.PrefixSearch | tools/main.py:40-86 | the result is strictly sorted and holds exactly the names of the list that one of the four tests accepts, and nothing for an empty prefix |
| OfflineSearch.MatchingStep | tools/main.py:54-84 | one more name is added to the results iff it matches |
| OfflineSearch.MatchingMembers | tools/main.py:51-84 | the result set holds exactly the matching names of the list |
| OfflineSearch.BlankPrefixMatchesAll | tools/main.py:42-65 | a prefix that normalises to nothing matches every name |
| OfflineSearch.PrefixedNamesMatch | tools/main.py:61-71 | a name that starts with the prefix after normalisation, with or without spaces, is found |
| OfflineSearch.NonAsciiPrefix | tools/main.py:47-84 | a prefix whose normalised form is not all ASCII has no transliterated form, and only the first two tests decide |
| OfflineSearch.ResultDependsOnNameSet | tools/main.py:40-86 | two name lists with the same elements, in any order and with any repeats, give the same result |
| OfflineSearch.NameSet | tools/main.py:31-37 | the set the loop collects; `NameSetMembers` proves it holds exactly the non-empty stripped texts |
| OfflineSearch.NameSetMembers | tools/main.py:31-37 | the collected names are exactly the non-empty stripped `<name>` texts |
| OfflineSearch.NamesAreStripped | tools/main.py:34-37 | every collected name is non-empty and its own `strip()` |
| OfflineSearch.LoadProductNames | tools/main.py:27-38 | `load_product_names` returns the collected names, strictly sorted, each once |

## Left out

- The search backend is not modelled; the hits it returns for each query are an input. Neither is index creation (`create_index`), the bulk upload, or the request's scoring inside the backend.
- The sentence-embedding model is not modelled. The request and the document record the text whose embedding would be computed (`vectorText`, `embeddingText`).
- File I/O is not modelled: the XML catalogue, the CSV of queries, the evaluation CSV writer, the log and `metrics.json` files, `print`, `argparse` and `summarize_catalog`. Records, rows and name texts arrive already extracted; the rows, log lines and metrics are results.
- Latency and the clock are not modelled (no `latency_ms` column), because they depend on wall time.
- `parse_weight` is left out: no modelled path calls it.
- `float(price)` runs for every record, before the empty-name test. It raises on an empty or non-numeric price, and that aborts the load. The model assumes every price parses; a record's price arrives as a number.
- Evaluate.DigitsValue: `float(match.group(1))` is modelled as the exact natural number of the digits. A binary float rounds a run of more than about 16 significant digits, and a run of more than about 309 digits becomes `inf`; those inputs are outside the model.
- Floating-point scores are modelled as exact reals. This covers the comparisons with 0.7, 0.5 and 0.8 and the divisions of the metrics.
- Evaluate.Round2: the `:.2f` string and its `float` read-back are modelled as exact half-even rounding to hundredths on reals, not as binary floating-point formatting.
- Evaluate.GenerateTranslitVariants: the `list(set(...))` result is a set, because its order depends on string hashing. The same holds for the variants joined into the second `multi_match` and for LoadCatalog.VariantsOf.
- Unicode tables cover ASCII and the basic Cyrillic block U+0400..U+045F. Outside them `lower()`, `isalpha()` and `\w` are taken as the identity or false, and `\d` and `isdigit()` are taken as ASCII digits only.
- SequenceMatcher.Ratio: difflib's autojunk heuristic is not modelled. difflib applies it when the second string, here a form of the prefix, has 200 characters or more. The prefix comes from the queries file and has no length bound. For such prefixes difflib's pruning of popular characters can give a different ratio, and they are outside the model.
- OfflineSearch.Admits: the `continue` after each accepted test is modelled by returning as soon as a test accepts. The result is the same.
- Evaluate.QueryOf: a row too short to have a `query` cell reads as `""`. `csv.DictReader` fills that cell with `None`, and `normalize_text(None)` raises; the model does not capture that failure.
- The script entry points (`main()`, `if __name__ == '__main__'`) are not modelled; they only wire the modelled functions to files.
