/** tools/load_catalog.py: the catalogue loader's own normalisation, its
    letters-only keyboard-layout tables, its variant generator and the loop
    of `load_and_index` that turns extracted product records into the bulk
    request.  XML parsing, `float(price)`, the embedding model and the bulk
    upload are not modelled: a record arrives with its fields already
    extracted, and a document records the text its vector is computed from. */
module LoadCatalog {
  import opened Wrappers
  import opened TextBasics
  import Evaluate

  // ---------------------------------------------------------------------
  // normalize_text

  /** Lower-case, fold `ё` to `е`, strip, drop every character that is
      neither a word character nor whitespace, squeeze whitespace runs. */
  function NormalizeText(text: string): string {
    SqueezeSpaces(RemoveNonWord(Strip(ReplaceChar(LowerStr(text), 'ё', 'е'))))
  }

  /** This copy computes what the evaluation tool's copy computes. */
  lemma SameAsEvaluate(text: string)
    ensures NormalizeText(text) == Evaluate.NormalizeText(text)
  {
  }

  /** Normalising a name keeps its lower-cased, `ё`-folded word characters
      in order and adds nothing but spaces. */
  lemma NormalizeTextKeepsWords(text: string)
    ensures RemoveChar(NormalizeText(text), ' ') == WordChars(ReplaceChar(LowerStr(text), 'ё', 'е'))
    ensures NonSpace(NormalizeText(text)) == WordChars(ReplaceChar(LowerStr(text), 'ё', 'е'))
  {
    CleanUpKeepsWords(ReplaceChar(LowerStr(text), 'ё', 'е'));
  }

  /** The normalised name holds only word characters and single spaces, no
      `ё`, and nothing that lower-casing would change. */
  lemma NormalizeTextClean(text: string)
    ensures var r := NormalizeText(text);
            && (forall i :: 0 <= i < |r| ==> IsWordChar(r[i]) || r[i] == ' ')
            && NoDoubleSpace(r)
            && 'ё' !in r
            && (forall i :: 0 <= i < |r| ==> Lower(r[i]) == r[i])
  {
    SameAsEvaluate(text);
    Evaluate.NormalizeTextClean(text);
  }

  // ---------------------------------------------------------------------
  // LAT_TO_RU and RU_TO_LAT

  /** `LAT_TO_RU`: the Russian-layout letter on the key of each small Latin
      letter; `None` for every other character. */
  function LatToRu(c: char): Option<char> {
    match c
    case 'a' => Some('ф')
    case 'b' => Some('и')
    case 'c' => Some('с')
    case 'd' => Some('в')
    case 'e' => Some('у')
    case 'f' => Some('а')
    case 'g' => Some('п')
    case 'h' => Some('р')
    case 'i' => Some('ш')
    case 'j' => Some('о')
    case 'k' => Some('л')
    case 'l' => Some('д')
    case 'm' => Some('ь')
    case 'n' => Some('т')
    case 'o' => Some('щ')
    case 'p' => Some('з')
    case 'q' => Some('й')
    case 'r' => Some('к')
    case 's' => Some('ы')
    case 't' => Some('е')
    case 'u' => Some('г')
    case 'v' => Some('м')
    case 'w' => Some('ц')
    case 'x' => Some('ч')
    case 'y' => Some('н')
    case 'z' => Some('я')
    case _ => None
  }

  /** `RU_TO_LAT = {v: k for k, v in LAT_TO_RU.items()}`. */
  function RuToLat(c: char): Option<char> {
    match c
    case 'ф' => Some('a')
    case 'и' => Some('b')
    case 'с' => Some('c')
    case 'в' => Some('d')
    case 'у' => Some('e')
    case 'а' => Some('f')
    case 'п' => Some('g')
    case 'р' => Some('h')
    case 'ш' => Some('i')
    case 'о' => Some('j')
    case 'л' => Some('k')
    case 'д' => Some('l')
    case 'ь' => Some('m')
    case 'т' => Some('n')
    case 'щ' => Some('o')
    case 'з' => Some('p')
    case 'й' => Some('q')
    case 'к' => Some('r')
    case 'ы' => Some('s')
    case 'е' => Some('t')
    case 'г' => Some('u')
    case 'м' => Some('v')
    case 'ц' => Some('w')
    case 'ч' => Some('x')
    case 'н' => Some('y')
    case 'я' => Some('z')
    case _ => None
  }

  /** The keys of `LAT_TO_RU` are exactly the 26 small Latin letters, its
      values are small Cyrillic letters, and `RU_TO_LAT` is its exact
      inverse in both directions. */
  lemma TablesInverse(c: char)
    ensures LatToRu(c).Some? <==> IsLowerAsciiLetter(c)
    ensures LatToRu(c).Some? ==>
              IsCyrillicLetter(LatToRu(c).value) && RuToLat(LatToRu(c).value) == Some(c)
    ensures RuToLat(c).Some? ==>
              IsLowerAsciiLetter(RuToLat(c).value) && LatToRu(RuToLat(c).value) == Some(c)
  {
    TablesInverseForward(c);
    TablesInverseBackward(c);
  }

  lemma TablesInverseForward(c: char)
    ensures LatToRu(c).Some? ==> RuToLat(LatToRu(c).value) == Some(c)
  {
    match c
    case 'a' => case 'b' => case 'c' => case 'd' => case 'e' => case 'f' => case 'g' => case 'h' =>
    case 'i' => case 'j' => case 'k' => case 'l' => case 'm' => case 'n' => case 'o' => case 'p' =>
    case 'q' => case 'r' => case 's' => case 't' => case 'u' => case 'v' => case 'w' => case 'x' =>
    case 'y' => case 'z' =>
    case _ =>
  }

  lemma TablesInverseBackward(c: char)
    ensures RuToLat(c).Some? ==> LatToRu(RuToLat(c).value) == Some(c)
  {
    match c
    case 'ф' => case 'и' => case 'с' => case 'в' => case 'у' => case 'а' => case 'п' => case 'р' =>
    case 'ш' => case 'о' => case 'л' => case 'д' => case 'ь' => case 'т' => case 'щ' => case 'з' =>
    case 'й' => case 'к' => case 'ы' => case 'е' => case 'г' => case 'м' => case 'ц' => case 'ч' =>
    case 'н' => case 'я' =>
    case _ =>
  }

  /** The letters-only table is the letter part of the evaluation tool's
      keyboard table. */
  lemma LettersOfKeymap(c: char)
    ensures LatToRu(c).Some? ==> Evaluate.LatToRuKey(c) == LatToRu(c)
    ensures IsLowerAsciiLetter(c) ==> Evaluate.LatToRuKey(c) == LatToRu(c)
  {
  }

  /** `LAT_TO_RU.get(c, c)`. */
  function LatToRuChar(c: char): char {
    if LatToRu(c).Some? then LatToRu(c).value else c
  }

  /** `RU_TO_LAT.get(c, c)`. */
  function RuToLatChar(c: char): char {
    if RuToLat(c).Some? then RuToLat(c).value else c
  }

  // ---------------------------------------------------------------------
  // generate_translit_variants

  /** The characters the variant generator keeps. */
  predicate Kept(c: char) { IsAlpha(c) || IsDigit(c) || c == ' ' }

  /** `[c for c in text if c.isalpha() or c.isdigit() or c == ' ']`. */
  function KeptChars(text: string): (r: string)
    ensures |r| <= |text|
    ensures forall c :: c in r ==> Kept(c) && c in text
  {
    if text == [] then []
    else (if Kept(text[0]) then [text[0]] else []) + KeptChars(text[1..])
  }

  /** The filter works character by character: the kept characters of a
      concatenation are those of each part, in order. */
  lemma {:induction false} KeptCharsConcat(s: string, t: string)
    ensures KeptChars(s + t) == KeptChars(s) + KeptChars(t)
    decreases |s|
  {
    if s == [] {
      assert s + t == t;
    } else {
      assert (s + t)[0] == s[0] && (s + t)[1..] == s[1..] + t;
      KeptCharsConcat(s[1..], t);
    }
  }

  /** One more character is appended exactly when it is a letter, a digit
      or a space. */
  lemma KeptCharsSnoc(s: string, c: char)
    ensures KeptChars(s + [c]) == KeptChars(s) + (if Kept(c) then [c] else [])
  {
    KeptCharsConcat(s, [c]);
    assert [c][1..] == [];
  }

  /** `lat_variant`: `''.join(RU_TO_LAT.get(c, c) for c in kept)`. */
  function LatVariant(text: string): string { MapChars(KeptChars(text), RuToLatChar) }

  /** `ru_variant`: `''.join(LAT_TO_RU.get(c, c) for c in kept)`. */
  function RuVariant(text: string): string { MapChars(KeptChars(text), LatToRuChar) }

  /** `generate_translit_variants`: the deduplicated strings `text`, its
      Latin and its Cyrillic variant (the list order, which depends on
      string hashing, is not modelled). */
  function GenerateTranslitVariants(text: string): set<string> {
    {text, LatVariant(text), RuVariant(text)}
  }

  /** The variants always hold the text itself and both transliterations,
      and nothing else, so there are at most three. */
  lemma VariantsOf(text: string)
    ensures var r := GenerateTranslitVariants(text);
            && text in r && LatVariant(text) in r && RuVariant(text) in r
            && |r| <= 3
            && forall v :: v in r ==> v == text || v == LatVariant(text) || v == RuVariant(text)
  {
    Evaluate.AtMostThree(text, LatVariant(text), RuVariant(text));
  }

  /** Both variants keep only letters, digits and spaces, so neither holds
      an underscore; they have the same length, at most that of `text`; and
      the Cyrillic one holds no small Latin letter. */
  lemma VariantsShape(text: string)
    ensures |LatVariant(text)| == |RuVariant(text)| == |KeptChars(text)| <= |text|
    ensures forall i :: 0 <= i < |LatVariant(text)| ==>
              (IsAlpha(LatVariant(text)[i]) || IsDigit(LatVariant(text)[i]) || LatVariant(text)[i] == ' ')
    ensures forall i :: 0 <= i < |RuVariant(text)| ==>
              (IsAlpha(RuVariant(text)[i]) || IsDigit(RuVariant(text)[i]) || RuVariant(text)[i] == ' ')
    ensures '_' !in LatVariant(text) && '_' !in RuVariant(text)
    ensures forall i :: 0 <= i < |RuVariant(text)| ==> !IsLowerAsciiLetter(RuVariant(text)[i])
  {
    var k := KeptChars(text);
    forall i | 0 <= i < |k|
      ensures Kept(RuToLatChar(k[i])) && Kept(LatToRuChar(k[i]))
      ensures !IsLowerAsciiLetter(LatToRuChar(k[i]))
    {
      assert k[i] in k;
      TablesInverse(k[i]);
    }
  }

  /** The variants of a text without underscores or punctuation: a text of
      letters, digits and spaces is kept whole, so its Cyrillic variant is
      its letter-by-letter transliteration. */
  lemma KeptWhole(text: string)
    requires forall i :: 0 <= i < |text| ==> Kept(text[i])
    ensures KeptChars(text) == text
    ensures RuVariant(text) == MapChars(text, LatToRuChar) && LatVariant(text) == MapChars(text, RuToLatChar)
  {
    KeptAll(text);
  }

  /** Filtering a text whose every character is kept changes nothing. */
  lemma {:induction false} KeptAll(text: string)
    requires forall i :: 0 <= i < |text| ==> Kept(text[i])
    ensures KeptChars(text) == text
  {
    if text != [] {
      assert Kept(text[0]);
      assert forall i :: 0 <= i < |text[1..]| ==> text[1..][i] == text[i + 1];
      KeptAll(text[1..]);
      assert KeptChars(text) == [text[0]] + text[1..];
    }
  }

  /** On an ASCII text, mapping the Cyrillic variant back gives the kept
      characters: the Latin letters return, and no other ASCII character is
      a value of `RU_TO_LAT`'s domain. */
  lemma AsciiVariantRoundTrip(text: string)
    requires forall i :: 0 <= i < |text| ==> IsAscii(text[i])
    ensures MapChars(RuVariant(text), RuToLatChar) == KeptChars(text)
  {
    var k := KeptChars(text);
    assert forall c :: c in text ==> IsAscii(c);
    forall i | 0 <= i < |k| ensures RuToLatChar(LatToRuChar(k[i])) == k[i] {
      assert k[i] in k && k[i] in text;
      AsciiCharRoundTrip(k[i]);
    }
    var mid := MapChars(k, LatToRuChar);
    var back := MapChars(mid, RuToLatChar);
    assert |back| == |k| && forall i :: 0 <= i < |k| ==> back[i] == k[i];
  }

  lemma AsciiCharRoundTrip(c: char)
    requires IsAscii(c)
    ensures RuToLatChar(LatToRuChar(c)) == c
  {
    TablesInverse(c);
  }

  // ---------------------------------------------------------------------
  // load_and_index

  /** A `<product>` element with its fields extracted: `findtext` results,
      the name and the description not yet stripped, the price already
      converted. */
  datatype Product = Product(name: string, description: string, price: real,
                             category: string, brand: string, weight: string)

  /** A document of the bulk request; `embeddingText` is the text whose
      embedding becomes the `vector` field. */
  datatype Document = Document(name: string, description: string, price: real,
                               category: string, brand: string, weight: string,
                               nameVariants: set<string>, embeddingText: string)

  /** An entry of `bulk_data`: the action line or the document after it. */
  datatype BulkItem = IndexAction | Doc(doc: Document)

  /** The record is skipped when its stripped name is empty. */
  predicate Skipped(p: Product) { Strip(p.name) == [] }

  /** The document built for a record that is not skipped. */
  function DocumentOf(p: Product): Document {
    var name := Strip(p.name);
    var norm := NormalizeText(name);
    var description := Strip(p.description);
    Document(name, description, p.price, p.category, p.brand, p.weight,
             GenerateTranslitVariants(norm), norm + " " + description)
  }

  /** The document keeps the stripped name, and its variants hold the
      normalised name. */
  lemma DocumentOfFields(p: Product)
    ensures var d := DocumentOf(p);
            && d.name == Strip(p.name) && d.description == Strip(p.description)
            && NormalizeText(d.name) in d.nameVariants
            && |d.nameVariants| <= 3
            && d.embeddingText == NormalizeText(d.name) + " " + d.description
  {
    VariantsOf(NormalizeText(Strip(p.name)));
  }

  /** The records that produce a document, in input order. */
  function KeptProducts(products: seq<Product>): (r: seq<Product>)
    ensures |r| <= |products|
    ensures forall p :: p in r <==> p in products && !Skipped(p)
  {
    if products == [] then []
    else
      var n := |products| - 1;
      KeptProducts(products[..n]) + (if Skipped(products[n]) then [] else [products[n]])
  }

  /** `bulk_data` after the loop, each kept record turned into a document
      by `enrich`. */
  function BulkWith(products: seq<Product>, enrich: Product -> Document): seq<BulkItem> {
    if products == [] then []
    else
      var n := |products| - 1;
      BulkWith(products[..n], enrich) + (if Skipped(products[n]) then [] else [IndexAction, Doc(enrich(products[n]))])
  }

  /** `bulk_data` after the loop. */
  function Bulk(products: seq<Product>): seq<BulkItem> {
    BulkWith(products, DocumentOf)
  }

  /** `bulk_data` alternates the action and the document of each kept
      record, in order; so its length is even and twice the number of kept
      records. */
  lemma BulkAlternates(products: seq<Product>)
    ensures |Bulk(products)| == 2 * |KeptProducts(products)|
    ensures forall k :: 0 <= k < |KeptProducts(products)| ==>
              Bulk(products)[2 * k] == IndexAction &&
              Bulk(products)[2 * k + 1] == Doc(DocumentOf(KeptProducts(products)[k]))
  {
    BulkWithAlternates(products, DocumentOf);
  }

  lemma {:induction false} BulkWithAlternates(products: seq<Product>, enrich: Product -> Document)
    ensures |BulkWith(products, enrich)| == 2 * |KeptProducts(products)|
    ensures forall k :: 0 <= k < |KeptProducts(products)| ==>
              BulkWith(products, enrich)[2 * k] == IndexAction &&
              BulkWith(products, enrich)[2 * k + 1] == Doc(enrich(KeptProducts(products)[k]))
  {
    if products != [] {
      var n := |products| - 1;
      BulkWithAlternates(products[..n], enrich);
      var b0, k0 := BulkWith(products[..n], enrich), KeptProducts(products[..n]);
      if !Skipped(products[n]) {
        var b, kept := BulkWith(products, enrich), KeptProducts(products);
        assert b == b0 + [IndexAction, Doc(enrich(products[n]))];
        assert kept == k0 + [products[n]];
        forall k | 0 <= k < |kept|
          ensures b[2 * k] == IndexAction && b[2 * k + 1] == Doc(enrich(kept[k]))
        {
          if k < |k0| {
            assert b[2 * k] == b0[2 * k] && b[2 * k + 1] == b0[2 * k + 1] && kept[k] == k0[k];
          }
        }
      }
    }
  }

  /** Every document has a non-empty name and carries its normalised name
      among its variants. */
  lemma BulkDocument(products: seq<Product>, k: nat)
    requires k < |Bulk(products)| && Bulk(products)[k].Doc?
    ensures var d := Bulk(products)[k].doc;
            d.name != [] && NormalizeText(d.name) in d.nameVariants
  {
    BulkWithDoc(products, DocumentOf, k);
    var p := KeptProducts(products)[k / 2];
    assert p in KeptProducts(products);
    DocumentOfFields(p);
  }

  /** A document entry sits at an odd position and is the document of the
      kept record at half that position. */
  lemma BulkWithDoc(products: seq<Product>, enrich: Product -> Document, k: nat)
    requires k < |BulkWith(products, enrich)| && BulkWith(products, enrich)[k].Doc?
    ensures k / 2 < |KeptProducts(products)|
    ensures BulkWith(products, enrich)[k] == Doc(enrich(KeptProducts(products)[k / 2]))
  {
    BulkWithAlternates(products, enrich);
    var j := k / 2;
    assert j < |KeptProducts(products)| && 2 * j <= k <= 2 * j + 1;
    assert BulkWith(products, enrich)[2 * j] == IndexAction;
    assert k == 2 * j + 1;
  }

  /** The record-filtering and enrichment loop of `load_and_index`, and the
      count it reports. */
  method LoadAndIndex(products: seq<Product>) returns (bulk: seq<BulkItem>, indexed: nat)
    ensures bulk == Bulk(products)
    ensures indexed == |KeptProducts(products)| && |bulk| == 2 * indexed
  {
    bulk := [];
    for i := 0 to |products|
      invariant bulk == Bulk(products[..i])
    {
      assert products[..i + 1][..i] == products[..i];
      var name := Strip(products[i].name);
      if name == [] {
        continue;
      }
      bulk := bulk + [IndexAction, Doc(DocumentOf(products[i]))];
    }
    assert products[..|products|] == products;
    BulkAlternates(products);
    indexed := |bulk| / 2;
  }
}
