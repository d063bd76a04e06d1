/** Python's string built-ins and regular-expression character classes, as
    the three tools use them.  Unicode case tables and the classes `\w`, `\s`
    and `\d` are modelled by concrete predicates over ASCII and the basic
    Cyrillic block; everything downstream relies only on what the ensures
    clauses and lemmas of this module state (lower-casing is idempotent, a
    space is not a word character, ASCII letters, digits and `_` are word
    characters). */
module TextBasics {

  // ---------------------------------------------------------------------
  // Character classes

  /** `str.isspace()` / regex `\s`: Python's whitespace code points. */
  predicate IsSpace(c: char) {
    ('\t' <= c <= '\r') || ('\U{1C}' <= c <= '\U{1F}') || c == ' ' ||
    c == '\U{85}' || c == '\U{A0}' || c == '\U{1680}' ||
    ('\U{2000}' <= c <= '\U{200A}') || c == '\U{2028}' || c == '\U{2029}' ||
    c == '\U{202F}' || c == '\U{205F}' || c == '\U{3000}'
  }

  /** `str.isdigit()` / regex `\d`, restricted to ASCII decimal digits. */
  predicate IsDigit(c: char) { '0' <= c <= '9' }

  predicate IsLowerAsciiLetter(c: char) { 'a' <= c <= 'z' }

  predicate IsAsciiLetter(c: char) { IsLowerAsciiLetter(c) || 'A' <= c <= 'Z' }

  /** The basic Cyrillic block U+0400..U+045F holds only letters. */
  predicate IsCyrillicLetter(c: char) { '\U{400}' <= c <= '\U{45F}' }

  /** `str.isalpha()`. */
  predicate IsAlpha(c: char) { IsAsciiLetter(c) || IsCyrillicLetter(c) }

  /** Regex `\w`: letters, digits and the underscore. */
  predicate IsWordChar(c: char) { IsAlpha(c) || IsDigit(c) || c == '_' }

  /** `ord(c) < 128`. */
  predicate IsAscii(c: char) { c as int < 128 }

  lemma WordCharIsNotSpace(c: char)
    ensures IsWordChar(c) ==> !IsSpace(c)
  {
  }

  /** `str.lower()` on one character: ASCII and Cyrillic capitals map to
      their small letters, everything else is unchanged. */
  function Lower(c: char): (r: char)
    ensures IsSpace(r) <==> IsSpace(c)
    ensures IsWordChar(r) <==> IsWordChar(c)
    ensures IsAscii(r) <==> IsAscii(c)
  {
    if 'A' <= c <= 'Z' then (c as int + 32) as char
    else if '\U{410}' <= c <= '\U{42F}' then (c as int + 32) as char
    else if '\U{400}' <= c <= '\U{40F}' then (c as int + 80) as char
    else c
  }

  lemma LowerIdempotent(c: char)
    ensures Lower(Lower(c)) == Lower(c)
  {
  }

  // ---------------------------------------------------------------------
  // String operations

  /** `s.lower()`. */
  function LowerStr(s: string): (r: string)
    ensures |r| == |s|
    ensures forall i :: 0 <= i < |s| ==> r[i] == Lower(s[i])
  {
    if s == [] then [] else [Lower(s[0])] + LowerStr(s[1..])
  }

  lemma LowerStrOfLowered(s: string)
    requires forall i :: 0 <= i < |s| ==> Lower(s[i]) == s[i]
    ensures LowerStr(s) == s
  {
  }

  /** `s.replace(x, y)` for one-character `x` and `y`. */
  function ReplaceChar(s: string, x: char, y: char): (r: string)
    ensures |r| == |s|
    ensures forall i :: 0 <= i < |s| ==> r[i] == if s[i] == x then y else s[i]
    ensures x !in s ==> r == s
  {
    if s == [] then [] else [if s[0] == x then y else s[0]] + ReplaceChar(s[1..], x, y)
  }

  /** `s.replace(c, '')`. */
  function RemoveChar(s: string, c: char): (r: string)
    ensures c !in r
    ensures |r| <= |s|
    ensures forall d :: d in r ==> d in s
    ensures c !in s ==> r == s
  {
    if s == [] then []
    else if s[0] == c then RemoveChar(s[1..], c)
    else [s[0]] + RemoveChar(s[1..], c)
  }

  /** Removal works character by character: what is left of a
      concatenation is what is left of each part, in order. */
  lemma {:induction false} RemoveCharConcat(s: string, t: string, c: char)
    ensures RemoveChar(s + t, c) == RemoveChar(s, c) + RemoveChar(t, c)
    decreases |s|
  {
    if s == [] {
      assert s + t == t;
    } else {
      assert (s + t)[0] == s[0] && (s + t)[1..] == s[1..] + t;
      RemoveCharConcat(s[1..], t, c);
    }
  }

  /** One more character is appended to the result exactly when it is not
      the removed one. */
  lemma RemoveCharSnoc(s: string, d: char, c: char)
    ensures RemoveChar(s + [d], c) == RemoveChar(s, c) + (if d == c then [] else [d])
  {
    RemoveCharConcat(s, [d], c);
    assert [d][1..] == [];
  }

  /** `''.join(f(c) for c in s)`: a character-by-character map. */
  function MapChars(s: string, f: char -> char): (r: string)
    ensures |r| == |s|
    ensures forall i :: 0 <= i < |s| ==> r[i] == f(s[i])
  {
    if s == [] then [] else [f(s[0])] + MapChars(s[1..], f)
  }

  /** `s.lstrip()`. */
  function StripLeft(s: string): string {
    if s != [] && IsSpace(s[0]) then StripLeft(s[1..]) else s
  }

  /** `s.rstrip()`. */
  function StripRight(s: string): string {
    if s != [] && IsSpace(s[|s| - 1]) then StripRight(s[..|s| - 1]) else s
  }

  /** `s.strip()`. */
  function Strip(s: string): string {
    StripRight(StripLeft(s))
  }

  /** `lstrip` drops exactly the leading whitespace. */
  lemma {:induction false} StripLeftSpec(s: string)
    ensures var r := StripLeft(s);
            && |r| <= |s| && r == s[|s| - |r|..]
            && (forall i :: 0 <= i < |s| - |r| ==> IsSpace(s[i]))
            && (r == [] || !IsSpace(r[0]))
  {
    if s != [] && IsSpace(s[0]) {
      StripLeftSpec(s[1..]);
      var r := StripLeft(s);
      forall i | 0 <= i < |s| - |r| ensures IsSpace(s[i]) {
        if i > 0 { assert s[i] == s[1..][i - 1]; }
      }
    }
  }

  /** `rstrip` drops exactly the trailing whitespace. */
  lemma {:induction false} StripRightSpec(s: string)
    ensures var r := StripRight(s);
            && |r| <= |s| && r == s[..|r|]
            && (forall i :: |r| <= i < |s| ==> IsSpace(s[i]))
            && (r == [] || !IsSpace(r[|r| - 1]))
  {
    if s != [] && IsSpace(s[|s| - 1]) {
      StripRightSpec(s[..|s| - 1]);
      var r := StripRight(s);
      forall i | |r| <= i < |s| ensures IsSpace(s[i]) {
        if i < |s| - 1 { assert s[i] == s[..|s| - 1][i]; }
      }
    }
  }

  /** `Strip(s)` is the slice of `s` that starts at `a`, only whitespace is
      cut off on either side, and neither end of the result is whitespace. */
  lemma StripIsSlice(s: string) returns (a: nat)
    ensures a + |Strip(s)| <= |s| && Strip(s) == s[a..a + |Strip(s)|]
    ensures forall i :: 0 <= i < a ==> IsSpace(s[i])
    ensures forall i :: a + |Strip(s)| <= i < |s| ==> IsSpace(s[i])
    ensures Strip(s) == [] || (!IsSpace(Strip(s)[0]) && !IsSpace(Strip(s)[|Strip(s)| - 1]))
  {
    var l := StripLeft(s);
    StripLeftSpec(s);
    StripRightSpec(l);
    a := |s| - |l|;
    var r := Strip(s);
    assert r == l[..|r|];
    if r != [] { assert r[0] == l[0]; }
    forall i | a + |r| <= i < |s| ensures IsSpace(s[i]) {
      assert s[i] == l[i - a];
    }
  }

  /** Every character of `Strip(s)` occurs in `s`. */
  lemma StripMembers(s: string)
    ensures |Strip(s)| <= |s|
    ensures forall c :: c in Strip(s) ==> c in s
  {
    var a := StripIsSlice(s);
    forall c | c in Strip(s) ensures c in s {
      var k :| 0 <= k < |Strip(s)| && Strip(s)[k] == c;
      assert s[a + k] == c;
    }
  }

  lemma StripKeepsNoDoubleSpace(s: string)
    requires NoDoubleSpace(s)
    ensures NoDoubleSpace(Strip(s))
  {
    var a := StripIsSlice(s);
    var z := Strip(s);
    forall i | 0 < i < |z| ensures !(z[i - 1] == ' ' && z[i] == ' ') {
      assert z[i - 1] == s[a + i - 1] && z[i] == s[a + i];
    }
  }

  lemma StripOfStripped(s: string)
    requires s == [] || (!IsSpace(s[0]) && !IsSpace(s[|s| - 1]))
    ensures Strip(s) == s
  {
    if s != [] {
      assert StripLeft(s) == s;
      if |s| == 1 { assert s[|s| - 1] == s[0]; }
    }
  }

  /** `re.sub(r'[^\w\s]', '', s)`: keep word characters and whitespace. */
  function RemoveNonWord(s: string): (r: string)
    ensures |r| <= |s|
    ensures forall c :: c in r ==> (IsWordChar(c) || IsSpace(c)) && c in s
    ensures (forall i :: 0 <= i < |s| ==> IsWordChar(s[i]) || IsSpace(s[i])) ==> r == s
  {
    if s == [] then []
    else if IsWordChar(s[0]) || IsSpace(s[0]) then [s[0]] + RemoveNonWord(s[1..])
    else RemoveNonWord(s[1..])
  }

  /** Removal works character by character: the kept characters of a
      concatenation are those of each part, in order. */
  lemma {:induction false} RemoveNonWordConcat(s: string, t: string)
    ensures RemoveNonWord(s + t) == RemoveNonWord(s) + RemoveNonWord(t)
    decreases |s|
  {
    if s == [] {
      assert s + t == t;
    } else {
      assert (s + t)[0] == s[0] && (s + t)[1..] == s[1..] + t;
      RemoveNonWordConcat(s[1..], t);
    }
  }

  /** One more character is appended to the result exactly when it is a
      word character or whitespace. */
  lemma RemoveNonWordSnoc(s: string, c: char)
    ensures RemoveNonWord(s + [c]) == RemoveNonWord(s) + (if IsWordChar(c) || IsSpace(c) then [c] else [])
  {
    RemoveNonWordConcat(s, [c]);
    assert [c][1..] == [];
  }

  /** Drops the maximal whitespace prefix (what one match of `\s+` eats). */
  function DropSpaces(s: string): (r: string)
    ensures |r| < |s| || r == s
    ensures s != [] && IsSpace(s[0]) ==> |r| < |s|
    ensures r == [] || !IsSpace(r[0])
    ensures forall c :: c in r ==> c in s
  {
    if s != [] && IsSpace(s[0]) then DropSpaces(s[1..]) else s
  }

  predicate NoDoubleSpace(s: string) {
    forall i :: 0 < i < |s| ==> !(s[i - 1] == ' ' && s[i] == ' ')
  }

  /** `re.sub(r'\s+', ' ', s)`: every maximal run of whitespace becomes one
      space. */
  function SqueezeSpaces(s: string): (r: string)
    decreases |s|
    ensures |r| <= |s|
    ensures forall c :: c in r ==> c == ' ' || (!IsSpace(c) && c in s)
    ensures NoDoubleSpace(r)
    ensures s != [] ==> r != [] && r[0] == (if IsSpace(s[0]) then ' ' else s[0])
  {
    if s == [] then []
    else if IsSpace(s[0]) then [' '] + SqueezeSpaces(DropSpaces(s))
    else [s[0]] + SqueezeSpaces(s[1..])
  }

  /** A run of mixed whitespace inside a text becomes one space. */
  lemma SqueezeSpacesExample()
    ensures SqueezeSpaces("a \t b") == "a b"
  {
    assert IsSpace(' ') && IsSpace('\t') && !IsSpace('a') && !IsSpace('b');
    assert "b"[1..] == "" && "\t b"[1..] == " b" && " b"[1..] == "b" && " \t b"[1..] == "\t b";
    assert DropSpaces("b") == "b";
    assert DropSpaces(" b") == "b";
    assert DropSpaces("\t b") == "b";
    assert DropSpaces(" \t b") == "b";
    assert SqueezeSpaces("b") == "b";
    assert SqueezeSpaces(" \t b") == " b";
    assert "a \t b"[1..] == " \t b";
  }

  /** A string whose only whitespace is single `' '` characters is left alone. */
  lemma {:induction false} SqueezeSpacesOfSqueezed(s: string)
    requires forall i :: 0 <= i < |s| ==> s[i] == ' ' || !IsSpace(s[i])
    requires NoDoubleSpace(s)
    ensures SqueezeSpaces(s) == s
  {
    if s != [] {
      assert NoDoubleSpace(s[1..]) by {
        forall i | 0 < i < |s[1..]| ensures !(s[1..][i - 1] == ' ' && s[1..][i] == ' ') {
          assert s[1..][i - 1] == s[i] && s[1..][i] == s[i + 1];
        }
      }
      SqueezeSpacesOfSqueezed(s[1..]);
      if IsSpace(s[0]) {
        assert s[0] == ' ';
        assert |s| > 1 ==> s[1] != ' ' && !IsSpace(s[1]);
        assert DropSpaces(s) == s[1..];
      }
    }
  }

  // ---------------------------------------------------------------------
  // What the clean-up keeps

  /** The characters of `s` that are not whitespace, in order. */
  function NonSpace(s: string): (r: string)
    ensures forall c :: c in r ==> !IsSpace(c) && c in s
  {
    if s == [] then []
    else if IsSpace(s[0]) then NonSpace(s[1..])
    else [s[0]] + NonSpace(s[1..])
  }

  /** The word characters of `s`, in order. */
  function WordChars(s: string): (r: string)
    ensures forall c :: c in r ==> IsWordChar(c) && c in s
  {
    if s == [] then []
    else if IsWordChar(s[0]) then [s[0]] + WordChars(s[1..])
    else WordChars(s[1..])
  }

  lemma {:induction false} WordCharsConcat(s: string, t: string)
    ensures WordChars(s + t) == WordChars(s) + WordChars(t)
    decreases |s|
  {
    if s == [] {
      assert s + t == t;
    } else {
      assert (s + t)[0] == s[0] && (s + t)[1..] == s[1..] + t;
      WordCharsConcat(s[1..], t);
    }
  }

  /** Dropping a whitespace prefix loses no other character. */
  lemma {:induction false} DropSpacesKeepsText(s: string)
    ensures NonSpace(DropSpaces(s)) == NonSpace(s)
    decreases |s|
  {
    if s != [] && IsSpace(s[0]) {
      DropSpacesKeepsText(s[1..]);
    }
  }

  /** Squeezing only rewrites whitespace: the other characters of `s` are
      all kept, in order, and no other is added. */
  lemma {:induction false} SqueezeSpacesKeepsText(s: string)
    ensures NonSpace(SqueezeSpaces(s)) == NonSpace(s)
    decreases |s|
  {
    if s != [] {
      if IsSpace(s[0]) {
        var d := DropSpaces(s);
        SqueezeSpacesKeepsText(d);
        DropSpacesKeepsText(s);
        assert ([' '] + SqueezeSpaces(d))[1..] == SqueezeSpaces(d);
      } else {
        SqueezeSpacesKeepsText(s[1..]);
        assert ([s[0]] + SqueezeSpaces(s[1..]))[1..] == SqueezeSpaces(s[1..]);
      }
    }
  }

  lemma {:induction false} StripLeftKeepsWords(s: string)
    ensures WordChars(StripLeft(s)) == WordChars(s)
    decreases |s|
  {
    if s != [] && IsSpace(s[0]) {
      WordCharIsNotSpace(s[0]);
      StripLeftKeepsWords(s[1..]);
    }
  }

  lemma {:induction false} StripRightKeepsWords(s: string)
    ensures WordChars(StripRight(s)) == WordChars(s)
    decreases |s|
  {
    if s != [] && IsSpace(s[|s| - 1]) {
      var init, last := s[..|s| - 1], s[|s| - 1];
      StripRightKeepsWords(init);
      WordCharIsNotSpace(last);
      assert s == init + [last];
      assert [last][1..] == [];
      WordCharsConcat(init, [last]);
    }
  }

  /** Stripping loses no word character. */
  lemma StripKeepsWords(s: string)
    ensures WordChars(Strip(s)) == WordChars(s)
  {
    StripLeftKeepsWords(s);
    StripRightKeepsWords(StripLeft(s));
  }

  /** Removing the characters that are neither word characters nor
      whitespace leaves, besides whitespace, exactly the word characters. */
  lemma {:induction false} RemoveNonWordKeepsWords(s: string)
    ensures NonSpace(RemoveNonWord(s)) == WordChars(s)
    decreases |s|
  {
    if s != [] {
      WordCharIsNotSpace(s[0]);
      RemoveNonWordKeepsWords(s[1..]);
      if IsWordChar(s[0]) || IsSpace(s[0]) {
        assert ([s[0]] + RemoveNonWord(s[1..]))[1..] == RemoveNonWord(s[1..]);
      }
    }
  }

  /** In a text whose only whitespace is `' '`, removing the spaces removes
      all the whitespace. */
  lemma {:induction false} RemoveSpaceIsNonSpace(s: string)
    requires forall i :: 0 <= i < |s| ==> IsSpace(s[i]) ==> s[i] == ' '
    ensures RemoveChar(s, ' ') == NonSpace(s)
    decreases |s|
  {
    if s != [] {
      assert forall i :: 0 <= i < |s[1..]| ==> s[1..][i] == s[i + 1];
      RemoveSpaceIsNonSpace(s[1..]);
    }
  }

  /** The clean-up the normalisers share, strip, then drop non-word
      characters, then squeeze whitespace, keeps every word character of
      `s` in order and adds nothing but single spaces between them. */
  lemma CleanUpKeepsWords(s: string)
    ensures NonSpace(SqueezeSpaces(RemoveNonWord(Strip(s)))) == WordChars(s)
    ensures RemoveChar(SqueezeSpaces(RemoveNonWord(Strip(s))), ' ') == WordChars(s)
  {
    var k := RemoveNonWord(Strip(s));
    var r := SqueezeSpaces(k);
    SqueezeSpacesKeepsText(k);
    RemoveNonWordKeepsWords(Strip(s));
    StripKeepsWords(s);
    forall i | 0 <= i < |r| ensures IsSpace(r[i]) ==> r[i] == ' ' {
      assert r[i] in r;
    }
    RemoveSpaceIsNonSpace(r);
  }

  /** `s.startswith(p)`. */
  predicate StartsWith(s: string, p: string) { p <= s }

  /** The slice `s[:n]` with Python's clamping. */
  function Take(s: string, n: nat): (r: string)
    ensures |r| == if n <= |s| then n else |s|
    ensures r <= s
  {
    if n <= |s| then s[..n] else s
  }

  // ---------------------------------------------------------------------
  // Python's ordering of strings and `sorted(list(set))`

  /** `a < b` on Python strings: lexicographic by code point. */
  predicate LexLess(a: string, b: string)
    decreases |a|
  {
    if b == [] then false
    else if a == [] then true
    else if a[0] != b[0] then a[0] < b[0]
    else LexLess(a[1..], b[1..])
  }

  lemma {:induction false} LexLessIrreflexive(a: string)
    ensures !LexLess(a, a)
  {
    if a != [] { LexLessIrreflexive(a[1..]); }
  }

  lemma {:induction false} LexLessTransitive(a: string, b: string, c: string)
    requires LexLess(a, b) && LexLess(b, c)
    ensures LexLess(a, c)
    decreases |a|
  {
    if a != [] && a[0] == b[0] && b[0] == c[0] {
      LexLessTransitive(a[1..], b[1..], c[1..]);
    }
  }

  lemma {:induction false} LexLessTotal(a: string, b: string)
    requires a != b
    ensures LexLess(a, b) || LexLess(b, a)
    decreases |a|
  {
    if a != [] && b != [] && a[0] == b[0] {
      assert a[1..] != b[1..] by {
        assert a == [a[0]] + a[1..];
        assert b == [b[0]] + b[1..];
      }
      LexLessTotal(a[1..], b[1..]);
    }
  }

  predicate StrictlySorted(r: seq<string>) {
    forall i, j :: 0 <= i < j < |r| ==> LexLess(r[i], r[j])
  }

  /** Every finite non-empty set of strings has a least element. */
  lemma {:induction false} LeastExists(s: set<string>)
    requires s != {}
    ensures exists m :: m in s && forall x :: x in s ==> !LexLess(x, m)
    decreases |s|
  {
    var y :| y in s;
    if s == {y} {
      LexLessIrreflexive(y);
    } else {
      LeastExists(s - {y});
      var m :| m in s - {y} && forall x :: x in s - {y} ==> !LexLess(x, m);
      if LexLess(y, m) {
        forall x | x in s ensures !LexLess(x, y) {
          if x == y { LexLessIrreflexive(y); }
          else if LexLess(x, y) { LexLessTransitive(x, y, m); }
        }
      } else {
        forall x | x in s ensures !LexLess(x, m) {
          if x == m { LexLessIrreflexive(m); }
        }
      }
    }
  }

  /** `sorted(list(s))` for a set of strings: the elements of `s` in strictly
      increasing order. */
  method SortedList(s: set<string>) returns (r: seq<string>)
    ensures StrictlySorted(r)
    ensures forall x :: x in r <==> x in s
  {
    r := [];
    var rest := s;
    while rest != {}
      invariant StrictlySorted(r)
      invariant forall x :: x in s <==> x in r || x in rest
      invariant forall x, i :: x in rest && 0 <= i < |r| ==> LexLess(r[i], x)
      invariant forall x :: x in rest ==> x !in r
      decreases |rest|
    {
      LeastExists(rest);
      var m :| m in rest && forall x :: x in rest ==> !LexLess(x, m);
      forall x | x in rest - {m} ensures LexLess(m, x) {
        LexLessTotal(m, x);
      }
      r := r + [m];
      rest := rest - {m};
    }
  }

  /** A strictly sorted sequence is determined by its elements. */
  lemma {:induction false} StrictlySortedUnique(r1: seq<string>, r2: seq<string>)
    requires StrictlySorted(r1) && StrictlySorted(r2)
    requires forall x :: x in r1 <==> x in r2
    ensures r1 == r2
    decreases |r1|
  {
    if r1 != [] { assert r1[0] in r2; }
    if r2 != [] { assert r2[0] in r1; }
    if r1 != [] && r2 != [] {
      assert r1[0] in r1 && r2[0] in r2;
      if r1[0] != r2[0] {
        var k1 :| 0 <= k1 < |r2| && r2[k1] == r1[0];
        var k2 :| 0 <= k2 < |r1| && r1[k2] == r2[0];
        assert LexLess(r2[0], r2[k1]) && LexLess(r1[0], r1[k2]);
        LexLessTransitive(r1[0], r1[k2], r1[0]);
        LexLessIrreflexive(r1[0]);
      }
      forall x ensures x in r1[1..] <==> x in r2[1..] {
        if x in r1[1..] {
          var i :| 1 <= i < |r1| && r1[i] == x;
          assert LexLess(r1[0], r1[i]);
          if x == r2[0] { LexLessIrreflexive(x); }
          assert x in r1;
          var j :| 0 <= j < |r2| && r2[j] == x;
          assert r2[1..][j - 1] == x;
        }
        if x in r2[1..] {
          var i :| 1 <= i < |r2| && r2[i] == x;
          assert LexLess(r2[0], r2[i]);
          if x == r1[0] { LexLessIrreflexive(x); }
          assert x in r2;
          var j :| 0 <= j < |r1| && r1[j] == x;
          assert r1[1..][j - 1] == x;
        }
      }
      StrictlySortedUnique(r1[1..], r2[1..]);
      assert r1 == [r1[0]] + r1[1..] && r2 == [r2[0]] + r2[1..];
    }
  }
}
