/** String primitives of JavaScript as the site uses them: the `\s` class of
    regular expressions, `toLowerCase`/`toUpperCase`, `normalize("NFD")`,
    `replace(/[̀-ͯ]/g, "")`, `trim`, `split` and `includes`.

    Unicode case mapping and canonical decomposition (Unicode Standard Annex
    #15) are stood in for by small tables: case mapping shifts the ASCII
    letters and the Latin-1 Supplement letters U+00C0..U+00DE / U+00E0..U+00FE
    (except U+00D7 and U+00F7) by 32, so `Upper` leaves ß, ÿ and µ unchanged;
    decomposition covers exactly the fourteen letters á é í ó ú ü ñ and their
    capitals. Every proof below rests only on
    the character facts stated by `LowerFacts` and `DecomposeFacts`. */
module Text {

  // ---------------------------------------------------------------------------
  // Character classes and character maps
  // ---------------------------------------------------------------------------

  /** The code points `\s` matches in an ECMAScript regular expression:
      WhiteSpace and LineTerminator (sections 12.2 and 12.3 of ECMAScript 2022). */
  predicate IsSpace(c: char) {
    || c == '\t' || c == '\n' || c == '\U{B}' || c == '\U{C}' || c == '\r' || c == ' '
    || c == '\U{A0}' || c == '\U{1680}' || ('\U{2000}' <= c <= '\U{200A}')
    || c == '\U{2028}' || c == '\U{2029}' || c == '\U{202F}' || c == '\U{205F}'
    || c == '\U{3000}' || c == '\U{FEFF}'
  }

  predicate IsNotSpace(c: char) {
    !IsSpace(c)
  }

  /** The Combining Diacritical Marks block, U+0300..U+036F. */
  predicate IsMark(c: char) {
    '\U{300}' <= c <= '\U{36F}'
  }

  predicate IsUpperLetter(c: char) {
    ('A' <= c <= 'Z') || ('\U{C0}' <= c <= '\U{DE}' && c != '\U{D7}')
  }

  predicate IsLowerLetter(c: char) {
    ('a' <= c <= 'z') || ('\U{E0}' <= c <= '\U{FE}' && c != '\U{F7}')
  }

  /** Simple lowercase mapping of one code point. */
  function Lower(c: char): char {
    if IsUpperLetter(c) then (c as int + 32) as char else c
  }

  /** Simple uppercase mapping of one code point. */
  function Upper(c: char): char {
    if IsLowerLetter(c) then (c as int - 32) as char else c
  }

  const Acute: char := '\U{301}'
  const Tilde: char := '\U{303}'
  const Diaeresis: char := '\U{308}'

  /** Canonical decomposition of one code point. */
  function Decompose(c: char): seq<char> {
    if c == '\U{C1}' then ['A', Acute]
    else if c == '\U{C9}' then ['E', Acute]
    else if c == '\U{CD}' then ['I', Acute]
    else if c == '\U{D3}' then ['O', Acute]
    else if c == '\U{DA}' then ['U', Acute]
    else if c == '\U{DC}' then ['U', Diaeresis]
    else if c == '\U{D1}' then ['N', Tilde]
    else if c == '\U{E1}' then ['a', Acute]
    else if c == '\U{E9}' then ['e', Acute]
    else if c == '\U{ED}' then ['i', Acute]
    else if c == '\U{F3}' then ['o', Acute]
    else if c == '\U{FA}' then ['u', Acute]
    else if c == '\U{FC}' then ['u', Diaeresis]
    else if c == '\U{F1}' then ['n', Tilde]
    else [c]
  }

  /** The precomposed letters of the decomposition table. */
  predicate IsComposed(c: char) {
    || c == '\U{C1}' || c == '\U{C9}' || c == '\U{CD}' || c == '\U{D3}' || c == '\U{DA}' || c == '\U{DC}' || c == '\U{D1}'
    || c == '\U{E1}' || c == '\U{E9}' || c == '\U{ED}' || c == '\U{F3}' || c == '\U{FA}' || c == '\U{FC}' || c == '\U{F1}'
  }

  /** The character facts every normaliser proof relies on. */
  lemma LowerFacts(c: char)
    ensures Lower(Lower(c)) == Lower(c)
    ensures IsSpace(Lower(c)) == IsSpace(c)
    ensures IsMark(Lower(c)) == IsMark(c)
    ensures IsComposed(Lower(c)) == IsComposed(c)
    ensures IsSpace(c) ==> Lower(c) == c
    ensures Decompose(Lower(c)) == LowerStr(Decompose(c))
  {
  }

  lemma DecomposeFacts(c: char)
    ensures IsComposed(c) <==> Decompose(c) != [c]
    ensures 1 <= |Decompose(c)| <= 2
    ensures forall d :: d in Decompose(c) ==> !IsComposed(d)
    ensures IsSpace(c) || IsMark(c) ==> Decompose(c) == [c]
    ensures !IsSpace(c) ==> forall d :: d in Decompose(c) ==> !IsSpace(d)
  {
  }

  // ---------------------------------------------------------------------------
  // String functions
  // ---------------------------------------------------------------------------

  /** `s.normalize("NFD")`. */
  function Nfd(s: string): (r: string)
    ensures forall i :: 0 <= i < |r| ==> !IsComposed(r[i])
    decreases |s|
  {
    if |s| == 0 then []
    else
      DecomposeFacts(s[0]);
      Decompose(s[0]) + Nfd(s[1..])
  }

  /** The characters of `s` that `drop` rejects, in order: the effect of a
      global `replace` of a character class by "". */
  function Without(s: string, drop: char -> bool): (r: string)
    ensures |r| <= |s|
    ensures forall c :: c in r <==> c in s && !drop(c)
    decreases |s|
  {
    if |s| == 0 then []
    else
      assert forall c :: c in s <==> c == s[0] || c in s[1..];
      (if drop(s[0]) then [] else [s[0]]) + Without(s[1..], drop)
  }

  /** `s.replace(/[̀-ͯ]/g, "")`. */
  function StripMarks(s: string): string {
    Without(s, IsMark)
  }

  /** `s.replace(/\s+/g, "")`. */
  function RemoveSpace(s: string): string {
    Without(s, IsSpace)
  }

  /** The whitespace characters of `s`, in order. */
  function Spaces(s: string): string {
    Without(s, IsNotSpace)
  }

  /** `s.toLowerCase()`. */
  function LowerStr(s: string): (r: string)
    ensures |r| == |s|
    ensures forall i :: 0 <= i < |s| ==> r[i] == Lower(s[i])
  {
    seq(|s|, i requires 0 <= i < |s| => Lower(s[i]))
  }

  /** `s.charAt(0).toUpperCase() + s.slice(1)`. */
  function UpperFirst(s: string): (r: string)
    ensures |r| == |s|
    ensures |s| > 0 ==> r[0] == Upper(s[0]) && r[1..] == s[1..]
  {
    if |s| == 0 then "" else [Upper(s[0])] + s[1..]
  }

  /** `s.includes(sub)`. */
  predicate Contains(s: string, sub: string)
    decreases |s|
  {
    sub <= s || (|s| > 0 && Contains(s[1..], sub))
  }

  function TrimStart(s: string): string
    decreases |s|
  {
    if |s| > 0 && IsSpace(s[0]) then TrimStart(s[1..]) else s
  }

  function TrimEnd(s: string): string
    decreases |s|
  {
    if |s| > 0 && IsSpace(s[|s| - 1]) then TrimEnd(s[..|s| - 1]) else s
  }

  /** `s.trim()`: `trim` strips the same WhiteSpace and LineTerminator set. */
  function Trim(s: string): string {
    TrimEnd(TrimStart(s))
  }

  /** `s.split(sep)` for a one-character separator. */
  function Split(s: string, sep: char): (parts: seq<string>)
    ensures |parts| >= 1
    decreases |s|
  {
    if |s| == 0 then [""]
    else if s[0] == sep then [""] + Split(s[1..], sep)
    else
      var rest := Split(s[1..], sep);
      [[s[0]] + rest[0]] + rest[1..]
  }

  // ---------------------------------------------------------------------------
  // The canonical slug: NFD, strip marks, strip whitespace, lowercase
  // ---------------------------------------------------------------------------

  /** The pipeline most pages apply: `normalize("NFD")`, drop U+0300..U+036F,
      drop `\s`, `toLowerCase()`. */
  function Canonical(s: string): string {
    LowerStr(RemoveSpace(StripMarks(Nfd(s))))
  }

  /** A string that is its own slug. */
  predicate IsCanonical(t: string) {
    forall i :: 0 <= i < |t| ==>
      !IsComposed(t[i]) && !IsMark(t[i]) && !IsSpace(t[i]) && Lower(t[i]) == t[i]
  }

  // ---------------------------------------------------------------------------
  // Lemmas about the building blocks
  // ---------------------------------------------------------------------------

  lemma {:induction false} NfdConcat(a: string, b: string)
    ensures Nfd(a + b) == Nfd(a) + Nfd(b)
    decreases |a|
  {
    if |a| > 0 {
      assert Nfd(a + b) == Decompose(a[0]) + Nfd(a[1..] + b) by {
        assert (a + b)[0] == a[0] && (a + b)[1..] == a[1..] + b;
      }
      NfdConcat(a[1..], b);
    } else {
      assert a + b == b;
    }
  }

  lemma {:induction false} NfdIdentity(s: string)
    requires forall i :: 0 <= i < |s| ==> !IsComposed(s[i])
    ensures Nfd(s) == s
    decreases |s|
  {
    if |s| > 0 {
      NfdIdentity(s[1..]);
      assert s == [s[0]] + s[1..];
    }
  }

  lemma {:induction false} WithoutConcat(a: string, b: string, drop: char -> bool)
    ensures Without(a + b, drop) == Without(a, drop) + Without(b, drop)
    decreases |a|
  {
    if |a| > 0 {
      var head := if drop(a[0]) then [] else [a[0]];
      assert Without(a + b, drop) == head + Without(a[1..] + b, drop) by {
        assert (a + b)[0] == a[0] && (a + b)[1..] == a[1..] + b;
      }
      WithoutConcat(a[1..], b, drop);
      assert Without(a, drop) == head + Without(a[1..], drop);
    } else {
      assert a + b == b;
    }
  }

  lemma {:induction false} WithoutIdentity(s: string, drop: char -> bool)
    requires forall i :: 0 <= i < |s| ==> !drop(s[i])
    ensures Without(s, drop) == s
    decreases |s|
  {
    if |s| > 0 {
      WithoutIdentity(s[1..], drop);
      assert s == [s[0]] + s[1..];
    }
  }

  lemma {:induction false} WithoutAll(s: string, drop: char -> bool)
    requires forall i :: 0 <= i < |s| ==> drop(s[i])
    ensures Without(s, drop) == []
    decreases |s|
  {
    if |s| > 0 {
      WithoutAll(s[1..], drop);
    }
  }

  /** Dropping characters `p` rejects first and then those `q` rejects, where
      `p` only rejects what `q` rejects, is dropping what `q` rejects. */
  lemma {:induction false} WithoutAbsorb(s: string, p: char -> bool, q: char -> bool)
    requires forall c :: p(c) ==> q(c)
    ensures Without(Without(s, p), q) == Without(s, q)
    decreases |s|
  {
    if |s| > 0 {
      WithoutAbsorb(s[1..], p, q);
      var head := if p(s[0]) then [] else [s[0]];
      WithoutConcat(head, Without(s[1..], p), q);
    }
  }

  lemma {:induction false} WithoutCommute(s: string, p: char -> bool, q: char -> bool)
    ensures Without(Without(s, p), q) == Without(Without(s, q), p)
    decreases |s|
  {
    if |s| > 0 {
      WithoutCommute(s[1..], p, q);
      var hp := if p(s[0]) then [] else [s[0]];
      var hq := if q(s[0]) then [] else [s[0]];
      WithoutConcat(hp, Without(s[1..], p), q);
      WithoutConcat(hq, Without(s[1..], q), p);
    }
  }

  lemma WithoutIdempotent(s: string, drop: char -> bool)
    ensures Without(Without(s, drop), drop) == Without(s, drop)
  {
    WithoutAbsorb(s, drop, drop);
  }

  lemma WithoutLowerHead(s: string, drop: char -> bool)
    requires |s| > 0 && drop(Lower(s[0])) == drop(s[0])
    ensures Without(LowerStr(s), drop) ==
      LowerStr(if drop(s[0]) then [] else [s[0]]) + Without(LowerStr(s[1..]), drop)
  {
    assert LowerStr(s)[0] == Lower(s[0]) && LowerStr(s)[1..] == LowerStr(s[1..]);
  }

  /** Lowercasing commutes with dropping a class that lowercasing preserves. */
  lemma {:induction false} WithoutLower(s: string, drop: char -> bool)
    requires forall c :: drop(Lower(c)) == drop(c)
    ensures Without(LowerStr(s), drop) == LowerStr(Without(s, drop))
    decreases |s|
  {
    if |s| > 0 {
      var head := if drop(s[0]) then [] else [s[0]];
      WithoutLowerHead(s, drop);
      WithoutLower(s[1..], drop);
      LowerStrConcat(head, Without(s[1..], drop));
    }
  }

  lemma LowerPreservesClasses()
    ensures forall c: char :: IsSpace(Lower(c)) == IsSpace(c)
    ensures forall c: char :: IsMark(Lower(c)) == IsMark(c)
    ensures forall c: char :: IsNotSpace(Lower(c)) == IsNotSpace(c)
  {
    forall c: char ensures IsSpace(Lower(c)) == IsSpace(c) && IsMark(Lower(c)) == IsMark(c) {
      LowerFacts(c);
    }
  }

  /** Lowercasing and removing whitespace commute. */
  lemma RemoveSpaceLower(s: string)
    ensures RemoveSpace(LowerStr(s)) == LowerStr(RemoveSpace(s))
  {
    LowerPreservesClasses();
    WithoutLower(s, IsSpace);
  }

  lemma LowerStrConcat(a: string, b: string)
    ensures LowerStr(a + b) == LowerStr(a) + LowerStr(b)
  {
  }

  lemma LowerStrIdentity(s: string)
    requires forall i :: 0 <= i < |s| ==> Lower(s[i]) == s[i]
    ensures LowerStr(s) == s
  {
  }

  lemma LowerStrIdempotent(s: string)
    ensures LowerStr(LowerStr(s)) == LowerStr(s)
  {
    forall i | 0 <= i < |s| {
      LowerFacts(s[i]);
    }
  }

  lemma {:induction false} NfdLower(s: string)
    ensures Nfd(LowerStr(s)) == LowerStr(Nfd(s))
    decreases |s|
  {
    if |s| > 0 {
      var c, tail := s[0], s[1..];
      assert Nfd(LowerStr(s)) == Decompose(Lower(c)) + Nfd(LowerStr(tail)) by {
        assert LowerStr(s)[0] == Lower(c) && LowerStr(s)[1..] == LowerStr(tail);
      }
      NfdLower(tail);
      LowerFacts(c);
      LowerStrConcat(Decompose(c), Nfd(tail));
    }
  }

  lemma NfdRemoveSpaceHead(s: string)
    requires |s| > 0
    ensures Nfd(RemoveSpace(s)) == Without(Decompose(s[0]), IsSpace) + Nfd(RemoveSpace(s[1..]))
  {
    var c, tail := s[0], s[1..];
    DecomposeFacts(c);
    if IsSpace(c) {
      assert RemoveSpace(s) == RemoveSpace(tail);
      assert Without(Decompose(c), IsSpace) == [];
    } else {
      var r := RemoveSpace(tail);
      assert RemoveSpace(s) == [c] + r;
      assert ([c] + r)[1..] == r;
      WithoutIdentity(Decompose(c), IsSpace);
    }
  }

  lemma {:induction false} NfdRemoveSpace(s: string)
    ensures Nfd(RemoveSpace(s)) == RemoveSpace(Nfd(s))
    decreases |s|
  {
    if |s| > 0 {
      NfdRemoveSpace(s[1..]);
      NfdRemoveSpaceHead(s);
      WithoutConcat(Decompose(s[0]), Nfd(s[1..]), IsSpace);
    }
  }

  lemma {:induction false} SpacesOfNfd(s: string)
    ensures Spaces(Nfd(s)) == Spaces(s)
    decreases |s|
  {
    if |s| > 0 {
      SpacesOfNfd(s[1..]);
      DecomposeFacts(s[0]);
      WithoutConcat(Decompose(s[0]), Nfd(s[1..]), IsNotSpace);
      if !IsSpace(s[0]) {
        assert Without(Decompose(s[0]), IsNotSpace) == [];
      }
    }
  }

  /** Removing marks keeps every whitespace character, in order. */
  lemma SpacesOfStripMarks(s: string)
    ensures Spaces(StripMarks(s)) == Spaces(s)
  {
    WithoutAbsorb(s, IsMark, IsNotSpace);
  }

  /** Lowercasing keeps every whitespace character, in order. */
  lemma SpacesOfLower(s: string)
    ensures Spaces(LowerStr(s)) == Spaces(s)
  {
    LowerPreservesClasses();
    WithoutLower(s, IsNotSpace);
    var sp := Spaces(s);
    forall i | 0 <= i < |sp|
      ensures Lower(sp[i]) == sp[i]
    {
      assert sp[i] in sp;
      LowerFacts(sp[i]);
    }
    LowerStrIdentity(sp);
  }

  /** A string without whitespace is unchanged by removing whitespace. */
  lemma RemoveSpaceOfSpaceless(s: string)
    requires Spaces(s) == []
    ensures RemoveSpace(s) == s
  {
    forall i | 0 <= i < |s|
      ensures !IsSpace(s[i])
    {
      assert s[i] in s;
    }
    WithoutIdentity(s, IsSpace);
  }

  // ---------------------------------------------------------------------------
  // Lemmas about the canonical slug
  // ---------------------------------------------------------------------------

  /** The slug has no whitespace, no combining mark and no precomposed letter,
      and lowercasing leaves it unchanged. */
  lemma CanonicalIsCanonical(s: string)
    ensures IsCanonical(Canonical(s))
  {
    var n := Nfd(s);
    var k := RemoveSpace(StripMarks(n));
    assert forall i :: 0 <= i < |k| ==> k[i] in n;
    forall i | 0 <= i < |k| {
      LowerFacts(k[i]);
    }
  }

  lemma CanonicalFixes(t: string)
    requires IsCanonical(t)
    ensures Canonical(t) == t
  {
    NfdIdentity(t);
    WithoutIdentity(t, IsMark);
    WithoutIdentity(t, IsSpace);
    LowerStrIdentity(t);
  }

  /** The fixed points of the slug are exactly the canonical strings. */
  lemma CanonicalFixedPoints(t: string)
    ensures Canonical(t) == t <==> IsCanonical(t)
  {
    if IsCanonical(t) {
      CanonicalFixes(t);
    } else {
      CanonicalIsCanonical(t);
    }
  }

  lemma CanonicalIdempotent(s: string)
    ensures Canonical(Canonical(s)) == Canonical(s)
  {
    CanonicalIsCanonical(s);
    CanonicalFixes(Canonical(s));
  }

  lemma CanonicalConcat(a: string, b: string)
    ensures Canonical(a + b) == Canonical(a) + Canonical(b)
  {
    NfdConcat(a, b);
    WithoutConcat(Nfd(a), Nfd(b), IsMark);
    WithoutConcat(StripMarks(Nfd(a)), StripMarks(Nfd(b)), IsSpace);
    LowerStrConcat(RemoveSpace(StripMarks(Nfd(a))), RemoveSpace(StripMarks(Nfd(b))));
  }

  /** Whitespace contributes nothing to a slug. */
  lemma CanonicalOfSpaces(s: string)
    requires forall i :: 0 <= i < |s| ==> IsSpace(s[i])
    ensures Canonical(s) == []
  {
    forall i | 0 <= i < |s| {
      DecomposeFacts(s[i]);
    }
    NfdIdentity(s);
    WithoutIdentity(s, IsMark);
    WithoutAll(s, IsSpace);
  }

  /** An accented letter of the table keeps its lowercased base letter in a
      slug. */
  lemma CanonicalOfComposed(c: char)
    requires IsComposed(c)
    ensures Canonical([c]) == [Lower(Decompose(c)[0])]
  {
    var d := Decompose(c);
    DecomposeFacts(c);
    assert Nfd([c]) == d by {
      assert [c][1..] == [];
    }
    assert d == [d[0]] + [d[1]];
    CanonicalOfPlain(d[0]);
    CanonicalOfMark(d[1]);
    CanonicalConcat([d[0]], [d[1]]);
    NfdIdentity(d);
  }

  /** A combining mark contributes nothing to a slug. */
  lemma CanonicalOfMark(m: char)
    requires IsMark(m)
    ensures Canonical([m]) == []
  {
    assert Nfd([m]) == [m] by {
      assert [m][1..] == [];
    }
    assert Without([m], IsMark) == [] by {
      assert [m][1..] == [];
    }
  }

  /** Any other character that is not whitespace is kept, lowercased. */
  lemma CanonicalOfPlain(c: char)
    requires !IsComposed(c) && !IsMark(c) && !IsSpace(c)
    ensures Canonical([c]) == [Lower(c)]
  {
    assert [c][1..] == [];
    assert Nfd([c]) == [c];
    assert Without([c], IsMark) == [c];
    assert Without([c], IsSpace) == [c];
  }

  /** Lowercasing first does not change the slug. */
  lemma CanonicalOfLower(s: string)
    ensures Canonical(LowerStr(s)) == Canonical(s)
  {
    LowerPreservesClasses();
    NfdLower(s);
    WithoutLower(Nfd(s), IsMark);
    WithoutLower(StripMarks(Nfd(s)), IsSpace);
    LowerStrIdempotent(RemoveSpace(StripMarks(Nfd(s))));
  }

  /** Removing whitespace first does not change the slug. */
  lemma CanonicalOfRemoveSpace(s: string)
    ensures Canonical(RemoveSpace(s)) == Canonical(s)
  {
    NfdRemoveSpace(s);
    WithoutCommute(Nfd(s), IsSpace, IsMark);
    WithoutIdempotent(StripMarks(Nfd(s)), IsSpace);
  }

  lemma {:induction false} NfdNoSlash(s: string)
    requires '/' !in s
    ensures '/' !in Nfd(s)
    decreases |s|
  {
    if |s| > 0 {
      assert s[0] != '/' && '/' !in s[1..];
      NfdNoSlash(s[1..]);
      assert '/' !in Decompose(s[0]);
    }
  }

  /** A slug holds a "/" only if the text did. */
  lemma CanonicalNoSlash(s: string)
    ensures '/' !in s ==> '/' !in Canonical(s)
  {
    if '/' in s {
      return;
    }
    NfdNoSlash(s);
    var k := RemoveSpace(StripMarks(Nfd(s)));
    assert '/' !in k;
    forall i | 0 <= i < |k|
      ensures Lower(k[i]) != '/'
    {
      assert k[i] in k;
    }
  }

  // ---------------------------------------------------------------------------
  // Lemmas about trim and split
  // ---------------------------------------------------------------------------

  lemma CanonicalDropFirstSpace(s: string)
    requires |s| > 0 && IsSpace(s[0])
    ensures Canonical(s) == Canonical(s[1..])
  {
    var c, tail := s[0], s[1..];
    DecomposeFacts(c);
    var n := Nfd(tail);
    assert Nfd(s) == [c] + n;
    assert ([c] + n)[1..] == n;
    assert StripMarks(Nfd(s)) == [c] + StripMarks(n);
    assert ([c] + StripMarks(n))[1..] == StripMarks(n);
    assert RemoveSpace(StripMarks(Nfd(s))) == RemoveSpace(StripMarks(n));
  }

  lemma CanonicalDropLastSpace(s: string)
    requires |s| > 0 && IsSpace(s[|s| - 1])
    ensures Canonical(s) == Canonical(s[..|s| - 1])
  {
    var init, last := s[..|s| - 1], s[|s| - 1..];
    assert s == init + last;
    CanonicalConcat(init, last);
    CanonicalOfSpaces(last);
  }

  /** `trim` only removes whitespace: the slug of the trimmed string is the
      slug of the original. */
  lemma {:induction false} CanonicalOfTrimStart(s: string)
    ensures Canonical(TrimStart(s)) == Canonical(s)
    decreases |s|
  {
    if |s| > 0 && IsSpace(s[0]) {
      CanonicalOfTrimStart(s[1..]);
      CanonicalDropFirstSpace(s);
    }
  }

  lemma {:induction false} CanonicalOfTrimEnd(s: string)
    ensures Canonical(TrimEnd(s)) == Canonical(s)
    decreases |s|
  {
    if |s| > 0 && IsSpace(s[|s| - 1]) {
      CanonicalOfTrimEnd(s[..|s| - 1]);
      CanonicalDropLastSpace(s);
    }
  }

  lemma CanonicalOfTrim(s: string)
    ensures Canonical(Trim(s)) == Canonical(s)
  {
    CanonicalOfTrimStart(s);
    CanonicalOfTrimEnd(TrimStart(s));
  }

  lemma {:induction false} SplitConcat(a: string, b: string, sep: char)
    ensures Split(a + [sep] + b, sep) == Split(a, sep) + Split(b, sep)
    decreases |a|
  {
    if |a| == 0 {
      assert a + [sep] + b == [sep] + b;
      assert ([sep] + b)[1..] == b;
    } else {
      assert (a + [sep] + b)[1..] == a[1..] + [sep] + b;
      SplitConcat(a[1..], b, sep);
    }
  }

  lemma {:induction false} SplitNoSeparator(s: string, sep: char)
    requires sep !in s
    ensures Split(s, sep) == [s]
    decreases |s|
  {
    if |s| > 0 {
      SplitNoSeparator(s[1..], sep);
      assert s == [s[0]] + s[1..];
    }
  }
}
