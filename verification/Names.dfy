/** Market hash names: how catalog.rs takes exterior, variant prefix and family out of them. */
module Names {
  import opened Prelude
  import opened Search

  const STATTRAK_PREFIX := "StatTrak\U{2122} "
  const STATTRAK_TAG := "StatTrak\U{2122}"
  const SOUVENIR_PREFIX := "Souvenir "
  const STAR_PREFIX := "\U{2605} "
  const SEPARATOR := " | "
  const EXTERIOR_OPENING := " ("

  predicate IsWhitespace(c: char) {
    var n := c as int;
    9 <= n <= 13 || n == 0x20 || n == 0x85 || n == 0xA0 || n == 0x1680 || 0x2000 <= n <= 0x200A || n == 0x2028 || n == 0x2029
    || n == 0x202F || n == 0x205F || n == 0x3000
  }

  function TrimStart(s: string): string {
    if s != [] && IsWhitespace(s[0]) then TrimStart(s[1..]) else s
  }

  function TrimEnd(s: string): string {
    if s != [] && IsWhitespace(s[|s| - 1]) then TrimEnd(s[..|s| - 1]) else s
  }

  function Trim(s: string): string { TrimEnd(TrimStart(s)) }

  /** Repeated removal of a nonempty prefix. */
  function TrimStartMatches(s: string, prefix: string): (r: string)
    requires prefix != []
    ensures !(prefix <= r) && |r| <= |s| && r == s[|s| - |r|..]
  {
    if prefix <= s then TrimStartMatches(s[|prefix|..], prefix) else s
  }

  function StripPrefix(s: string, prefix: string): string { if prefix <= s then s[|prefix|..] else s }

  /** `rfind`: the last occurrence. */
  function FindLast(s: string, pattern: string): (r: Option<nat>)
    ensures r.Some? ==> OccursAt(s, pattern, r.value) && forall j :: r.value < j ==> !OccursAt(s, pattern, j)
    ensures r.None? ==> forall j :: !OccursAt(s, pattern, j)
  {
    FindLastUpTo(s, pattern, |s|)
  }

  function FindLastUpTo(s: string, pattern: string, i: nat): (r: Option<nat>)
    ensures r.Some? ==> r.value <= i && OccursAt(s, pattern, r.value) && forall j :: r.value < j <= i ==> !OccursAt(s, pattern, j)
    ensures r.None? ==> forall j :: j <= i ==> !OccursAt(s, pattern, j)
  {
    if OccursAt(s, pattern, i) then Some(i) else if i == 0 then None else FindLastUpTo(s, pattern, i - 1)
  }

  function StripTrailingExterior(s: string): string {
    if s != [] && s[|s| - 1] == ')' then
      var opening := FindLast(s, EXTERIOR_OPENING);
      if opening.Some? then s[..opening.value] else s
    else s
  }

  function StripVariantPrefixes(s: string): string { StripPrefix(StripPrefix(s, STATTRAK_PREFIX), SOUVENIR_PREFIX) }

  function Words(s: string): seq<string>
    decreases |s|
  {
    var t := TrimStart(s);
    TrimStartShortens(s);
    if t == [] then []
    else
      var word := Word(t);
      assert |word| > 0;
      [word] + Words(t[|word|..])
  }

  function Word(s: string): (w: string)
    ensures w <= s
    ensures s != [] && !IsWhitespace(s[0]) ==> w != []
  {
    if s == [] || IsWhitespace(s[0]) then [] else [s[0]] + Word(s[1..])
  }

  lemma TrimStartShortens(s: string)
    ensures |TrimStart(s)| <= |s| && (TrimStart(s) != [] ==> !IsWhitespace(TrimStart(s)[0]))
  {}

  function JoinWords(words: seq<string>): string {
    if words == [] then [] else if |words| == 1 then words[0] else words[0] + " " + JoinWords(words[1..])
  }

  function CollapseSpaces(s: string): string { JoinWords(Words(s)) }

  function ToCatalogKey(name: string): string {
    CollapseSpaces(Trim(StripVariantPrefixes(StripTrailingExterior(name))))
  }

  /** Weapon and pattern: what stands before and after the first separator. */
  function ParseFamily(name: string): Option<(string, string)> {
    var normalized := Trim(StripVariantPrefixes(StripTrailingExterior(name)));
    match Find(normalized, SEPARATOR)
    case None => None
    case Some(i) =>
      Some((Trim(TrimStartMatches(Trim(normalized[..i]), STAR_PREFIX)), Trim(normalized[i + |SEPARATOR|..])))
  }

  // Variants of one skin share a key --------------------------------------------------------

  datatype Variant = Plain | StatTrak | Souvenir

  function PrefixOf(v: Variant): string {
    match v
    case Plain => ""
    case StatTrak => "StatTrak\U{2122} "
    case Souvenir => "Souvenir "
  }

  function Decorated(v: Variant, base: string, exterior: string): string {
    PrefixOf(v) + base + " (" + exterior + ")"
  }

  /** A name that is not itself decorated, and an exterior that does not open another parenthesis. */
  ghost predicate Undecorated(base: string, exterior: string) {
    && !(STATTRAK_PREFIX <= base) && !(SOUVENIR_PREFIX <= base) && base != []
    && forall j :: 0 < j ==> !OccursAt(EXTERIOR_OPENING + exterior + ")", EXTERIOR_OPENING, j)
  }

  lemma ExteriorStripped(stem: string, exterior: string)
    requires forall j :: 0 < j ==> !OccursAt(EXTERIOR_OPENING + exterior + ")", EXTERIOR_OPENING, j)
    ensures StripTrailingExterior(stem + EXTERIOR_OPENING + exterior + ")") == stem
  {
    var tail := EXTERIOR_OPENING + exterior + ")";
    var name := stem + EXTERIOR_OPENING + exterior + ")";
    assert name == stem + tail;
    OccursShift(stem, tail, EXTERIOR_OPENING, 0);
    assert tail[0..2] == EXTERIOR_OPENING;
    var last := FindLast(name, EXTERIOR_OPENING);
    if last.Some? && last.value > |stem| {
      OccursShift(stem, tail, EXTERIOR_OPENING, last.value - |stem|);
    }
    assert name[..|stem|] == stem;
  }

  lemma VariantStripped(v: Variant, base: string)
    requires !(STATTRAK_PREFIX <= base) && !(SOUVENIR_PREFIX <= base)
    ensures StripVariantPrefixes(PrefixOf(v) + base) == base
  {
    var name := PrefixOf(v) + base;
    match v
    case Plain => assert name == base;
    case StatTrak => assert name[|STATTRAK_PREFIX|..] == base;
    case Souvenir =>
      assert name[1] == 'o' && STATTRAK_PREFIX[1] == 't';
      assert name[|SOUVENIR_PREFIX|..] == base;
  }

  /** How many characters are not white space; stripping exteriors is all that changes it. */
  function Ink(s: string): nat {
    if s == [] then 0 else (if IsWhitespace(s[0]) then 0 else 1) + Ink(s[1..])
  }

  lemma {:induction false} InkAdds(s: string, t: string)
    ensures Ink(s + t) == Ink(s) + Ink(t)
  {
    if s == [] {
      assert s + t == t;
    } else {
      InkAdds(s[1..], t);
      assert (s + t)[1..] == s[1..] + t;
    }
  }

  lemma {:induction false} TrimStartKeepsInk(s: string)
    ensures Ink(TrimStart(s)) == Ink(s)
  {
    if s != [] && IsWhitespace(s[0]) { TrimStartKeepsInk(s[1..]); }
  }

  lemma {:induction false} TrimEndKeepsInk(s: string)
    ensures Ink(TrimEnd(s)) == Ink(s)
  {
    if s != [] && IsWhitespace(s[|s| - 1]) {
      TrimEndKeepsInk(s[..|s| - 1]);
      InkAdds(s[..|s| - 1], [s[|s| - 1]]);
      assert s == s[..|s| - 1] + [s[|s| - 1]];
    }
  }

  lemma {:induction false} WordsKeepInk(s: string)
    ensures Ink(JoinWords(Words(s))) == Ink(s)
    decreases |s|
  {
    var t := TrimStart(s);
    TrimStartShortens(s);
    TrimStartKeepsInk(s);
    if t != [] {
      var word := Word(t);
      var rest := t[|word|..];
      WordsKeepInk(rest);
      InkAdds(word, rest);
      assert t == word + rest;
      JoinedInk(word, Words(rest));
    }
  }

  lemma JoinedInk(word: string, words: seq<string>)
    ensures Ink(JoinWords([word] + words)) == Ink(word) + Ink(JoinWords(words))
  {
    assert ([word] + words)[1..] == words;
    if words != [] {
      InkAdds(word, " " + JoinWords(words));
      InkAdds(" ", JoinWords(words));
      assert word + " " + JoinWords(words) == word + (" " + JoinWords(words));
      assert Ink(" ") == 0 by { assert " "[1..] == ""; }
    }
  }

  lemma KeyInk(name: string)
    ensures Ink(CollapseSpaces(Trim(name))) == Ink(name)
  {
    TrimStartKeepsInk(name);
    TrimEndKeepsInk(TrimStart(name));
    WordsKeepInk(Trim(name));
  }

  // Catalog keys are normal -----------------------------------------------------------------

  /** Words apart by single spaces, nothing around them. */
  ghost predicate Normal(s: string) {
    && s != [] && !IsWhitespace(s[0]) && !IsWhitespace(s[|s| - 1])
    && forall i :: 0 <= i < |s| - 1 && IsWhitespace(s[i]) ==> s[i] == ' ' && !IsWhitespace(s[i + 1])
  }

  lemma {:induction false} WordEnds(s: string)
    ensures var n := |Word(s)|; Word(s) == s[..n] && (n < |s| ==> IsWhitespace(s[n]))
    ensures forall i :: 0 <= i < |Word(s)| ==> !IsWhitespace(s[i])
  {
    if s != [] && !IsWhitespace(s[0]) {
      WordEnds(s[1..]);
      assert forall i :: 1 <= i < |Word(s)| ==> s[i] == s[1..][i - 1];
    }
  }

  lemma RestIsNormal(s: string, n: nat)
    requires Normal(s) && 0 < n < |s| && IsWhitespace(s[n])
    ensures n + 1 < |s| && s[n] == ' ' && Normal(s[n + 1..])
  {
    var rest := s[n + 1..];
    forall i | 0 <= i < |rest| - 1 && IsWhitespace(rest[i]) ensures rest[i] == ' ' && !IsWhitespace(rest[i + 1]) {
      assert rest[i] == s[n + 1 + i] && rest[i + 1] == s[n + 1 + i + 1];
    }
  }

  /** Collapsing leaves a normal name as it is. */
  lemma {:induction false} NormalStays(s: string)
    requires Normal(s)
    ensures CollapseSpaces(s) == s
    decreases |s|
  {
    var n := |Word(s)|;
    WordEnds(s);
    if n < |s| {
      RestIsNormal(s, n);
      NormalStays(s[n + 1..]);
      FirstWordOff(s, n);
    } else {
      assert Word(s) == s;
      OneWord(s);
    }
  }

  lemma OneWord(s: string)
    requires s != [] && !IsWhitespace(s[0]) && Word(s) == s
    ensures CollapseSpaces(s) == s
  {
    assert TrimStart(s) == s && s[|s|..] == [] && TrimStart("") == "";
    assert Words(s) == [s];
  }

  lemma FirstWordOff(s: string, n: nat)
    requires n + 1 < |s| && Normal(s) && Word(s) == s[..n] && s[n] == ' ' && Normal(s[n + 1..])
    requires CollapseSpaces(s[n + 1..]) == s[n + 1..]
    ensures CollapseSpaces(s) == s
  {
    var rest := s[n + 1..];
    assert s == s[..n] + " " + rest;
    WordsInTurn(s, s[..n], rest);
    JoinedInTurn(s[..n], Words(rest));
  }

  lemma WordsInTurn(s: string, word: string, rest: string)
    requires s == word + " " + rest && s != [] && !IsWhitespace(s[0]) && Word(s) == word
    requires rest != [] && !IsWhitespace(rest[0])
    ensures Words(s) == [word] + Words(rest) && Words(rest) != []
  {
    assert TrimStart(s) == s && s[|word|..] == " " + rest;
    LeadingSpaceDropped(s[|word|..], rest);
  }

  lemma JoinedInTurn(word: string, words: seq<string>)
    requires words != []
    ensures JoinWords([word] + words) == word + " " + JoinWords(words)
  {
    assert ([word] + words)[1..] == words;
  }

  lemma LeadingSpaceDropped(s: string, rest: string)
    requires s == " " + rest && rest != [] && !IsWhitespace(rest[0])
    ensures Words(s) == Words(rest) && Words(rest) != []
  {
    assert s[1..] == rest && TrimStart(rest) == rest;
  }

  /** And makes any other name normal, if anything is left of it. */
  lemma {:induction false} CollapsedIsNormal(s: string)
    ensures Words(s) != [] ==> Normal(CollapseSpaces(s))
    ensures Words(s) == [] ==> CollapseSpaces(s) == []
    decreases |s|
  {
    var t := TrimStart(s);
    TrimStartShortens(s);
    if t != [] {
      WordEnds(t);
      var word, rest := Word(t), t[|Word(t)|..];
      CollapsedIsNormal(rest);
      if Words(rest) != [] {
        JoinIsNormal(word, CollapseSpaces(rest));
      } else {
        assert Words(s) == [word];
      }
    }
  }

  lemma JoinIsNormal(word: string, rest: string)
    requires word != [] && (forall i :: 0 <= i < |word| ==> !IsWhitespace(word[i])) && Normal(rest)
    ensures Normal(word + " " + rest)
  {
    var s, n := word + " " + rest, |word|;
    assert forall i :: 0 <= i < n ==> s[i] == word[i];
    forall i | n <= i < |s| - 1 && IsWhitespace(s[i]) ensures s[i] == ' ' && !IsWhitespace(s[i + 1]) {
      assert s[i + 1] == rest[i - n];
      if i > n { assert s[i] == rest[i - n - 1]; }
    }
  }

  /** A normal name's variants all have the name itself for a key. */
  lemma NormalNameIsKey(v: Variant, base: string, exterior: string)
    requires Undecorated(base, exterior) && Normal(base)
    ensures ToCatalogKey(Decorated(v, base, exterior)) == base
  {
    DecoratedKey(v, base, exterior);
    TrimmedIsTrim(base);
    NormalStays(base);
  }

  /** A name that reads as if it already had an exterior. */
  ghost predicate EndsInParentheses(name: string) {
    name != [] && name[|name| - 1] == ')' && Contains(name, EXTERIOR_OPENING)
  }

  lemma StrippedHasLessInk(name: string)
    requires EndsInParentheses(name)
    ensures StripTrailingExterior(name) <= name && Ink(StripTrailingExterior(name)) < Ink(name)
  {
    var i := FindLast(name, EXTERIOR_OPENING).value;
    var cut := name[i..];
    assert name == name[..i] + cut;
    InkAdds(name[..i], cut);
    assert cut[0..2] == EXTERIOR_OPENING;
    assert cut[1] == '(';
    assert Ink(cut) >= Ink(cut[1..]) >= 1;
  }

  lemma VariantStays(base: string, stem: string)
    requires stem <= base && !(STATTRAK_PREFIX <= base) && !(SOUVENIR_PREFIX <= base)
    ensures StripVariantPrefixes(stem) == stem
  {
    assert STATTRAK_PREFIX <= stem ==> STATTRAK_PREFIX <= base;
    assert SOUVENIR_PREFIX <= stem ==> SOUVENIR_PREFIX <= base;
  }

  lemma DecoratedKey(v: Variant, base: string, exterior: string)
    requires Undecorated(base, exterior)
    ensures ToCatalogKey(Decorated(v, base, exterior)) == CollapseSpaces(Trim(base))
  {
    ExteriorStripped(PrefixOf(v) + base, exterior);
    VariantStripped(v, base);
  }

  /** Every variant and exterior of an item has the catalog key of the bare item, exactly if the bare name does not
      itself end in parentheses (its own key then lacks them). */
  lemma VariantsShareKeyIff(v: Variant, base: string, exterior: string)
    requires Undecorated(base, exterior)
    ensures ToCatalogKey(Decorated(v, base, exterior)) == ToCatalogKey(base) <==> !EndsInParentheses(base)
  {
    DecoratedKey(v, base, exterior);
    KeyInk(base);
    var stem := StripTrailingExterior(base);
    if EndsInParentheses(base) {
      StrippedHasLessInk(base);
      VariantStays(base, stem);
      KeyInk(stem);
    } else {
      assert stem == base;
      VariantStays(base, base);
    }
  }

  /** The variants of one item among themselves always share a key. */
  lemma VariantsShareKey(v: Variant, w: Variant, base: string, exterior: string, otherExterior: string)
    requires Undecorated(base, exterior) && Undecorated(base, otherExterior)
    ensures ToCatalogKey(Decorated(v, base, exterior)) == ToCatalogKey(Decorated(w, base, otherExterior))
  {
    DecoratedKey(v, base, exterior);
    DecoratedKey(w, base, otherExterior);
  }

  // Reading a family back -------------------------------------------------------------------

  predicate Trimmed(s: string) { s != [] && !IsWhitespace(s[0]) && !IsWhitespace(s[|s| - 1]) }

  function Star(starred: bool): string { if starred then "\U{2605} " else "" }

  /** The catalog's weapon and pattern are read back from the market name, for any variant and exterior, starred or not. */
  lemma FamilyRoundTrip(v: Variant, starred: bool, weapon: string, pattern: string, exterior: string)
    requires Trimmed(weapon) && Trimmed(pattern) && !(STAR_PREFIX <= weapon)
    requires Undecorated(Star(starred) + weapon + " | " + pattern, exterior)
    requires forall j :: 0 <= j < |Star(starred) + weapon| ==> !OccursAt(Star(starred) + weapon + " | " + pattern, " | ", j)
    ensures ParseFamily(Decorated(v, Star(starred) + weapon + " | " + pattern, exterior)) == Some((weapon, pattern))
  {
    var stem := Star(starred) + weapon;
    var base := stem + SEPARATOR + pattern;
    ExteriorStripped(PrefixOf(v) + base, exterior);
    VariantStripped(v, base);
    StarTrimmed(starred, weapon);
    assert base[0] == stem[0] && base[|base| - 1] == pattern[|pattern| - 1];
    TrimmedIsTrim(base);
    SplitAtSeparator(stem, pattern);
    TrimmedIsTrim(pattern);
  }

  lemma TrimmedIsTrim(s: string)
    requires Trimmed(s)
    ensures Trim(s) == s
  {}

  lemma StarTrimmed(starred: bool, weapon: string)
    requires Trimmed(weapon) && !(STAR_PREFIX <= weapon)
    ensures Trimmed(Star(starred) + weapon)
    ensures Trim(TrimStartMatches(Trim(Star(starred) + weapon), STAR_PREFIX)) == weapon
  {
    var stem := Star(starred) + weapon;
    assert !IsWhitespace(STAR_PREFIX[0]);
    TrimmedIsTrim(stem);
    TrimmedIsTrim(weapon);
    if starred { PrefixRemoved(weapon, STAR_PREFIX); }
  }

  lemma PrefixRemoved(s: string, prefix: string)
    requires prefix != [] && !(prefix <= s)
    ensures TrimStartMatches(s, prefix) == TrimStartMatches(prefix + s, prefix) == s
  {
    assert (prefix + s)[|prefix|..] == s;
  }

  lemma SplitAtSeparator(stem: string, pattern: string)
    requires forall j :: 0 <= j < |stem| ==> !OccursAt(stem + SEPARATOR + pattern, SEPARATOR, j)
    ensures var base := stem + SEPARATOR + pattern;
      Find(base, SEPARATOR) == Some(|stem|) && base[..|stem|] == stem && base[|stem| + |SEPARATOR|..] == pattern
  {
    var base := stem + SEPARATOR + pattern;
    assert base[|stem|..|stem| + |SEPARATOR|] == SEPARATOR;
    assert OccursAt(base, SEPARATOR, |stem|);
  }
}
