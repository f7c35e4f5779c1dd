/**
 * The two patterns that decide whether a WHOIS name is a private person:
 *   Cyrillic  `^[А-ЯЁ][а-яё]+\s+[А-ЯЁ][а-яё]+(\s+[А-ЯЁ][а-яё]+)?$`   two or three words
 *   Latin     `^[A-Z][a-z]+\s+[A-Z][a-z]+$`                          exactly two words
 * Neither is case-insensitive. A word is one capital and at least one small letter; words are
 * separated by runs of whitespace as the regular-expression engine understands `\s` for text.
 * Letters and whitespace never overlap, so every run is taken whole and no backtracking can
 * change the outcome: the recogniser below reads the name word by word.
 */
module Names {
  import opened Text

  datatype Alphabet = Cyrillic | Latin

  /** `[А-ЯЁ]` and `[A-Z]`. */
  predicate IsCapital(a: Alphabet, c: char) {
    match a
    case Cyrillic => 'А' <= c <= 'Я' || c == 'Ё'
    case Latin => 'A' <= c <= 'Z'
  }

  /** `[а-яё]` and `[a-z]`. */
  predicate IsSmall(a: Alphabet, c: char) {
    match a
    case Cyrillic => 'а' <= c <= 'я' || c == 'ё'
    case Latin => 'a' <= c <= 'z'
  }

  /** `\s` on text: every character that counts as whitespace, including the Unicode spaces. */
  predicate IsSpace(c: char) {
    c == ' ' || '\t' <= c <= '\r' || '\U{1C}' <= c <= '\U{1F}' || c == '\U{85}' || c == '\U{A0}' ||
    c == '\U{1680}' || '\U{2000}' <= c <= '\U{200A}' || c == '\U{2028}' || c == '\U{2029}' ||
    c == '\U{202F}' || c == '\U{205F}' || c == '\U{3000}'
  }

  /** End of the run of small letters from `i`. */
  function SmallEnd(t: string, i: nat, a: Alphabet): (j: nat)
    requires i <= |t|
    ensures i <= j <= |t|
    ensures forall m | i <= m < j :: IsSmall(a, t[m])
    ensures j < |t| ==> !IsSmall(a, t[j])
    decreases |t| - i
  {
    if i == |t| || !IsSmall(a, t[i]) then i else SmallEnd(t, i + 1, a)
  }

  lemma {:induction false} SmallEndUnique(t: string, i: nat, a: Alphabet, j: nat)
    requires i <= j <= |t|
    requires forall m | i <= m < j :: IsSmall(a, t[m])
    requires j < |t| ==> !IsSmall(a, t[j])
    ensures SmallEnd(t, i, a) == j
    decreases j - i
  {
    if i < j { SmallEndUnique(t, i + 1, a, j); }
  }

  /** End of the run of whitespace from `i`. */
  function SpaceEnd(t: string, i: nat): (j: nat)
    requires i <= |t|
    ensures i <= j <= |t|
    ensures forall m | i <= m < j :: IsSpace(t[m])
    ensures j < |t| ==> !IsSpace(t[j])
    decreases |t| - i
  {
    if i == |t| || !IsSpace(t[i]) then i else SpaceEnd(t, i + 1)
  }

  lemma {:induction false} SpaceEndUnique(t: string, i: nat, j: nat)
    requires i <= j <= |t|
    requires forall m | i <= m < j :: IsSpace(t[m])
    requires j < |t| ==> !IsSpace(t[j])
    ensures SpaceEnd(t, i) == j
    decreases j - i
  {
    if i < j { SpaceEndUnique(t, i + 1, j); }
  }

  lemma LettersAreNotSpaces(a: Alphabet, c: char)
    ensures IsCapital(a, c) ==> !IsSpace(c) && !IsSmall(a, c)
    ensures IsSmall(a, c) ==> !IsSpace(c)
  {
  }

  /**
   * Reads `t[i..]` as capitalised words separated by whitespace and returns how many there are,
   * or None when it is not of that form (a missing capital, a lone capital, a character that is
   * neither a letter of the alphabet nor whitespace, whitespace at the end).
   */
  function WordsFrom(t: string, i: nat, a: Alphabet): (n: Option<nat>)
    requires i <= |t|
    ensures n.Some? ==> n.value >= 1
    decreases |t| - i
  {
    if i == |t| || !IsCapital(a, t[i]) then None
    else
      var j := SmallEnd(t, i + 1, a);
      if j == i + 1 then None
      else if j == |t| then Some(1)
      else
        var k := SpaceEnd(t, j);
        if k == j || k == |t| then None
        else OneMore(WordsFrom(t, k, a))
  }

  function OneMore(n: Option<nat>): Option<nat> {
    if n.Some? then Some(n.value + 1) else None
  }

  /** The pattern without its anchors: between two and `most` words. */
  predicate Fits(t: string, a: Alphabet, most: nat) {
    var n := WordsFrom(t, 0, a);
    n.Some? && 2 <= n.value <= most
  }

  /** `re.match` with `^...$`: the whole name, or the name without one final line break. */
  predicate MatchesName(name: string, a: Alphabet, most: nat) {
    Fits(name, a, most) || (name != [] && name[|name| - 1] == '\n' && Fits(name[..|name| - 1], a, most))
  }

  /** The owner check's test for a private person. */
  predicate IsPersonName(name: string) {
    MatchesName(name, Cyrillic, 3) || MatchesName(name, Latin, 2)
  }

  // ---------------------------------------------------------------- names built from words

  predicate Word(a: Alphabet, w: string) {
    |w| >= 2 && IsCapital(a, w[0]) && forall k | 1 <= k < |w| :: IsSmall(a, w[k])
  }

  predicate Gap(g: string) {
    |g| >= 1 && forall k | 0 <= k < |g| :: IsSpace(g[k])
  }

  /** words[0] + gaps[0] + words[1] + ... + words[n-1]. */
  function Spaced(words: seq<string>, gaps: seq<string>): string
    requires |words| >= 1 && |gaps| == |words| - 1
  {
    if |words| == 1 then words[0] else words[0] + gaps[0] + Spaced(words[1..], gaps[1..])
  }

  /** A last word: a capital followed by small letters up to the end. */
  lemma LastWord(t: string, i: nat, a: Alphabet)
    requires i + 2 <= |t| && IsCapital(a, t[i])
    requires forall m | i + 1 <= m < |t| :: IsSmall(a, t[m])
    ensures WordsFrom(t, i, a) == Some(1)
  {
    SmallEndUnique(t, i + 1, a, |t|);
  }

  /** A word from `i` to `j` and a gap from `j` to `k`: one word more than from `k` on. */
  lemma WordThenGap(t: string, i: nat, j: nat, k: nat, a: Alphabet)
    requires i + 2 <= j < k < |t| && IsCapital(a, t[i]) && IsCapital(a, t[k])
    requires forall m | i + 1 <= m < j :: IsSmall(a, t[m])
    requires forall m | j <= m < k :: IsSpace(t[m])
    ensures WordsFrom(t, i, a) == OneMore(WordsFrom(t, k, a))
  {
    LettersAreNotSpaces(a, t[j]);
    LettersAreNotSpaces(a, t[k]);
    SmallEndUnique(t, i + 1, a, j);
    SpaceEndUnique(t, j, k);
  }

  /** Reading a name built from words and gaps, from any position where it starts, counts its words. */
  lemma {:induction false} WordsFromSpaced(t: string, i: nat, a: Alphabet, words: seq<string>, gaps: seq<string>)
    requires |words| >= 1 && |gaps| == |words| - 1
    requires forall k | 0 <= k < |words| :: Word(a, words[k])
    requires forall k | 0 <= k < |gaps| :: Gap(gaps[k])
    requires i <= |t| && t[i..] == Spaced(words, gaps)
    ensures WordsFrom(t, i, a) == Some(|words|)
    decreases |words|
  {
    if |words| == 1 {
      SpacedLast(t, i, a, words[0]);
      LastWord(t, i, a);
    } else {
      var j := i + |words[0]|;
      var k := j + |gaps[0]|;
      SpacedStep(t, i, a, words, gaps);
      WordsFromSpaced(t, k, a, words[1..], gaps[1..]);
      WordThenGap(t, i, j, k, a);
    }
  }

  lemma SpacedLast(t: string, i: nat, a: Alphabet, w: string)
    requires Word(a, w) && i <= |t| && t[i..] == w
    ensures i + 2 <= |t| && IsCapital(a, t[i])
    ensures forall m | i + 1 <= m < |t| :: IsSmall(a, t[m])
  {
    forall m | i + 1 <= m < |t| ensures IsSmall(a, t[m]) {
      assert t[m] == w[m - i];
    }
    assert t[i] == w[0];
  }

  lemma SpacedStep(t: string, i: nat, a: Alphabet, words: seq<string>, gaps: seq<string>)
    requires |words| >= 2 && |gaps| == |words| - 1
    requires Word(a, words[0]) && Word(a, words[1]) && Gap(gaps[0])
    requires i <= |t| && t[i..] == Spaced(words, gaps)
    ensures i + 2 <= i + |words[0]| < i + |words[0]| + |gaps[0]| < |t|
    ensures IsCapital(a, t[i]) && IsCapital(a, t[i + |words[0]| + |gaps[0]|])
    ensures forall m | i + 1 <= m < i + |words[0]| :: IsSmall(a, t[m])
    ensures forall m | i + |words[0]| <= m < i + |words[0]| + |gaps[0]| :: IsSpace(t[m])
    ensures t[i + |words[0]| + |gaps[0]|..] == Spaced(words[1..], gaps[1..])
  {
    var w, g := words[0], gaps[0];
    var rest := Spaced(words[1..], gaps[1..]);
    var j := i + |w|;
    var k := j + |g|;
    SpacedHead(words[1..], gaps[1..]);
    TripleIndex(t[i..], w, g, rest);
    forall m | i + 1 <= m < j ensures IsSmall(a, t[m]) {
      assert t[m] == t[i..][m - i];
    }
    forall m | j <= m < k ensures IsSpace(t[m]) {
      assert t[m] == t[i..][m - i];
    }
    assert t[i] == t[i..][0];
    assert t[k] == t[i..][k - i];
    assert t[k..] == t[i..][k - i..];
  }

  lemma SpacedEnd(words: seq<string>, gaps: seq<string>)
    requires |words| >= 1 && |gaps| == |words| - 1 && |words[|words| - 1]| >= 1
    ensures |Spaced(words, gaps)| >= 1
    ensures Spaced(words, gaps)[|Spaced(words, gaps)| - 1] == words[|words| - 1][|words[|words| - 1]| - 1]
  {
    if |words| > 1 {
      SpacedEnd(words[1..], gaps[1..]);
    }
  }

  lemma SpacedHead(words: seq<string>, gaps: seq<string>)
    requires |words| >= 1 && |gaps| == |words| - 1 && |words[0]| >= 1
    ensures |Spaced(words, gaps)| >= 1 && Spaced(words, gaps)[0] == words[0][0]
  {
  }

  lemma TripleIndex(s: string, w: string, g: string, rest: string)
    requires s == w + g + rest
    ensures forall m | 0 <= m < |w| :: s[m] == w[m]
    ensures forall m | 0 <= m < |g| :: s[|w| + m] == g[m]
    ensures s[|w| + |g|..] == rest
    ensures |rest| > 0 ==> s[|w| + |g|] == rest[0]
  {
  }

  // ---------------------------------------------------------------- which names are a person's

  /** Two words, or three Cyrillic ones, separated by whitespace, read as a private person's name. */
  lemma SpacedWordsArePersonName(a: Alphabet, words: seq<string>, gaps: seq<string>)
    requires |words| == 2 || (a == Cyrillic && |words| == 3)
    requires |gaps| == |words| - 1
    requires forall k | 0 <= k < |words| :: Word(a, words[k])
    requires forall k | 0 <= k < |gaps| :: Gap(gaps[k])
    ensures IsPersonName(Spaced(words, gaps))
  {
    var t := Spaced(words, gaps);
    assert t[0..] == t;
    WordsFromSpaced(t, 0, a, words, gaps);
  }

  /** The anchor `$` also matches before one final line break, so such a name still reads as a person's. */
  lemma LineBreakAfterName(name: string, a: Alphabet, most: nat)
    requires Fits(name, a, most)
    ensures MatchesName(name + "\n", a, most)
  {
    assert (name + "\n")[..|name|] == name;
  }

  /** Three Latin words are not a person's name, nor are four Cyrillic ones. */
  lemma TooManyWordsAreNoPersonName(a: Alphabet, words: seq<string>, gaps: seq<string>)
    requires (a == Latin && |words| == 3) || (a == Cyrillic && |words| == 4)
    requires |gaps| == |words| - 1
    requires forall k | 0 <= k < |words| :: Word(a, words[k])
    requires forall k | 0 <= k < |gaps| :: Gap(gaps[k])
    ensures !IsPersonName(Spaced(words, gaps))
  {
    var t := Spaced(words, gaps);
    assert t[0..] == t;
    WordsFromSpaced(t, 0, a, words, gaps);
    var other := if a == Latin then Cyrillic else Latin;
    SpacedHead(words, gaps);
    assert !IsCapital(other, t[0]);
    assert WordsFrom(t, 0, other) == None;
    SpacedEnd(words, gaps);
    NoMatchWithoutLineBreak(t, a, if a == Cyrillic then 3 else 2);
    NoMatchWithoutLineBreak(t, other, if other == Cyrillic then 3 else 2);
  }

  /** A name that does not end in a line break matches only as a whole. */
  lemma NoMatchWithoutLineBreak(t: string, a: Alphabet, most: nat)
    requires t != [] && t[|t| - 1] != '\n' && !Fits(t, a, most)
    ensures !MatchesName(t, a, most)
  {
  }

  // ---------------------------------------------------------------- and only those

  /** A name as the patterns describe it: spaced words of one alphabet, perhaps with one final line break. */
  predicate PersonShape(name: string, words: seq<string>, gaps: seq<string>) {
    |words| >= 1 && |gaps| == |words| - 1 &&
    (forall k | 0 <= k < |gaps| :: Gap(gaps[k])) &&
    (name == Spaced(words, gaps) || name == Spaced(words, gaps) + "\n") &&
    ((|words| == 2 && forall k | 0 <= k < |words| :: Word(Latin, words[k])) ||
     ((|words| == 2 || |words| == 3) && forall k | 0 <= k < |words| :: Word(Cyrillic, words[k])))
  }

  /** The owner check's person test accepts exactly the names of that shape. */
  lemma PersonNameIffShape(name: string)
    ensures IsPersonName(name) <==> exists words, gaps :: PersonShape(name, words, gaps)
  {
    if IsPersonName(name) {
      var words, gaps := PersonNameHasShape(name);
    }
    forall words, gaps | PersonShape(name, words, gaps) ensures IsPersonName(name) {
      ShapeIsPersonName(name, words, gaps);
    }
  }

  lemma ShapeIsPersonName(name: string, words: seq<string>, gaps: seq<string>)
    requires PersonShape(name, words, gaps)
    ensures IsPersonName(name)
  {
    var t := Spaced(words, gaps);
    var a := if |words| == 2 && forall k | 0 <= k < |words| :: Word(Latin, words[k]) then Latin else Cyrillic;
    var most := if a == Latin then 2 else 3;
    assert t[0..] == t;
    WordsFromSpaced(t, 0, a, words, gaps);
    assert Fits(t, a, most);
    if name != t {
      LineBreakAfterName(t, a, most);
    }
  }

  lemma PersonNameHasShape(name: string) returns (words: seq<string>, gaps: seq<string>)
    requires IsPersonName(name)
    ensures PersonShape(name, words, gaps)
  {
    var a := if MatchesName(name, Cyrillic, 3) then Cyrillic else Latin;
    var most := if a == Cyrillic then 3 else 2;
    var t := if Fits(name, a, most) then name else name[..|name| - 1];
    assert name == t || name == t + "\n";
    words, gaps := SpacedFrom(t, 0, a);
    assert t[0..] == t;
  }

  /** What the recogniser accepts from `i` on is spaced words, as many as it counts. */
  lemma {:induction false} SpacedFrom(t: string, i: nat, a: Alphabet) returns (words: seq<string>, gaps: seq<string>)
    requires i <= |t| && WordsFrom(t, i, a).Some?
    ensures |words| == WordsFrom(t, i, a).value && |gaps| == |words| - 1
    ensures forall k | 0 <= k < |words| :: Word(a, words[k])
    ensures forall k | 0 <= k < |gaps| :: Gap(gaps[k])
    ensures t[i..] == Spaced(words, gaps)
    decreases |t| - i
  {
    WordsFromStep(t, i, a);
    var j := SmallEnd(t, i + 1, a);
    WordAt(t, i, j, a);
    if j == |t| {
      words, gaps := [t[i..j]], [];
      assert t[i..] == t[i..j];
    } else {
      var k := SpaceEnd(t, j);
      GapAt(t, j, k);
      var rest, restGaps := SpacedFrom(t, k, a);
      words, gaps := [t[i..j]] + rest, [t[j..k]] + restGaps;
      SpacedCons(a, t[i..j], t[j..k], rest, restGaps);
      Slices(t, i, j, k);
    }
  }



  lemma WordAt(t: string, i: nat, j: nat, a: Alphabet)
    requires i < |t| && IsCapital(a, t[i]) && i + 2 <= j <= |t|
    requires forall m | i + 1 <= m < j :: IsSmall(a, t[m])
    ensures Word(a, t[i..j])
  {
  }

  lemma GapAt(t: string, j: nat, k: nat)
    requires j < k <= |t| && forall m | j <= m < k :: IsSpace(t[m])
    ensures Gap(t[j..k])
  {
  }

  /** One more word and gap in front. */
  lemma SpacedCons(a: Alphabet, w: string, g: string, rest: seq<string>, restGaps: seq<string>)
    requires |rest| >= 1 && |restGaps| == |rest| - 1
    requires Word(a, w) && Gap(g)
    requires forall m | 0 <= m < |rest| :: Word(a, rest[m])
    requires forall m | 0 <= m < |restGaps| :: Gap(restGaps[m])
    ensures Spaced([w] + rest, [g] + restGaps) == w + g + Spaced(rest, restGaps)
    ensures forall m | 0 <= m < |rest| + 1 :: Word(a, ([w] + rest)[m])
    ensures forall m | 0 <= m < |restGaps| + 1 :: Gap(([g] + restGaps)[m])
  {
    assert ([w] + rest)[1..] == rest && ([g] + restGaps)[1..] == restGaps;
  }

  /** One step of the recogniser: a word, then either the end or a gap and the rest. */
  lemma WordsFromStep(t: string, i: nat, a: Alphabet)
    requires i <= |t| && WordsFrom(t, i, a).Some?
    ensures i < |t| && IsCapital(a, t[i]) && i + 2 <= SmallEnd(t, i + 1, a)
    ensures SmallEnd(t, i + 1, a) == |t| ==> WordsFrom(t, i, a) == Some(1)
    ensures SmallEnd(t, i + 1, a) < |t| ==>
      SmallEnd(t, i + 1, a) < SpaceEnd(t, SmallEnd(t, i + 1, a)) < |t| &&
      WordsFrom(t, SpaceEnd(t, SmallEnd(t, i + 1, a)), a).Some? &&
      WordsFrom(t, i, a).value == WordsFrom(t, SpaceEnd(t, SmallEnd(t, i + 1, a)), a).value + 1
  {
  }

  lemma Slices<T>(t: seq<T>, i: nat, j: nat, k: nat)
    requires i <= j <= k <= |t|
    ensures t[i..] == t[i..j] + t[j..k] + t[k..]
  {
  }
}
