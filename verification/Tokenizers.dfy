/**
 Two tokenizers that must agree: the words of an identifier, used for route ids, and the normal form
 of a log field key. Character classes are parameters: Unicode and ASCII are both `Lawful` and
 `Stable`, but only ASCII is also `Lowers`.
 */
module Tokenizers {
  import opened Text

  datatype Alphabet = Alphabet(
    letter: char -> bool,
    digit: char -> bool,
    upper: char -> bool,
    lower: char -> bool,
    toLower: char -> char)
  {
    predicate Alnum(c: char) {
      letter(c) || digit(c)
    }
  }

  /** Cased characters are letters, and neither is the underscore, not even in lower case. */
  ghost predicate Lawful(a: Alphabet) {
    && (forall c :: a.upper(c) || a.lower(c) ==> a.letter(c))
    && !a.Alnum('_')
    && forall c | a.Alnum(c) :: a.toLower(c) != '_'
  }

  /** Lower case is a letter or digit, not white space, and its own lower case; "field" is in lower case. */
  ghost predicate Stable(a: Alphabet) {
    && (forall c | a.Alnum(c) ::
          var l := a.toLower(c);
          a.Alnum(l) && a.toLower(l) == l && l !in WHITESPACE)
    && (forall i | 0 <= i < 5 :: var c := "field"[i]; a.Alnum(c) && !a.upper(c) && a.toLower(c) == c)
  }

  /** Every letter has a lower case that is not upper case, which Unicode's U+03D2, for one, has not. */
  ghost predicate Lowers(a: Alphabet) {
    forall c | a.Alnum(c) :: !a.upper(a.toLower(c))
  }

  const ASCII := Alphabet(
    c => 'a' <= c <= 'z' || 'A' <= c <= 'Z', c => '0' <= c <= '9', c => 'A' <= c <= 'Z', c => 'a' <= c <= 'z', LowerChar)

  lemma AsciiLowers()
    ensures Lawful(ASCII) && Stable(ASCII) && Lowers(ASCII)
  {
    forall c | ASCII.Alnum(c) ensures LowerChar(c) !in WHITESPACE {
    }
  }

  // ---------------------------------------------------------------- words

  /** A hump of camel case: an upper-case letter after a lower-case one or a digit, or the last of several. */
  predicate Hump(a: Alphabet, s: string, i: nat)
    requires 0 < i < |s|
  {
    a.upper(s[i]) &&
    (a.lower(s[i - 1]) || a.digit(s[i - 1]) || (a.upper(s[i - 1]) && i + 1 < |s| && a.lower(s[i + 1])))
  }

  predicate StartsWord(a: Alphabet, s: string, i: nat)
    requires i < |s|
  {
    a.Alnum(s[i]) && (i == 0 || !a.Alnum(s[i - 1]) || Hump(a, s, i))
  }

  /** The words begun in the first n characters, as far as those characters go. */
  function Words(a: Alphabet, s: string, n: nat): (words: seq<string>)
    requires n <= |s|
    ensures n > 0 && a.Alnum(s[n - 1]) ==> words != []
    ensures forall i | 0 <= i < |words| :: words[i] != ""
  {
    if n == 0 then []
    else
      var init := Words(a, s, n - 1);
      var c := s[n - 1];
      if !a.Alnum(c) then init
      else if StartsWord(a, s, n - 1) then init + [[a.toLower(c)]]
      else init[..|init| - 1] + [init[|init| - 1] + [a.toLower(c)]]
  }

  /** The words of an identifier. */
  function IdentifierWordsOf(a: Alphabet, value: string): seq<string> {
    Words(a, TrimSpace(value), |TrimSpace(value)|)
  }

  function Join(words: seq<string>): string {
    if words == [] then ""
    else if |words| == 1 then words[0]
    else Join(words[..|words| - 1]) + "_" + words[|words| - 1]
  }

  /** The normal form of a field key: its words joined by underscores, or "field" if it has none. */
  function FieldKey(a: Alphabet, key: string): string {
    var words := IdentifierWordsOf(a, key);
    if words == [] then "field" else Join(words)
  }

  lemma JoinLast(init: seq<string>, word: string)
    ensures Join(init + [word]) == if init == [] then word else Join(init) + "_" + word
  {
    assert (init + [word])[..|init|] == init;
  }

  lemma JoinOne(word: string)
    ensures Join([word]) == word
  {
  }

  lemma {:induction false} JoinEmpty(words: seq<string>)
    requires forall i | 0 <= i < |words| :: words[i] != ""
    ensures Join(words) == "" <==> words == []
  {
    if words != [] {
      JoinLast(words[..|words| - 1], words[|words| - 1]);
      assert words == words[..|words| - 1] + [words[|words| - 1]];
    }
  }

  /** How the words grow by one character. */
  lemma WordsStep(a: Alphabet, s: string, n: nat)
    requires n < |s|
    ensures
      var init := Words(a, s, n);
      && (!a.Alnum(s[n]) ==> Words(a, s, n + 1) == init)
      && (a.Alnum(s[n]) && StartsWord(a, s, n) ==> Words(a, s, n + 1) == init + [[a.toLower(s[n])]])
      && (a.Alnum(s[n]) && !StartsWord(a, s, n) ==>
            init != [] && Words(a, s, n + 1) == init[..|init| - 1] + [init[|init| - 1] + [a.toLower(s[n])]])
  {
  }

  // ---------------------------------------------------------------- the words hold the characters

  function Concat(words: seq<string>): string {
    if words == [] then "" else Concat(words[..|words| - 1]) + words[|words| - 1]
  }

  /** The letters and digits of the first n characters, in lower case. */
  function Lowered(a: Alphabet, s: string, n: nat): string
    requires n <= |s|
  {
    if n == 0 then ""
    else if a.Alnum(s[n - 1]) then Lowered(a, s, n - 1) + [a.toLower(s[n - 1])]
    else Lowered(a, s, n - 1)
  }

  lemma ConcatLast(init: seq<string>, word: string)
    ensures Concat(init + [word]) == Concat(init) + word
  {
    assert (init + [word])[..|init|] == init;
  }

  /** Splitting loses no letter or digit and changes nothing but their case. */
  lemma {:induction false} WordsKeepText(a: Alphabet, s: string, n: nat)
    requires n <= |s|
    ensures Concat(Words(a, s, n)) == Lowered(a, s, n)
  {
    if n > 0 {
      WordsKeepText(a, s, n - 1);
      var init := Words(a, s, n - 1);
      var c := s[n - 1];
      if a.Alnum(c) {
        var l := [a.toLower(c)];
        if StartsWord(a, s, n - 1) {
          ConcatLast(init, l);
        } else {
          var k := |init| - 1;
          assert init == init[..k] + [init[k]];
          ConcatLast(init[..k], init[k]);
          ConcatLast(init[..k], init[k] + l);
        }
      }
    }
  }

  // ---------------------------------------------------------------- where camel case is cut

  /** A plain capital, a plain small letter. */
  predicate Capital(a: Alphabet, c: char) {
    a.upper(c) && !a.lower(c) && !a.digit(c) && c !in WHITESPACE
  }

  predicate Small(a: Alphabet, c: char) {
    a.lower(c) && !a.upper(c) && c !in WHITESPACE
  }

  predicate AllUpper(a: Alphabet, s: string) {
    forall i | 0 <= i < |s| :: Capital(a, s[i])
  }

  predicate AllLower(a: Alphabet, s: string) {
    forall i | 0 <= i < |s| :: Small(a, s[i])
  }

  function LowerOf(a: Alphabet, s: string): string {
    seq(|s|, i requires 0 <= i < |s| => a.toLower(s[i]))
  }

  /** Where a word begins and none begins behind it, the characters are read as one word. */
  lemma {:induction false} RunReads(a: Alphabet, s: string, from: nat, n: nat)
    requires from + n <= |s| && n > 0 && StartsWord(a, s, from)
    requires forall i | from < i < from + n :: a.Alnum(s[i]) && !StartsWord(a, s, i)
    ensures Words(a, s, from + n) == Words(a, s, from) + [LowerOf(a, s[from..from + n])]
  {
    hide Words, StartsWord;
    WordsStep(a, s, from + n - 1);
    var l := [a.toLower(s[from + n - 1])];
    if n == 1 {
      assert a.Alnum(s[from]) by { BeginsAlnum(a, s, from); }
      assert LowerOf(a, s[from..from + 1]) == l;
    } else {
      RunReads(a, s, from, n - 1);
      var before := Words(a, s, from);
      assert (before + [LowerOf(a, s[from..from + n - 1])])[..|before|] == before;
      assert LowerOf(a, s[from..from + n]) == LowerOf(a, s[from..from + n - 1]) + l;
    }
  }

  lemma BeginsAlnum(a: Alphabet, s: string, i: nat)
    requires i < |s| && StartsWord(a, s, i)
    ensures a.Alnum(s[i])
  {
  }

  lemma VisibleStays(s: string)
    requires forall i | 0 <= i < |s| :: s[i] !in WHITESPACE
    ensures TrimSpace(s) == s
  {
    TrimFixes(s, WHITESPACE);
  }

  /** The only word that begins in s[lo..hi] begins at lo. */
  predicate OneStart(a: Alphabet, s: string, lo: nat, hi: nat) {
    lo < hi <= |s| && StartsWord(a, s, lo) && forall i | lo < i < hi :: a.Alnum(s[i]) && !StartsWord(a, s, i)
  }

  /** Two words with nothing but separators between them. */
  lemma TwoWords(a: Alphabet, s: string, n: nat, m: nat)
    requires n <= m && OneStart(a, s, 0, n) && OneStart(a, s, m, |s|)
    requires forall i | n <= i < m :: !a.Alnum(s[i])
    ensures Words(a, s, |s|) == [LowerOf(a, s[..n]), LowerOf(a, s[m..])]
  {
    hide Words, StartsWord, LowerOf;
    NoWords(a, s);
    RunReads(a, s, 0, n);
    GapReads(a, s, n, m - n);
    RunReads(a, s, m, |s| - m);
    assert s[0..n] == s[..n] && s[m..m + (|s| - m)] == s[m..];
    var x, y := LowerOf(a, s[..n]), LowerOf(a, s[m..]);
    assert [] + [x] == [x] && [x] + [y] == [x, y];
  }

  lemma AcronymStarts(a: Alphabet, s: string, n: nat)
    requires Lawful(a) && 0 < n < |s| - 1
    requires (forall i | 0 <= i <= n :: Capital(a, s[i])) && forall i | n < i < |s| :: Small(a, s[i])
    ensures OneStart(a, s, 0, n) && OneStart(a, s, n, |s|)
  {
    hide WHITESPACE;
    assert Capital(a, s[0]) && Capital(a, s[n - 1]) && Capital(a, s[n]) && Small(a, s[n + 1]);
    forall i | 0 < i < n ensures a.Alnum(s[i]) && !StartsWord(a, s, i) {
      assert Capital(a, s[i - 1]) && Capital(a, s[i]) && Capital(a, s[i + 1]);
    }
    forall i | n < i < |s| ensures a.Alnum(s[i]) && !StartsWord(a, s, i) {
      assert Small(a, s[i]);
      assert i - 1 > n ==> Small(a, s[i - 1]);
    }
  }

  lemma VisibleLetters(a: Alphabet, s: string)
    requires forall i | 0 <= i < |s| :: Capital(a, s[i]) || Small(a, s[i])
    ensures TrimSpace(s) == s
  {
    VisibleStays(s);
  }

  /**
   Capitals in a row are one word, but the last of them begins the next one if lower case follows:
   "HTTPServer" is "http" and "server".
   */
  lemma AcronymSplits(a: Alphabet, acronym: string, initial: char, rest: string)
    requires Lawful(a) && acronym != "" && rest != ""
    requires AllUpper(a, acronym) && Capital(a, initial) && AllLower(a, rest)
    ensures IdentifierWordsOf(a, acronym + [initial] + rest) == [LowerOf(a, acronym), LowerOf(a, [initial] + rest)]
  {
    hide Words, TrimSpace, Capital, Small, OneStart, Lawful, LowerOf;
    var s, n := acronym + [initial] + rest, |acronym|;
    assert forall i | 0 <= i < n :: s[i] == acronym[i];
    assert s[n] == initial && forall i | n < i < |s| :: s[i] == rest[i - n - 1];
    VisibleLetters(a, s);
    AcronymStarts(a, s, n);
    TwoWords(a, s, n, n);
    assert s[..n] == acronym && s[n..] == [initial] + rest;
  }

  lemma HumpStarts(a: Alphabet, s: string, n: nat)
    requires Lawful(a) && 0 < n < |s|
    requires (forall i | 0 <= i < n :: Small(a, s[i])) && forall i | n <= i < |s| :: Capital(a, s[i])
    ensures OneStart(a, s, 0, n) && OneStart(a, s, n, |s|)
  {
    hide WHITESPACE;
    assert Small(a, s[0]) && Small(a, s[n - 1]) && Capital(a, s[n]);
    forall i | 0 < i < n ensures a.Alnum(s[i]) && !StartsWord(a, s, i) {
      assert Small(a, s[i - 1]) && Small(a, s[i]);
    }
    forall i | n < i < |s| ensures a.Alnum(s[i]) && !StartsWord(a, s, i) {
      assert Capital(a, s[i - 1]) && Capital(a, s[i]);
      assert i + 1 < |s| ==> Capital(a, s[i + 1]);
    }
  }

  /** A capital behind lower case begins a word, and all capitals behind it belong to it: "userID". */
  lemma HumpSplits(a: Alphabet, lower: string, capitals: string)
    requires Lawful(a) && lower != "" && capitals != "" && AllLower(a, lower) && AllUpper(a, capitals)
    ensures IdentifierWordsOf(a, lower + capitals) == [LowerOf(a, lower), LowerOf(a, capitals)]
  {
    hide Words, TrimSpace, Capital, Small, OneStart, Lawful, LowerOf;
    var s, n := lower + capitals, |lower|;
    assert forall i | 0 <= i < n :: s[i] == lower[i];
    assert forall i | n <= i < |s| :: s[i] == capitals[i - n];
    VisibleLetters(a, s);
    HumpStarts(a, s, n);
    TwoWords(a, s, n, n);
    assert s[..n] == lower && s[n..] == capitals;
  }

  /** A digit belongs to the word in front of it, and a capital behind it begins a word: "v2Api". */
  lemma DigitSplits(a: Alphabet, s: string, n: nat)
    requires Lawful(a) && 1 < n < |s|
    requires forall i | 0 <= i < n - 1 || n < i < |s| :: Small(a, s[i])
    requires a.digit(s[n - 1]) && !a.upper(s[n - 1]) && Capital(a, s[n])
    ensures Words(a, s, |s|) == [LowerOf(a, s[..n]), LowerOf(a, s[n..])]
  {
    hide WHITESPACE, Words;
    assert Small(a, s[0]);
    forall i | 0 < i < n ensures a.Alnum(s[i]) && !StartsWord(a, s, i) {
      assert Small(a, s[i - 1]);
      assert i < n - 1 ==> Small(a, s[i]);
    }
    forall i | n < i < |s| ensures a.Alnum(s[i]) && !StartsWord(a, s, i) {
      assert Small(a, s[i]);
      assert i - 1 > n ==> Small(a, s[i - 1]);
    }
    TwoWords(a, s, n, n);
  }

  /** Anything that is neither letter nor digit separates words, however often it occurs. */
  lemma SeparatorSplits(a: Alphabet, s: string, n: nat, m: nat)
    requires Lawful(a) && 0 < n < m < |s|
    requires forall i | 0 <= i < n || m <= i < |s| :: Small(a, s[i])
    requires forall i | n <= i < m :: !a.Alnum(s[i])
    ensures Words(a, s, |s|) == [LowerOf(a, s[..n]), LowerOf(a, s[m..])]
  {
    hide WHITESPACE, Words;
    assert Small(a, s[0]) && Small(a, s[m]) && !a.Alnum(s[m - 1]);
    forall i | 0 < i < n || m < i < |s| ensures a.Alnum(s[i]) && !StartsWord(a, s, i) {
      assert Small(a, s[i - 1]) && Small(a, s[i]);
    }
    TwoWords(a, s, n, m);
  }

  lemma {:induction false} GapReads(a: Alphabet, s: string, from: nat, n: nat)
    requires from + n <= |s| && forall i | from <= i < from + n :: !a.Alnum(s[i])
    ensures Words(a, s, from + n) == Words(a, s, from)
  {
    if n > 0 {
      GapReads(a, s, from, n - 1);
      WordsStep(a, s, from + n - 1);
    }
  }

  // ---------------------------------------------------------------- identifierWords

  /** identifierWords: it collects a word and flushes it at separators and humps. */
  method IdentifierWords(a: Alphabet, value: string) returns (words: seq<string>)
    requires Lawful(a)
    ensures words == IdentifierWordsOf(a, value)
  {
    hide TrimSpace, Words, Hump;
    var runes := TrimSpace(value);
    NoWords(a, runes);
    words := [];
    var current: string := "";
    var i := 0;
    while i < |runes|
      invariant 0 <= i <= |runes|
      invariant Words(a, runes, i) == if current == "" then words else words + [current]
      invariant current != "" <==> i > 0 && a.Alnum(runes[i - 1])
    {
      var r := runes[i];
      WordsStep(a, runes, i);
      assert (words + [current])[..|words|] == words;
      if !a.Alnum(r) {
        if current != "" {
          words := words + [current];
        }
        current := "";
      } else {
        if current != "" && Hump(a, runes, i) {
          words := words + [current];
          current := "";
        }
        assert current == "" ==> current + [a.toLower(r)] == [a.toLower(r)];
        current := current + [a.toLower(r)];
      }
      i := i + 1;
    }
    if current != "" {
      words := words + [current];
    }
  }

  // ---------------------------------------------------------------- normalizeFieldKey

  /** What the string builder holds after n characters. */
  function Built(a: Alphabet, s: string, n: nat): string
    requires n <= |s|
  {
    Join(Words(a, s, n)) + if EndsOpen(a, s, n) then "_" else ""
  }

  /** The last thing written was an underscore for a separator. */
  predicate EndsOpen(a: Alphabet, s: string, n: nat)
    requires n <= |s|
  {
    n > 0 && !a.Alnum(s[n - 1]) && Words(a, s, n) != []
  }

  lemma BuiltStep(a: Alphabet, s: string, n: nat)
    requires Lawful(a) && n < |s|
    ensures
      var c := s[n];
      var separates := n > 0 && Hump(a, s, n) && !EndsOpen(a, s, n);
      Built(a, s, n + 1)
      == if a.Alnum(c) then Built(a, s, n) + (if separates then "_" else "") + [a.toLower(c)]
         else if Built(a, s, n) != "" && !EndsOpen(a, s, n) then Built(a, s, n) + "_"
         else Built(a, s, n)
  {
    hide Words, Join, Hump;
    var init := Words(a, s, n);
    var l := [a.toLower(s[n])];
    WordsStep(a, s, n);
    NoWords(a, s);
    JoinEmpty(init);
    Unpadded(Join(init), l);
    Unpadded(Join(Words(a, s, n + 1)), l);
    if a.Alnum(s[n]) {
      HumpInWord(a, s, n);
      if StartsWord(a, s, n) {
        JoinLast(init, l);
      } else {
        var k := |init| - 1;
        assert init == init[..k] + [init[k]];
        JoinGrows(init[..k], init[k], l);
      }
    }
  }

  lemma Unpadded(x: string, l: string)
    ensures x + "" == x && (x + "_") + "" == x + "_" && "" + l == l
  {
  }

  lemma JoinGrows(init: seq<string>, word: string, l: string)
    ensures Join(init + [word + l]) == Join(init + [word]) + l
  {
    JoinLast(init, word);
    JoinLast(init, word + l);
  }

  /** A hump is never the first letter behind a separator. */
  lemma HumpInWord(a: Alphabet, s: string, n: nat)
    requires Lawful(a) && 0 <= n < |s|
    ensures n > 0 && Hump(a, s, n) ==> a.Alnum(s[n - 1])
  {
  }

  ghost predicate NoUnderscoreAtEnds(words: seq<string>) {
    forall i | 0 <= i < |words| :: words[i] != "" && words[i][0] != '_' && words[i][|words[i]| - 1] != '_'
  }

  lemma {:induction false} WordsEnds(a: Alphabet, s: string, n: nat)
    requires Lawful(a) && n <= |s|
    ensures NoUnderscoreAtEnds(Words(a, s, n))
  {
    if n > 0 {
      WordsEnds(a, s, n - 1);
    }
  }

  const UNDERSCORE: set<char> := {'_'}

  lemma {:induction false} JoinEnds(words: seq<string>)
    requires words != [] && NoUnderscoreAtEnds(words)
    ensures Join(words) != "" && Trimmed(Join(words), UNDERSCORE)
  {
    if |words| > 1 {
      JoinEnds(words[..|words| - 1]);
    }
  }

  /** Trimming the builder's content takes off the open underscore and nothing else. */
  lemma {:induction false} BuiltTrims(a: Alphabet, s: string)
    requires Lawful(a)
    ensures Trim(Built(a, s, |s|), UNDERSCORE) == Join(Words(a, s, |s|))
  {
    var words := Words(a, s, |s|);
    WordsEnds(a, s, |s|);
    if words != [] {
      JoinEnds(words);
      TrimFixes(Join(words), UNDERSCORE);
      TrimAppended(Join(words), '_', UNDERSCORE);
      assert Join(words) + "" == Join(words);
    } else {
      assert Built(a, s, |s|) == "";
    }
  }

  /** normalizeFieldKey: it agrees with the words of the identifier, joined by underscores. */
  method NormalizeFieldKey(a: Alphabet, key: string) returns (normal: string)
    requires Lawful(a)
    ensures normal == FieldKey(a, key)
  {
    hide TrimSpace, Trim, Words, Built, EndsOpen, Hump;
    var runes := TrimSpace(key);
    NoWords(a, runes);
    if runes == "" {
      return "field";
    }
    var b: string := "";
    var previousUnderscore := false;
    var i := 0;
    while i < |runes|
      invariant 0 <= i <= |runes|
      invariant b == Built(a, runes, i)
      invariant previousUnderscore == EndsOpen(a, runes, i)
    {
      var r := runes[i];
      BuiltStep(a, runes, i);
      OpenStep(a, runes, i);
      if a.Alnum(r) {
        if i > 0 && Hump(a, runes, i) && !previousUnderscore {
          b := b + "_";
        }
        b := b + [a.toLower(r)];
        previousUnderscore := false;
      } else if b != "" && !previousUnderscore {
        b := b + "_";
        previousUnderscore := true;
      }
      i := i + 1;
    }
    var out := Trim(b, UNDERSCORE);
    BuiltTrims(a, runes);
    WordsNonEmpty(a, runes);
    JoinEmpty(Words(a, runes, |runes|));
    normal := if out == "" then "field" else out;
  }

  lemma WordsNonEmpty(a: Alphabet, s: string)
    ensures forall i | 0 <= i < |Words(a, s, |s|)| :: Words(a, s, |s|)[i] != ""
  {
  }

  lemma NoWords(a: Alphabet, s: string)
    ensures Words(a, s, 0) == []
    ensures Built(a, s, 0) == "" && !EndsOpen(a, s, 0)
  {
  }

  lemma OpenStep(a: Alphabet, s: string, n: nat)
    requires n < |s|
    ensures EndsOpen(a, s, n + 1)
       <==> !a.Alnum(s[n]) && (EndsOpen(a, s, n) || Built(a, s, n) != "")
  {
    JoinEmpty(Words(a, s, n));
  }

  // ---------------------------------------------------------------- which normal forms are normal

  /** A word as both tokenizers write it. */
  predicate Settled(a: Alphabet, word: string) {
    word != "" && forall i | 0 <= i < |word| ::
      a.Alnum(word[i]) && a.toLower(word[i]) == word[i] && word[i] !in WHITESPACE
  }

  predicate AllSettled(a: Alphabet, words: seq<string>) {
    forall i | 0 <= i < |words| :: Settled(a, words[i])
  }

  lemma {:induction false} WordsSettle(a: Alphabet, s: string, n: nat)
    requires Stable(a) && n <= |s|
    ensures AllSettled(a, Words(a, s, n))
  {
    if n > 0 {
      hide WHITESPACE;
      WordsSettle(a, s, n - 1);
      var init := Words(a, s, n - 1);
      if a.Alnum(s[n - 1]) {
        assert Settled(a, [a.toLower(s[n - 1])]);
        if init != [] {
          assert Settled(a, init[|init| - 1] + [a.toLower(s[n - 1])]);
        }
      }
    }
  }

  /** No hump inside the word: reading it again would not split it. */
  predicate Humpless(a: Alphabet, word: string) {
    forall i | 0 < i < |word| :: !Hump(a, word, i)
  }

  predicate AllHumpless(a: Alphabet, words: seq<string>) {
    forall i | 0 <= i < |words| :: Humpless(a, words[i])
  }

  /** How many humps there are among the first n characters of a word. */
  function HumpsIn(a: Alphabet, word: string, n: nat): nat
    requires n <= |word|
  {
    if n < 2 then 0 else HumpsIn(a, word, n - 1) + if Hump(a, word, n - 1) then 1 else 0
  }

  function HumpsOf(a: Alphabet, words: seq<string>): nat {
    if words == [] then 0
    else
      var n := |words| - 1;
      HumpsOf(a, words[..n]) + HumpsIn(a, words[n], |words[n]|)
  }

  lemma {:induction false} NoHumpsIn(a: Alphabet, word: string, n: nat)
    requires n <= |word|
    ensures HumpsIn(a, word, n) == 0 <==> forall i | 0 < i < n :: !Hump(a, word, i)
  {
    hide Hump;
    if n >= 2 {
      NoHumpsIn(a, word, n - 1);
    }
  }

  lemma {:induction false} NoHumpsOf(a: Alphabet, words: seq<string>)
    ensures HumpsOf(a, words) == 0 <==> AllHumpless(a, words)
  {
    hide Hump, HumpsIn;
    if words != [] {
      var n := |words| - 1;
      NoHumpsOf(a, words[..n]);
      NoHumpsIn(a, words[n], |words[n]|);
    }
  }

  /** What comes behind does not change the words, unless it begins with a lower-case letter. */
  lemma {:induction false} WordsOfPrefix(a: Alphabet, s: string, t: string, n: nat)
    requires n <= |s| && (t != "" ==> !a.lower(t[0]))
    ensures Words(a, s + t, n) == Words(a, s, n)
  {
    if n > 0 {
      WordsOfPrefix(a, s, t, n - 1);
      assert (s + t)[n - 1] == s[n - 1];
      if n > 1 {
        assert (s + t)[n - 2] == s[n - 2];
      }
      assert n < |s| ==> (s + t)[n] == s[n];
      assert n == |s| && t != "" ==> (s + t)[n] == t[0];
    }
  }

  /** `word` stands in `s` at `from`, behind a separator or the start, and at the end of `s`. */
  predicate EndsWith(a: Alphabet, s: string, from: nat, word: string) {
    && |s| == from + |word|
    && (forall i | 0 <= i < |word| :: s[from + i] == word[i])
    && (from == 0 || !a.Alnum(s[from - 1]))
  }

  /** Inside such a word the only beginnings are its own humps. */
  lemma StartsInWord(a: Alphabet, s: string, from: nat, word: string, i: nat)
    requires Settled(a, word) && EndsWith(a, s, from, word) && i < |word|
    ensures a.Alnum(s[from + i]) && a.toLower(s[from + i]) == s[from + i]
    ensures StartsWord(a, s, from + i) <==> i == 0 || Hump(a, word, i)
  {
    assert s[from + i] == word[i];
    if i > 0 {
      assert s[from + i - 1] == s[from + (i - 1)] == word[i - 1];
      assert i + 1 < |word| ==> s[from + i + 1] == s[from + (i + 1)] == word[i + 1];
    }
  }

  /** Such a word is read as one word more than it has humps. */
  lemma {:induction false} WordCounts(a: Alphabet, s: string, from: nat, word: string, n: nat)
    requires Settled(a, word) && EndsWith(a, s, from, word) && 0 < n <= |word|
    ensures |Words(a, s, from + n)| == |Words(a, s, from)| + 1 + HumpsIn(a, word, n)
  {
    hide Words, Hump, WHITESPACE, Settled, EndsWith, StartsWord;
    assert from + n <= |s| by { EndsLater(a, s, from, word); }
    WordsStep(a, s, from + n - 1);
    StartsInWord(a, s, from, word, n - 1);
    if n > 1 {
      WordCounts(a, s, from, word, n - 1);
    }
  }

  lemma EndsLater(a: Alphabet, s: string, from: nat, word: string)
    requires EndsWith(a, s, from, word)
    ensures |s| == from + |word|
  {
  }

  /** Without humps it is read back letter by letter. */
  lemma {:induction false} WordReads(a: Alphabet, s: string, from: nat, word: string, n: nat)
    requires Settled(a, word) && Humpless(a, word) && EndsWith(a, s, from, word) && 0 < n <= |word|
    ensures Words(a, s, from + n) == Words(a, s, from) + [word[..n]]
  {
    hide Words, Hump, WHITESPACE, StartsWord;
    var c := s[from + (n - 1)];
    assert c == word[n - 1];
    WordsStep(a, s, from + n - 1);
    StartsInWord(a, s, from, word, n - 1);
    if n == 1 {
      assert word[..1] == [c];
    } else {
      WordReads(a, s, from, word, n - 1);
      assert word[..n] == word[..n - 1] + [c];
      assert (Words(a, s, from) + [word[..n - 1]])[..|Words(a, s, from)|] == Words(a, s, from);
    }
  }

  lemma {:induction false} JoinVisible(a: Alphabet, words: seq<string>)
    requires AllSettled(a, words)
    ensures forall i | 0 <= i < |Join(words)| :: Join(words)[i] == '_' || Join(words)[i] !in WHITESPACE
  {
    hide WHITESPACE;
    if |words| > 1 {
      JoinVisible(a, words[..|words| - 1]);
      assert Settled(a, words[|words| - 1]);
    } else if |words| == 1 {
      assert Settled(a, words[0]);
    }
  }

  /** The words in front of a separator are read as before, and a word stands behind it. */
  lemma NextWord(a: Alphabet, lead: string, word: string)
    requires Lawful(a)
    ensures
      var s := lead + "_" + word;
      && Words(a, s, |lead| + 1) == Words(a, lead, |lead|)
      && EndsWith(a, s, |lead| + 1, word)
  {
    hide Words;
    var s := lead + "_" + word;
    assert s == lead + ("_" + word) && s[|lead|] == '_';
    WordsOfPrefix(a, lead, "_" + word, |lead|);
    WordsStep(a, s, |lead|);
  }

  lemma WordNotEmpty(a: Alphabet, word: string)
    requires Settled(a, word)
    ensures |word| > 0 && word[..|word|] == word && EndsWith(a, word, 0, word)
  {
  }

  /** Joined words are read as one word each, and one more for each hump. */
  lemma {:induction false} JoinCounts(a: Alphabet, words: seq<string>)
    requires Lawful(a) && AllSettled(a, words)
    ensures |Words(a, Join(words), |Join(words)|)| == |words| + HumpsOf(a, words)
  {
    hide WHITESPACE, Words, Settled, Join, EndsWith, HumpsIn, Lawful;
    if words == [] {
      assert Join(words) == "" by { JoinNone(); }
      NoWords(a, "");
    } else {
      var k := |words| - 1;
      var init, word := words[..k], words[k];
      JoinCounts(a, init);
      assert words == init + [word] && Settled(a, word);
      JoinLast(init, word);
      WordNotEmpty(a, word);
      if init == [] {
        NoWords(a, word);
        WordCounts(a, word, 0, word, |word|);
      } else {
        NextWord(a, Join(init), word);
        EndsLater(a, Join(words), |Join(init)| + 1, word);
        WordCounts(a, Join(words), |Join(init)| + 1, word, |word|);
      }
    }
  }

  /** Joined words without humps are tokenized into the same words. */
  lemma {:induction false} JoinReads(a: Alphabet, words: seq<string>)
    requires Lawful(a) && AllSettled(a, words) && AllHumpless(a, words)
    ensures Words(a, Join(words), |Join(words)|) == words
  {
    hide WHITESPACE, Words, Settled, Join, EndsWith, Humpless, Lawful;
    if words == [] {
      assert Join(words) == "" by { JoinNone(); }
      NoWords(a, "");
    } else {
      var k := |words| - 1;
      var init, word := words[..k], words[k];
      JoinReads(a, init);
      assert words == init + [word] && Settled(a, word) && Humpless(a, word);
      JoinLast(init, word);
      WordNotEmpty(a, word);
      if init == [] {
        NoWords(a, word);
        WordReads(a, word, 0, word, |word|);
      } else {
        NextWord(a, Join(init), word);
        EndsLater(a, Join(words), |Join(init)| + 1, word);
        WordReads(a, Join(words), |Join(init)| + 1, word, |word|);
      }
    }
  }

  /** The underscores of a joined text are its separators. */
  lemma {:induction false} JoinBars(a: Alphabet, words: seq<string>)
    requires Lawful(a) && AllSettled(a, words) && words != []
    ensures multiset(Join(words))['_'] == |words| - 1
  {
    hide WHITESPACE, Settled, Lawful;
    var k := |words| - 1;
    var init, word := words[..k], words[k];
    assert words == init + [word] && Settled(a, word);
    NoBar(a, word);
    if init != [] {
      JoinBars(a, init);
      assert Join(words) == Join(init) + "_" + word;
    }
  }

  lemma NoBar(a: Alphabet, word: string)
    requires Lawful(a) && Settled(a, word)
    ensures multiset(word)['_'] == 0
  {
    hide WHITESPACE;
    assert '_' !in word;
  }

  lemma JoinNone()
    ensures Join([]) == ""
  {
  }

  lemma FieldSettled(a: Alphabet)
    requires Stable(a)
    ensures AllSettled(a, ["field"]) && AllHumpless(a, ["field"])
  {
    assert 'f' !in WHITESPACE && 'i' !in WHITESPACE && 'e' !in WHITESPACE && 'l' !in WHITESPACE && 'd' !in WHITESPACE;
    assert forall i | 0 <= i < 5 :: "field"[i] in {'f', 'i', 'e', 'l', 'd'};
  }

  lemma UnderscoreVisible()
    ensures '_' !in WHITESPACE
  {
  }

  lemma TrimsNothing(s: string)
    requires Trimmed(s, WHITESPACE)
    ensures TrimSpace(s) == s
  {
    TrimFixes(s, WHITESPACE);
  }

  /** The words of joined settled words are those of the text as it stands. */
  lemma JoinTrimmed(a: Alphabet, words: seq<string>)
    requires AllSettled(a, words)
    ensures IdentifierWordsOf(a, Join(words)) == Words(a, Join(words), |Join(words)|)
  {
    hide Words, WHITESPACE, TrimSpace;
    JoinVisible(a, words);
    UnderscoreVisible();
    TrimsNothing(Join(words));
  }

  lemma WordsOfSettle(a: Alphabet, key: string)
    requires Stable(a)
    ensures AllSettled(a, IdentifierWordsOf(a, key))
  {
    hide Words, TrimSpace;
    WordsSettle(a, TrimSpace(key), |TrimSpace(key)|);
  }

  /**
   The words of a key survive normalization, so that the route id built from either is the same,
   exactly when none of them, in lower case, has a hump inside.
   */
  lemma NormalKeepsWords(a: Alphabet, key: string)
    requires Lawful(a) && Stable(a) && IdentifierWordsOf(a, key) != []
    ensures IdentifierWordsOf(a, FieldKey(a, key)) == IdentifierWordsOf(a, key)
       <==> AllHumpless(a, IdentifierWordsOf(a, key))
  {
    hide Words, Stable, Humpless, HumpsOf, Settled, Join;
    var words := IdentifierWordsOf(a, key);
    WordsOfSettle(a, key);
    JoinTrimmed(a, words);
    JoinCounts(a, words);
    NoHumpsOf(a, words);
    if AllHumpless(a, words) {
      JoinReads(a, words);
    }
  }

  /** Normalizing a field key again changes nothing exactly when no lower-cased word has a hump inside. */
  lemma FieldKeyIdempotent(a: Alphabet, key: string)
    requires Lawful(a) && Stable(a)
    ensures FieldKey(a, FieldKey(a, key)) == FieldKey(a, key) <==> AllHumpless(a, IdentifierWordsOf(a, key))
  {
    hide Words, Stable, Humpless, HumpsOf, Settled, Join, IdentifierWordsOf;
    var words := IdentifierWordsOf(a, key);
    WordsOfSettle(a, key);
    if words == [] {
      FieldSettled(a);
      JoinTrimmed(a, ["field"]);
      JoinReads(a, ["field"]);
      assert Join(["field"]) == "field" by { JoinOne("field"); }
    } else {
      NormalKeepsWords(a, key);
      JoinTrimmed(a, words);
      JoinCounts(a, words);
      NoHumpsOf(a, words);
      WordsOfSettle(a, FieldKey(a, key));
      JoinBars(a, words);
      JoinBars(a, IdentifierWordsOf(a, FieldKey(a, key)));
    }
  }

  /** Where every letter has a lower case, that is always so: both hold of every key. */
  lemma LoweredHumpless(a: Alphabet, s: string, n: nat)
    requires Lawful(a) && Stable(a) && Lowers(a) && n <= |s|
    ensures AllHumpless(a, Words(a, s, n))
  {
    hide Words;
    WordsSettle(a, s, n);
    var words := Words(a, s, n);
    forall i | 0 <= i < |words| ensures Humpless(a, words[i]) {
      assert Settled(a, words[i]);
      assert forall j | 0 <= j < |words[i]| :: a.toLower(words[i][j]) == words[i][j] && a.Alnum(words[i][j]);
    }
  }

  lemma LoweredKeysSettle(a: Alphabet, key: string)
    requires Lawful(a) && Stable(a) && Lowers(a)
    ensures FieldKey(a, FieldKey(a, key)) == FieldKey(a, key)
    ensures IdentifierWordsOf(a, key) != [] ==> IdentifierWordsOf(a, FieldKey(a, key)) == IdentifierWordsOf(a, key)
  {
    hide Words, TrimSpace, FieldKey, AllHumpless, Stable, Lawful, Lowers;
    LoweredHumpless(a, TrimSpace(key), |TrimSpace(key)|);
    FieldKeyIdempotent(a, key);
    if IdentifierWordsOf(a, key) != [] {
      NormalKeepsWords(a, key);
    }
  }

  // ---------------------------------------------------------------- a letter without a lower case

  const UPSILON: char := '\U{03D2}'

  /** ASCII and the Greek upsilon with hook, an upper-case letter that is its own lower case. */
  const GREEK := ASCII.(letter := c => ASCII.letter(c) || c == UPSILON, upper := c => ASCII.upper(c) || c == UPSILON)

  lemma GreekStable()
    ensures Lawful(GREEK) && Stable(GREEK) && !Lowers(GREEK)
  {
    AsciiLowers();
    forall c | GREEK.Alnum(c)
      ensures GREEK.Alnum(LowerChar(c)) && LowerChar(LowerChar(c)) == LowerChar(c) && LowerChar(c) !in WHITESPACE
    {
      assert c == UPSILON || ASCII.Alnum(c);
    }
    assert GREEK.upper(GREEK.toLower(UPSILON));
  }

  lemma TwoLetters(a: Alphabet, x: char, y: char)
    requires a.Alnum(x) && a.Alnum(y) && x !in WHITESPACE && y !in WHITESPACE
    ensures IdentifierWordsOf(a, [x, y])
         == if a.upper(y) && (a.lower(x) || a.digit(x)) then [[a.toLower(x)], [a.toLower(y)]]
            else [[a.toLower(x), a.toLower(y)]]
  {
    hide WHITESPACE, Words, TrimSpace;
    var s := [x, y];
    TrimsNothing(s);
    NoWords(a, s);
    WordsStep(a, s, 0);
    WordsStep(a, s, 1);
    var l, m := a.toLower(x), a.toLower(y);
    assert [] + [[l]] == [[l]] && [[l]] + [[m]] == [[l], [m]];
    assert [[l]][..0] == [] && [l] + [m] == [l, m] && [] + [[l, m]] == [[l, m]];
  }

  /** The two keys of the counterexample, by letter. */
  lemma GreekLetters(c: char)
    requires c in {'A', 'a', UPSILON}
    ensures GREEK.Alnum(c) && c !in WHITESPACE && !GREEK.digit(c)
    ensures GREEK.upper(c) == (c != 'a') && GREEK.lower(c) == (c == 'a')
    ensures GREEK.toLower(c) == if c == UPSILON then UPSILON else 'a'
  {
  }

  /** Such a letter behind another capital joins it in one word, and stands apart once that is lowered. */
  lemma HookedKeySplits()
    ensures FieldKey(GREEK, ['A', UPSILON]) == ['a', UPSILON]
    ensures FieldKey(GREEK, ['a', UPSILON]) == ['a', '_', UPSILON]
  {
    hide IdentifierWordsOf, GREEK, WHITESPACE, Join;
    GreekLetters('A');
    GreekLetters('a');
    GreekLetters(UPSILON);
    TwoLetters(GREEK, 'A', UPSILON);
    TwoLetters(GREEK, 'a', UPSILON);
    JoinOne(['a', UPSILON]);
    JoinOne(['a']);
    JoinLast([['a']], [UPSILON]);
    assert [['a']] + [[UPSILON]] == [['a'], [UPSILON]];
    assert ['a'] + "_" + [UPSILON] == ['a', '_', UPSILON];
  }
}
