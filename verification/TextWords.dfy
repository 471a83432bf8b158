/** Texts as sequences of words, as parse_args tells parameters apart: a blank ends a word unless it
    stands in double quotes. */
module TextWords {

  const QUOTE := '\"'

  /** isspace. */
  predicate Blank(c: char) {
    c in {' ', '\t', '\n', '\r', '\U{000B}', '\U{000C}', '\U{00A0}'}
  }

  predicate AllBlank(s: string) {
    forall i :: 0 <= i < |s| ==> Blank(s[i])
  }

  /** A word without blanks. */
  predicate IsWord(s: string) {
    s != [] && forall i :: 0 <= i < |s| ==> !Blank(s[i])
  }

  /** A quote is open at the end of the text. */
  predicate Open(s: string) {
    s != [] && (Open(s[..|s| - 1]) != (s[|s| - 1] == QUOTE))
  }

  /** The character ends a word, if it comes behind the text. */
  predicate Splits(s: string, c: char) {
    Blank(c) && !Open(s)
  }

  /** The next character starts a word, unless it ends one. */
  predicate Starts(s: string) {
    s == [] || Splits(s[..|s| - 1], s[|s| - 1])
  }

  /** One character more, which may end a word, start one or lengthen the last one. */
  function Extend(words: seq<string>, starts: bool, splits: bool, c: char): (longer: seq<string>)
    ensures !splits ==> longer != []
  {
    if splits then words
    else if starts || words == [] then words + [[c]]
    else words[|words| - 1 := words[|words| - 1] + [c]]
  }

  /** The words of a text. */
  function Words(s: string): (words: seq<string>)
    ensures !Starts(s) ==> words != []
  {
    if s == [] then []
    else
      var front, c := s[..|s| - 1], s[|s| - 1];
      Extend(Words(front), Starts(front), Splits(front, c), c)
  }

  lemma {:induction false} NoQuotes(s: string)
    requires QUOTE !in s
    ensures !Open(s)
  {
    if s != [] {
      NoQuotes(s[..|s| - 1]);
    }
  }

  // ----- two texts in a row

  lemma OpenPush(s: string, c: char)
    ensures Open(s + [c]) == (Open(s) != (c == QUOTE))
  {
    assert (s + [c])[..|s|] == s;
  }

  lemma {:induction false} OpenOfTwo(a: string, b: string)
    ensures Open(a + b) == (Open(a) != Open(b))
  {
    if b == [] {
      assert a + b == a;
    } else {
      var front, c := b[..|b| - 1], b[|b| - 1];
      assert a + b == (a + front) + [c];
      OpenOfTwo(a, front);
      OpenPush(a + front, c);
    }
  }

  lemma WordsPush(s: string, c: char)
    ensures Words(s + [c]) == Extend(Words(s), Starts(s), Splits(s, c), c)
  {
    assert (s + [c])[..|s|] == s;
  }

  /** They do not run together where they meet. */
  predicate Apart(a: string, b: string) {
    a == [] || b == [] || Blank(a[|a| - 1]) || Blank(b[0])
  }

  lemma ExtendBehind(x: seq<string>, y: seq<string>, starts: bool, splits: bool, c: char)
    requires starts || y != [] || splits
    ensures Extend(x + y, starts, splits, c) == x + Extend(y, starts, splits, c)
  {
  }

  lemma StartsBehind(a: string, b: string)
    requires b != [] && !Open(a)
    ensures Starts(a + b) == Starts(b)
  {
    assert (a + b)[..|a + b| - 1] == a + b[..|b| - 1];
    OpenOfTwo(a, b[..|b| - 1]);
  }

  /** One character behind both. */
  lemma NextOfTwo(a: string, front: string, c: char)
    requires !Open(a) && (front == [] ==> Apart(a, [c]))
    requires Words(a + front) == Words(a) + Words(front)
    ensures Words(a + front + [c]) == Words(a) + Words(front + [c])
  {
    WordsPush(a + front, c);
    WordsPush(front, c);
    OpenOfTwo(a, front);
    if front == [] {
      assert a + front == a;
    } else {
      StartsBehind(a, front);
    }
    ExtendBehind(Words(a), Words(front), Starts(a + front), Splits(front, c), c);
  }

  lemma {:induction false} WordsOfTwo(a: string, b: string)
    requires Apart(a, b) && !Open(a)
    ensures Words(a + b) == Words(a) + Words(b)
  {
    if b == [] {
      assert a + b == a;
    } else {
      var front, c := b[..|b| - 1], b[|b| - 1];
      WordsOfTwo(a, front);
      NextOfTwo(a, front, c);
      assert b == front + [c] && a + b == a + front + [c];
    }
  }

  lemma {:induction false} NoWords(blanks: string)
    requires AllBlank(blanks)
    ensures Words(blanks) == [] && !Open(blanks)
  {
    if blanks != [] {
      NoWords(blanks[..|blanks| - 1]);
    }
  }

  lemma {:induction false} OneWord(word: string)
    requires IsWord(word)
    ensures Words(word) == [word] && !Starts(word)
  {
    var front, c := word[..|word| - 1], word[|word| - 1];
    assert word == front + [c];
    if front != [] {
      OneWord(front);
    }
  }

  // ----- texts that do not split where they should

  lemma ExtendGrows(words: seq<string>, starts: bool, splits: bool, c: char)
    ensures
      var longer := Extend(words, starts, splits, c);
      |words| <= |longer| && forall i :: 0 <= i < |words| ==> |words[i]| <= |longer[i]|
  {
  }

  /** Behind an open quote whatever follows goes to the last word. */
  lemma {:induction false} Glued(a: string, t: string)
    requires Open(a) && t != []
    ensures 0 < |Words(a)| <= |Words(a + t)| && |Words(a)[|Words(a)| - 1]| < |Words(a + t)[|Words(a)| - 1]|
  {
    var front, c := t[..|t| - 1], t[|t| - 1];
    assert a + t == (a + front) + [c];
    WordsPush(a + front, c);
    if front == [] {
      assert a + front == a;
    } else {
      Glued(a, front);
      ExtendGrows(Words(a + front), Starts(a + front), Splits(a + front, c), c);
    }
  }

  lemma GluedIsOther(a: string, t: string, rest: seq<string>)
    requires Open(a) && t != []
    ensures Words(a + t) != Words(a) + rest
  {
    Glued(a, t);
  }

  /** An open quote is in a word that has begun. */
  lemma OpenIsInWord(a: string)
    requires Open(a)
    ensures a != [] && !Starts(a) && Words(a) != []
  {
  }

  /** Exactly: up to the closing quote everything is added to the last word. */
  lemma {:induction false} GluedExactly(a: string, t: string)
    requires Open(a) && QUOTE !in t
    ensures Open(a + t) && Words(a) != []
    ensures Words(a + t) == Words(a)[|Words(a)| - 1 := Words(a)[|Words(a)| - 1] + t]
  {
    OpenIsInWord(a);
    if t == [] {
      assert a + t == a && Words(a)[|Words(a)| - 1] + t == Words(a)[|Words(a)| - 1];
    } else {
      var front, c := t[..|t| - 1], t[|t| - 1];
      assert t == front + [c] && a + t == (a + front) + [c];
      GluedExactly(a, front);
      OpenIsInWord(a + front);
      WordsPush(a + front, c);
      OpenPush(a + front, c);
      ExtendLast(Words(a), front, Starts(a + front), c);
    }
  }

  lemma ExtendLast(words: seq<string>, front: string, starts: bool, c: char)
    requires words != [] && !starts
    ensures Extend(words[|words| - 1 := words[|words| - 1] + front], starts, false, c) ==
            words[|words| - 1 := words[|words| - 1] + (front + [c])]
  {
    assert words[|words| - 1] + front + [c] == words[|words| - 1] + (front + [c]);
  }

  /** How many characters do not separate words, in a text and in words. */
  function Letters(s: string): nat {
    if s == [] then 0 else Letters(s[..|s| - 1]) + if Splits(s[..|s| - 1], s[|s| - 1]) then 0 else 1
  }

  function Total(words: seq<string>): nat {
    if words == [] then 0 else Total(words[..|words| - 1]) + |words[|words| - 1]|
  }

  /** Splitting into words loses nothing but separators. */
  lemma {:induction false} LettersAreInWords(s: string)
    ensures Total(Words(s)) == Letters(s)
  {
    if s != [] {
      var front, c := s[..|s| - 1], s[|s| - 1];
      LettersAreInWords(front);
      TotalExtended(Words(front), Starts(front), Splits(front, c), c);
    }
  }

  lemma TotalExtended(words: seq<string>, starts: bool, splits: bool, c: char)
    ensures Total(Extend(words, starts, splits, c)) == Total(words) + if splits then 0 else 1
  {
    var longer := Extend(words, starts, splits, c);
    if !splits {
      assert longer[..|longer| - 1] == if starts || words == [] then words else words[..|words| - 1];
    }
  }

  lemma LettersPush(s: string, c: char)
    ensures Letters(s + [c]) == Letters(s) + if Splits(s, c) then 0 else 1
  {
    assert (s + [c])[..|s|] == s;
  }

  lemma {:induction false} LettersOfTwo(a: string, b: string)
    requires !Open(a)
    ensures Letters(a + b) == Letters(a) + Letters(b)
  {
    if b == [] {
      assert a + b == a;
    } else {
      assert (a + b)[..|a + b| - 1] == a + b[..|b| - 1];
      OpenOfTwo(a, b[..|b| - 1]);
      LettersOfTwo(a, b[..|b| - 1]);
    }
  }

  lemma {:induction false} TotalOfTwo(a: seq<string>, b: seq<string>)
    ensures Total(a + b) == Total(a) + Total(b)
  {
    if b == [] {
      assert a + b == a;
    } else {
      assert (a + b)[..|a + b| - 1] == a + b[..|b| - 1];
      TotalOfTwo(a, b[..|b| - 1]);
    }
  }
}
