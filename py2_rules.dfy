/** The line rules of the Python 2 script (Apple-SEC-filings-py2.py): the whole line is
    normalised to ASCII before it is matched, the regular expressions use ASCII `\s`,
    and the end marker needs no period. */
module Py2Rules {
  import opened Text
  import opened Patterns

  /** `unicode.isspace()` of Python 2.7, whose Unicode 5.2 tables also count U+180E. */
  predicate IsSpace2(c: char) {
    IsSpace(c) || c == '\U{180E}'
  }

  /** `\s` in a pattern compiled without `re.UNICODE`: one of [ \t\n\v\f\r]. */
  predicate RegexSpace(c: char) {
    c == ' ' || ('\t' <= c <= '\r')
  }

  /** The class [\u2002\u2003\u2007\u2008\u2009\u200A\u00A0/] that becomes a space. */
  predicate IsSpaceVariant(c: char) {
    || c == '\U{2002}' || c == '\U{2003}' || c == '\U{2007}' || c == '\U{2008}'
    || c == '\U{2009}' || c == '\U{200A}' || c == '\U{A0}' || c == '/'
  }

  /** The class [\u2012\u2013\u2014\u2015\u2053] that becomes a hyphen. */
  predicate IsDash(c: char) {
    ('\U{2012}' <= c <= '\U{2015}') || c == '\U{2053}'
  }

  /** `string.punctuation` without the hyphen. */
  predicate IsPunctuation(c: char) {
    c in {'!', '"', '#', '$', '%', '&', '\'', '(', ')', '*', '+', ',', '.', '/', ':', ';',
          '<', '=', '>', '?', '@', '[', '\\', ']', '^', '_', '`', '{', '|', '}', '~'}
  }

  predicate KeepsCharacter(c: char) {
    !IsPunctuation(c)
  }

  predicate IsAscii(c: char) {
    c as int < 128
  }

  /** `not line.strip()` on the line as read. */
  predicate IsBlank(line: string) {
    Strip(line, IsSpace2) == []
  }

  /** Every space variant and slash replaced by a space. */
  function Spaced(line: string): (r: string)
    ensures |r| == |line|
    ensures forall i :: 0 <= i < |line| ==> r[i] == if IsSpaceVariant(line[i]) then ' ' else line[i]
  {
    if line == [] then []
    else [if IsSpaceVariant(line[0]) then ' ' else line[0]] + Spaced(line[1..])
  }

  /** Space variants and slashes replaced by spaces, then `line.strip()`. */
  function Cleaned(line: string): (r: string)
    ensures r == Strip(Spaced(line), IsSpace2)
    ensures forall i :: 0 <= i < |r| ==> !IsSpaceVariant(r[i])
  {
    Strip(Spaced(line), IsSpace2)
  }

  function DashToHyphen(c: char): char {
    if IsDash(c) then '-' else c
  }

  /** Every listed dash replaced by '-'. */
  function Hyphenated(s: string): (r: string)
    ensures |r| == |s|
    ensures forall i :: 0 <= i < |s| ==> r[i] == DashToHyphen(s[i])
  {
    if s == [] then [] else [DashToHyphen(s[0])] + Hyphenated(s[1..])
  }

  /** The normalisation every non-blank line goes through before it is matched: spaces
      and slashes, strip, dashes, punctuation other than '-', then everything that is not
      ASCII. */
  function Normalize(line: string): (r: string)
    ensures forall c :: c in r ==> IsAscii(c) && !IsPunctuation(c) && c != '/' && !IsDash(c)
  {
    var unpunctuated := Filter(Hyphenated(Cleaned(line)), KeepsCharacter);
    var r := Filter(unpunctuated, IsAscii);
    assert forall c :: c in r ==> IsAscii(c) && !IsPunctuation(c) by {
      forall c | c in r ensures IsAscii(c) && !IsPunctuation(c) {
        assert c in unpunctuated;
      }
    }
    assert IsPunctuation('/') && forall c :: IsAscii(c) ==> !IsDash(c);
    r
  }

  /** Replacing dashes turns each one into a hyphen ... */
  lemma {:induction false} HyphenCount(s: string)
    ensures multiset(Hyphenated(s))['-'] == multiset(s)['-'] + |Filter(s, IsDash)|
    decreases |s|
  {
    if s != [] {
      HyphenCount(s[1..]);
      assert s == [s[0]] + s[1..];
      assert Hyphenated(s) == [DashToHyphen(s[0])] + Hyphenated(s[1..]);
      assert Filter(s, IsDash) == (if IsDash(s[0]) then [s[0]] else []) + Filter(s[1..], IsDash);
    }
  }

  /** ... and leaves every other ASCII character alone. */
  lemma {:induction false} HyphenatedKeepsAscii(s: string, c: char)
    requires IsAscii(c) && c != '-'
    ensures multiset(Hyphenated(s))[c] == multiset(s)[c]
    decreases |s|
  {
    if s != [] {
      HyphenatedKeepsAscii(s[1..], c);
      assert s == [s[0]] + s[1..];
      assert Hyphenated(s) == [DashToHyphen(s[0])] + Hyphenated(s[1..]);
    }
  }

  /** Normalisation keeps every hyphen, turns every listed dash into one, and keeps every
      other ASCII character that is not punctuation, each as often as it occurs in the
      stripped line. */
  lemma NormalizeKeeps(line: string)
    ensures var t := Cleaned(line);
      && multiset(Normalize(line))['-'] == multiset(t)['-'] + |Filter(t, IsDash)|
      && forall c :: IsAscii(c) && c != '-' && !IsPunctuation(c) ==>
           multiset(Normalize(line))[c] == multiset(t)[c]
  {
    var t := Cleaned(line);
    var h := Hyphenated(t);
    var u := Filter(h, KeepsCharacter);
    var r := Filter(u, IsAscii);
    assert r == Normalize(line);
    FilterCounts(h, KeepsCharacter);
    FilterCounts(u, IsAscii);
    assert multiset(r)['-'] == multiset(h)['-'] by {
      assert IsAscii('-') && KeepsCharacter('-');
    }
    HyphenCount(t);
    forall c | IsAscii(c) && c != '-' && !IsPunctuation(c) ensures multiset(r)[c] == multiset(t)[c] {
      assert IsAscii(c) && KeepsCharacter(c);
      HyphenatedKeepsAscii(t, c);
    }
  }

  /** `re.search(r"Risk\s*Factors$", line, re.MULTILINE)` */
  predicate IsHeading(line: string) {
    EndsWithPair(line, "Risk", "Factors", RegexSpace)
  }

  /** `re.search(r"^[0-9]+$", line, re.MULTILINE)`: a page number alone on its line. */
  predicate IsFalsePositive(line: string) {
    line != [] && forall i :: 0 <= i < |line| ==> IsAsciiDigit(line[i])
  }

  /** `re.search(r"^Item\s*1B", line, re.MULTILINE)` */
  predicate IsEndMarker(line: string) {
    StartsWithPair(line, "Item", "1B", RegexSpace)
  }

  /** `line.lower().split()`: non-empty words with no space and no capital letter. */
  function ContentWords(line: string): (ws: seq<string>)
    ensures forall w :: w in ws ==> w != [] && forall c :: c in w ==> !IsSpace2(c) && !('A' <= c <= 'Z')
  {
    WordsChars(AsciiLower(line), IsSpace2);
    Words(AsciiLower(line), IsSpace2)
  }

  lemma HeadingIsRegex(line: string)
    ensures IsHeading(line) <==> SuffixMatch(line, "Risk", "Factors", RegexSpace)
  {
    EndsWithPairMeansSuffixMatch(line, "Risk", "Factors", RegexSpace);
  }

  lemma EndMarkerIsRegex(line: string)
    ensures IsEndMarker(line) <==> PrefixMatch(line, "Item", "1B", RegexSpace)
  {
    StartsWithPairMeansPrefixMatch(line, "Item", "1B", RegexSpace);
  }

  /** The three patterns exclude each other where the scanner's order could matter: a
      page-number line is neither a heading nor an end marker. */
  lemma PageNumberIsNoMarker(line: string)
    ensures IsFalsePositive(line) ==> !IsHeading(line) && !IsEndMarker(line)
  {
    if IsFalsePositive(line) {
      var n := |line|;
      assert IsAsciiDigit(line[n - 1]) && IsAsciiDigit(line[0]);
      assert 7 <= n ==> line[n - 7..][6] == line[n - 1];
      assert 4 <= n ==> line[..4][0] == line[0];
    }
  }
}
