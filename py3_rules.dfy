/** The line rules of the Python 3 script (Apple-SEC-filings.py): lines are only
    stripped before they are matched, the regular expressions use Unicode `\s`, the end
    marker needs its period, and punctuation is removed from content lines only. */
module Py3Rules {
  import opened Text
  import opened Patterns

  /** `not line.strip()` */
  predicate IsBlank(line: string) {
    Strip(line, IsSpace) == []
  }

  /** `line.strip()`: what the patterns are matched against. */
  function Stripped(line: string): (r: string)
    ensures r == [] <==> IsBlank(line)
    ensures r != [] ==> !IsSpace(r[0]) && !IsSpace(r[|r| - 1])
  {
    Strip(line, IsSpace)
  }

  /** `string.punctuation` (hyphen included) and the quotes U+201C, U+201D, U+0093,
      U+0094 and U+0092. */
  predicate IsPunctuation(c: char) {
    || c in {'!', '"', '#', '$', '%', '&', '\'', '(', ')', '*', '+', ',', '-', '.', '/', ':', ';',
             '<', '=', '>', '?', '@', '[', '\\', ']', '^', '_', '`', '{', '|', '}', '~'}
    || c == '\U{201C}' || c == '\U{201D}' || c == '\U{93}' || c == '\U{94}' || c == '\U{92}'
  }

  predicate KeepsCharacter(c: char) {
    !IsPunctuation(c)
  }

  /** The punctuation removal applied to a content line. */
  function StripPunctuation(line: string): (r: string)
    ensures forall c :: c in r ==> !IsPunctuation(c)
  {
    Filter(line, KeepsCharacter)
  }

  /** Every character that is not punctuation survives, as often as it occurs. */
  lemma StripPunctuationKeeps(line: string)
    ensures forall c :: !IsPunctuation(c) ==> multiset(StripPunctuation(line))[c] == multiset(line)[c]
  {
    FilterCounts(line, KeepsCharacter);
  }

  /** `re.search(r"Risk[\s\u00a0]*Factors$", line)`; U+00A0 is already in `\s`. */
  predicate IsHeading(line: string) {
    EndsWithPair(line, "Risk", "Factors", IsSpace)
  }

  /** `re.search(r"^[0-9]", line)`: the line begins with a digit. */
  predicate IsFalsePositive(line: string) {
    line != [] && IsAsciiDigit(line[0])
  }

  /** `re.search(r"^Item[\s\u00a0]*1B\.", line)` */
  predicate IsEndMarker(line: string) {
    StartsWithPair(line, "Item", "1B.", IsSpace)
  }

  /** Punctuation removed, then `line.lower().split()`: non-empty words with no space,
      no punctuation and no capital letter. */
  function ContentWords(line: string): (ws: seq<string>)
    ensures forall w :: w in ws ==>
      && w != []
      && forall c :: c in w ==> !IsSpace(c) && !IsPunctuation(c) && !('A' <= c <= 'Z')
  {
    WordsChars(AsciiLower(StripPunctuation(line)), IsSpace);
    Words(AsciiLower(StripPunctuation(line)), IsSpace)
  }

  lemma HeadingIsRegex(line: string)
    ensures IsHeading(line) <==> SuffixMatch(line, "Risk", "Factors", IsSpace)
  {
    EndsWithPairMeansSuffixMatch(line, "Risk", "Factors", IsSpace);
  }

  lemma EndMarkerIsRegex(line: string)
    ensures IsEndMarker(line) <==> PrefixMatch(line, "Item", "1B.", IsSpace)
  {
    StartsWithPairMeansPrefixMatch(line, "Item", "1B.", IsSpace);
  }

  /** A line that begins with a digit is never an end marker, and an end marker is never
      taken for a page number. */
  lemma PageNumberIsNoEndMarker(line: string)
    ensures IsFalsePositive(line) ==> !IsEndMarker(line)
  {
    if IsFalsePositive(line) {
      assert 4 <= |line| ==> line[..4][0] == line[0];
    }
  }
}
