/** The anchored regular expressions of the scripts, written as predicates over one
    line: `A<space>*B$` (a heading at the end of a line) and `^A<space>*B` (a label at
    the start of a line), where the set of space characters is a parameter. */
module Patterns {
  import opened Text

  /** `re.search("A<sp>*B$", line)`: the line ends with `b`, and the run of `sp`
      characters before that `b` is preceded by `a`. */
  predicate EndsWithPair(line: string, a: string, b: string, sp: char -> bool) {
    && |b| <= |line|
    && line[|line| - |b|..] == b
    && var j := SpacesBefore(line, sp, |line| - |b|);
       |a| <= j && line[j - |a|..j] == a
  }

  /** `re.search("^A<sp>*B", line)`: the line starts with `a`, then a run of `sp`
      characters, then `b`. */
  predicate StartsWithPair(line: string, a: string, b: string, sp: char -> bool) {
    && |a| <= |line|
    && line[..|a|] == a
    && var j := |a| + LeadingSpaces(line[|a|..], sp);
       j + |b| <= |line| && line[j..j + |b|] == b
  }

  /** What the regular expression `A<sp>*B$` means: some occurrence of `a`, followed
      only by space characters up to a final `b`. */
  ghost predicate SuffixMatch(line: string, a: string, b: string, sp: char -> bool) {
    exists k {:trigger line[k..]} ::
      && 0 <= k && k + |a| + |b| <= |line|
      && line[k..][..|a|] == a
      && (forall m :: k + |a| <= m < |line| - |b| ==> sp(line[m]))
      && line[|line| - |b|..] == b
  }

  /** What the regular expression `^A<sp>*B` means: `a` at the start, then only space
      characters up to some occurrence of `b`. */
  ghost predicate PrefixMatch(line: string, a: string, b: string, sp: char -> bool) {
    exists k {:trigger line[k..]} ::
      && |a| <= k && k + |b| <= |line|
      && line[..|a|] == a
      && (forall m :: |a| <= m < k ==> sp(line[m]))
      && line[k..][..|b|] == b
  }

  /** The computed test agrees with the regular expression whenever `a` does not end
      in a space character (as "Risk" does not). */
  lemma EndsWithPairMeansSuffixMatch(line: string, a: string, b: string, sp: char -> bool)
    requires a != [] && !sp(a[|a| - 1])
    ensures EndsWithPair(line, a, b, sp) <==> SuffixMatch(line, a, b, sp)
  {
    if EndsWithPair(line, a, b, sp) {
      var j := SpacesBefore(line, sp, |line| - |b|);
      var k := j - |a|;
      assert line[k..][..|a|] == line[j - |a|..j];
    }
    if SuffixMatch(line, a, b, sp) {
      var k :| && 0 <= k && k + |a| + |b| <= |line|
               && line[k..][..|a|] == a
               && (forall m :: k + |a| <= m < |line| - |b| ==> sp(line[m]))
               && line[|line| - |b|..] == b;
      SuffixRunStart(line, a, b, sp, k);
    }
  }

  /** Where the regular expression matches, the run of spaces before `b` starts right
      after the matched `a`. */
  lemma SuffixRunStart(line: string, a: string, b: string, sp: char -> bool, k: nat)
    requires a != [] && !sp(a[|a| - 1])
    requires k + |a| + |b| <= |line|
    requires line[k..][..|a|] == a
    requires forall m :: k + |a| <= m < |line| - |b| ==> sp(line[m])
    requires line[|line| - |b|..] == b
    ensures EndsWithPair(line, a, b, sp)
  {
    var e := |line| - |b|;
    var j := SpacesBefore(line, sp, e);
    assert line[k + |a| - 1] == line[k..][..|a|][|a| - 1];
    assert !sp(line[k + |a| - 1]);
    assert j == k + |a|;
    assert line[j - |a|..j] == line[k..][..|a|];
  }

  /** The computed test agrees with the regular expression whenever `b` does not start
      with a space character (as "1B" does not). */
  lemma StartsWithPairMeansPrefixMatch(line: string, a: string, b: string, sp: char -> bool)
    requires b != [] && !sp(b[0])
    ensures StartsWithPair(line, a, b, sp) <==> PrefixMatch(line, a, b, sp)
  {
    if StartsWithPair(line, a, b, sp) {
      StartsWithPairIsMatch(line, a, b, sp);
    }
    if PrefixMatch(line, a, b, sp) {
      var k :| && |a| <= k && k + |b| <= |line|
               && line[..|a|] == a
               && (forall m :: |a| <= m < k ==> sp(line[m]))
               && line[k..][..|b|] == b;
      PrefixMatchAt(line, a, b, sp, k);
    }
  }

  lemma StartsWithPairIsMatch(line: string, a: string, b: string, sp: char -> bool)
    requires StartsWithPair(line, a, b, sp)
    ensures PrefixMatch(line, a, b, sp)
  {
    var j := |a| + LeadingSpaces(line[|a|..], sp);
    assert forall m :: |a| <= m < j ==> line[m] == line[|a|..][m - |a|];
    assert line[j..][..|b|] == line[j..j + |b|];
  }

  /** Where the regular expression matches, the run of spaces after `a` is the leading
      run of the rest of the line, so the scan finds `b` at the same place. */
  lemma PrefixMatchAt(line: string, a: string, b: string, sp: char -> bool, k: nat)
    requires b != [] && !sp(b[0])
    requires |a| <= k && k + |b| <= |line|
    requires line[..|a|] == a
    requires forall m :: |a| <= m < k ==> sp(line[m])
    requires line[k..][..|b|] == b
    ensures StartsWithPair(line, a, b, sp)
  {
    var rest := line[|a|..];
    var n := LeadingSpaces(rest, sp);
    assert line[k] == b[0];
    assert forall m :: 0 <= m < k - |a| ==> rest[m] == line[m + |a|];
    assert !sp(rest[k - |a|]);
    assert |a| + n == k;
    assert line[k..k + |b|] == line[k..][..|b|];
  }
}
