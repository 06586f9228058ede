/** Python string primitives the two scripts rely on: whitespace, `str.strip()`,
    `str.split()`, ASCII lower-casing and character filtering. */
module Text {

  /** `str.isspace()` of Python 3; also what `str.strip()`, `str.split()` and the
      Unicode `\s` of `re` treat as whitespace. */
  predicate IsSpace(c: char) {
    || ('\t' <= c <= '\r')
    || ('\U{1C}' <= c <= ' ')
    || c == '\U{85}' || c == '\U{A0}' || c == '\U{1680}'
    || ('\U{2000}' <= c <= '\U{200A}')
    || c == '\U{2028}' || c == '\U{2029}' || c == '\U{202F}' || c == '\U{205F}' || c == '\U{3000}'
  }

  predicate IsAsciiDigit(c: char) {
    '0' <= c <= '9'
  }

  /** Keeps the characters satisfying `keep`, in order (a `"".join(c for c in s if ...)`). */
  function Filter(s: string, keep: char -> bool): (r: string)
    ensures |r| <= |s|
    ensures forall c :: c in r ==> c in s && keep(c)
  {
    if s == [] then []
    else (if keep(s[0]) then [s[0]] else []) + Filter(s[1..], keep)
  }

  /** Filtering keeps every occurrence of a kept character and none of the others. */
  lemma {:induction false} FilterCounts(s: string, keep: char -> bool)
    ensures forall c :: multiset(Filter(s, keep))[c] == if keep(c) then multiset(s)[c] else 0
    decreases |s|
  {
    if s != [] {
      FilterCounts(s[1..], keep);
      assert s == [s[0]] + s[1..];
    }
  }

  /** Number of characters satisfying `sp` at the start of `s`. */
  function LeadingSpaces(s: string, sp: char -> bool): (n: nat)
    ensures n <= |s|
    ensures forall k :: 0 <= k < n ==> sp(s[k])
    ensures n == |s| || !sp(s[n])
  {
    if s != [] && sp(s[0]) then 1 + LeadingSpaces(s[1..], sp) else 0
  }

  /** The index where the run of characters satisfying `sp` that ends at `j` begins. */
  function SpacesBefore(s: string, sp: char -> bool, j: nat): (n: nat)
    requires j <= |s|
    ensures n <= j
    ensures forall k :: n <= k < j ==> sp(s[k])
    ensures n == 0 || !sp(s[n - 1])
  {
    if j > 0 && sp(s[j - 1]) then SpacesBefore(s, sp, j - 1) else j
  }

  /** `str.strip()`: the infix of `s` that starts after its leading whitespace and
      leaves out its trailing whitespace. */
  function Strip(s: string, sp: char -> bool): (r: string)
    ensures r == [] <==> forall k :: 0 <= k < |s| ==> sp(s[k])
    ensures r != [] ==> !sp(r[0]) && !sp(r[|r| - 1])
    ensures var i := LeadingSpaces(s, sp);
      && i + |r| <= |s|
      && r == s[i..i + |r|]
      && forall k :: i + |r| <= k < |s| ==> sp(s[k])
  {
    var i := LeadingSpaces(s, sp);
    if i == |s| then [] else s[i..SpacesBefore(s, sp, |s|)]
  }

  /** Length of the run of non-space characters that starts `s`. */
  function WordLength(s: string, sp: char -> bool): (n: nat)
    requires s != [] && !sp(s[0])
    ensures 1 <= n <= |s|
    ensures forall i :: 0 <= i < n ==> !sp(s[i])
    ensures n == |s| || sp(s[n])
  {
    if |s| == 1 || sp(s[1]) then 1 else 1 + WordLength(s[1..], sp)
  }

  /** `str.split()` with no argument: the maximal runs of non-space characters, in order. */
  function Words(s: string, sp: char -> bool): (r: seq<string>)
    ensures forall w :: w in r ==> w != [] && forall c :: c in w ==> !sp(c)
    ensures Concat(r) == Filter(s, c => !sp(c))
    decreases |s|
  {
    if s == [] then []
    else if sp(s[0]) then
      assert s == [s[0]] + s[1..];
      Words(s[1..], sp)
    else
      var n := WordLength(s, sp);
      var rest := Words(s[n..], sp);
      FilterSplit(s, n, c => !sp(c));
      FilterAll(s[..n], c => !sp(c));
      [s[..n]] + rest
  }

  /** A line with no space is one word. */
  lemma WordsOfWord(s: string, sp: char -> bool)
    ensures s != [] && (forall i :: 0 <= i < |s| ==> !sp(s[i])) ==> Words(s, sp) == [s]
  {
    if s != [] && forall i :: 0 <= i < |s| ==> !sp(s[i]) {
      WordLengthIsFirstSpace(s, sp, |s|);
      assert s[..|s|] == s && s[|s|..] == [];
    }
  }

  /** A space separates words: the words of `a`, a space, `b` are those of `a` followed
      by those of `b`, so no word runs across it. */
  lemma {:induction false} WordsSplit(a: string, c: char, b: string, sp: char -> bool)
    requires sp(c)
    ensures Words(a + [c] + b, sp) == Words(a, sp) + Words(b, sp)
    decreases |a|
  {
    var s := a + [c] + b;
    if a == [] {
      assert s[0] == c && s[1..] == b;
    } else if sp(a[0]) {
      assert s[0] == a[0] && s[1..] == a[1..] + [c] + b;
      WordsSplit(a[1..], c, b, sp);
    } else {
      var m := WordLength(a, sp);
      FirstWordBeforeSpace(a, c, b, sp);
      WordsSplit(a[m..], c, b, sp);
      AppendAssociates([a[..m]], Words(a[m..], sp), Words(b, sp));
    }
  }

  lemma AppendAssociates<T>(x: seq<T>, y: seq<T>, z: seq<T>)
    ensures x + (y + z) == (x + y) + z
  {
  }

  /** The first word of `a`, a space, `b` is the first word of `a`. */
  lemma FirstWordBeforeSpace(a: string, c: char, b: string, sp: char -> bool)
    requires sp(c) && a != [] && !sp(a[0])
    ensures var m := WordLength(a, sp);
      Words(a + [c] + b, sp) == [a[..m]] + Words(a[m..] + [c] + b, sp)
  {
    var s := a + [c] + b;
    var m := WordLength(a, sp);
    assert forall i :: 0 <= i < m ==> s[i] == a[i];
    assert sp(s[m]) by {
      if m < |a| {
        assert s[m] == a[m];
      } else {
        assert s[m] == c;
      }
    }
    WordLengthIsFirstSpace(s, sp, m);
    assert s[..m] == a[..m] && s[m..] == a[m..] + [c] + b;
  }

  /** The first word of `s` ends at its first space. */
  lemma WordLengthIsFirstSpace(s: string, sp: char -> bool, k: nat)
    requires 1 <= k <= |s|
    requires forall i :: 0 <= i < k ==> !sp(s[i])
    requires k == |s| || sp(s[k])
    ensures WordLength(s, sp) == k
  {
  }

  /** Every character of a word is a character of the line. */
  lemma WordsChars(s: string, sp: char -> bool)
    ensures forall w, c :: w in Words(s, sp) && c in w ==> c in s
  {
    var ws := Words(s, sp);
    forall w, c | w in ws && c in w ensures c in s {
      var i :| 0 <= i < |ws| && ws[i] == w;
      var j :| 0 <= j < |w| && w[j] == c;
      ConcatHas(ws, i, j);
    }
  }

  lemma {:induction false} ConcatHas(ws: seq<string>, i: nat, j: nat)
    requires i < |ws| && j < |ws[i]|
    ensures ws[i][j] in Concat(ws)
    decreases i
  {
    if i > 0 {
      ConcatHas(ws[1..], i - 1, j);
      assert ws[1..][i - 1] == ws[i];
    }
  }

  /** The characters of the words, one after the other. */
  function Concat(ws: seq<string>): string {
    if ws == [] then [] else ws[0] + Concat(ws[1..])
  }

  lemma {:induction false} FilterAppend(a: string, b: string, keep: char -> bool)
    ensures Filter(a + b, keep) == Filter(a, keep) + Filter(b, keep)
    decreases |a|
  {
    if a != [] {
      var h := if keep(a[0]) then [a[0]] else [];
      calc {
        Filter(a + b, keep);
      == { assert (a + b)[0] == a[0] && (a + b)[1..] == a[1..] + b; }
        h + Filter(a[1..] + b, keep);
      == { FilterAppend(a[1..], b, keep); }
        h + (Filter(a[1..], keep) + Filter(b, keep));
      ==
        (h + Filter(a[1..], keep)) + Filter(b, keep);
      }
    } else {
      assert a + b == b;
    }
  }

  lemma FilterSplit(s: string, n: nat, keep: char -> bool)
    requires n <= |s|
    ensures Filter(s, keep) == Filter(s[..n], keep) + Filter(s[n..], keep)
  {
    assert s == s[..n] + s[n..];
    FilterAppend(s[..n], s[n..], keep);
  }

  lemma {:induction false} FilterAll(s: string, keep: char -> bool)
    requires forall i :: 0 <= i < |s| ==> keep(s[i])
    ensures Filter(s, keep) == s
    decreases |s|
  {
    if s != [] {
      FilterAll(s[1..], keep);
    }
  }

  function LowerChar(c: char): (r: char)
    ensures !('A' <= r <= 'Z')
    ensures 'A' <= c <= 'Z' ==> r as int == c as int + 32
    ensures !('A' <= c <= 'Z') ==> r == c
  {
    if 'A' <= c <= 'Z' then (c as int + 32) as char else c
  }

  /** ASCII lower-casing: `str.lower()` on the letters A to Z only. */
  function AsciiLower(s: string): (r: string)
    ensures |r| == |s|
    ensures forall i :: 0 <= i < |s| ==> r[i] == LowerChar(s[i])
  {
    seq(|s|, i requires 0 <= i < |s| => LowerChar(s[i]))
  }
}
