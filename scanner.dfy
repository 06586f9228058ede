/** The per-document loop of both scripts: every line of one filing goes through the
    `flag` state machine (0 searching for the heading, 1 checking the line after it, more
    than 1 inside the section), and the words of the section's lines are counted into
    the dictionary `d`. */
module Scanner {
  import opened Tokens
  import opened Frequency

  /** The line rules one script applies; the loop itself is the same in both scripts. */
  datatype Rules = Rules(
    blank: string -> bool,             // `not line.strip()`
    prepare: string -> string,         // the line as the patterns see it
    heading: string -> bool,           // the "Risk Factors" pattern
    falsePositive: string -> bool,     // the page-number pattern
    endMarker: string -> bool,         // the "Item 1B" pattern
    words: string -> seq<string>,      // a content line's words, before testing
    candidate: string -> string,       // what happens to a word before it is tested
    accept: string -> bool)            // the test a word must pass to be counted

  /** The words a content line adds to the dictionary, in order. */
  function LineTokens(r: Rules, line: string): (ts: seq<string>)
    ensures forall w :: w in ts ==> r.accept(w)
  {
    Kept(r.words(line), r.candidate, r.accept)
  }

  /** Each of a line's words is passed through `candidate`, and the result is added once
      per occurrence exactly when it is accepted; `KeptAppend` and `KeptOne` fix the
      order. */
  lemma LineTokensCounts(r: Rules, line: string)
    ensures forall x ::
      multiset(LineTokens(r, line))[x] ==
        if r.accept(x) then multiset(Candidates(r.words(line), r.candidate))[x] else 0
  {
    KeptCounts(r.words(line), r.candidate, r.accept);
  }

  /** The branch of the loop body a line takes. */
  datatype Action =
    | Blank          // skipped before anything else
    | Heading        // the heading seen while searching: `d.clear()`, `flag = 1`
    | FalsePositive  // a page number right after the heading: `flag = 0`
    | EndOfSection   // the next item's label inside the section: `break`
    | Content        // counted: `flag = flag + 1` and the words go into `d`
    | Search         // nothing matched while searching

  /** The checks in the order the loop body makes them; the first that holds decides. */
  function Classify(r: Rules, flag: nat, raw: string): (a: Action)
    ensures a == Blank <==> r.blank(raw)
    ensures a == Heading <==> !r.blank(raw) && flag == 0 && r.heading(r.prepare(raw))
    ensures a == FalsePositive <==> !r.blank(raw) && flag == 1 && r.falsePositive(r.prepare(raw))
    ensures a == EndOfSection <==> !r.blank(raw) && flag > 1 && r.endMarker(r.prepare(raw))
    ensures a == Content <==> !r.blank(raw) && flag > 0
                              && !(flag == 1 && r.falsePositive(r.prepare(raw)))
                              && !(flag > 1 && r.endMarker(r.prepare(raw)))
    ensures a == Search <==> !r.blank(raw) && flag == 0 && !r.heading(r.prepare(raw))
  {
    if r.blank(raw) then Blank
    else
      var line := r.prepare(raw);
      if r.heading(line) && flag == 0 then Heading
      else if r.falsePositive(line) && flag == 1 then FalsePositive
      else if r.endMarker(line) && flag > 1 then EndOfSection
      else if flag > 0 then Content
      else Search
  }

  /** The loop's variables between two lines: `flag`, `d`, and whether it broke out. */
  datatype ScanState = ScanState(flag: nat, table: Table, ended: bool)

  /** `flag = 0` with `d` empty, as every document starts. */
  const Start: ScanState := ScanState(0, Empty, false)

  /** One line of the loop. */
  function Step(r: Rules, st: ScanState, raw: string): (next: ScanState)
    ensures st.ended ==> next == st
    ensures !st.ended && st.flag > 1 ==> next.ended || next.flag >= st.flag
    ensures !st.ended && st.flag == 0 ==> next.flag <= 1 && !next.ended
    ensures !st.ended && next.ended ==> next.flag == 0
    ensures Listed(st.table) ==> Listed(next.table)
  {
    if st.ended then st
    else
      match Classify(r, st.flag, raw)
      case Blank => st
      case Search => st
      case Heading => ScanState(1, Empty, false)
      case FalsePositive => st.(flag := 0)
      case EndOfSection => ScanState(0, st.table, true)
      case Content => ScanState(st.flag + 1, RecordAll(st.table, LineTokens(r, r.prepare(raw))), false)
  }

  /** The state after the given lines of a document, from its first line on. */
  function Run(r: Rules, lines: seq<string>): (st: ScanState)
    ensures Listed(st.table)
  {
    if lines == [] then Start else Step(r, Run(r, lines[..|lines| - 1]), lines[|lines| - 1])
  }

  /** Whether the last of the given lines is counted. */
  predicate LastIsContent(r: Rules, lines: seq<string>)
    requires lines != []
  {
    var before := Run(r, lines[..|lines| - 1]);
    !before.ended && Classify(r, before.flag, lines[|lines| - 1]) == Content
  }

  /** The lines that are counted, as the patterns see them. */
  function ContentLines(r: Rules, lines: seq<string>): seq<string> {
    if lines == [] then []
    else
      ContentLines(r, lines[..|lines| - 1])
      + (if LastIsContent(r, lines) then [r.prepare(lines[|lines| - 1])] else [])
  }

  /** The words the counted lines add to the dictionary, in order. */
  function ContentTokens(r: Rules, lines: seq<string>): (ts: seq<string>)
    ensures forall w :: w in ts ==> r.accept(w)
  {
    if lines == [] then []
    else
      ContentTokens(r, lines[..|lines| - 1])
      + (if LastIsContent(r, lines) then LineTokens(r, r.prepare(lines[|lines| - 1])) else [])
  }

  /** The dictionary always holds exactly the words of the counted lines; until the
      section has started no line has been counted (so the clear at the heading only
      ever empties an empty dictionary). */
  lemma {:induction false} RunCounts(r: Rules, lines: seq<string>)
    ensures var st := Run(r, lines);
      && st.table == RecordAll(Empty, ContentTokens(r, lines))
      && (!st.ended && st.flag <= 1 ==> ContentLines(r, lines) == [] && ContentTokens(r, lines) == [])
    decreases |lines|
  {
    if lines != [] {
      var init, last := lines[..|lines| - 1], lines[|lines| - 1];
      RunCounts(r, init);
      var before := Run(r, init);
      if LastIsContent(r, lines) {
        RecordAllAppend(Empty, ContentTokens(r, init), LineTokens(r, r.prepare(last)));
      } else {
        assert ContentTokens(r, lines) == ContentTokens(r, init);
        assert ContentLines(r, lines) == ContentLines(r, init);
      }
    }
  }

  /** What the dictionary of a document holds: only accepted words, each with the number
      of times it occurs among the counted words, in order of first occurrence, with
      counts adding up to the number of counted words. */
  lemma TableOfDocument(r: Rules, lines: seq<string>)
    ensures var t, toks := Run(r, lines).table, ContentTokens(r, lines);
      && Valid(t)
      && (forall w :: w in t.counts <==> w in toks)
      && (forall w :: w in t.counts ==> r.accept(w) && t.counts[w] == multiset(toks)[w])
      && Total(t) == |toks|
      && forall i, j :: 0 <= i < j < |t.keys| ==> FirstIndex(toks, t.keys[i]) < FirstIndex(toks, t.keys[j])
  {
    RunCounts(r, lines);
    var toks := ContentTokens(r, lines);
    RecordAllCounts(toks);
    RecordAllTotal(toks);
    RecordAllOrder(toks);
  }

  /** After the end marker nothing changes: no later line is looked at or counted. */
  lemma {:induction false} EndIsFinal(r: Rules, lines: seq<string>, n: nat)
    requires n <= |lines| && Run(r, lines[..n]).ended
    ensures Run(r, lines) == Run(r, lines[..n])
    ensures ContentLines(r, lines) == ContentLines(r, lines[..n])
    ensures ContentTokens(r, lines) == ContentTokens(r, lines[..n])
    decreases |lines|
  {
    if n < |lines| {
      var init := lines[..|lines| - 1];
      assert init[..n] == lines[..n];
      EndIsFinal(r, init, n);
    } else {
      assert lines[..n] == lines;
    }
  }

  /** Inside the section `flag` only grows, until the end marker stops the scan. */
  lemma {:induction false} AccumulationGrows(r: Rules, lines: seq<string>, i: nat, j: nat)
    requires i <= j <= |lines|
    requires !Run(r, lines[..i]).ended && Run(r, lines[..i]).flag > 1
    ensures Run(r, lines[..j]).ended || Run(r, lines[..j]).flag >= Run(r, lines[..i]).flag
    decreases j
  {
    var f := Run(r, lines[..i]).flag;
    if j > i {
      assert Run(r, lines[..j]).ended || Run(r, lines[..j]).flag >= f by {
        AccumulationGrows(r, lines, i, j - 1);
        GrowStep(r, lines, j, f);
      }
    }
  }

  /** One line inside the section leaves `flag` at least where it was, or ends the scan. */
  lemma GrowStep(r: Rules, lines: seq<string>, n: nat, f: nat)
    requires 0 < n <= |lines| && f > 1
    requires Run(r, lines[..n - 1]).ended || Run(r, lines[..n - 1]).flag >= f
    ensures Run(r, lines[..n]).ended || Run(r, lines[..n]).flag >= f
  {
    assert lines[..n][..n - 1] == lines[..n - 1];
  }

  /** If no line is a heading, nothing is ever counted and the dictionary stays empty. */
  lemma {:induction false} NoHeadingNoWords(r: Rules, lines: seq<string>)
    requires forall i :: 0 <= i < |lines| ==> r.blank(lines[i]) || !r.heading(r.prepare(lines[i]))
    ensures Run(r, lines) == Start
    ensures ContentLines(r, lines) == []
    decreases |lines|
  {
    if lines != [] {
      var init := lines[..|lines| - 1];
      assert forall i :: 0 <= i < |init| ==> init[i] == lines[i];
      NoHeadingNoWords(r, init);
    }
  }

  /** A line is counted only after a (non-blank) heading line has been seen. */
  lemma CountedOnlyAfterHeading(r: Rules, lines: seq<string>)
    requires ContentLines(r, lines) != []
    ensures exists i :: 0 <= i < |lines| && !r.blank(lines[i]) && r.heading(r.prepare(lines[i]))
  {
    if forall i :: 0 <= i < |lines| ==> r.blank(lines[i]) || !r.heading(r.prepare(lines[i])) {
      NoHeadingNoWords(r, lines);
    }
  }

  /** A heading followed at once by a page number (a table-of-contents entry) leaves the
      scan exactly as it was before the heading: searching, with an empty dictionary. */
  lemma FalsePositiveUndoesHeading(r: Rules, lines: seq<string>, k: nat)
    requires k + 2 <= |lines|
    requires !Run(r, lines[..k]).ended && Run(r, lines[..k]).flag == 0
    requires !r.blank(lines[k]) && r.heading(r.prepare(lines[k]))
    requires !r.blank(lines[k + 1]) && r.falsePositive(r.prepare(lines[k + 1]))
    ensures Run(r, lines[..k + 2]) == Run(r, lines[..k]) == Start
  {
    RunCounts(r, lines[..k]);
    assert lines[..k + 1][..k] == lines[..k];
    assert lines[..k + 2][..k + 1] == lines[..k + 1];
  }

  /** What one line does to the scan, by the branch it takes: a heading starts the
      section with an empty dictionary, a false positive goes back to searching with
      the dictionary still empty, the end marker stops the scan, and only a content line
      adds words; none of the others adds any. */
  lemma LineEffect(r: Rules, lines: seq<string>, k: nat)
    requires k < |lines| && !Run(r, lines[..k]).ended
    ensures var before, after := Run(r, lines[..k]), Run(r, lines[..k + 1]);
            var a, added := Classify(r, before.flag, lines[k]), ContentTokens(r, lines[..k + 1]);
      && (a == Heading ==> after == ScanState(1, Empty, false) && added == [])
      && (a == FalsePositive ==> after == Start && added == [])
      && (a == EndOfSection ==> after.ended && after.table == before.table && added == ContentTokens(r, lines[..k]))
      && (a == Content ==> after.flag == before.flag + 1 && !after.ended
                           && added == ContentTokens(r, lines[..k]) + LineTokens(r, r.prepare(lines[k])))
      && (a == Blank || a == Search ==> after == before && added == ContentTokens(r, lines[..k]))
  {
    RunNext(r, lines, k);
    RunCounts(r, lines[..k]);
    var next := lines[..k + 1];
    assert next[..k] == lines[..k] && next[k] == lines[k];
    assert ContentTokens(r, next) == ContentTokens(r, lines[..k])
      + (if LastIsContent(r, next) then LineTokens(r, r.prepare(lines[k])) else []);
  }

  lemma RunNext(r: Rules, lines: seq<string>, n: nat)
    requires n < |lines|
    ensures Run(r, lines[..n + 1]) == Step(r, Run(r, lines[..n]), lines[n])
  {
    assert lines[..n + 1][..n] == lines[..n];
  }

  /** One word of the inner loop: the dictionary after the first `k + 1` words is the one
      after the first `k`, with the `k`-th word recorded if it is accepted. */
  lemma CountNext(d0: Table, words: seq<string>, k: nat, candidate: string -> string,
                    accept: string -> bool)
    requires k < |words|
    ensures var before := RecordAll(d0, Kept(words[..k], candidate, accept));
            var w := candidate(words[k]);
      RecordAll(d0, Kept(words[..k + 1], candidate, accept)) == if accept(w) then Record(before, w) else before
  {
    var prev := Kept(words[..k], candidate, accept);
    var w := candidate(words[k]);
    assert words[..k + 1][..k] == words[..k];
    assert Kept(words[..k + 1], candidate, accept) == prev + (if accept(w) then [w] else []);
    if accept(w) {
      assert (prev + [w])[..|prev|] == prev;
    } else {
      assert prev + [] == prev;
    }
  }

  /** The inner loop over a content line's words: each word is passed through the
      candidate function and, if accepted, added to `d` or has its count raised. */
  method CountWords(d0: Table, words: seq<string>, candidate: string -> string,
                    accept: string -> bool) returns (d: Table)
    ensures d == RecordAll(d0, Kept(words, candidate, accept))
  {
    d := d0;
    var k := 0;
    while k < |words|
      invariant k <= |words|
      invariant d == RecordAll(d0, Kept(words[..k], candidate, accept))
    {
      CountNext(d0, words, k, candidate, accept);
      var word := candidate(words[k]);
      if accept(word) {
        d := Count(d, word);
      }
      k := k + 1;
    }
    assert words[..k] == words;
  }

  /** The body of the per-document loop for one line: blank lines are skipped, the
      line is normalised and tested against the three patterns in order, and a content
      line has its words counted; `ended` reports the end marker (the loop's `break`). */
  method ScanLine(r: Rules, flag0: nat, d0: Table, raw: string) returns (flag: nat, d: Table, ended: bool)
    ensures ScanState(flag, d, ended) == Step(r, ScanState(flag0, d0, false), raw)
  {
    flag, d, ended := flag0, d0, false;
    if r.blank(raw) {
      return;
    }
    var line := r.prepare(raw);
    if r.heading(line) && flag == 0 {
      d := Empty;
      flag := 1;
    } else if r.falsePositive(line) && flag == 1 {
      flag := 0;
    } else if r.endMarker(line) && flag > 1 {
      flag := 0;
      ended := true;
    } else if flag > 0 {
      flag := flag + 1;
      d := CountWords(d, r.words(line), r.candidate, r.accept);
    }
  }

  /** The per-document loop: `flag` and `d` start afresh and every line goes through
      the loop body until the end marker breaks out of the loop. */
  method ScanDocument(r: Rules, lines: seq<string>) returns (flag: nat, d: Table, ended: bool)
    ensures ScanState(flag, d, ended) == Run(r, lines)
  {
    flag, d, ended := 0, Empty, false;
    var n := 0;
    while n < |lines|
      invariant n <= |lines|
      invariant !ended
      invariant ScanState(flag, d, ended) == Run(r, lines[..n])
    {
      RunNext(r, lines, n);
      flag, d, ended := ScanLine(r, flag, d, lines[n]);
      n := n + 1;
      if ended {
        EndIsFinal(r, lines, n);
        break;
      }
    }
    assert ended || lines[..n] == lines;
  }
}
