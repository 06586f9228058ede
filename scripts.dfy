/** The two scripts as instances of the per-document loop: each supplies its own line
    rules, and both count words with the same acceptance test. */
module Scripts {
  import opened Text
  import opened Tokens
  import opened Scanner
  import Py2Rules
  import Py3Rules

  /** Which script runs; the Python 2 script also passes every word through its
      lemmatizer, whose behaviour is not modelled. */
  datatype Script = Py2(lemmatize: string -> string) | Py3

  /** The Python 3 script tests each word as it is. */
  function Unchanged(w: string): string {
    w
  }

  /** The line rules of each script. */
  function RulesOf(s: Script): Rules {
    match s
    case Py2(lemmatize) =>
      Rules(Py2Rules.IsBlank, Py2Rules.Normalize, Py2Rules.IsHeading, Py2Rules.IsFalsePositive,
            Py2Rules.IsEndMarker, Py2Rules.ContentWords, lemmatize, Accept)
    case Py3 =>
      Rules(Py3Rules.IsBlank, Py3Rules.Stripped, Py3Rules.IsHeading, Py3Rules.IsFalsePositive,
            Py3Rules.IsEndMarker, Py3Rules.ContentWords, Unchanged, Accept)
  }

  /** Every word in a document's dictionary passed the acceptance test: at least three
      characters, no digit, not a stop word. */
  lemma CountedWordsAreAccepted(s: Script, lines: seq<string>)
    ensures forall w :: w in Run(RulesOf(s), lines).table.counts ==> Accept(w)
  {
    TableOfDocument(RulesOf(s), lines);
  }

  /** Inside the section a page number is counted like any other line: neither script's
      end marker can match a line the page-number test accepts. */
  lemma PageNumberInsideSection(s: Script, flag: nat, raw: string)
    requires flag > 1
    ensures !RulesOf(s).blank(raw) && RulesOf(s).falsePositive(RulesOf(s).prepare(raw)) ==>
              Classify(RulesOf(s), flag, raw) == Content
  {
    var r := RulesOf(s);
    var line := r.prepare(raw);
    assert r.falsePositive(line) ==> !r.endMarker(line) by {
      if s.Py2? {
        assert r.falsePositive == Py2Rules.IsFalsePositive && r.endMarker == Py2Rules.IsEndMarker;
        Py2Rules.PageNumberIsNoMarker(line);
      } else {
        assert r.falsePositive == Py3Rules.IsFalsePositive && r.endMarker == Py3Rules.IsEndMarker;
        Py3Rules.PageNumberIsNoEndMarker(line);
      }
    }
  }

  /** Right after the heading an end-marker line is counted, not taken for a page
      number: it starts with "Item", so neither script's page-number test accepts it. */
  lemma MarkerAfterHeadingIsContent(s: Script, raw: string)
    ensures !RulesOf(s).blank(raw) && RulesOf(s).endMarker(RulesOf(s).prepare(raw)) ==>
              Classify(RulesOf(s), 1, raw) == Content
  {
    var r := RulesOf(s);
    var line := r.prepare(raw);
    assert r.endMarker(line) ==> !r.falsePositive(line) by {
      if s.Py2? {
        assert r.falsePositive == Py2Rules.IsFalsePositive && r.endMarker == Py2Rules.IsEndMarker;
        Py2Rules.PageNumberIsNoMarker(line);
      } else {
        assert r.falsePositive == Py3Rules.IsFalsePositive && r.endMarker == Py3Rules.IsEndMarker;
        Py3Rules.PageNumberIsNoEndMarker(line);
      }
    }
  }

  /** The two end markers differ: a line "Item 1B" with no period ends the section for
      the Python 2 script but is counted as content by the Python 3 script. */
  lemma EndMarkerPeriod()
    ensures Py2Rules.IsEndMarker("Item 1B")
    ensures !Py3Rules.IsEndMarker("Item 1B")
  {
    var line := "Item 1B";
    assert line[4..] == " 1B" && line[5..] == "1B";
    assert LeadingSpaces(" 1B", Py2Rules.RegexSpace) == 1 by {
      assert (" 1B")[1..] == "1B";
    }
    assert LeadingSpaces(" 1B", IsSpace) == 1 by {
      assert (" 1B")[1..] == "1B";
    }
  }
}
