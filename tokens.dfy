/** The token filter shared by both scripts: the stop-word list and the acceptance
    test applied to every word of a content line. */
module Tokens {
  import opened Text

  /** The `stopWords` tuple; only membership is ever asked of it. */
  const StopWords: set<string> := {
    "a", "able", "about", "across", "after", "all", "almost",
    "also", "am", "among", "an", "and", "any", "are", "as",
    "at", "be", "because", "been", "but", "by", "can", "cannot",
    "company", "companys", "could", "dear", "did", "do", "does", "either",
    "else", "ever", "every", "for", "from", "get", "got", "had", "has",
    "have", "he", "her", "hers", "him", "his", "how", "however",
    "i", "if", "in", "into", "is", "it", "its", "just", "least",
    "let", "like", "likely", "may", "me", "might", "most",
    "must", "my", "neither", "new", "no", "nor", "not", "of", "off",
    "often", "on", "only", "or", "other", "our", "own", "rather",
    "said", "say", "says", "she", "should", "since", "so", "some",
    "such", "than", "that", "the", "their", "them", "then", "there",
    "these", "they", "this", "tis", "to", "too", "twas", "us",
    "wants", "was", "we", "were", "what", "when", "where", "which",
    "while", "who", "whom", "why", "will", "with", "would", "yet",
    "you", "your"
  }

  /** `re.search(r"[0-9]", word)` */
  predicate HasDigit(w: string) {
    exists i :: 0 <= i < |w| && IsAsciiDigit(w[i])
  }

  /** A word is counted unless it holds a digit, is shorter than three characters or is
      a stop word. */
  predicate Accept(w: string) {
    !HasDigit(w) && |w| >= 3 && w !in StopWords
  }

  /** The words of one content line that reach the dictionary, in line order: each word
      is first passed through `f` (the lemmatizer, or nothing) and then tested with
      `keep` (which both scripts instantiate with `Accept`). */
  function Kept(ws: seq<string>, f: string -> string, keep: string -> bool): (r: seq<string>)
    ensures |r| <= |ws|
    ensures forall x :: x in r <==> keep(x) && exists w :: w in ws && f(w) == x
  {
    if ws == [] then []
    else
      var last := ws[|ws| - 1];
      assert ws == ws[..|ws| - 1] + [last];
      Kept(ws[..|ws| - 1], f, keep) + (if keep(f(last)) then [f(last)] else [])
  }
  /** Each word after `f`, in order. */
  function Candidates(ws: seq<string>, f: string -> string): seq<string> {
    seq(|ws|, i requires 0 <= i < |ws| => f(ws[i]))
  }

  /** One word is kept, after `f`, exactly when it passes. */
  lemma KeptOne(w: string, f: string -> string, keep: string -> bool)
    ensures Kept([w], f, keep) == if keep(f(w)) then [f(w)] else []
  {
    assert [w][..0] == [];
  }

  /** Keeping respects order: the words of `a + b` are kept as those of `a`, then those
      of `b`. */
  lemma {:induction false} KeptAppend(a: seq<string>, b: seq<string>, f: string -> string,
                                      keep: string -> bool)
    ensures Kept(a + b, f, keep) == Kept(a, f, keep) + Kept(b, f, keep)
    decreases |b|
  {
    if b == [] {
      assert a + b == a;
    } else {
      var last := b[|b| - 1];
      var t := if keep(f(last)) then [f(last)] else [];
      calc {
        Kept(a + b, f, keep);
      == { assert (a + b)[..|a + b| - 1] == a + b[..|b| - 1] && (a + b)[|a + b| - 1] == last; }
        Kept(a + b[..|b| - 1], f, keep) + t;
      == { KeptAppend(a, b[..|b| - 1], f, keep); }
        (Kept(a, f, keep) + Kept(b[..|b| - 1], f, keep)) + t;
      ==
        Kept(a, f, keep) + (Kept(b[..|b| - 1], f, keep) + t);
      }
    }
  }

  /** Keeping keeps every occurrence of a passing word and none of the others. */
  lemma {:induction false} KeptCounts(ws: seq<string>, f: string -> string, keep: string -> bool)
    ensures forall x ::
      multiset(Kept(ws, f, keep))[x] == if keep(x) then multiset(Candidates(ws, f))[x] else 0
    decreases |ws|
  {
    if ws != [] {
      var init := ws[..|ws| - 1];
      KeptCounts(init, f, keep);
      assert Candidates(ws, f) == Candidates(init, f) + [f(ws[|ws| - 1])];
    }
  }
}
