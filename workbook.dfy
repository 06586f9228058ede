/** The workbook both scripts build: one worksheet per filing, in the order of the
    filings, each listing that filing's dictionary ranked by count. */
module Workbook {
  import opened Frequency
  import opened Ranking
  import opened Scanner

  /** A worksheet row: the label row (`Year`, `Word`, `Count`) or one ranked entry. */
  datatype Row = Labels | WordRow(year: nat, word: string, count: nat)

  /** A worksheet: its title (`str(count + 2006)`, kept as the number) and its rows. */
  datatype Sheet = Sheet(title: nat, rows: seq<Row>)

  /** The year of the `count`-th filing; filings are counted from 1. */
  function Year(count: nat): nat {
    count + 2006
  }

  /** The rows below the labels: one per ranked entry, in ranking order. */
  function EntryRows(year: nat, ranked: seq<Entry>): seq<Row> {
    seq(|ranked|, k requires 0 <= k < |ranked| => WordRow(year, ranked[k].0, ranked[k].1))
  }

  /** The worksheet of the `count`-th filing. */
  function SheetFor(count: nat, ranked: seq<Entry>): Sheet {
    Sheet(Year(count), [Labels] + EntryRows(Year(count), ranked))
  }

  /** The worksheets of all filings, each from its own document only. */
  function Sheets(r: Rules, docs: seq<seq<string>>): seq<Sheet> {
    seq(|docs|, i requires 0 <= i < |docs| => SheetFor(i + 1, Rank(Run(r, docs[i]).table)))
  }

  /** Filling one worksheet: the labels in row 1, then one row per ranked entry. */
  method WriteSheet(count: nat, ranked: seq<Entry>) returns (sheet: Sheet)
    ensures sheet == SheetFor(count, ranked)
  {
    var rows := [Labels];
    var k := 0;
    while k < |ranked|
      invariant k <= |ranked|
      invariant rows == [Labels] + EntryRows(Year(count), ranked[..k])
    {
      var (x, y) := ranked[k];
      rows := rows + [WordRow(count + 2006, x, y)];
      k := k + 1;
      assert EntryRows(Year(count), ranked[..k]) == EntryRows(Year(count), ranked[..k - 1]) + [WordRow(count + 2006, x, y)];
    }
    assert ranked[..k] == ranked;
    sheet := Sheet(count + 2006, rows);
  }

  /** The outer loop over the filings: each document is scanned from a fresh `flag` and
      an empty dictionary, and its ranked dictionary becomes the next worksheet. */
  method ProcessFilings(r: Rules, docs: seq<seq<string>>) returns (book: seq<Sheet>)
    ensures book == Sheets(r, docs)
  {
    book := [];
    var count := 1;
    while count <= |docs|
      invariant 1 <= count <= |docs| + 1
      invariant |book| == count - 1
      invariant forall i :: 0 <= i < |book| ==> book[i] == Sheets(r, docs)[i]
    {
      var flag, d, ended := ScanDocument(r, docs[count - 1]);
      var sheet := WriteSheet(count, Rank(d));
      book := book + [sheet];
      count := count + 1;
    }
  }

  /** The rows of a worksheet, one by one. */
  lemma SheetRows(count: nat, ranked: seq<Entry>)
    ensures var sh := SheetFor(count, ranked);
      && |sh.rows| == |ranked| + 1
      && sh.rows[0] == Labels
      && forall k :: 1 <= k < |sh.rows| ==> sh.rows[k] == WordRow(Year(count), ranked[k - 1].0, ranked[k - 1].1)
  {
  }

  /** Each entry row of a dictionary's worksheet holds a word of the dictionary with
      its count ... */
  lemma RankedSheetEntries(count: nat, t: Table)
    requires Valid(t)
    ensures var sh := SheetFor(count, Rank(t));
      && |sh.rows| == |t.keys| + 1
      && forall k :: 1 <= k < |sh.rows| ==>
           sh.rows[k].WordRow? && sh.rows[k].year == Year(count)
           && sh.rows[k].word in t.counts && sh.rows[k].count == t.counts[sh.rows[k].word]
  {
    RankIsStableSort(t);
    var ranked := Rank(t);
    SheetRows(count, ranked);
    forall k | 0 <= k < |ranked| ensures ranked[k].0 in t.counts && ranked[k].1 == t.counts[ranked[k].0] {
      assert ranked[k] in ranked;
    }
  }

  /** ... every word of the dictionary has a row ... */
  lemma RankedSheetCovers(count: nat, t: Table)
    requires Valid(t)
    ensures var sh := SheetFor(count, Rank(t));
      forall w :: w in t.counts ==>
        exists k :: 1 <= k < |sh.rows| && sh.rows[k] == WordRow(Year(count), w, t.counts[w])
  {
    RankIsStableSort(t);
    var ranked := Rank(t);
    SheetRows(count, ranked);
    var sh := SheetFor(count, ranked);
    forall w | w in t.counts
      ensures exists k :: 1 <= k < |sh.rows| && sh.rows[k] == WordRow(Year(count), w, t.counts[w])
    {
      var k :| 0 <= k < |ranked| && ranked[k] == (w, t.counts[w]);
      assert sh.rows[k + 1] == WordRow(Year(count), w, t.counts[w]);
    }
  }

  /** ... and the rows go from the highest count to the lowest. */
  lemma RankedSheetOrder(count: nat, t: Table)
    requires Valid(t)
    ensures var sh := SheetFor(count, Rank(t));
      forall k, l :: 1 <= k < l < |sh.rows| ==>
        sh.rows[k].WordRow? && sh.rows[l].WordRow? && sh.rows[k].count >= sh.rows[l].count
  {
    RankIsStableSort(t);
    SheetRows(count, Rank(t));
  }

  /** Each worksheet is titled with its filing's year and lists every word of that
      filing's dictionary once, with its count, from the highest count to the lowest. */
  lemma SheetContents(r: Rules, docs: seq<seq<string>>, i: nat)
    requires i < |docs|
    ensures var sh, t := Sheets(r, docs)[i], Run(r, docs[i]).table;
      && sh.title == 2007 + i
      && |sh.rows| == |t.keys| + 1
      && sh.rows[0] == Labels
      && (forall k :: 1 <= k < |sh.rows| ==>
            sh.rows[k].WordRow? && sh.rows[k].year == 2007 + i
            && sh.rows[k].word in t.counts && sh.rows[k].count == t.counts[sh.rows[k].word])
      && (forall w :: w in t.counts ==>
            exists k :: 1 <= k < |sh.rows| && sh.rows[k] == WordRow(2007 + i, w, t.counts[w]))
      && forall k, l :: 1 <= k < l < |sh.rows| ==>
            sh.rows[k].WordRow? && sh.rows[l].WordRow? && sh.rows[k].count >= sh.rows[l].count
  {
    var t := Run(r, docs[i]).table;
    TableOfDocument(r, docs[i]);
    RankedSheetEntries(i + 1, t);
    RankedSheetCovers(i + 1, t);
    RankedSheetOrder(i + 1, t);
    SheetRows(i + 1, Rank(t));
    assert Sheets(r, docs)[i] == SheetFor(i + 1, Rank(t));
  }

  /** A filing whose text never reaches the heading gets a worksheet with the labels
      only, whatever the filings before it held: the dictionary is emptied between
      filings. */
  lemma NoHeadingEmptySheet(r: Rules, docs: seq<seq<string>>, i: nat)
    requires i < |docs|
    requires forall j :: 0 <= j < |docs[i]| ==> r.blank(docs[i][j]) || !r.heading(r.prepare(docs[i][j]))
    ensures Sheets(r, docs)[i] == Sheet(2007 + i, [Labels])
  {
    NoHeadingNoWords(r, docs[i]);
    assert Rank(Empty) == [];
  }

  /** Where the word was first counted in the filing (past the end if never). */
  function FirstSeen(toks: seq<string>, w: string): nat {
    if w in toks then FirstIndex(toks, w) else |toks|
  }

  /** A dictionary that lists its words in the order they were first counted ... */
  lemma KeysInFirstSeenOrder(r: Rules, lines: seq<string>, t: Table, toks: seq<string>)
    requires t == Run(r, lines).table && toks == ContentTokens(r, lines)
    ensures forall a, b :: 0 <= a < b < |t.keys| ==> FirstSeen(toks, t.keys[a]) < FirstSeen(toks, t.keys[b])
  {
    TableOfDocument(r, lines);
    forall a, b | 0 <= a < b < |t.keys| ensures FirstSeen(toks, t.keys[a]) < FirstSeen(toks, t.keys[b]) {
      assert t.keys[a] in toks && t.keys[b] in toks;
    }
  }

  /** ... keeps that order among words of equal count on its worksheet. */
  lemma RankedTies(count: nat, t: Table, toks: seq<string>)
    requires Listed(t)
    requires forall a, b :: 0 <= a < b < |t.keys| ==> FirstSeen(toks, t.keys[a]) < FirstSeen(toks, t.keys[b])
    ensures var sh := SheetFor(count, Rank(t));
      forall k, l :: 1 <= k < l < |sh.rows| && sh.rows[k].WordRow? && sh.rows[l].WordRow?
                     && sh.rows[k].count == sh.rows[l].count ==>
        FirstSeen(toks, sh.rows[k].word) < FirstSeen(toks, sh.rows[l].word)
  {
    var pos := (w: string) => FirstSeen(toks, w) as int;
    var items := Items(t);
    forall a, b | 0 <= a < b < |items| && items[a].1 == items[b].1
      ensures pos(items[a].0) < pos(items[b].0)
    {
      assert items[a].0 == t.keys[a] && items[b].0 == t.keys[b];
    }
    var ranked := SortByCount(items);
    StableSortKeepsTies(items, ranked, pos);
    SheetRows(count, ranked);
  }

  /** With a dictionary that keeps insertion order, words of equal count are listed in
      the order they were first counted in the filing. */
  lemma TiesInFirstSeenOrder(r: Rules, docs: seq<seq<string>>, i: nat)
    requires i < |docs|
    ensures var sh, toks := Sheets(r, docs)[i], ContentTokens(r, docs[i]);
      forall k, l :: 1 <= k < l < |sh.rows| && sh.rows[k].WordRow? && sh.rows[l].WordRow?
                     && sh.rows[k].count == sh.rows[l].count ==>
        FirstSeen(toks, sh.rows[k].word) < FirstSeen(toks, sh.rows[l].word)
  {
    var st, toks := Run(r, docs[i]), ContentTokens(r, docs[i]);
    var t := st.table;
    assert Listed(t);
    KeysInFirstSeenOrder(r, docs[i], t, toks);
    RankedTies(i + 1, t, toks);
    assert Sheets(r, docs)[i] == SheetFor(i + 1, Rank(t));
  }
}
