/** The per-document dictionary `d`: word -> count, together with the order in which
    its words were first inserted (the order `d.items()` yields on Python 3.7+). */
module Frequency {

  datatype Table = Table(keys: seq<string>, counts: map<string, nat>)

  /** `d` right after `d.clear()` or `dict()`. */
  const Empty: Table := Table([], map[])

  /** Every key listed once, the listed keys are exactly the dictionary's, and every
      count is positive. */
  ghost predicate Valid(t: Table) {
    && (forall i, j :: 0 <= i < j < |t.keys| ==> t.keys[i] != t.keys[j])
    && (forall w :: w in t.counts <==> w in t.keys)
    && (forall w :: w in t.counts ==> t.counts[w] >= 1)
  }

  /** Every listed key has a count (what `d.items()` needs to pair them up). */
  predicate Listed(t: Table) {
    forall w :: w in t.keys ==> w in t.counts
  }

  /** `if word not in d: d[word] = 1` / `else: d[word] = d[word] + 1` */
  function Record(t: Table, w: string): (r: Table)
    ensures w in r.counts && r.counts[w] == (if w in t.counts then t.counts[w] + 1 else 1)
    ensures forall x :: x != w ==> (x in r.counts <==> x in t.counts)
    ensures forall x :: x != w && x in t.counts ==> r.counts[x] == t.counts[x]
    ensures r.keys == if w in t.counts then t.keys else t.keys + [w]
  {
    if w in t.counts then Table(t.keys, t.counts[w := t.counts[w] + 1])
    else Table(t.keys + [w], t.counts[w := 1])
  }

  /** Recording a word keeps the dictionary valid. */
  lemma RecordValid(t: Table, w: string)
    requires Valid(t)
    ensures Valid(Record(t, w))
  {
  }

  /** The dictionary update itself: a new word is added with count 1, a known word has
      its count raised by one. */
  method Count(d: Table, word: string) returns (e: Table)
    ensures e == Record(d, word)
  {
    if word !in d.counts {
      e := Table(d.keys + [word], d.counts[word := 1]);
    } else {
      e := d.(counts := d.counts[word := d.counts[word] + 1]);
    }
  }

  /** Recording a whole sequence of words, first to last. */
  function RecordAll(t: Table, ws: seq<string>): (r: Table)
    ensures Listed(t) ==> Listed(r)
  {
    if ws == [] then t else Record(RecordAll(t, ws[..|ws| - 1]), ws[|ws| - 1])
  }

  lemma {:induction false} RecordAllAppend(t: Table, a: seq<string>, b: seq<string>)
    ensures RecordAll(t, a + b) == RecordAll(RecordAll(t, a), b)
    decreases |b|
  {
    if b == [] {
      assert a + b == a;
    } else {
      assert (a + b)[..|a + b| - 1] == a + b[..|b| - 1];
      RecordAllAppend(t, a, b[..|b| - 1]);
    }
  }

  /** Counting words from the empty dictionary keeps it valid; its keys are exactly the
      words seen and each count is the number of times its word occurs. */
  lemma {:induction false} RecordAllCounts(ws: seq<string>)
    ensures Valid(RecordAll(Empty, ws)) && CountsOf(RecordAll(Empty, ws), ws)
    decreases |ws|
  {
    if ws != [] {
      var init, last := ws[..|ws| - 1], ws[|ws| - 1];
      RecordAllCounts(init);
      CountsStep(RecordAll(Empty, init), init, last);
      assert ws == init + [last];
    }
  }

  /** `t` holds exactly the words of `ws`, each with its number of occurrences. */
  ghost predicate CountsOf(t: Table, ws: seq<string>) {
    && (forall w :: w in t.counts <==> w in ws)
    && (forall w :: w in t.counts ==> t.counts[w] == multiset(ws)[w])
  }

  /** Recording one more word keeps the counts those of the words seen. */
  lemma CountsStep(t: Table, ws: seq<string>, x: string)
    requires Valid(t) && CountsOf(t, ws)
    ensures Valid(Record(t, x)) && CountsOf(Record(t, x), ws + [x])
  {
    RecordValid(t, x);
    var r, ws' := Record(t, x), ws + [x];
    assert multiset(ws') == multiset(ws) + multiset{x};
    forall w ensures w in r.counts <==> w in ws' {
      assert w in ws' <==> w in ws || w == x;
    }
  }

  /** Sum of the counts of the listed keys. */
  function Sum(keys: seq<string>, counts: map<string, nat>): nat
    requires forall w :: w in keys ==> w in counts
  {
    if keys == [] then 0 else Sum(keys[..|keys| - 1], counts) + counts[keys[|keys| - 1]]
  }

  /** Sum of all the counts of a dictionary. */
  function Total(t: Table): nat
    requires Valid(t)
  {
    Sum(t.keys, t.counts)
  }

  lemma {:induction false} SumOther(keys: seq<string>, counts: map<string, nat>, w: string, v: nat)
    requires forall x :: x in keys ==> x in counts
    requires w !in keys
    ensures Sum(keys, counts[w := v]) == Sum(keys, counts)
    decreases |keys|
  {
    if keys != [] {
      SumOther(keys[..|keys| - 1], counts, w, v);
    }
  }

  lemma {:induction false} SumBump(keys: seq<string>, counts: map<string, nat>, w: string)
    requires forall x :: x in keys ==> x in counts
    requires forall i, j :: 0 <= i < j < |keys| ==> keys[i] != keys[j]
    requires w in keys
    ensures Sum(keys, counts[w := counts[w] + 1]) == Sum(keys, counts) + 1
    decreases |keys|
  {
    var init, last := keys[..|keys| - 1], keys[|keys| - 1];
    if last == w {
      assert w !in init by {
        forall i | 0 <= i < |init| ensures init[i] != w {
          assert init[i] == keys[i];
        }
      }
      SumOther(init, counts, w, counts[w] + 1);
    } else {
      assert w in init by {
        var i :| 0 <= i < |keys| && keys[i] == w;
        assert i < |init| && init[i] == w;
      }
      SumBump(init, counts, w);
    }
  }

  /** Recording a word already counted adds one to the sum of the counts ... */
  lemma RecordTotalOld(t: Table, w: string)
    requires Valid(t) && w in t.counts
    ensures Valid(Record(t, w)) && Total(Record(t, w)) == Total(t) + 1
  {
    RecordValid(t, w);
    assert Record(t, w).keys == t.keys;
    SumBump(t.keys, t.counts, w);
  }

  /** ... and so does recording a new word. */
  lemma RecordTotalNew(t: Table, w: string)
    requires Valid(t) && w !in t.counts
    ensures Valid(Record(t, w)) && Total(Record(t, w)) == Total(t) + 1
  {
    var r := Record(t, w);
    RecordValid(t, w);
    assert r.keys == t.keys + [w] && r.counts == t.counts[w := 1];
    assert w !in t.keys;
    SumOther(t.keys, t.counts, w, 1);
    SumLast(t.keys, r.counts, w);
  }

  /** The sum over one more key adds that key's count. */
  lemma SumLast(keys: seq<string>, counts: map<string, nat>, w: string)
    requires forall x :: x in keys ==> x in counts
    requires w in counts
    ensures Sum(keys + [w], counts) == Sum(keys, counts) + counts[w]
  {
    assert (keys + [w])[..|keys|] == keys;
  }

  /** The counts add up to the number of words recorded. */
  lemma {:induction false} RecordAllTotal(ws: seq<string>)
    ensures Valid(RecordAll(Empty, ws)) && Total(RecordAll(Empty, ws)) == |ws|
    decreases |ws|
  {
    if ws != [] {
      var init := ws[..|ws| - 1];
      RecordAllTotal(init);
      var t, last := RecordAll(Empty, init), ws[|ws| - 1];
      if last in t.counts {
        RecordTotalOld(t, last);
      } else {
        RecordTotalNew(t, last);
      }
    }
  }

  /** Position of the first occurrence of `w` in `ws`. */
  function FirstIndex(ws: seq<string>, w: string): (i: nat)
    requires w in ws
    ensures i < |ws| && ws[i] == w
    ensures forall j :: 0 <= j < i ==> ws[j] != w
  {
    if ws[0] == w then 0 else 1 + FirstIndex(ws[1..], w)
  }

  lemma {:induction false} FirstIndexExtend(ws: seq<string>, x: string, w: string)
    requires w in ws
    ensures FirstIndex(ws + [x], w) == FirstIndex(ws, w)
  {
    var i := FirstIndex(ws, w);
    var k := FirstIndex(ws + [x], w);
    assert (ws + [x])[i] == w;
  }

  /** `keys` are words of `ws`, listed in the order of their first occurrence there. */
  ghost predicate FirstSeenOrder(keys: seq<string>, ws: seq<string>) {
    && (forall w :: w in keys ==> w in ws)
    && forall i, j :: 0 <= i < j < |keys| ==> FirstIndex(ws, keys[i]) < FirstIndex(ws, keys[j])
  }

  /** One more word keeps the order: a known word moves nothing, a new word goes last. */
  lemma OrderStep(keys: seq<string>, ws: seq<string>, x: string)
    requires FirstSeenOrder(keys, ws)
    requires x in ws ==> x in keys
    ensures FirstSeenOrder(if x in keys then keys else keys + [x], ws + [x])
  {
    forall w | w in keys ensures FirstIndex(ws + [x], w) == FirstIndex(ws, w) {
      FirstIndexExtend(ws, x, w);
    }
    if x !in keys {
      var k := keys + [x];
      assert FirstIndex(ws + [x], x) == |ws|;
      forall i | 0 <= i < |keys| ensures FirstIndex(ws + [x], k[i]) < |ws| {
        assert k[i] == keys[i];
      }
    }
  }

  /** The dictionary lists its words in the order of their first occurrence. */
  lemma {:induction false} RecordAllOrder(ws: seq<string>)
    ensures FirstSeenOrder(RecordAll(Empty, ws).keys, ws)
    decreases |ws|
  {
    if ws != [] {
      var init, last := ws[..|ws| - 1], ws[|ws| - 1];
      var t := RecordAll(Empty, init);
      RecordAllOrder(init);
      assert (last in init ==> last in t.keys) && (last in t.counts <==> last in t.keys) by {
        RecordAllCounts(init);
      }
      OrderStep(t.keys, init, last);
      assert ws == init + [last];
    }
  }
}
