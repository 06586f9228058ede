/** `sorted(d.items(), key = lambda x: x[1], reverse = True)`: the entries of a
    dictionary ordered by count, highest first, with a stable sort. */
module Ranking {
  import opened Frequency

  type Entry = (string, nat)

  /** `d.items()`, in the dictionary's insertion order. */
  function Items(t: Table): (r: seq<Entry>)
    requires Listed(t)
    ensures |r| == |t.keys|
    ensures forall i :: 0 <= i < |r| ==> r[i] == (t.keys[i], t.counts[t.keys[i]])
  {
    seq(|t.keys|, i requires 0 <= i < |t.keys| => (t.keys[i], t.counts[t.keys[i]]))
  }

  ghost predicate NonIncreasing(s: seq<Entry>) {
    forall i, j :: 0 <= i < j < |s| ==> s[i].1 >= s[j].1
  }

  /** The entries whose count is `c`, in their order in `s`. */
  function WithCount(s: seq<Entry>, c: nat): seq<Entry> {
    if s == [] then [] else (if s[0].1 == c then [s[0]] else []) + WithCount(s[1..], c)
  }

  lemma {:induction false} WithCountAppend(a: seq<Entry>, b: seq<Entry>, c: nat)
    ensures WithCount(a + b, c) == WithCount(a, c) + WithCount(b, c)
    decreases |a|
  {
    if a == [] {
      assert a + b == b;
    } else {
      var ab, h := a + b, if a[0].1 == c then [a[0]] else [];
      assert ab[0] == a[0] && ab[1..] == a[1..] + b;
      assert WithCount(ab, c) == h + WithCount(a[1..] + b, c);
      WithCountAppend(a[1..], b, c);
      assert WithCount(a, c) == h + WithCount(a[1..], c);
    }
  }

  lemma {:induction false} WithCountNone(s: seq<Entry>, c: nat)
    requires forall i :: 0 <= i < |s| ==> s[i].1 < c
    ensures WithCount(s, c) == []
    decreases |s|
  {
    if s != [] {
      WithCountNone(s[1..], c);
    }
  }

  /** Every entry of `WithCount(s, c)` is an entry of `s` with count `c`, and back. */
  lemma {:induction false} WithCountMembers(s: seq<Entry>, c: nat)
    ensures forall e :: e in WithCount(s, c) <==> e in s && e.1 == c
    decreases |s|
  {
    if s != [] {
      WithCountMembers(s[1..], c);
      assert s == [s[0]] + s[1..];
    }
  }

  /** Entries of equal count appear in increasing order of `pos` of their words. */
  ghost predicate TiesOrdered(s: seq<Entry>, pos: string -> int) {
    forall i, j :: 0 <= i < j < |s| && s[i].1 == s[j].1 ==> pos(s[i].0) < pos(s[j].0)
  }

  ghost predicate Increasing(s: seq<Entry>, pos: string -> int) {
    forall i, j :: 0 <= i < j < |s| ==> pos(s[i].0) < pos(s[j].0)
  }

  /** Ties in order means every group of equal counts is in order ... */
  lemma {:induction false} TiesOrderedGroups(s: seq<Entry>, pos: string -> int, c: nat)
    requires TiesOrdered(s, pos)
    ensures Increasing(WithCount(s, c), pos)
    decreases |s|
  {
    if s != [] {
      var tail := s[1..];
      assert TiesOrdered(tail, pos) by {
        forall i, j | 0 <= i < j < |tail| && tail[i].1 == tail[j].1
          ensures pos(tail[i].0) < pos(tail[j].0)
        {
          assert tail[i] == s[i + 1] && tail[j] == s[j + 1];
        }
      }
      TiesOrderedGroups(tail, pos, c);
      if s[0].1 == c {
        var g, rest := WithCount(s, c), WithCount(tail, c);
        assert g == [s[0]] + rest;
        assert forall j :: 0 <= j < |rest| ==> pos(s[0].0) < pos(rest[j].0) by {
          WithCountMembers(tail, c);
          forall j | 0 <= j < |rest| ensures pos(s[0].0) < pos(rest[j].0) {
            var k :| 0 <= k < |tail| && tail[k] == rest[j];
            assert s[k + 1] == rest[j];
          }
        }
        forall i, j | 0 <= i < j < |g| ensures pos(g[i].0) < pos(g[j].0) {
          assert g[j] == rest[j - 1];
          if i > 0 {
            assert g[i] == rest[i - 1];
          }
        }
      }
    }
  }

  /** ... and conversely. */
  lemma {:induction false} GroupsTiesOrdered(s: seq<Entry>, pos: string -> int)
    requires forall c :: Increasing(WithCount(s, c), pos)
    ensures TiesOrdered(s, pos)
    decreases |s|
  {
    if s != [] {
      var tail := s[1..];
      forall c ensures Increasing(WithCount(tail, c), pos) {
        GroupOfTail(s, pos, c);
      }
      GroupsTiesOrdered(tail, pos);
      forall i, j | 0 <= i < j < |s| && s[i].1 == s[j].1 ensures pos(s[i].0) < pos(s[j].0) {
        if i == 0 {
          HeadBeforeTies(s, pos, j);
        } else {
          assert s[i] == tail[i - 1] && s[j] == tail[j - 1];
        }
      }
    }
  }

  lemma GroupOfTail(s: seq<Entry>, pos: string -> int, c: nat)
    requires s != [] && Increasing(WithCount(s, c), pos)
    ensures Increasing(WithCount(s[1..], c), pos)
  {
    var g, rest := WithCount(s, c), WithCount(s[1..], c);
    if s[0].1 == c {
      assert g == [s[0]] + rest;
      forall i, j | 0 <= i < j < |rest| ensures pos(rest[i].0) < pos(rest[j].0) {
        assert rest[i] == g[i + 1] && rest[j] == g[j + 1];
      }
    } else {
      assert g == [] + rest;
      assert g == rest;
    }
  }

  lemma HeadBeforeTies(s: seq<Entry>, pos: string -> int, j: nat)
    requires 0 < j < |s| && s[0].1 == s[j].1
    requires Increasing(WithCount(s, s[0].1), pos)
    ensures pos(s[0].0) < pos(s[j].0)
  {
    var tail := s[1..];
    var c := s[0].1;
    var g, rest := WithCount(s, c), WithCount(tail, c);
    assert g == [s[0]] + rest;
    WithCountMembers(tail, c);
    assert s[j] == tail[j - 1];
    var q :| 0 <= q < |rest| && rest[q] == s[j];
    assert g[0] == s[0] && g[q + 1] == s[j];
  }

  /** A sort that keeps the entries of every count in their input order keeps ties in
      order, whatever order they were in. */
  lemma StableSortKeepsTies(xs: seq<Entry>, r: seq<Entry>, pos: string -> int)
    requires forall c :: WithCount(r, c) == WithCount(xs, c)
    requires TiesOrdered(xs, pos)
    ensures TiesOrdered(r, pos)
  {
    forall c ensures Increasing(WithCount(r, c), pos) {
      TiesOrderedGroups(xs, pos, c);
    }
    GroupsTiesOrdered(r, pos);
  }

  /** Places `x` after every entry of `s` whose count is at least its own: as `x` comes
      after the entries of `s` in the input, equal counts keep their input order. */
  function Insert(s: seq<Entry>, x: Entry): (r: seq<Entry>)
    requires NonIncreasing(s)
    ensures NonIncreasing(r)
    ensures multiset(r) == multiset(s) + multiset{x}
    ensures forall c :: WithCount(r, c) == WithCount(s, c) + (if x.1 == c then [x] else [])
  {
    if s == [] then
      assert WithCount([x], x.1) == [x] + WithCount([], x.1);
      [x]
    else if s[0].1 < x.1 then
      InsertFront(s, x);
      [x] + s
    else
      var rest := Insert(s[1..], x);
      InsertAfterHead(s, x, rest);
      [s[0]] + rest
  }

  lemma InsertFront(s: seq<Entry>, x: Entry)
    requires NonIncreasing(s) && s != [] && s[0].1 < x.1
    ensures NonIncreasing([x] + s)
    ensures forall c :: WithCount([x] + s, c) == WithCount(s, c) + (if x.1 == c then [x] else [])
  {
    var r := [x] + s;
    assert r[1..] == s;
    forall i, j | 0 <= i < j < |r| ensures r[i].1 >= r[j].1 {
      if i == 0 {
        assert r[j] == s[j - 1];
      } else {
        assert r[i] == s[i - 1] && r[j] == s[j - 1];
      }
    }
    WithCountNone(s, x.1);
  }

  lemma InsertAfterHead(s: seq<Entry>, x: Entry, rest: seq<Entry>)
    requires NonIncreasing(s) && s != [] && s[0].1 >= x.1
    requires NonIncreasing(rest)
    requires multiset(rest) == multiset(s[1..]) + multiset{x}
    requires forall c :: WithCount(rest, c) == WithCount(s[1..], c) + (if x.1 == c then [x] else [])
    ensures NonIncreasing([s[0]] + rest)
    ensures multiset([s[0]] + rest) == multiset(s) + multiset{x}
    ensures forall c :: WithCount([s[0]] + rest, c) == WithCount(s, c) + (if x.1 == c then [x] else [])
  {
    assert NonIncreasing([s[0]] + rest) by {
      HeadStaysFirst(s, x, rest);
    }
    assert multiset([s[0]] + rest) == multiset(s) + multiset{x} by {
      assert s == [s[0]] + s[1..];
      assert multiset(s) == multiset{s[0]} + multiset(s[1..]);
    }
    forall c ensures WithCount([s[0]] + rest, c) == WithCount(s, c) + (if x.1 == c then [x] else []) {
      HeadCountStep(s, x, rest, c);
    }
  }

  /** With `s[0]` in front, the group of count `c` gains `s[0]` in front when it has
      that count. */
  lemma HeadCountStep(s: seq<Entry>, x: Entry, rest: seq<Entry>, c: nat)
    requires s != []
    requires WithCount(rest, c) == WithCount(s[1..], c) + (if x.1 == c then [x] else [])
    ensures WithCount([s[0]] + rest, c) == WithCount(s, c) + (if x.1 == c then [x] else [])
  {
    HeadCount(s, rest, c);
    var h: seq<Entry> := if s[0].1 == c then [s[0]] else [];
    var e: seq<Entry> := if x.1 == c then [x] else [];
    assert h + (WithCount(s[1..], c) + e) == (h + WithCount(s[1..], c)) + e;
  }

  lemma HeadCount(s: seq<Entry>, rest: seq<Entry>, c: nat)
    requires s != []
    ensures WithCount([s[0]] + rest, c) == (if s[0].1 == c then [s[0]] else []) + WithCount(rest, c)
    ensures WithCount(s, c) == (if s[0].1 == c then [s[0]] else []) + WithCount(s[1..], c)
  {
    assert ([s[0]] + rest)[1..] == rest;
  }

  lemma HeadStaysFirst(s: seq<Entry>, x: Entry, rest: seq<Entry>)
    requires NonIncreasing(s) && s != [] && s[0].1 >= x.1
    requires NonIncreasing(rest)
    requires multiset(rest) == multiset(s[1..]) + multiset{x}
    ensures NonIncreasing([s[0]] + rest)
  {
    var r := [s[0]] + rest;
    BoundedByHead(s, x, rest);
    forall i, j | 0 <= i < j < |r| ensures r[i].1 >= r[j].1 {
      assert r[j] == rest[j - 1];
      if i > 0 {
        assert r[i] == rest[i - 1];
      }
    }
  }

  lemma BoundedByHead(s: seq<Entry>, x: Entry, rest: seq<Entry>)
    requires NonIncreasing(s) && s != [] && s[0].1 >= x.1
    requires multiset(rest) == multiset(s[1..]) + multiset{x}
    ensures forall k :: 0 <= k < |rest| ==> rest[k].1 <= s[0].1
  {
    forall k | 0 <= k < |rest| ensures rest[k].1 <= s[0].1 {
      var y := rest[k];
      assert y in multiset(rest);
      if y != x {
        assert y in multiset(s[1..]);
        assert y in s[1..];
        var m :| 0 <= m < |s[1..]| && s[1..][m] == y;
        assert s[m + 1] == y;
      }
    }
  }

  /** A stable sort on counts, highest first: a permutation of its input, ordered by
      non-increasing count, in which the entries of any one count keep their input order. */
  function SortByCount(xs: seq<Entry>): (r: seq<Entry>)
    ensures NonIncreasing(r)
    ensures multiset(r) == multiset(xs)
    ensures forall c :: WithCount(r, c) == WithCount(xs, c)
  {
    if xs == [] then []
    else
      var init, last := xs[..|xs| - 1], xs[|xs| - 1];
      assert xs == init + [last];
      var one: seq<Entry> := [last];
      assert one[1..] == [];
      assert forall c :: WithCount(xs, c) == WithCount(init, c) + (if last.1 == c then [last] else []) by {
        forall c ensures WithCount(xs, c) == WithCount(init, c) + (if last.1 == c then [last] else []) {
          WithCountAppend(init, [last], c);
        }
      }
      Insert(SortByCount(init), last)
  }

  /** The ranked list the script writes to the worksheet and prints. */
  function Rank(t: Table): (r: seq<Entry>)
    requires Listed(t)
    ensures NonIncreasing(r)
    ensures multiset(r) == multiset(Items(t))
  {
    SortByCount(Items(t))
  }

  /** The ranking holds each word of the dictionary exactly once with its count, in
      non-increasing order of count; words of equal count keep the dictionary's order. */
  lemma RankIsStableSort(t: Table)
    requires Valid(t)
    ensures var r := Rank(t);
      && |r| == |t.keys|
      && (forall e :: e in r <==> e.0 in t.counts && e.1 == t.counts[e.0])
      && NonIncreasing(r)
      && forall c :: WithCount(r, c) == WithCount(Items(t), c)
  {
    var items := Items(t);
    var r := Rank(t);
    assert |r| == |items| by {
      assert |multiset(r)| == |multiset(items)|;
    }
    forall e ensures e in r <==> e.0 in t.counts && e.1 == t.counts[e.0] {
      assert e in r <==> e in multiset(items);
      if e.0 in t.counts && e.1 == t.counts[e.0] {
        var i :| 0 <= i < |t.keys| && t.keys[i] == e.0;
        assert items[i] == e;
      }
    }
  }
}
