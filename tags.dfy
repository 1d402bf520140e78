/** The `Tag` model of blog/models.py: how many records of each kind carry a
    tag, the merged `(pk, created, type)` rows of all of them, and the ranking
    of the tags that co-occur with it, memoised on the tag object. */
module Tags {
  import opened Content
  import opened Timeline

  // ---------------------------------------------------------------------
  // collections.Counter, as the sequence of its entries in insertion order.

  /** One key of a `Counter` and its count. */
  datatype Tally = Tally(tag: string, count: nat)

  function Names(c: seq<Tally>): seq<string>
  {
    seq(|c|, i requires 0 <= i < |c| => c[i].tag)
  }

  /** `counts[t] += 1`: a key already present keeps its place, a new key is
      added last with count 1. */
  function Bump(c: seq<Tally>, t: string): seq<Tally>
  {
    if c == [] then [Tally(t, 1)]
    else if c[0].tag == t then [Tally(t, c[0].count + 1)] + c[1..]
    else [c[0]] + Bump(c[1..], t)
  }

  /** The counter that `counts.update(s)` builds from an empty one. */
  function CounterOf(s: seq<string>): seq<Tally>
  {
    if s == [] then [] else Bump(CounterOf(s[..|s| - 1]), s[|s| - 1])
  }

  function Occurrences(s: seq<string>, t: string): nat
  {
    multiset(s)[t]
  }

  /** The position of the first `t` in `s`, or `|s|` when there is none. */
  function FirstIndex(s: seq<string>, t: string): (k: nat)
    ensures k <= |s|
    ensures k < |s| <==> t in s
    ensures k < |s| ==> s[k] == t
    ensures forall j :: 0 <= j < k ==> s[j] != t
  {
    if s == [] then 0
    else if s[0] == t then 0
    else 1 + FirstIndex(s[1..], t)
  }

  lemma {:induction false} FirstIndexAppend(s: seq<string>, t: string, x: string)
    requires x in s
    ensures FirstIndex(s + [t], x) == FirstIndex(s, x)
  {
    if s[0] != x {
      FirstIndexAppend(s[1..], t, x);
      assert (s + [t])[1..] == s[1..] + [t];
    }
  }

  /** No key of the counter appears twice. */
  predicate DistinctNames(c: seq<Tally>)
  {
    forall i, j :: 0 <= i < j < |c| ==> c[i].tag != c[j].tag
  }

  lemma BumpSpec(c: seq<Tally>, t: string)
    requires DistinctNames(c)
    ensures t in Names(c) ==>
      && |Bump(c, t)| == |c|
      && forall i :: 0 <= i < |c| ==>
           Bump(c, t)[i].tag == c[i].tag
           && Bump(c, t)[i].count == c[i].count + (if c[i].tag == t then 1 else 0)
    ensures t !in Names(c) ==> Bump(c, t) == c + [Tally(t, 1)]
  {
    if t in Names(c) {
      BumpPresent(c, t);
    } else {
      BumpAbsent(c, t);
    }
  }

  /** A key already counted keeps its place and gains one. */
  lemma {:induction false} BumpPresent(c: seq<Tally>, t: string)
    requires DistinctNames(c)
    requires t in Names(c)
    ensures |Bump(c, t)| == |c|
    ensures forall i :: 0 <= i < |c| ==>
      Bump(c, t)[i].tag == c[i].tag
      && Bump(c, t)[i].count == c[i].count + (if c[i].tag == t then 1 else 0)
  {
    var b := Bump(c, t);
    if c[0].tag == t {
      forall i | 0 < i < |c|
        ensures b[i] == c[i] && c[i].tag != t
      {
      }
    } else {
      assert Names(c) == [c[0].tag] + Names(c[1..]);
      assert DistinctNames(c[1..]);
      BumpPresent(c[1..], t);
      var b' := Bump(c[1..], t);
      forall i | 0 < i < |c|
        ensures b[i] == b'[i - 1] && c[i] == c[1..][i - 1]
      {
      }
    }
  }

  /** A new key is appended with count one. */
  lemma {:induction false} BumpAbsent(c: seq<Tally>, t: string)
    requires t !in Names(c)
    ensures Bump(c, t) == c + [Tally(t, 1)]
  {
    if c != [] {
      assert Names(c)[0] == c[0].tag;
      assert Names(c) == [c[0].tag] + Names(c[1..]);
      BumpAbsent(c[1..], t);
      assert c == [c[0]] + c[1..];
    }
  }

  /** The counter holds each element of `s` once, with its number of
      occurrences, in order of first occurrence. */
  lemma {:induction false} CounterOfSpec(s: seq<string>)
    ensures var c := CounterOf(s);
      && (forall i :: 0 <= i < |c| ==> c[i].tag in s && c[i].count == Occurrences(s, c[i].tag))
      && (forall t :: t in s ==> t in Names(c))
      && (forall i, j :: 0 <= i < j < |c| ==> FirstIndex(s, c[i].tag) < FirstIndex(s, c[j].tag))
  {
    if s != [] {
      var s', t := s[..|s| - 1], s[|s| - 1];
      assert s == s' + [t];
      CounterOfSpec(s');
      var c', c := CounterOf(s'), CounterOf(s);
      assert c == Bump(c', t);
      assert DistinctNames(c') by {
        forall i, j | 0 <= i < j < |c'|
          ensures c'[i].tag != c'[j].tag
        {
          assert FirstIndex(s', c'[i].tag) < FirstIndex(s', c'[j].tag);
        }
      }
      BumpSpec(c', t);
      assert multiset(s) == multiset(s') + multiset{t};
      forall x | x in s'
        ensures FirstIndex(s, x) == FirstIndex(s', x)
      {
        FirstIndexAppend(s', t, x);
      }
      if t in Names(c') {
        CounterOfKept(s', t, c', c);
      } else {
        CounterOfGrown(s', t, c', c);
      }
    }
  }

  lemma CounterOfKept(s': seq<string>, t: string, c': seq<Tally>, c: seq<Tally>)
    requires forall i :: 0 <= i < |c'| ==> c'[i].tag in s' && c'[i].count == Occurrences(s', c'[i].tag)
    requires forall x :: x in s' ==> x in Names(c')
    requires forall i, j :: 0 <= i < j < |c'| ==> FirstIndex(s', c'[i].tag) < FirstIndex(s', c'[j].tag)
    requires forall x :: x in s' ==> FirstIndex(s' + [t], x) == FirstIndex(s', x)
    requires t in Names(c')
    requires |c| == |c'|
    requires forall i :: 0 <= i < |c'| ==>
           c[i].tag == c'[i].tag && c[i].count == c'[i].count + (if c'[i].tag == t then 1 else 0)
    ensures forall i :: 0 <= i < |c| ==> c[i].tag in s' + [t] && c[i].count == Occurrences(s' + [t], c[i].tag)
    ensures forall x :: x in s' + [t] ==> x in Names(c)
    ensures forall i, j :: 0 <= i < j < |c| ==> FirstIndex(s' + [t], c[i].tag) < FirstIndex(s' + [t], c[j].tag)
  {
    var s := s' + [t];
    assert multiset(s) == multiset(s') + multiset{t};
    forall i | 0 <= i < |c|
      ensures c[i].tag in s && c[i].count == Occurrences(s, c[i].tag)
    {
      assert c[i].tag in s';
    }
    forall x | x in s
      ensures x in Names(c)
    {
      var k :| 0 <= k < |c'| && Names(c')[k] == x;
      assert Names(c)[k] == x;
    }
    forall i, j | 0 <= i < j < |c|
      ensures FirstIndex(s, c[i].tag) < FirstIndex(s, c[j].tag)
    {
      assert c'[i].tag in s' && c'[j].tag in s';
    }
  }

  lemma CounterOfGrown(s': seq<string>, t: string, c': seq<Tally>, c: seq<Tally>)
    requires forall i :: 0 <= i < |c'| ==> c'[i].tag in s' && c'[i].count == Occurrences(s', c'[i].tag)
    requires forall x :: x in s' ==> x in Names(c')
    requires forall i, j :: 0 <= i < j < |c'| ==> FirstIndex(s', c'[i].tag) < FirstIndex(s', c'[j].tag)
    requires forall x :: x in s' ==> FirstIndex(s' + [t], x) == FirstIndex(s', x)
    requires t !in Names(c')
    requires c == c' + [Tally(t, 1)]
    ensures forall i :: 0 <= i < |c| ==> c[i].tag in s' + [t] && c[i].count == Occurrences(s' + [t], c[i].tag)
    ensures forall x :: x in s' + [t] ==> x in Names(c)
    ensures forall i, j :: 0 <= i < j < |c| ==> FirstIndex(s' + [t], c[i].tag) < FirstIndex(s' + [t], c[j].tag)
  {
    assert t !in s';
    GrownCounts(s', t, c', c);
    GrownCovers(s', t, c', c);
    GrownOrdered(s', t, c', c);
  }

  lemma GrownCounts(s': seq<string>, t: string, c': seq<Tally>, c: seq<Tally>)
    requires forall i :: 0 <= i < |c'| ==> c'[i].tag in s' && c'[i].count == Occurrences(s', c'[i].tag)
    requires t !in s'
    requires c == c' + [Tally(t, 1)]
    ensures forall i :: 0 <= i < |c| ==> c[i].tag in s' + [t] && c[i].count == Occurrences(s' + [t], c[i].tag)
  {
    var s := s' + [t];
    assert multiset(s) == multiset(s') + multiset{t};
    forall i | 0 <= i < |c|
      ensures c[i].tag in s && c[i].count == Occurrences(s, c[i].tag)
    {
      if i < |c'| {
        assert c[i] == c'[i];
        assert c[i].tag != t;
      }
    }
  }

  lemma GrownCovers(s': seq<string>, t: string, c': seq<Tally>, c: seq<Tally>)
    requires forall x :: x in s' ==> x in Names(c')
    requires c == c' + [Tally(t, 1)]
    ensures forall x :: x in s' + [t] ==> x in Names(c)
  {
    forall x | x in s' + [t]
      ensures x in Names(c)
    {
      if x in s' {
        var k :| 0 <= k < |c'| && Names(c')[k] == x;
        assert Names(c)[k] == x;
      } else {
        assert Names(c)[|c'|] == t;
      }
    }
  }

  lemma GrownOrdered(s': seq<string>, t: string, c': seq<Tally>, c: seq<Tally>)
    requires forall i :: 0 <= i < |c'| ==> c'[i].tag in s'
    requires forall i, j :: 0 <= i < j < |c'| ==> FirstIndex(s', c'[i].tag) < FirstIndex(s', c'[j].tag)
    requires forall x :: x in s' ==> FirstIndex(s' + [t], x) == FirstIndex(s', x)
    requires t !in s'
    requires c == c' + [Tally(t, 1)]
    ensures forall i, j :: 0 <= i < j < |c| ==> FirstIndex(s' + [t], c[i].tag) < FirstIndex(s' + [t], c[j].tag)
  {
    var s := s' + [t];
    assert FirstIndex(s, t) == |s'|;
    forall i, j | 0 <= i < j < |c|
      ensures FirstIndex(s, c[i].tag) < FirstIndex(s, c[j].tag)
    {
      assert c[i] == c'[i];
      assert c'[i].tag in s';
      if j < |c'| {
        assert c[j] == c'[j];
        assert c'[j].tag in s';
      }
    }
  }

  // ---------------------------------------------------------------------
  // Counter.most_common(n): a stable sort by count, highest first.

  /** `x` goes in front of the first entry whose count does not exceed its
      own, so that among equal counts it keeps its place ahead of `r`. */
  function InsertByCount(x: Tally, r: seq<Tally>): (res: seq<Tally>)
    ensures |res| == |r| + 1
  {
    if r == [] || x.count >= r[0].count then [x] + r
    else [r[0]] + InsertByCount(x, r[1..])
  }

  function RankByCount(c: seq<Tally>): (r: seq<Tally>)
    ensures |r| == |c|
  {
    if c == [] then [] else InsertByCount(c[0], RankByCount(c[1..]))
  }

  lemma {:induction false} InsertByCountPermutes(x: Tally, r: seq<Tally>)
    ensures multiset(InsertByCount(x, r)) == multiset(r) + multiset{x}
  {
    if r != [] && x.count < r[0].count {
      InsertByCountPermutes(x, r[1..]);
      assert r == [r[0]] + r[1..];
    }
  }

  lemma {:induction false} RankByCountPermutes(c: seq<Tally>)
    ensures multiset(RankByCount(c)) == multiset(c)
  {
    if c != [] {
      RankByCountPermutes(c[1..]);
      InsertByCountPermutes(c[0], RankByCount(c[1..]));
      assert c == [c[0]] + c[1..];
    }
  }

  /** `x` ranks above `y` among the tallies of `s`: a higher count, or the same
      count and an earlier first occurrence in `s`. */
  predicate Outranks(s: seq<string>, x: Tally, y: Tally)
  {
    x.count > y.count || (x.count == y.count && FirstIndex(s, x.tag) < FirstIndex(s, y.tag))
  }

  predicate Ranked(s: seq<string>, r: seq<Tally>)
  {
    forall i, j :: 0 <= i < j < |r| ==> Outranks(s, r[i], r[j])
  }

  lemma RankedCons(s: seq<string>, x: Tally, r: seq<Tally>)
    requires Ranked(s, r)
    requires forall y :: y in r ==> Outranks(s, x, y)
    ensures Ranked(s, [x] + r)
  {
    var res := [x] + r;
    forall i, j | 0 <= i < j < |res|
      ensures Outranks(s, res[i], res[j])
    {
      assert res[j] == r[j - 1];
      if i > 0 {
        assert res[i] == r[i - 1];
      }
    }
  }

  lemma {:induction false} InsertByCountRanked(s: seq<string>, x: Tally, r: seq<Tally>)
    requires Ranked(s, r)
    requires forall y :: y in r ==> FirstIndex(s, x.tag) < FirstIndex(s, y.tag)
    ensures Ranked(s, InsertByCount(x, r))
  {
    if r == [] || x.count >= r[0].count {
      forall y | y in r
        ensures Outranks(s, x, y)
      {
        var j :| 0 <= j < |r| && r[j] == y;
        if j > 0 {
          assert Outranks(s, r[0], r[j]);
        }
      }
      RankedCons(s, x, r);
    } else {
      assert Ranked(s, r[1..]);
      InsertByCountRanked(s, x, r[1..]);
      InsertByCountBelow(s, x, r);
      RankedCons(s, r[0], InsertByCount(x, r[1..]));
    }
  }

  /** When `x` goes past the head of `r`, that head outranks everything the
      insertion into the rest of `r` gives. */
  lemma InsertByCountBelow(s: seq<string>, x: Tally, r: seq<Tally>)
    requires Ranked(s, r)
    requires r != [] && x.count < r[0].count
    ensures forall y :: y in InsertByCount(x, r[1..]) ==> Outranks(s, r[0], y)
  {
    InsertByCountPermutes(x, r[1..]);
    var rest := InsertByCount(x, r[1..]);
    forall y | y in rest
      ensures Outranks(s, r[0], y)
    {
      assert y in multiset(rest);
      if y != x {
        var j :| 0 <= j < |r[1..]| && r[1..][j] == y;
        assert r[j + 1] == y;
      }
    }
  }

  /** Ranking entries listed in order of first occurrence in `s` sorts them by
      count, ties in order of first occurrence. */
  lemma {:induction false} RankByCountRanked(s: seq<string>, c: seq<Tally>)
    requires forall i, j :: 0 <= i < j < |c| ==> FirstIndex(s, c[i].tag) < FirstIndex(s, c[j].tag)
    ensures Ranked(s, RankByCount(c))
  {
    if c != [] {
      RankByCountRanked(s, c[1..]);
      RankByCountPermutes(c[1..]);
      forall y | y in RankByCount(c[1..])
        ensures FirstIndex(s, c[0].tag) < FirstIndex(s, y.tag)
      {
        assert y in multiset(RankByCount(c[1..]));
        var j :| 0 <= j < |c[1..]| && c[1..][j] == y;
        assert c[j + 1] == y;
      }
      InsertByCountRanked(s, c[0], RankByCount(c[1..]));
    }
  }

  /** `[p[0] for p in counts.most_common(n)]`; `n <= 0` gives nothing. */
  function MostCommon(c: seq<Tally>, n: int): seq<string>
  {
    var r := RankByCount(c);
    var m := if n <= 0 then 0 else if n <= |r| then n else |r|;
    Names(r[..m])
  }

  /** `t` comes before `u` in a ranking of `s`. */
  predicate Before(s: seq<string>, t: string, u: string)
  {
    Occurrences(s, t) > Occurrences(s, u)
    || (Occurrences(s, t) == Occurrences(s, u) && FirstIndex(s, t) < FirstIndex(s, u))
  }

  /** The ranked counter of `s` names each element of `s`, with its number of
      occurrences, and is ranked. */
  lemma RankedCounter(s: seq<string>)
    ensures var ranked := RankByCount(CounterOf(s));
      && Ranked(s, ranked)
      && (forall i :: 0 <= i < |ranked| ==> ranked[i].tag in s && ranked[i].count == Occurrences(s, ranked[i].tag))
      && (forall t :: t in s ==> exists p :: 0 <= p < |ranked| && ranked[p].tag == t)
  {
    var c := CounterOf(s);
    CounterOfSpec(s);
    RankByCountRanked(s, c);
    RankedTallies(s, c);
    RankedCovers(s, c);
  }

  lemma RankedTallies(s: seq<string>, c: seq<Tally>)
    requires forall i :: 0 <= i < |c| ==> c[i].tag in s && c[i].count == Occurrences(s, c[i].tag)
    ensures var ranked := RankByCount(c);
      forall i :: 0 <= i < |ranked| ==> ranked[i].tag in s && ranked[i].count == Occurrences(s, ranked[i].tag)
  {
    var ranked := RankByCount(c);
    RankByCountPermutes(c);
    forall i | 0 <= i < |ranked|
      ensures ranked[i].tag in s && ranked[i].count == Occurrences(s, ranked[i].tag)
    {
      assert ranked[i] in multiset(c);
    }
  }

  lemma RankedCovers(s: seq<string>, c: seq<Tally>)
    requires forall t :: t in s ==> t in Names(c)
    ensures var ranked := RankByCount(c);
      forall t :: t in s ==> exists p :: 0 <= p < |ranked| && ranked[p].tag == t
  {
    var ranked := RankByCount(c);
    RankByCountPermutes(c);
    forall t | t in s
      ensures exists p :: 0 <= p < |ranked| && ranked[p].tag == t
    {
      var k :| 0 <= k < |c| && Names(c)[k] == t;
      assert c[k] in multiset(ranked);
      var p :| 0 <= p < |ranked| && ranked[p] == c[k];
    }
  }

  /** Counting `s` and keeping the `n` most common gives at most `n` distinct
      elements of `s`, most frequent first with ties in order of first
      occurrence, and leaves out only elements ranked below all of them. */
  lemma MostCommonSpec(s: seq<string>, n: int)
    ensures var r := MostCommon(CounterOf(s), n);
      && (n <= 0 ==> r == [])
      && (n > 0 ==> |r| <= n)
      && (forall i :: 0 <= i < |r| ==> r[i] in s)
      && (forall i, j :: 0 <= i < j < |r| ==> Before(s, r[i], r[j]))
      && (forall t :: t in s && t !in r ==> |r| >= n && forall i :: 0 <= i < |r| ==> Before(s, r[i], t))
  {
    var ranked := RankByCount(CounterOf(s));
    RankedCounter(s);
    var m := if n <= 0 then 0 else if n <= |ranked| then n else |ranked|;
    assert MostCommon(CounterOf(s), n) == Names(ranked[..m]);
    TopOrdered(s, ranked, m);
    TopLeftOut(s, ranked, n, m);
  }

  /** The names of a prefix of a ranked counter come from `s`, in ranking order. */
  lemma TopOrdered(s: seq<string>, ranked: seq<Tally>, m: nat)
    requires m <= |ranked|
    requires Ranked(s, ranked)
    requires forall i :: 0 <= i < |ranked| ==> ranked[i].tag in s && ranked[i].count == Occurrences(s, ranked[i].tag)
    ensures var r := Names(ranked[..m]);
      && (forall i :: 0 <= i < |r| ==> r[i] in s)
      && (forall i, j :: 0 <= i < j < |r| ==> Before(s, r[i], r[j]))
  {
    var r := Names(ranked[..m]);
    forall i | 0 <= i < |r|
      ensures r[i] == ranked[i].tag
    {
    }
    forall i, j | 0 <= i < j < |r|
      ensures Before(s, r[i], r[j])
    {
      assert Outranks(s, ranked[i], ranked[j]);
    }
  }

  /** What the cut at `m` (the smaller of `n` and the counter's size) leaves
      out ranks below everything it keeps. */
  lemma TopLeftOut(s: seq<string>, ranked: seq<Tally>, n: int, m: nat)
    requires m == if n <= 0 then 0 else if n <= |ranked| then n else |ranked|
    requires Ranked(s, ranked)
    requires forall i :: 0 <= i < |ranked| ==> ranked[i].count == Occurrences(s, ranked[i].tag)
    requires forall t :: t in s ==> exists p :: 0 <= p < |ranked| && ranked[p].tag == t
    ensures var r := Names(ranked[..m]);
      forall t :: t in s && t !in r ==> |r| >= n && forall i :: 0 <= i < |r| ==> Before(s, r[i], t)
  {
    var r := Names(ranked[..m]);
    assert forall i :: 0 <= i < m ==> r[i] == ranked[i].tag;
    forall t | t in s && t !in r
      ensures |r| >= n && forall i :: 0 <= i < |r| ==> Before(s, r[i], t)
    {
      var p :| 0 <= p < |ranked| && ranked[p].tag == t;
      forall i | 0 <= i < |r|
        ensures Before(s, r[i], t)
      {
        assert r[i] == ranked[i].tag;
        assert Outranks(s, ranked[i], ranked[p]);
      }
    }
  }

  // ---------------------------------------------------------------------
  // The rows that get_related_tags feeds to the counter.

  /** The tags of `items`, item after item. */
  function FlatTags(items: seq<Item>): seq<string>
  {
    if items == [] then [] else items[0].tags + FlatTags(items[1..])
  }

  /** `klass.objects.filter(pk__in=...).values_list('tags__tag', flat=True)`
      for the records of `table` carrying `tag`, in the models' default
      newest-first order. */
  function TagRows(table: seq<Item>, tag: string): seq<string>
  {
    FlatTags(SortNewest(Tagged(table, tag)))
  }

  /** `t for t in qs if t != tag`. */
  function Exclude(s: seq<string>, tag: string): seq<string>
  {
    if s == [] then []
    else (if s[0] != tag then [s[0]] else []) + Exclude(s[1..], tag)
  }

  /** Excluding keeps exactly the elements other than `tag`. */
  lemma {:induction false} ExcludeMembers(s: seq<string>, tag: string)
    ensures forall t :: t in Exclude(s, tag) <==> t in s && t != tag
  {
    if s != [] {
      ExcludeMembers(s[1..], tag);
      assert s == [s[0]] + s[1..];
    }
  }

  lemma {:induction false} ExcludeAppend(a: seq<string>, b: seq<string>, tag: string)
    ensures Exclude(a + b, tag) == Exclude(a, tag) + Exclude(b, tag)
  {
    if a == [] {
      assert a + b == b;
    } else {
      var head := if a[0] != tag then [a[0]] else [];
      ExcludeAppend(a[1..], b, tag);
      assert (a + b)[1..] == a[1..] + b;
      assert (a + b)[0] == a[0];
      calc {
        Exclude(a + b, tag);
        head + Exclude(a[1..] + b, tag);
        head + (Exclude(a[1..], tag) + Exclude(b, tag));
        (head + Exclude(a[1..], tag)) + Exclude(b, tag);
      }
    }
  }

  /** Everything `counts.update` sees, entries first, then blogmarks, then
      quotations. */
  function CoTags(db: Store, tag: string): seq<string>
  {
    Exclude(TagRows(db.entries, tag) + TagRows(db.blogmarks, tag) + TagRows(db.quotations, tag), tag)
  }

  /** What `get_related_tags(limit)` computes when nothing is memoised. */
  function RelatedTags(db: Store, tag: string, limit: int): seq<string>
  {
    MostCommon(CounterOf(CoTags(db, tag)), limit)
  }

  /** The related tags of `tag`: never `tag` itself, at most `limit` of them,
      all co-occurring with it, ranked by co-occurrence count with ties in
      first-encountered order, and no co-occurring tag left out that ranks
      above one kept. */
  lemma RelatedTagsRanking(db: Store, tag: string, limit: int)
    ensures var s, r := CoTags(db, tag), RelatedTags(db, tag, limit);
      && tag !in r
      && (limit <= 0 ==> r == [])
      && (limit > 0 ==> |r| <= limit)
      && (forall i :: 0 <= i < |r| ==> r[i] in s)
      && (forall i, j :: 0 <= i < j < |r| ==> Before(s, r[i], r[j]))
      && (forall t :: t in s && t !in r ==> |r| >= limit && forall i :: 0 <= i < |r| ==> Before(s, r[i], t))
  {
    var rows := TagRows(db.entries, tag) + TagRows(db.blogmarks, tag) + TagRows(db.quotations, tag);
    ExcludeMembers(rows, tag);
    MostCommonSpec(CoTags(db, tag), limit);
  }

  /** The records of `table` that do not carry `tag`, in table order. */
  function Without(table: seq<Item>, tag: string): (r: seq<Item>)
    ensures forall x :: x in r <==> x in table && tag !in x.tags
    ensures multiset(r) <= multiset(table)
  {
    if table == [] then []
    else
      assert table == [table[0]] + table[1..];
      if tag !in table[0].tags then [table[0]] + Without(table[1..], tag)
      else Without(table[1..], tag)
  }

  /** Dropping the records that carry `u` leaves the records carrying `t`
      untouched when no record carries both. */
  lemma {:induction false} TaggedWithout(table: seq<Item>, t: string, u: string)
    requires forall x :: x in table ==> t !in x.tags || u !in x.tags
    ensures Tagged(Without(table, u), t) == Tagged(table, t)
  {
    if table != [] {
      var x, rest := table[0], table[1..];
      assert forall y :: y in rest ==> y in table;
      TaggedWithout(rest, t, u);
      if u !in x.tags {
        var w := [x] + Without(rest, u);
        assert w[0] == x && w[1..] == Without(rest, u);
      }
    }
  }

  /** The related tags of `t` depend only on the records that carry `t`:
      removing every record tagged `u`, where no record carries both, leaves
      them unchanged. */
  lemma RelatedTagsLocal(db: Store, t: string, u: string, limit: int)
    requires forall x :: x in db.entries ==> t !in x.tags || u !in x.tags
    requires forall x :: x in db.blogmarks ==> t !in x.tags || u !in x.tags
    requires forall x :: x in db.quotations ==> t !in x.tags || u !in x.tags
    ensures RelatedTags(Store(Without(db.entries, u), Without(db.blogmarks, u), Without(db.quotations, u)), t, limit)
         == RelatedTags(db, t, limit)
  {
    TaggedWithout(db.entries, t, u);
    TaggedWithout(db.blogmarks, t, u);
    TaggedWithout(db.quotations, t, u);
  }

  /** The concatenated rows of the first tables of `tables`. */
  function RowsOf(tables: seq<seq<Item>>, tag: string): seq<string>
  {
    if tables == [] then [] else RowsOf(tables[..|tables| - 1], tag) + TagRows(tables[|tables| - 1], tag)
  }

  lemma RowsOfStep(tables: seq<seq<Item>>, k: nat, tag: string)
    requires k < |tables|
    ensures RowsOf(tables[..k + 1], tag) == RowsOf(tables[..k], tag) + TagRows(tables[k], tag)
  {
    assert tables[..k + 1][..k] == tables[..k];
  }

  lemma RowsOfThree(db: Store, tag: string)
    ensures RowsOf([db.entries, db.blogmarks, db.quotations], tag)
         == TagRows(db.entries, tag) + TagRows(db.blogmarks, tag) + TagRows(db.quotations, tag)
  {
    var c := [db.entries, db.blogmarks, db.quotations];
    assert c[..3] == c;
    assert c[..3][..2] == c[..2] && c[..2][..1] == c[..1] && c[..1][..0] == [];
    assert RowsOf(c[..1], tag) == TagRows(db.entries, tag);
  }

  /** `counts.update(t for t in qs if t != tag)` on a counter of `prefix`. */
  method CountRows(counts0: seq<Tally>, qs: seq<string>, tag: string, ghost prefix: seq<string>)
    returns (counts: seq<Tally>)
    requires counts0 == CounterOf(Exclude(prefix, tag))
    ensures counts == CounterOf(Exclude(prefix + qs, tag))
  {
    counts := counts0;
    var i := 0;
    ghost var seen := Exclude(prefix, tag);
    assert prefix + qs[..0] == prefix;
    while i < |qs|
      invariant 0 <= i <= |qs|
      invariant seen == Exclude(prefix + qs[..i], tag)
      invariant counts == CounterOf(seen)
    {
      ExcludeStep(prefix, qs, i, tag);
      if qs[i] != tag {
        CounterSnoc(seen, qs[i]);
        counts := Bump(counts, qs[i]);
        seen := seen + [qs[i]];
      }
      i := i + 1;
    }
    assert qs[..i] == qs;
  }

  lemma ExcludeStep(prefix: seq<string>, qs: seq<string>, i: nat, tag: string)
    requires i < |qs|
    ensures qs[i] != tag ==> Exclude(prefix + qs[..i + 1], tag) == Exclude(prefix + qs[..i], tag) + [qs[i]]
    ensures qs[i] == tag ==> Exclude(prefix + qs[..i + 1], tag) == Exclude(prefix + qs[..i], tag)
  {
    assert prefix + qs[..i + 1] == (prefix + qs[..i]) + [qs[i]];
    ExcludeAppend(prefix + qs[..i], [qs[i]], tag);
    assert Exclude([qs[i]], tag) == (if qs[i] != tag then [qs[i]] else []);
  }

  lemma CounterSnoc(s: seq<string>, x: string)
    ensures CounterOf(s + [x]) == Bump(CounterOf(s), x)
  {
    assert (s + [x])[..|s|] == s;
  }

  /** The counting loop of `get_related_tags`: the tags of every record
      carrying `tag`, table by table, each fed to the counter unless it is
      `tag` itself. */
  method CountCoTags(db: Store, tag: string) returns (counts: seq<Tally>)
    ensures counts == CounterOf(CoTags(db, tag))
  {
    counts := [];
    var collections := [db.entries, db.blogmarks, db.quotations];
    var k := 0;
    while k < |collections|
      invariant 0 <= k <= |collections|
      invariant counts == CounterOf(Exclude(RowsOf(collections[..k], tag), tag))
    {
      var qs := TagRows(collections[k], tag);
      ghost var done := RowsOf(collections[..k], tag);
      counts := CountRows(counts, qs, tag, done);
      RowsOfStep(collections, k, tag);
      k := k + 1;
    }
    RowsOfThree(db, tag);
    assert collections[..k] == collections;
  }

  // ---------------------------------------------------------------------
  // all_types_queryset

  /** One row of `all_types_queryset`: `.values('pk', 'created', 'type')`. */
  datatype Row = Row(pk: nat, created: int, typeName: string)

  function RowOf(x: Item): Row
  {
    Row(x.pk, x.created, x.TypeName())
  }

  function Rows(items: seq<Item>): seq<Row>
  {
    seq(|items|, i requires 0 <= i < |items| => RowOf(items[i]))
  }

  /** A tagged record of a valid store gives a row of its own kind's table. */
  lemma TaggedRow(db: Store, tag: string, x: Item)
    requires db.Valid()
    requires x in Tagged(db.entries, tag) + Tagged(db.blogmarks, tag) + Tagged(db.quotations, tag)
    ensures IsTypeName(x.TypeName()) && RowOf(x) in Rows(Tagged(db.Table(x.TypeName()), tag))
  {
    var tx := Tagged(db.Table(x.TypeName()), tag);
    if x in Tagged(db.entries, tag) {
      assert x in db.entries;
      assert x.Entry?;
    } else if x in Tagged(db.blogmarks, tag) {
      assert x in db.blogmarks;
      assert x.Blogmark?;
    } else {
      assert x in db.quotations;
      assert x.Quotation?;
    }
    assert x in tx;
    RowsMember(tx, x);
  }

  lemma RowsMember(items: seq<Item>, x: Item)
    requires x in items
    ensures RowOf(x) in Rows(items)
  {
    var k :| 0 <= k < |items| && items[k] == x;
    assert Rows(items)[k] == RowOf(x);
  }

  /** The tagged records of the three tables of a valid store repeat no key. */
  lemma TaggedUnionDistinct(db: Store, tag: string)
    requires db.Valid()
    ensures DistinctKeys(Tagged(db.entries, tag) + Tagged(db.blogmarks, tag) + Tagged(db.quotations, tag))
  {
    var te, tb, tq := Tagged(db.entries, tag), Tagged(db.blogmarks, tag), Tagged(db.quotations, tag);
    ValidTablesDistinct(db);
    TaggedDistinct(db.entries, tag);
    TaggedDistinct(db.blogmarks, tag);
    TaggedDistinct(db.quotations, tag);
    assert forall x :: x in te ==> x.Entry?;
    assert forall x :: x in tb ==> x.Blogmark?;
    assert forall x :: x in tq ==> x.Quotation?;
    DistinctConcat(te, tb);
    DistinctConcat(te + tb, tq);
  }

  class Tag {
    const tag: string
    /** `_related_tags`: absent until `get_related_tags` first runs. */
    var relatedTags: Option<seq<string>>

    constructor (tag: string)
      ensures this.tag == tag && relatedTags == None
    {
      this.tag := tag;
      relatedTags := None;
    }

    function EntryCount(db: Store): nat
    {
      |Tagged(db.entries, tag)|
    }

    function LinkCount(db: Store): nat
    {
      |Tagged(db.blogmarks, tag)|
    }

    function QuoteCount(db: Store): nat
    {
      |Tagged(db.quotations, tag)|
    }

    function TotalCount(db: Store): nat
    {
      EntryCount(db) + LinkCount(db) + QuoteCount(db)
    }

    /** The union of the `(pk, created, type)` rows of everything carrying the
        tag, newest first. */
    function AllTypesQueryset(db: Store): seq<Row>
    {
      Rows(SortNewest(Tagged(db.entries, tag) + Tagged(db.blogmarks, tag) + Tagged(db.quotations, tag)))
    }

    /** Every row names a kind and comes from a record of that kind carrying
        the tag; every such record gives a row; rows are newest first, none
        repeats, and there are `total_count()` of them. */
    lemma AllTypesQuerysetRows(db: Store)
      requires db.Valid()
      ensures var rows := AllTypesQueryset(db);
        && |rows| == TotalCount(db)
        && (forall i :: 0 <= i < |rows| ==>
              IsTypeName(rows[i].typeName) && rows[i] in Rows(Tagged(db.Table(rows[i].typeName), tag)))
        && (forall name, x :: IsTypeName(name) && x in db.Table(name) && tag in x.tags ==> RowOf(x) in rows)
        && (forall i, j :: 0 <= i < j < |rows| ==> rows[i].created >= rows[j].created)
        && (forall i, j :: 0 <= i < j < |rows| ==> rows[i] != rows[j])
    {
      AllTypesSources(db);
      AllTypesComplete(db);
      AllTypesDistinct(db);
    }

    lemma AllTypesSources(db: Store)
      requires db.Valid()
      ensures var rows := AllTypesQueryset(db);
        forall i :: 0 <= i < |rows| ==>
          IsTypeName(rows[i].typeName) && rows[i] in Rows(Tagged(db.Table(rows[i].typeName), tag))
    {
      var u := Tagged(db.entries, tag) + Tagged(db.blogmarks, tag) + Tagged(db.quotations, tag);
      var sorted := SortNewest(u);
      var rows := AllTypesQueryset(db);
      SortNewestPermutes(u);
      forall i | 0 <= i < |rows|
        ensures IsTypeName(rows[i].typeName) && rows[i] in Rows(Tagged(db.Table(rows[i].typeName), tag))
      {
        assert sorted[i] in multiset(u);
        TaggedRow(db, tag, sorted[i]);
      }
    }

    lemma AllTypesComplete(db: Store)
      ensures var rows := AllTypesQueryset(db);
        forall name, x :: IsTypeName(name) && x in db.Table(name) && tag in x.tags ==> RowOf(x) in rows
    {
      var u := Tagged(db.entries, tag) + Tagged(db.blogmarks, tag) + Tagged(db.quotations, tag);
      var sorted := SortNewest(u);
      var rows := AllTypesQueryset(db);
      SortNewestPermutes(u);
      forall name, x | IsTypeName(name) && x in db.Table(name) && tag in x.tags
        ensures RowOf(x) in rows
      {
        assert x in u;
        assert x in multiset(sorted);
        var k :| 0 <= k < |sorted| && sorted[k] == x;
        assert rows[k] == RowOf(x);
      }
    }

    lemma AllTypesDistinct(db: Store)
      requires db.Valid()
      ensures var rows := AllTypesQueryset(db);
        forall i, j :: 0 <= i < j < |rows| ==> rows[i] != rows[j]
    {
      var u := Tagged(db.entries, tag) + Tagged(db.blogmarks, tag) + Tagged(db.quotations, tag);
      var sorted := SortNewest(u);
      var rows := AllTypesQueryset(db);
      TaggedUnionDistinct(db, tag);
      SortNewestDistinct(u);
      forall i, j | 0 <= i < j < |rows|
        ensures rows[i] != rows[j]
      {
        assert KeyOf(sorted[i]) != KeyOf(sorted[j]);
      }
    }

    /** `get_related_tags(limit)`: computed on the first call and memoised in
        `relatedTags`; later calls return the memo, whatever their `limit`. */
    method GetRelatedTags(db: Store, limit: int) returns (related: seq<string>)
      modifies this
      ensures old(relatedTags).Some? ==> relatedTags == old(relatedTags)
      ensures old(relatedTags).None? ==> relatedTags == Some(RelatedTags(db, tag, limit))
      ensures relatedTags == Some(related)
    {
      if relatedTags.None? {
        var counts := CountCoTags(db, tag);
        relatedTags := Some(MostCommon(counts, limit));
      }
      related := relatedTags.value;
    }
  }
}
