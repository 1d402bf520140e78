/** Newest-first ordering of records: the database's `order_by('-created')`,
    Python's stable `list.sort(key=created, reverse=True)`, and what
    truncating such orderings keeps. */
module Timeline {
  import opened Content

  /** Ordered by `created`, newest first. */
  predicate NewestFirst(s: seq<Item>) {
    forall i, j :: 0 <= i < j < |s| ==> s[i].created >= s[j].created
  }

  /** The records of `s` created at instant `t`, in their order in `s`. A stable
      sort is one that keeps each of these subsequences as it was. */
  function CreatedAt(s: seq<Item>, t: int): seq<Item>
  {
    if s == [] then []
    else (if s[0].created == t then [s[0]] else []) + CreatedAt(s[1..], t)
  }

  lemma {:induction false} CreatedAtMembers(s: seq<Item>, t: int)
    ensures forall x :: x in CreatedAt(s, t) <==> x in s && x.created == t
  {
    if s != [] {
      CreatedAtMembers(s[1..], t);
      assert s == [s[0]] + s[1..];
    }
  }

  lemma {:induction false} CreatedAtAppend(a: seq<Item>, b: seq<Item>, t: int)
    ensures CreatedAt(a + b, t) == CreatedAt(a, t) + CreatedAt(b, t)
  {
    if a != [] {
      CreatedAtAppend(a[1..], b, t);
      assert (a + b)[1..] == a[1..] + b;
    } else {
      assert a + b == b;
    }
  }

  /** `x` placed in front of the first record that is not newer than it, so
      that among equal timestamps it keeps its place ahead of `r`. */
  function Insert(x: Item, r: seq<Item>): (res: seq<Item>)
    ensures |res| == |r| + 1
  {
    if r == [] || x.created >= r[0].created then [x] + r
    else [r[0]] + Insert(x, r[1..])
  }

  lemma {:induction false} InsertPermutes(x: Item, r: seq<Item>)
    ensures multiset(Insert(x, r)) == multiset(r) + multiset{x}
  {
    if r != [] && x.created < r[0].created {
      InsertPermutes(x, r[1..]);
      assert r == [r[0]] + r[1..];
    }
  }

  lemma {:induction false} InsertNewestFirst(x: Item, r: seq<Item>)
    requires NewestFirst(r)
    ensures NewestFirst(Insert(x, r))
  {
    if r != [] && x.created < r[0].created {
      InsertNewestFirst(x, r[1..]);
      var rest := Insert(x, r[1..]);
      assert rest[0].created <= r[0].created by {
        if r[1..] == [] || x.created >= r[1..][0].created {
          assert rest[0] == x;
        } else {
          assert rest[0] == r[1];
        }
      }
      NewestFirstCons(r[0], rest);
    } else {
      NewestFirstCons(x, r);
    }
  }

  lemma NewestFirstCons(y: Item, s: seq<Item>)
    requires NewestFirst(s)
    requires s != [] ==> y.created >= s[0].created
    ensures NewestFirst([y] + s)
  {
    var res := [y] + s;
    forall i, j | 0 <= i < j < |res|
      ensures res[i].created >= res[j].created
    {
      assert res[j] == s[j - 1];
      if i > 0 {
        assert res[i] == s[i - 1];
      }
    }
  }

  lemma {:induction false} InsertStable(x: Item, r: seq<Item>, t: int)
    ensures CreatedAt(Insert(x, r), t) == (if x.created == t then [x] else []) + CreatedAt(r, t)
  {
    if r == [] || x.created >= r[0].created {
      assert ([x] + r)[1..] == r;
    } else {
      InsertStable(x, r[1..], t);
      var rest := Insert(x, r[1..]);
      assert Insert(x, r) == [r[0]] + rest;
      assert ([r[0]] + rest)[1..] == rest;
      assert r[0].created != t || x.created != t;
    }
  }

  /** Python's stable `sort(key=created, reverse=True)`, and equally the
      database's `order_by('-created')` taken over a table in storage order. */
  function SortNewest(s: seq<Item>): (r: seq<Item>)
    ensures |r| == |s|
    ensures NewestFirst(r)
  {
    if s == [] then []
    else
      var rest := SortNewest(s[1..]);
      InsertNewestFirst(s[0], rest);
      Insert(s[0], rest)
  }

  /** The sort only reorders. */
  lemma {:induction false} SortNewestPermutes(s: seq<Item>)
    ensures multiset(SortNewest(s)) == multiset(s)
  {
    if s != [] {
      SortNewestPermutes(s[1..]);
      InsertPermutes(s[0], SortNewest(s[1..]));
      assert s == [s[0]] + s[1..];
    }
  }

  /** The sort is stable: records with equal timestamps keep their order. */
  lemma {:induction false} SortNewestStable(s: seq<Item>, t: int)
    ensures CreatedAt(SortNewest(s), t) == CreatedAt(s, t)
  {
    if s != [] {
      SortNewestStable(s[1..], t);
      InsertStable(s[0], SortNewest(s[1..]), t);
    }
  }

  lemma NewestAtFront(a: seq<Item>, x: Item)
    requires NewestFirst(a) && x in a
    ensures x.created <= a[0].created
  {
    var i :| 0 <= i < |a| && a[i] == x;
    if i > 0 {
      assert a[0].created >= a[i].created;
    }
  }

  /** Two newest-first sequences with the same records at every instant, in
      the same order, are equal: a stable sort has only one possible result. */
  lemma {:induction false} NewestFirstUnique(a: seq<Item>, b: seq<Item>)
    requires NewestFirst(a) && NewestFirst(b)
    requires forall t :: CreatedAt(a, t) == CreatedAt(b, t)
    ensures a == b
    decreases |a|
  {
    if a == [] {
      if b != [] {
        assert CreatedAt(b, b[0].created) != [];
      }
    } else if b == [] {
      NewestFirstUnique(b, a);
    } else {
      SameHead(a, b);
      forall t
        ensures CreatedAt(a[1..], t) == CreatedAt(b[1..], t)
      {
        SameTailAt(a, b, t);
      }
      NewestFirstUnique(a[1..], b[1..]);
      assert a == [a[0]] + a[1..];
      assert b == [b[0]] + b[1..];
    }
  }

  lemma SameHead(a: seq<Item>, b: seq<Item>)
    requires a != [] && b != []
    requires NewestFirst(a) && NewestFirst(b)
    requires forall t :: CreatedAt(a, t) == CreatedAt(b, t)
    ensures a[0] == b[0]
  {
    var ta, tb := a[0].created, b[0].created;
    CreatedAtMembers(a, ta);
    CreatedAtMembers(b, ta);
    CreatedAtMembers(a, tb);
    CreatedAtMembers(b, tb);
    assert b[0] in CreatedAt(b, tb);
    assert b[0] in CreatedAt(a, tb);
    NewestAtFront(a, b[0]);
    assert a[0] in CreatedAt(a, ta);
    assert a[0] in CreatedAt(b, ta);
    NewestAtFront(b, a[0]);
    assert CreatedAt(a, ta) == [a[0]] + CreatedAt(a[1..], ta);
    assert CreatedAt(b, ta) == [b[0]] + CreatedAt(b[1..], ta);
    assert CreatedAt(a, ta) == CreatedAt(b, ta);
    assert CreatedAt(a, ta)[0] == a[0] && CreatedAt(b, ta)[0] == b[0];
  }

  lemma SameTailAt(a: seq<Item>, b: seq<Item>, t: int)
    requires a != [] && b != [] && a[0] == b[0]
    requires CreatedAt(a, t) == CreatedAt(b, t)
    ensures CreatedAt(a[1..], t) == CreatedAt(b[1..], t)
  {
    var head := if a[0].created == t then [a[0]] else [];
    assert CreatedAt(a, t) == head + CreatedAt(a[1..], t);
    assert CreatedAt(b, t) == head + CreatedAt(b[1..], t);
    assert CreatedAt(a, t)[|head|..] == CreatedAt(a[1..], t);
    assert CreatedAt(b, t)[|head|..] == CreatedAt(b[1..], t);
  }

  /** Sorting what is already newest first changes nothing. */
  lemma SortNewestOfSorted(s: seq<Item>)
    requires NewestFirst(s)
    ensures SortNewest(s) == s
  {
    forall t
      ensures CreatedAt(SortNewest(s), t) == CreatedAt(s, t)
    {
      SortNewestStable(s, t);
    }
    NewestFirstUnique(SortNewest(s), s);
  }

  /** The stable merge of two newest-first sequences; ties go to `a`. */
  function Merge(a: seq<Item>, b: seq<Item>): (r: seq<Item>)
    ensures |r| == |a| + |b|
    decreases |a| + |b|
  {
    if a == [] then b
    else if b == [] then a
    else if a[0].created >= b[0].created then [a[0]] + Merge(a[1..], b)
    else [b[0]] + Merge(a, b[1..])
  }

  lemma {:induction false} MergePermutes(a: seq<Item>, b: seq<Item>)
    ensures multiset(Merge(a, b)) == multiset(a) + multiset(b)
    decreases |a| + |b|
  {
    if a != [] && b != [] {
      if a[0].created >= b[0].created {
        MergePermutes(a[1..], b);
        assert Merge(a, b) == [a[0]] + Merge(a[1..], b);
        assert multiset(a) == multiset{a[0]} + multiset(a[1..]) by {
          assert a == [a[0]] + a[1..];
        }
      } else {
        MergePermutes(a, b[1..]);
        assert Merge(a, b) == [b[0]] + Merge(a, b[1..]);
        assert multiset(b) == multiset{b[0]} + multiset(b[1..]) by {
          assert b == [b[0]] + b[1..];
        }
      }
    }
  }

  lemma {:induction false} MergeNewestFirst(a: seq<Item>, b: seq<Item>)
    requires NewestFirst(a) && NewestFirst(b)
    ensures NewestFirst(Merge(a, b))
    decreases |a| + |b|
  {
    if a != [] && b != [] {
      if a[0].created >= b[0].created {
        MergeNewestFirst(a[1..], b);
        MergeHead(a[1..], b, a[0]);
        NewestFirstCons(a[0], Merge(a[1..], b));
      } else {
        MergeNewestFirst(a, b[1..]);
        MergeHead(a, b[1..], b[0]);
        NewestFirstCons(b[0], Merge(a, b[1..]));
      }
    }
  }

  /** A record no older than everything in `a` and `b` is no older than the
      head of their merge. */
  lemma MergeHead(a: seq<Item>, b: seq<Item>, x: Item)
    requires NewestFirst(a) && NewestFirst(b)
    requires a != [] ==> a[0].created <= x.created
    requires b != [] ==> b[0].created <= x.created
    ensures Merge(a, b) != [] ==> Merge(a, b)[0].created <= x.created
  {
    if a != [] && b != [] {
      if a[0].created >= b[0].created {
        assert Merge(a, b)[0] == a[0];
      } else {
        assert Merge(a, b)[0] == b[0];
      }
    }
  }

  lemma {:induction false} MergeStable(a: seq<Item>, b: seq<Item>, t: int)
    requires NewestFirst(a) && NewestFirst(b)
    ensures CreatedAt(Merge(a, b), t) == CreatedAt(a, t) + CreatedAt(b, t)
    decreases |a| + |b|
  {
    if a == [] {
      assert CreatedAt(a, t) == [];
    } else if b == [] {
      assert CreatedAt(b, t) == [];
    } else if a[0].created >= b[0].created {
      MergeStable(a[1..], b, t);
      var head := if a[0].created == t then [a[0]] else [];
      assert Merge(a, b) == [a[0]] + Merge(a[1..], b);
      assert CreatedAt(Merge(a, b), t) == head + CreatedAt(Merge(a[1..], b), t);
      assert CreatedAt(a, t) == head + CreatedAt(a[1..], t);
    } else {
      MergeStable(a, b[1..], t);
      var head := if b[0].created == t then [b[0]] else [];
      assert Merge(a, b) == [b[0]] + Merge(a, b[1..]);
      assert CreatedAt(Merge(a, b), t) == head + CreatedAt(Merge(a, b[1..]), t);
      assert CreatedAt(b, t) == head + CreatedAt(b[1..], t);
      if b[0].created == t {
        NothingNewer(a, t);
      }
    }
  }

  /** A newest-first sequence holds nothing newer than its head. */
  lemma {:induction false} NothingNewer(a: seq<Item>, t: int)
    requires NewestFirst(a)
    requires a != [] ==> t > a[0].created
    ensures CreatedAt(a, t) == []
  {
    if a != [] {
      if |a| > 1 {
        assert a[1].created <= a[0].created;
      }
      NothingNewer(a[1..], t);
    }
  }

  /** Sorting a concatenation merges the sorted parts. */
  lemma SortNewestConcat(a: seq<Item>, b: seq<Item>)
    ensures SortNewest(a + b) == Merge(SortNewest(a), SortNewest(b))
  {
    MergeNewestFirst(SortNewest(a), SortNewest(b));
    forall t
      ensures CreatedAt(SortNewest(a + b), t) == CreatedAt(Merge(SortNewest(a), SortNewest(b)), t)
    {
      SortNewestStable(a + b, t);
      CreatedAtAppend(a, b, t);
      SortNewestStable(a, t);
      SortNewestStable(b, t);
      MergeStable(SortNewest(a), SortNewest(b), t);
    }
    NewestFirstUnique(SortNewest(a + b), Merge(SortNewest(a), SortNewest(b)));
  }

  /** `s[:n]`. */
  function Take(s: seq<Item>, n: nat): seq<Item>
  {
    if n <= |s| then s[..n] else s
  }

  lemma TakeNewestFirst(s: seq<Item>, n: nat)
    requires NewestFirst(s)
    ensures NewestFirst(Take(s, n))
  {
  }

  /** Only the first `n` records of `a` can reach the first `n` of a merge. */
  lemma {:induction false} TakeMergeLeft(a: seq<Item>, b: seq<Item>, n: nat)
    ensures Take(Merge(a, b), n) == Take(Merge(Take(a, n), b), n)
    decreases n, |b|
  {
    if n == 0 || a == [] {
    } else if b == [] {
      assert Merge(Take(a, n), b) == Take(a, n);
    } else if a[0].created >= b[0].created {
      TakeMergeLeft(a[1..], b, n - 1);
      var ta := Take(a, n);
      TakeTail(a, n);
      assert Merge(ta, b) == [a[0]] + Merge(ta[1..], b);
      assert Merge(a, b) == [a[0]] + Merge(a[1..], b);
      TakeCons(a[0], Merge(a[1..], b), n);
      TakeCons(a[0], Merge(ta[1..], b), n);
    } else {
      var ta := Take(a, n);
      TakeMergeLeft(a, b[1..], n - 1);
      TakeMergeLeft(ta, b[1..], n - 1);
      TakeTake(a, n, n - 1);
      TakeTail(a, n);
      assert Merge(ta, b) == [b[0]] + Merge(ta, b[1..]);
      assert Merge(a, b) == [b[0]] + Merge(a, b[1..]);
      TakeCons(b[0], Merge(a, b[1..]), n);
      TakeCons(b[0], Merge(ta, b[1..]), n);
    }
  }

  /** Only the first `n` records of `b` can reach the first `n` of a merge. */
  lemma {:induction false} TakeMergeRight(a: seq<Item>, b: seq<Item>, n: nat)
    ensures Take(Merge(a, b), n) == Take(Merge(a, Take(b, n)), n)
    decreases n, |a|
  {
    if n == 0 || b == [] {
    } else if a == [] {
      assert Merge(a, Take(b, n)) == Take(b, n);
    } else if a[0].created >= b[0].created {
      var tb := Take(b, n);
      TakeMergeRight(a[1..], b, n - 1);
      TakeMergeRight(a[1..], tb, n - 1);
      TakeTake(b, n, n - 1);
      TakeTail(b, n);
      assert Merge(a, tb) == [a[0]] + Merge(a[1..], tb);
      assert Merge(a, b) == [a[0]] + Merge(a[1..], b);
      TakeCons(a[0], Merge(a[1..], b), n);
      TakeCons(a[0], Merge(a[1..], tb), n);
    } else {
      TakeMergeRight(a, b[1..], n - 1);
      var tb := Take(b, n);
      TakeTail(b, n);
      assert Merge(a, tb) == [b[0]] + Merge(a, tb[1..]);
      assert Merge(a, b) == [b[0]] + Merge(a, b[1..]);
      TakeCons(b[0], Merge(a, b[1..]), n);
      TakeCons(b[0], Merge(a, tb[1..]), n);
    }
  }

  lemma TakeTake(s: seq<Item>, n: nat, m: nat)
    requires m <= n
    ensures Take(Take(s, n), m) == Take(s, m)
  {
  }

  lemma TakeTail(s: seq<Item>, n: nat)
    requires n > 0 && s != []
    ensures Take(s, n)[0] == s[0] && Take(s, n)[1..] == Take(s[1..], n - 1)
  {
  }

  lemma TakeCons(x: Item, s: seq<Item>, n: nat)
    requires n > 0
    ensures Take([x] + s, n) == [x] + Take(s, n - 1)
  {
  }

  /** The first `n` of a stable newest-first sort are the `n` most recent
      records: nothing left out is newer than anything kept. */
  lemma TopIsMostRecent(s: seq<Item>, n: nat)
    ensures var r := Take(SortNewest(s), n);
      && |r| == (if n <= |s| then n else |s|)
      && NewestFirst(r)
      && multiset(r) <= multiset(s)
      && forall x, i :: x in multiset(s) - multiset(r) && 0 <= i < |r| ==> x.created <= r[i].created
  {
    var sorted := SortNewest(s);
    TakeNewestFirst(sorted, n);
    TakeLeftovers(s, sorted, n);
  }

  lemma TakeLeftovers(s: seq<Item>, sorted: seq<Item>, n: nat)
    requires sorted == SortNewest(s)
    ensures var r := Take(sorted, n);
      && multiset(r) <= multiset(s)
      && forall x, i :: x in multiset(s) - multiset(r) && 0 <= i < |r| ==> x.created <= r[i].created
  {
    SortNewestPermutes(s);
    var r := Take(sorted, n);
    var k := |r|;
    assert sorted == r + sorted[k..];
    assert multiset(sorted) == multiset(r) + multiset(sorted[k..]);
    NewestFirstSplit(sorted, k);
    forall x, i | x in multiset(s) - multiset(r) && 0 <= i < |r|
      ensures x.created <= r[i].created
    {
      assert x in sorted[k..];
    }
  }

  /** In a newest-first sequence, nothing after position `k` is newer than
      anything before it. */
  lemma NewestFirstSplit(s: seq<Item>, k: nat)
    requires NewestFirst(s) && k <= |s|
    ensures forall y, i :: y in s[k..] && 0 <= i < k ==> y.created <= s[i].created
  {
    forall y, i | y in s[k..] && 0 <= i < k
      ensures y.created <= s[i].created
    {
      var j :| 0 <= j < |s[k..]| && s[k..][j] == y;
      assert s[k + j] == y;
    }
  }

  /** Fetching the `n` newest of each of three tables, concatenating and
      keeping the `n` newest after a stable sort gives exactly the `n` newest
      of the three tables together, ties included. */
  lemma NewestOfEachSuffices(a: seq<Item>, b: seq<Item>, c: seq<Item>, n: nat)
    ensures Take(SortNewest(Take(SortNewest(a), n) + Take(SortNewest(b), n) + Take(SortNewest(c), n)), n)
         == Take(SortNewest(a + b + c), n)
  {
    var sa, sb, sc := SortNewest(a), SortNewest(b), SortNewest(c);
    var ta, tb, tc := Take(sa, n), Take(sb, n), Take(sc, n);
    TakeNewestFirst(sa, n);
    TakeNewestFirst(sb, n);
    TakeNewestFirst(sc, n);
    // The whole union, as merges of the sorted tables.
    SortNewestConcat(a + b, c);
    SortNewestConcat(a, b);
    // The fetched rows, as merges of the fetched prefixes.
    SortNewestConcat(ta + tb, tc);
    SortNewestConcat(ta, tb);
    SortNewestOfSorted(ta);
    SortNewestOfSorted(tb);
    SortNewestOfSorted(tc);
    var ab := Merge(sa, sb);
    var tab := Merge(ta, tb);
    calc {
      Take(Merge(ab, sc), n);
      { TakeMergeLeft(ab, sc, n); }
      Take(Merge(Take(ab, n), sc), n);
      { TakeMergeRight(Take(ab, n), sc, n); }
      Take(Merge(Take(ab, n), tc), n);
      { TakeMergeLeft(sa, sb, n); TakeMergeRight(ta, sb, n); }
      Take(Merge(Take(tab, n), tc), n);
      { TakeMergeLeft(tab, tc, n); }
      Take(Merge(tab, tc), n);
    }
  }

  /** A stable sort keeps records with distinct keys distinct. */
  lemma {:induction false} SortNewestDistinct(s: seq<Item>)
    requires DistinctKeys(s)
    ensures DistinctKeys(SortNewest(s))
  {
    if s != [] {
      assert DistinctKeys(s[1..]);
      SortNewestDistinct(s[1..]);
      SortNewestPermutes(s[1..]);
      forall y | y in SortNewest(s[1..])
        ensures KeyOf(y) != KeyOf(s[0])
      {
        assert y in multiset(SortNewest(s[1..]));
        var j :| 0 <= j < |s[1..]| && s[1..][j] == y;
        assert s[j + 1] == y;
      }
      InsertDistinct(s[0], SortNewest(s[1..]));
    }
  }

  lemma {:induction false} InsertDistinct(x: Item, r: seq<Item>)
    requires DistinctKeys(r)
    requires forall y :: y in r ==> KeyOf(y) != KeyOf(x)
    ensures DistinctKeys(Insert(x, r))
  {
    if r == [] || x.created >= r[0].created {
      DistinctCons(x, r);
    } else {
      InsertDistinct(x, r[1..]);
      InsertPermutes(x, r[1..]);
      var rest := Insert(x, r[1..]);
      forall y | y in rest
        ensures KeyOf(y) != KeyOf(r[0])
      {
        assert y in multiset(rest);
        if y != x {
          var j :| 0 <= j < |r[1..]| && r[1..][j] == y;
          assert r[j + 1] == y;
        }
      }
      DistinctCons(r[0], rest);
    }
  }
}
