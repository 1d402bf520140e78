/** The Atom feeds of blog/feeds.py (entries, blogmarks, everything), the
    per-item fields they publish, and the XML sitemap. */
module Feeds {
  import opened Content
  import opened Timeline
  import opened Text
  import SearchIndex

  datatype Feed = EntriesFeed | BlogmarksFeed | EverythingFeed

  /** `ga_source` of each feed: a non-empty name free of `#`, so it can end
      a URL fragment. */
  function GaSource(f: Feed): (s: string)
    ensures |s| > 0 && '#' !in s
  {
    match f
    case EntriesFeed => "entries"
    case BlogmarksFeed => "blogmarks"
    case EverythingFeed => "everything"
  }

  // ---------------------------------------------------------------------
  // Per-item fields. `url` stands for `item.get_absolute_url()`.

  /** `item_link`: the item's URL with the feed's `#atom-` fragment. */
  function ItemLink(f: Feed, item: Item, url: Item -> string): string
  {
    url(item) + "#atom-" + GaSource(f)
  }

  /** Each feed has its own `ga_source`. */
  lemma GaSourceDistinct(f: Feed, g: Feed)
    ensures GaSource(f) == GaSource(g) <==> f == g
  {
  }

  /** A link splits at `#` into the item's URL and the fragment naming the
      feed, so the same item gets a different link in each feed. */
  lemma ItemLinkParts(f: Feed, g: Feed, item: Item, url: Item -> string)
    requires '#' !in url(item)
    ensures Split(ItemLink(f, item, url), '#') == [url(item), "atom-" + GaSource(f)]
    ensures f != g ==> ItemLink(f, item, url) != ItemLink(g, item, url)
  {
    ItemLinkFragment(f, item, url);
    ItemLinkFragment(g, item, url);
  }

  lemma ItemLinkFragment(g: Feed, item: Item, url: Item -> string)
    requires '#' !in url(item)
    ensures Split(ItemLink(g, item, url), '#') == [url(item), "atom-" + GaSource(g)]
  {
    var fragment := "atom-" + GaSource(g);
    assert ItemLink(g, item, url) == url(item) + ['#'] + fragment;
    assert '#' !in fragment;
    SplitCons(url(item), '#', fragment);
    SplitNone(fragment, '#');
  }

  /** `item_categories`: the item's tag names. */
  function ItemCategories(item: Item): seq<string>
  {
    item.tags
  }

  /** The categories are what the B search component holds, split at its
      spaces (tags are slugs, so none holds a space). */
  lemma CategoriesOfSearchText(item: Item, stripTags: string -> string)
    requires |item.tags| >= 1
    requires forall i :: 0 <= i < |item.tags| ==> ' ' !in item.tags[i]
    requires SearchIndex.IndexComponents(item, stripTags).Some?
    ensures Split(SearchIndex.IndexComponents(item, stripTags).value.b, ' ') == ItemCategories(item)
  {
    SearchIndex.IndexComponentsTags(item, stripTags);
  }

  /** `item_pubdate`: the moment the record was created, the key the feeds
      order their items by. */
  function ItemPubdate(item: Item): (d: int)
    ensures d == item.created
  {
    item.created
  }

  /** `item_updateddate`: records are never reported as updated, so it is
      the publication date. */
  function ItemUpdateddate(item: Item): (d: int)
    ensures d == ItemPubdate(item)
  {
    item.created
  }

  /** `item_title` of the entries feed, defined for entries. */
  function EntriesItemTitle(item: Item): string
    requires item.Entry?
  {
    item.title
  }

  /** `item_title` of the blogmarks feed, defined for blogmarks. */
  function BlogmarksItemTitle(item: Item): string
    requires item.Blogmark?
  {
    item.linkTitle
  }

  /** `item_title` of the everything feed: dispatch on the kind. */
  function EverythingItemTitle(item: Item): string
  {
    match item
    case Entry(_, _, _, _, title, _) => title
    case Blogmark(_, _, _, _, _, linkTitle, _, _, _) => linkTitle
    case Quotation(_, _, _, _, _, source, _) => "Quoting " + source
  }

  /** The everything feed titles an entry or a blogmark as its own feed does,
      and a quotation as `Quoting ` followed by its source. */
  lemma EverythingTitleAgrees(item: Item)
    ensures item.Entry? ==> EverythingItemTitle(item) == EntriesItemTitle(item)
    ensures item.Blogmark? ==> EverythingItemTitle(item) == BlogmarksItemTitle(item)
    ensures item.Quotation? ==>
      |EverythingItemTitle(item)| == |"Quoting "| + |item.source|
      && EverythingItemTitle(item)[..8] == "Quoting "
      && EverythingItemTitle(item)[8..] == item.source
  {
  }

  /** Two quotations get the same title in the everything feed exactly when
      they quote the same source. */
  lemma QuotationTitles(q1: Item, q2: Item)
    requires q1.Quotation? && q2.Quotation?
    ensures EverythingItemTitle(q1) == EverythingItemTitle(q2) <==> q1.source == q2.source
  {
    EverythingTitleAgrees(q1);
    EverythingTitleAgrees(q2);
  }

  // ---------------------------------------------------------------------
  // Feed items.

  /** `order_by('-created')[:n]` over a table. */
  function Latest(table: seq<Item>, n: nat): seq<Item>
  {
    Take(SortNewest(table), n)
  }

  /** `Entries.items()`. */
  function EntriesItems(db: Store): seq<Item>
  {
    Latest(db.entries, 15)
  }

  /** `Blogmarks.items()`. */
  function BlogmarksItems(db: Store): seq<Item>
  {
    Latest(db.blogmarks, 15)
  }

  /** `order_by('-created')[:n]` over a table holds the `n` newest of its
      records (all of them when there are fewer), newest first, and leaves
      out nothing newer than what it holds. */
  lemma LatestSpec(table: seq<Item>, n: nat)
    ensures var r := Latest(table, n);
      && |r| == (if |table| < n then |table| else n)
      && multiset(r) <= multiset(table)
      && (forall i, j :: 0 <= i < j < |r| ==> ItemPubdate(r[i]) >= ItemPubdate(r[j]))
      && (forall x, i :: x in multiset(table) - multiset(r) && 0 <= i < |r| ==> x.created <= r[i].created)
  {
    TopIsMostRecent(table, n);
  }

  /** The entries feed holds the 15 newest entries (all of them when there
      are fewer), newest first, leaves out no newer entry and carries nothing
      but entries. */
  lemma EntriesItemsSpec(db: Store)
    requires db.Valid()
    ensures var r := EntriesItems(db);
      && |r| == (if |db.entries| < 15 then |db.entries| else 15)
      && multiset(r) <= multiset(db.entries)
      && (forall i, j :: 0 <= i < j < |r| ==> ItemPubdate(r[i]) >= ItemPubdate(r[j]))
      && (forall x, i :: x in multiset(db.entries) - multiset(r) && 0 <= i < |r| ==> x.created <= r[i].created)
      && (forall i :: 0 <= i < |r| ==> r[i].Entry?)
  {
    LatestSpec(db.entries, 15);
    var r := EntriesItems(db);
    forall i | 0 <= i < |r|
      ensures r[i].Entry?
    {
      assert r[i] in multiset(db.entries);
    }
  }

  /** The blogmarks feed holds the 15 newest blogmarks (all of them when
      there are fewer), newest first, leaves out no newer blogmark and
      carries nothing but blogmarks. */
  lemma BlogmarksItemsSpec(db: Store)
    requires db.Valid()
    ensures var r := BlogmarksItems(db);
      && |r| == (if |db.blogmarks| < 15 then |db.blogmarks| else 15)
      && multiset(r) <= multiset(db.blogmarks)
      && (forall i, j :: 0 <= i < j < |r| ==> ItemPubdate(r[i]) >= ItemPubdate(r[j]))
      && (forall x, i :: x in multiset(db.blogmarks) - multiset(r) && 0 <= i < |r| ==> x.created <= r[i].created)
      && (forall i :: 0 <= i < |r| ==> r[i].Blogmark?)
  {
    LatestSpec(db.blogmarks, 15);
    var r := BlogmarksItems(db);
    forall i | 0 <= i < |r|
      ensures r[i].Blogmark?
    {
      assert r[i] in multiset(db.blogmarks);
    }
  }

  /** `x` goes in at position `k` of `r` when everything before `k` is newer
      than `x` and the record at `k`, if any, is not. */
  lemma {:induction false} InsertAt(x: Item, r: seq<Item>, k: nat)
    requires k <= |r|
    requires forall m :: 0 <= m < k ==> r[m].created > x.created
    requires k < |r| ==> r[k].created <= x.created
    ensures Insert(x, r) == r[..k] + [x] + r[k..]
  {
    if k > 0 {
      InsertAt(x, r[1..], k - 1);
      assert r[..k] == [r[0]] + r[1..][..k - 1];
      assert r[k..] == r[1..][k - 1..];
    } else {
      assert r[k..] == r;
    }
  }

  /** One step of the in-place sort: `a[i]` moves down past the records of
      the suffix after it that are newer, which shift up by one. */
  method SiftDown(a: array<Item>, i: nat)
    requires i < a.Length
    modifies a
    ensures a[..i] == old(a[..i])
    ensures a[i..] == Insert(old(a[i]), old(a[i + 1..]))
  {
    var x := a[i];
    ghost var r := a[i + 1..];
    ghost var front := a[..i];
    var j := i;
    while j + 1 < a.Length && a[j + 1].created > x.created
      invariant i <= j < a.Length
      invariant a[..i] == front
      invariant forall m :: i <= m < j ==> a[m] == r[m - i] && r[m - i].created > x.created
      invariant forall m :: j < m < a.Length ==> a[m] == r[m - 1 - i]
    {
      a[j] := a[j + 1];
      j := j + 1;
    }
    ghost var k := j - i;
    forall m | 0 <= m < k
      ensures r[m].created > x.created
    {
      assert a[m + i] == r[m];
    }
    assert k < |r| ==> r[k] == a[j + 1] && r[k].created <= x.created;
    a[j] := x;
    InsertAt(x, r, k);
    Shifted(a[i..], r, k, x);
  }

  /** A sequence that holds `r[..k]`, then `x`, then `r[k..]` position by
      position is that concatenation. */
  lemma Shifted(b: seq<Item>, r: seq<Item>, k: nat, x: Item)
    requires |b| == |r| + 1 && k <= |r|
    requires forall m :: 0 <= m < k ==> b[m] == r[m]
    requires b[k] == x
    requires forall m :: k < m < |b| ==> b[m] == r[m - 1]
    ensures b == r[..k] + [x] + r[k..]
  {
  }

  /** `combined.sort(key=lambda e: e.created, reverse=True)`, in place: each
      record, from the back, is moved down into the sorted suffix after it. */
  method SortByCreatedDesc(a: array<Item>)
    modifies a
    ensures a[..] == SortNewest(old(a[..]))
  {
    ghost var s := a[..];
    var i := a.Length;
    assert s[i..] == [];
    while i > 0
      invariant 0 <= i <= a.Length
      invariant a[..i] == s[..i]
      invariant a[i..] == SortNewest(s[i..])
    {
      i := i - 1;
      assert a[..i] == s[..i] && a[i] == s[i] by {
        assert a[..i + 1] == s[..i + 1];
        assert a[..i] == a[..i + 1][..i] && s[..i] == s[..i + 1][..i];
        assert a[i] == a[..i + 1][i] && s[i] == s[..i + 1][i];
      }
      SiftDown(a, i);
      SortNewestStep(s, i);
    }
    assert a[..] == a[0..];
    assert s == s[0..];
  }

  /** Sorting the suffix from `i` inserts `s[i]` into the sorted suffix after it. */
  lemma SortNewestStep(s: seq<Item>, i: nat)
    requires i < |s|
    ensures SortNewest(s[i..]) == Insert(s[i], SortNewest(s[i + 1..]))
  {
    assert s[i..][0] == s[i] && s[i..][1..] == s[i + 1..];
  }

  /** `Everything.items()`: the 30 newest of each kind, blogmarks, entries and
      quotations in that order, sorted newest first and cut to 30; this is
      the 30 newest records of the three tables together. */
  method EverythingItems(db: Store) returns (items: seq<Item>)
    ensures items == Take(SortNewest(db.blogmarks + db.entries + db.quotations), 30)
  {
    var lastEntries := Latest(db.entries, 30);
    var lastBlogmarks := Latest(db.blogmarks, 30);
    var lastQuotations := Latest(db.quotations, 30);
    var combined := lastBlogmarks + lastEntries + lastQuotations;
    var a := new Item[|combined|](i requires 0 <= i < |combined| => combined[i]);
    assert a[..] == combined;
    SortByCreatedDesc(a);
    items := Take(a[..], 30);
    NewestOfEachSuffices(db.blogmarks, db.entries, db.quotations, 30);
  }

  /** `CreatedAt` of a prefix is a prefix of `CreatedAt`. */
  lemma CreatedAtPrefix(s: seq<Item>, n: nat, t: int)
    ensures CreatedAt(Take(s, n), t) <= CreatedAt(s, t)
  {
    if n <= |s| {
      assert s == s[..n] + s[n..];
      CreatedAtAppend(s[..n], s[n..], t);
    }
  }

  /** The everything feed holds min(30, total) records of the three tables,
      newest first, with nothing left out newer than what it holds; among
      records created at the same instant it keeps the first ones of
      blogmarks, then entries, then quotations. */
  lemma EverythingItemsSpec(db: Store)
    ensures var all := db.blogmarks + db.entries + db.quotations;
      var r := Take(SortNewest(all), 30);
      && |r| == (if |all| < 30 then |all| else 30)
      && (forall i, j :: 0 <= i < j < |r| ==> ItemPubdate(r[i]) >= ItemPubdate(r[j]))
      && multiset(r) <= multiset(all)
      && (forall x, i :: x in multiset(all) - multiset(r) && 0 <= i < |r| ==> x.created <= r[i].created)
      && (forall t :: CreatedAt(r, t) <= CreatedAt(db.blogmarks, t) + CreatedAt(db.entries, t) + CreatedAt(db.quotations, t))
  {
    var all := db.blogmarks + db.entries + db.quotations;
    TopIsMostRecent(all, 30);
    forall t
      ensures CreatedAt(Take(SortNewest(all), 30), t)
           <= CreatedAt(db.blogmarks, t) + CreatedAt(db.entries, t) + CreatedAt(db.quotations, t)
    {
      CreatedAtPrefix(SortNewest(all), 30, t);
      SortNewestStable(all, t);
      CreatedAtAppend(db.blogmarks + db.entries, db.quotations, t);
      CreatedAtAppend(db.blogmarks, db.entries, t);
    }
  }

  /** No record appears twice in the everything feed: the three tables hold
      distinct kinds, and each table's primary keys are unique. */
  lemma EverythingItemsDistinct(db: Store)
    requires db.Valid()
    ensures DistinctKeys(Take(SortNewest(db.blogmarks + db.entries + db.quotations), 30))
  {
    ValidTablesDistinct(db);
    assert forall x :: x in db.entries ==> x.Entry?;
    assert forall x :: x in db.blogmarks ==> x.Blogmark?;
    assert forall x :: x in db.quotations ==> x.Quotation?;
    DistinctConcat(db.blogmarks, db.entries);
    DistinctConcat(db.blogmarks + db.entries, db.quotations);
    var sorted := SortNewest(db.blogmarks + db.entries + db.quotations);
    SortNewestDistinct(db.blogmarks + db.entries + db.quotations);
    var r := Take(sorted, 30);
    forall i, j | 0 <= i < j < |r|
      ensures KeyOf(r[i]) != KeyOf(r[j])
    {
      assert r[i] == sorted[i] && r[j] == sorted[j];
    }
  }

  // ---------------------------------------------------------------------
  // The sitemap. `url` stands for the absolute URL of a record's page.

  const XmlDeclaration: string := "<?xml version=\"1.0\" encoding=\"UTF-8\"?>"
  const SitemapNamespace: string := "http://www.sitemaps.org/schemas/sitemap/0.9"
  /** The first line: the XML declaration and the opening `urlset` tag. */
  const SitemapHeader: string := XmlDeclaration + "<urlset xmlns=\"" + SitemapNamespace + "\">"
  const SitemapFooter: string := "</urlset>"

  lemma FixedLinesSingle()
    ensures '\n' !in SitemapHeader && '\n' !in SitemapFooter
  {
    DeclarationSingle();
    NamespaceSingle();
  }

  lemma DeclarationSingle()
    ensures '\n' !in XmlDeclaration
  {
  }

  lemma NamespaceSingle()
    ensures '\n' !in SitemapNamespace
  {
  }

  function UrlElement(location: string): string
  {
    "<url><loc>" + location + "</loc></url>"
  }

  function UrlElements(items: seq<Item>, url: Item -> string): (r: seq<string>)
    ensures |r| == |items|
  {
    seq(|items|, i requires 0 <= i < |items| => UrlElement(url(items[i])))
  }

  /** The lines of the sitemap: the header, a `<url>` element per record,
      entries, then blogmarks, then quotations, each newest first, and the
      closing tag. */
  function SitemapLines(db: Store, url: Item -> string): seq<string>
  {
    var elements := UrlElements(SortNewest(db.entries), url)
      + UrlElements(SortNewest(db.blogmarks), url)
      + UrlElements(SortNewest(db.quotations), url);
    [SitemapHeader] + elements + [SitemapFooter]
  }

  /** `sitemap(request)`: the lines built in nested loops, joined by newlines. */
  method Sitemap(db: Store, url: Item -> string) returns (body: string)
    ensures body == Join("\n", SitemapLines(db, url))
  {
    var xml := [SitemapHeader];
    var tables := [db.entries, db.blogmarks, db.quotations];
    ghost var done: seq<string> := [];
    for k := 0 to |tables|
      invariant xml == [SitemapHeader] + done
      invariant done == Elements(tables[..k], url)
    {
      var objects := SortNewest(tables[k]);
      for i := 0 to |objects|
        invariant xml == [SitemapHeader] + done + UrlElements(objects[..i], url)
      {
        UrlElementsStep(objects, i, url);
        xml := xml + [UrlElement(url(objects[i]))];
      }
      assert objects[..|objects|] == objects;
      ElementsStep(tables, k, url);
      done := done + UrlElements(objects, url);
    }
    ElementsOfThree(db, url);
    assert tables[..3] == tables;
    xml := xml + [SitemapFooter];
    body := Join("\n", xml);
  }

  /** The `<url>` elements of the first tables of `tables`. */
  function Elements(tables: seq<seq<Item>>, url: Item -> string): seq<string>
  {
    if tables == [] then []
    else Elements(tables[..|tables| - 1], url) + UrlElements(SortNewest(tables[|tables| - 1]), url)
  }

  lemma UrlElementsStep(items: seq<Item>, i: nat, url: Item -> string)
    requires i < |items|
    ensures UrlElements(items[..i + 1], url) == UrlElements(items[..i], url) + [UrlElement(url(items[i]))]
  {
  }

  lemma ElementsStep(tables: seq<seq<Item>>, k: nat, url: Item -> string)
    requires k < |tables|
    ensures Elements(tables[..k + 1], url) == Elements(tables[..k], url) + UrlElements(SortNewest(tables[k]), url)
  {
    assert tables[..k + 1][..k] == tables[..k];
  }

  /** The elements of the three tables are those of each table in turn. */
  lemma ElementsOfThree(db: Store, url: Item -> string)
    ensures Elements([db.entries, db.blogmarks, db.quotations], url)
         == UrlElements(SortNewest(db.entries), url) + UrlElements(SortNewest(db.blogmarks), url)
            + UrlElements(SortNewest(db.quotations), url)
  {
    var c := [db.entries, db.blogmarks, db.quotations];
    var e, b, q := UrlElements(SortNewest(db.entries), url), UrlElements(SortNewest(db.blogmarks), url),
      UrlElements(SortNewest(db.quotations), url);
    var c1, c2 := [db.entries], [db.entries, db.blogmarks];
    assert c1[..0] == [];
    assert Elements(c1, url) == [] + e;
    assert c2[..1] == c1;
    assert Elements(c2, url) == e + b;
    assert c[..2] == c2;
    assert Elements(c, url) == e + b + q;
  }

  /** No line holds a newline. */
  predicate SingleLines(lines: seq<string>)
  {
    forall i :: 0 <= i < |lines| ==> '\n' !in lines[i]
  }

  lemma SingleLinesConcat(a: seq<string>, b: seq<string>)
    requires SingleLines(a) && SingleLines(b)
    ensures SingleLines(a + b)
  {
    forall i | 0 <= i < |a + b|
      ensures '\n' !in (a + b)[i]
    {
      if i >= |a| {
        assert (a + b)[i] == b[i - |a|];
      }
    }
  }

  lemma UrlElementsSingle(items: seq<Item>, url: Item -> string)
    requires forall x :: '\n' !in url(x)
    ensures SingleLines(UrlElements(items, url))
  {
    forall i | 0 <= i < |items|
      ensures '\n' !in UrlElements(items, url)[i]
    {
      assert UrlElements(items, url)[i] == "<url><loc>" + url(items[i]) + "</loc></url>";
    }
  }

  /** When no URL holds a newline, the sitemap splits back into its lines,
      and it has two lines more than there are records. */
  lemma SitemapSplits(db: Store, url: Item -> string)
    requires forall x :: '\n' !in url(x)
    ensures Split(Join("\n", SitemapLines(db, url)), '\n') == SitemapLines(db, url)
    ensures |SitemapLines(db, url)| == 2 + |db.entries| + |db.blogmarks| + |db.quotations|
  {
    var e, b, q := UrlElements(SortNewest(db.entries), url), UrlElements(SortNewest(db.blogmarks), url),
      UrlElements(SortNewest(db.quotations), url);
    FixedLinesSingle();
    UrlElementsSingle(SortNewest(db.entries), url);
    UrlElementsSingle(SortNewest(db.blogmarks), url);
    UrlElementsSingle(SortNewest(db.quotations), url);
    assert SingleLines([SitemapHeader]) && SingleLines([SitemapFooter]);
    SingleLinesConcat(e, b);
    SingleLinesConcat(e + b, q);
    SingleLinesConcat([SitemapHeader], e + b + q);
    SingleLinesConcat([SitemapHeader] + (e + b + q), [SitemapFooter]);
    SplitJoin(SitemapLines(db, url), '\n');
  }

  /** Every record of every table has its `<url>` element in the sitemap. */
  lemma SitemapCoversAll(db: Store, url: Item -> string)
    ensures forall x :: x in db.entries + db.blogmarks + db.quotations ==> UrlElement(url(x)) in SitemapLines(db, url)
  {
    var lines := SitemapLines(db, url);
    forall x | x in db.entries + db.blogmarks + db.quotations
      ensures UrlElement(url(x)) in lines
    {
      var table := if x in db.entries then db.entries else if x in db.blogmarks then db.blogmarks else db.quotations;
      SortNewestPermutes(table);
      var sorted := SortNewest(table);
      assert x in multiset(sorted);
      var k :| 0 <= k < |sorted| && sorted[k] == x;
      assert UrlElements(sorted, url)[k] == UrlElement(url(x));
      assert UrlElement(url(x)) in UrlElements(sorted, url);
    }
  }
}
