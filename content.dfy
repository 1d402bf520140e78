/** The blog's three content kinds as one tagged variant, and the database as
    one in-memory table per kind (the shared base model of blog/models.py). */
module Content {

  datatype Option<+T> = None | Some(value: T)

  /** One content record. `pk`, `created`, `slug` and `tags` are shared by all
      three kinds; `tags` holds the slugs of the record's `Tag`s, in the order
      the database lists them. `created` is an abstract timestamp: a larger
      value is a later instant. */
  datatype Item =
    | Entry(pk: nat, created: int, slug: string, tags: seq<string>,
            title: string, body: string)
    | Blogmark(pk: nat, created: int, slug: string, tags: seq<string>,
               linkUrl: string, linkTitle: string,
               viaUrl: Option<string>, viaTitle: Option<string>, commentary: string)
    | Quotation(pk: nat, created: int, slug: string, tags: seq<string>,
                quotation: string, source: string, sourceUrl: Option<string>)
  {
    /** The `type` property: the lower-case model name. */
    function TypeName(): string {
      match this
      case Entry(_, _, _, _, _, _) => "entry"
      case Blogmark(_, _, _, _, _, _, _, _, _) => "blogmark"
      case Quotation(_, _, _, _, _, _, _) => "quotation"
    }
  }

  /** The three model names; any other `type` names no table. */
  predicate IsTypeName(t: string) {
    t == "entry" || t == "blogmark" || t == "quotation"
  }

  /** What identifies a record across the three tables. */
  datatype Key = Key(typeName: string, pk: int)

  function KeyOf(x: Item): Key {
    Key(x.TypeName(), x.pk)
  }

  /** No two records share a model name and primary key. */
  predicate DistinctKeys(s: seq<Item>) {
    forall i, j :: 0 <= i < j < |s| ==> KeyOf(s[i]) != KeyOf(s[j])
  }

  predicate UniquePks(table: seq<Item>) {
    forall i, j :: 0 <= i < j < |table| ==> table[i].pk != table[j].pk
  }

  /** The database: each sequence is a table in storage order. */
  datatype Store = Store(entries: seq<Item>, blogmarks: seq<Item>, quotations: seq<Item>) {

    /** Each table holds records of its own kind, and `pk` is its primary key. */
    predicate Valid() {
      && (forall i :: 0 <= i < |entries| ==> entries[i].Entry?)
      && (forall i :: 0 <= i < |blogmarks| ==> blogmarks[i].Blogmark?)
      && (forall i :: 0 <= i < |quotations| ==> quotations[i].Quotation?)
      && UniquePks(entries) && UniquePks(blogmarks) && UniquePks(quotations)
    }

    /** The table behind a model name; an unknown name has none. */
    function Table(typeName: string): (table: seq<Item>)
      ensures !IsTypeName(typeName) ==> table == []
      ensures Valid() ==> forall i :: 0 <= i < |table| ==> table[i].TypeName() == typeName
    {
      if typeName == "entry" then entries
      else if typeName == "blogmark" then blogmarks
      else if typeName == "quotation" then quotations
      else []
    }
  }

  /** `tag.entry_set.all()` and its siblings: the records of `table` that carry
      `tag`, in table order. */
  function Tagged(table: seq<Item>, tag: string): (r: seq<Item>)
    ensures |r| <= |table|
    ensures forall x :: x in r <==> x in table && tag in x.tags
    ensures multiset(r) <= multiset(table)
  {
    if table == [] then []
    else
      assert table == [table[0]] + table[1..];
      if tag in table[0].tags then [table[0]] + Tagged(table[1..], tag)
      else Tagged(table[1..], tag)
  }

  lemma DistinctCons(x: Item, s: seq<Item>)
    requires DistinctKeys(s)
    requires forall y :: y in s ==> KeyOf(y) != KeyOf(x)
    ensures DistinctKeys([x] + s)
  {
    var r := [x] + s;
    forall i, j | 0 <= i < j < |r|
      ensures KeyOf(r[i]) != KeyOf(r[j])
    {
      assert r[j] == s[j - 1];
      if i > 0 {
        assert r[i] == s[i - 1];
      }
    }
  }

  /** Two sequences without repeated keys and with no key in common make one. */
  lemma DistinctConcat(a: seq<Item>, b: seq<Item>)
    requires DistinctKeys(a) && DistinctKeys(b)
    requires forall x, y :: x in a && y in b ==> KeyOf(x) != KeyOf(y)
    ensures DistinctKeys(a + b)
  {
    var r := a + b;
    forall i, j | 0 <= i < j < |r|
      ensures KeyOf(r[i]) != KeyOf(r[j])
    {
      if j < |a| {
        assert r[i] == a[i] && r[j] == a[j];
      } else if i >= |a| {
        assert r[i] == b[i - |a|] && r[j] == b[j - |a|];
      } else {
        assert r[i] == a[i] && r[j] == b[j - |a|];
      }
    }
  }

  /** A valid table repeats no key. */
  lemma ValidTablesDistinct(db: Store)
    requires db.Valid()
    ensures DistinctKeys(db.entries) && DistinctKeys(db.blogmarks) && DistinctKeys(db.quotations)
  {
  }

  /** Filtering by tag keeps keys distinct. */
  lemma {:induction false} TaggedDistinct(table: seq<Item>, tag: string)
    requires DistinctKeys(table)
    ensures DistinctKeys(Tagged(table, tag))
  {
    if table != [] {
      assert DistinctKeys(table[1..]);
      TaggedDistinct(table[1..], tag);
      if tag in table[0].tags {
        forall y | y in Tagged(table[1..], tag)
          ensures KeyOf(y) != KeyOf(table[0])
        {
          var j :| 0 <= j < |table[1..]| && table[1..][j] == y;
          assert table[j + 1] == y;
        }
        DistinctCons(table[0], Tagged(table[1..], tag));
      }
    }
  }
}
