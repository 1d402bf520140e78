# Mixed-content blog core in Dafny

This project models the part of the blog application that treats its three
content kinds as one collection. The kinds are entries, blogmarks (links with
commentary) and quotations. The model covers the tag helpers and
`load_mixed_objects` of `blog/models.py`, and the Atom feeds and the sitemap of
`blog/feeds.py`.

The database is one in-memory table per kind (`Content.Store`). Every record
is a value of `Content.Item`, carrying the shared `pk`, `created`, `slug` and
tag list plus its own fields. The models' default ordering (`-created`) is a
stable newest-first sort over storage order (`Timeline.SortNewest`).

Modules, one file each:

- `content.dfy`, `Content`: records, keys, the store and filtering by tag.
- `timeline.dfy`, `Timeline`: the newest-first sort, merging and truncation,
  with the lemmas behind every "newest N" result.
- `text.dfy`, `Text`: the Python string operations used (`join`, `split`,
  whitespace `split()`, `'%d'`).
- `tags.dfy`, `Tags`: `Counter` and `most_common`, `get_related_tags` as a
  class `Tag` with its memo field, `all_types_queryset` and the counts.
- `search_index.dfy`, `SearchIndex`: `index_components`, `link_domain` and
  `word_count`.
- `mixed_loader.dfy`, `MixedLoader`: `load_mixed_objects`. The value
  specification is `LoadMixed`. The imperative version creates `ModelObject`
  instances and sets their `original_dict` field.
- `feeds.dfy`, `Feeds`: the items and item fields of the three feeds, the
  in-place sort of `Everything.items`, and the sitemap.

Imperative source code is modelled by methods with loops. Each method is
proved equal to a specification function, and the properties are proved as
lemmas about that function. This holds for the counting loop of
`get_related_tags`, the three loops of `load_mixed_objects`, the in-place
`combined.sort` and the nested loops of `sitemap`.

## Model

| member | source | states |
|---|---|---|
| Tags.Tag.GetRelatedTags | blog/models.py:65-79 | The first call stores the related tags computed by the counting loop in `relatedTags` and returns them. Once stored, the memo is returned unchanged whatever `limit` a later call passes. |
| Tags.CountCoTags | blog/models.py:68-77 | The counting loop over entries, blogmarks and quotations builds exactly the counter of all co-occurring tags other than the tag itself, in that table order. |
| Tags.CountRows | blog/models.py:74-77 | `counts.update(t for t in qs if t != tag)` extends the counter of the rows seen so far to the counter of those rows followed by `qs`, with `tag` left out. |
| Tags.RelatedTagsRanking | blog/models.py:68-78 | The related tags never include the tag itself. There are none when `limit <= 0` and at most `limit` otherwise, all of them co-occurring tags. They are ordered by count, highest first, with ties in first-encountered order. A co-occurring tag left out means the list is full and every kept tag ranks above it. |
| Tags.TaggedWithout | blog/models.py:73-75 | Dropping every record tagged `u` leaves the records tagged `t` exactly as they were, in order, when no record carries both tags. |
| Tags.RelatedTagsLocal | blog/models.py:68-78 | The related tags of `t` depend only on the records tagged `t`. Removing all records tagged `u` from the three tables leaves them unchanged, for every `limit`, when no record carries both tags. |
| Tags.MostCommonSpec | blog/models.py:78 | `most_common(n)` of a counter built from `s`: empty for `n <= 0`, at most `n` distinct elements of `s`, ordered by occurrences with ties by first occurrence, and nothing left out that ranks above a kept one. |
| Tags.CounterOfSpec | blog/models.py:77 | The counter built by `update` holds each element of `s` exactly once, with its number of occurrences, in order of first occurrence. |
| Tags.BumpSpec | blog/models.py:77 | Counting one more `t` adds one to its count in place when `t` is already a key. Otherwise `t` is appended with count 1. |
| Tags.RankByCountPermutes | blog/models.py:78 | Ranking the counter only reorders its entries. |
| Tags.RankByCountRanked | blog/models.py:78 | Ranking entries listed in first-occurrence order sorts them by count, highest first, ties kept in first-occurrence order. |
| Tags.ExcludeMembers | blog/models.py:77 | The filter `t != self.tag` keeps exactly the elements other than the tag. |
| Tags.ExcludeAppend | blog/models.py:69-77 | Filtering table after table is filtering the concatenated rows. |
| Tags.Tag.AllTypesQuerysetRows | blog/models.py:41-63 | Each row's type is `entry`, `blogmark` or `quotation`, and the row comes from a record of that kind carrying the tag. Every such record gives a row. Rows are newest first, none repeats, and there are `total_count()` = entry + link + quote counts of them. |
| Content.Tagged | blog/models.py:41-48 | `tag.entry_set` and its siblings hold exactly the records of the table that carry the tag, a sub-multiset of the table. |
| MixedLoader.LoadMixedObjects | blog/models.py:338-365 | The objects returned hold exactly the values `LoadMixed` specifies, are newly created, and two slots hold the same object exactly when their references have the same type and pk. |
| MixedLoader.GroupByType | blog/models.py:345-347 | `to_fetch` maps each type to the set of pks referenced with it, and a type absent from it is referenced by nothing. |
| MixedLoader.FetchAll | blog/models.py:348-357 | `fetched` holds a new, distinct object for exactly the keys that are referenced, name one of the three kinds and exist in that kind's table. Each object holds that record and has no `original_dict` yet. |
| MixedLoader.AttachDicts | blog/models.py:358-365 | Slot `j` is the object fetched for `dicts[j]`'s key or `None`, and each object's `original_dict` ends as the last reference with its key. |
| MixedLoader.LoadMixedSlots | blog/models.py:338-365 | Same length as the input. Slot `i` is empty exactly when the named table has no record with that pk, which is always so for a type that names no kind. A filled slot holds that table's record with the reference's type and pk. |
| MixedLoader.LoadMixedOriginalDict | blog/models.py:359-364 | A filled slot's `original_dict` is a reference with the same key, at or after the slot, with no later reference sharing that key. |
| MixedLoader.LoadMixedRepeats | blog/models.py:359-364 | References with equal type and pk get equal slots. |
| MixedLoader.FindUnique | blog/models.py:355-357 | In a table keyed by `pk`, a record is what its own pk fetches. |
| SearchIndex.IndexComponentsDefined | blog/models.py:135-140 | For every record: it has no components exactly when it is a blogmark whose link has fewer than two slashes, where `link_domain` fails. The same holds at lines 160-165 and 180-185. |
| SearchIndex.IndexComponentsTags | blog/models.py:135-140 | Component B is empty for a record without tags. Otherwise it splits at spaces back into the record's tag names when none holds a space. The same holds at lines 160-165 and 180-185. |
| SearchIndex.IndexComponentsFields | blog/models.py:180-185 | A is the title (entry), the quotation text (quotation) or the link title (blogmark). C is the stripped body, the source, or `commentary + ' ' + domain + ' ' + (via_title or '')`. The same holds at lines 135-140 and 160-165. |
| SearchIndex.LinkDomain | blog/models.py:190-191 | A domain found holds no slash. |
| SearchIndex.LinkDomainDefined | blog/models.py:190-191 | `link_url.split('/')[2]` exists exactly when the URL holds at least two slashes. |
| SearchIndex.LinkDomainOfUrl | blog/models.py:190-191 | For `scheme//host` followed by nothing or a `/`-path, the domain is `host`. |
| SearchIndex.WordCountSpec | blog/models.py:193-198 | The label is `'1 word'` exactly when the commentary has one whitespace-separated word. Otherwise it is digits followed by `" words"`, and the digits read back as the word count. |
| Text.Split | blog/models.py:191 | `split` on one character yields at least one piece, none holding the separator. |
| Text.SplitCount | blog/models.py:191 | There is one more piece than separators. |
| Text.JoinSplit | blog/models.py:191 | Joining the pieces with the separator gives back the string. |
| Text.SplitJoin | blog/feeds.py:101 | Splitting a join gives back the parts when no part holds the separator. |
| Text.WordsCharacterized | blog/models.py:194 | `str.split()` finds one word per word start and keeps every non-whitespace character, in order. |
| Text.DecimalRoundTrip | blog/models.py:198 | `'%d' % n` reads back as `n`. |
| Timeline.SortNewest | blog/feeds.py:79 | The stable newest-first sort keeps the length and yields a newest-first sequence. |
| Timeline.SortNewestPermutes | blog/feeds.py:79 | The sort only reorders. |
| Timeline.SortNewestStable | blog/feeds.py:79 | Records created at the same instant keep their relative order. |
| Timeline.NewestFirstUnique | blog/feeds.py:79 | Two newest-first sequences with the same records at every instant, in the same order, are equal, so a stable sort has one possible result. |
| Timeline.SortNewestConcat | blog/feeds.py:78-79 | Sorting a concatenation is merging the sorted parts. |
| Timeline.TopIsMostRecent | blog/feeds.py:79-80 | The first `n` after the sort are `min(n, len(s))` records of `s`, newest first, and nothing left out is newer than anything kept. |
| Timeline.NewestOfEachSuffices | blog/feeds.py:66-80 | Taking the `n` newest of each of three tables, concatenating, sorting and keeping `n` gives exactly the `n` newest of the three tables together, ties included. |
| Timeline.TakeMergeLeft | blog/feeds.py:69-80 | Only the first `n` records of the left input can reach the first `n` of a merge. |
| Timeline.TakeMergeRight | blog/feeds.py:69-80 | Only the first `n` records of the right input can reach the first `n` of a merge. |
| Timeline.SortNewestDistinct | blog/models.py:63 | Sorting keeps records with distinct keys distinct. |
| Feeds.EverythingItems | blog/feeds.py:66-80 | The items are the 30 newest records of blogmarks, entries and quotations together, after the stable sort of their concatenation. |
| Feeds.SortByCreatedDesc | blog/feeds.py:79 | The in-place sort leaves the array equal to the stable newest-first sort of its old contents. |
| Feeds.SiftDown | blog/feeds.py:79 | One step of the sort inserts `a[i]` into the sorted suffix after it and leaves the front of the array alone. |
| Feeds.EverythingItemsSpec | blog/feeds.py:66-80 | The result has `min(30, total)` records of the three tables, with non-increasing pubdate and nothing left out newer. Among records created at one instant it keeps the first ones of blogmarks, then entries, then quotations. |
| Feeds.EverythingItemsDistinct | blog/feeds.py:66-80 | In a valid store no record appears twice among the everything feed's items. |
| Feeds.LatestSpec | blog/feeds.py:35-38 | `order_by('-created')[:n]` holds `min(n, len(table))` records, a sub-multiset of the table, newest first, and nothing left out is newer. |
| Feeds.EntriesItemsSpec | blog/feeds.py:35-38 | The entries feed holds `min(15, entries)` entries, a sub-multiset of the table, newest first. No entry left out is newer than one kept, and it holds nothing but entries. |
| Feeds.BlogmarksItemsSpec | blog/feeds.py:52-55 | The blogmarks feed holds `min(15, blogmarks)` blogmarks, a sub-multiset of the table, newest first. No blogmark left out is newer than one kept, and it holds nothing but blogmarks. |
| Feeds.GaSource | blog/feeds.py:33-64 | Each feed's `ga_source` (lines 33, 50 and 64) is a non-empty name without `#`. |
| Feeds.GaSourceDistinct | blog/feeds.py:33-64 | The three feeds have three different `ga_source` names. |
| Feeds.ItemLinkParts | blog/feeds.py:18-19 | A link splits at `#` into the item's URL and `atom-` plus the feed's `ga_source`, so different feeds give the same item different links. |
| Feeds.ItemPubdate | blog/feeds.py:24-25 | The publication date is the record's creation time, the key the feeds order their items by. |
| Feeds.ItemUpdateddate | blog/feeds.py:27-28 | The update date is the publication date: records are never reported as updated. |
| Feeds.CategoriesOfSearchText | blog/feeds.py:21-22 | The categories are the tag names, the same list component B of the search text splits into. |
| Feeds.EverythingTitleAgrees | blog/feeds.py:82-88 | The everything feed titles an entry and a blogmark as the single-kind feeds do (lines 40-41, 57-58), and a quotation as `Quoting ` followed by its source. |
| Feeds.QuotationTitles | blog/feeds.py:82-88 | Two quotations get the same title in the everything feed exactly when they quote the same source. |
| Feeds.Sitemap | blog/feeds.py:91-101 | The body built by the nested loops is the sitemap lines joined by newlines. |
| Feeds.SitemapSplits | blog/feeds.py:91-101 | The body splits at newlines back into its lines: the header, one `<url>` element per record and the closing tag, `2 + total` lines. |
| Feeds.SitemapCoversAll | blog/feeds.py:96-99 | Every record of every table has its `<url>` element in the sitemap. |
| Feeds.ElementsOfThree | blog/feeds.py:96-99 | The elements of the loop over the three kinds are those of entries, then blogmarks, then quotations, each newest first. |

## Left out

- Django ORM and PostgreSQL: managers, `prefetch_related`, `values_list`, the SQL `union`, the JSONField and the search vector. Tables are sequences; a query is a function over them.
- The default ordering `-created` is the stable newest-first sort over storage order. The database does not promise that tie order. `all_types_queryset` breaks ties among the union by entries, blogmarks, quotations, which the database does not promise either.
- `created` is an abstract integer timestamp; time zones, `arrow` and `created_unixtimestamp` are left out.
- `strip_tags`, `get_absolute_url` (with `reverse` and `timezone.localdate`) and `request.build_absolute_uri` are function parameters, since their code is not part of this model.
- Feeds.Sitemap: blog/feeds.py:98 passes `obj.get_absolute_url` to `build_absolute_uri` without calling it. The model applies the URL function to the record, which is the evidently intended call. It does not model the bound-method object.
- Sitemap iterates each kind in its default `-created` order. `.only('slug', 'created')` changes no values here.
- Tags.Tag.GetRelatedTags: `limit=None` (all tags) is not modelled; `limit` is an integer and any `limit <= 0` gives an empty list, as `heapq.nlargest` does.
- The order of a record's tags is the order of its `tags` sequence; the database does not define it.
- MixedLoader: only the `type` and `pk` keys of a reference are read. The rest of the dictionary is an opaque map. A `pk` of another Python type than `int` is not modelled.
- The Cache-Control header, `Feed`/`Atom1Feed` machinery, `HttpResponse`, `item_description` and feed titles are HTTP and syndication plumbing.
- Admin and UI rendering (`get_link`, comment and photo HTML), `Entry.images`, `metadata`, `search_document` and `import_ref` carry no logic of the core.
- The Micropub views exercised by blog/tests/test_micropub.py are not part of this model.
