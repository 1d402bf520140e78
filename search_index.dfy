/** The per-kind text that feeds the full-text search index
    (`index_components`), and the two small string projections of a
    blogmark: `link_domain` and `word_count`. */
module SearchIndex {
  import opened Content
  import opened Text

  /** The weighted parts of a search document: A weighs most, C least. */
  datatype Components = Components(a: string, b: string, c: string)

  /** `link_url.split('/')[2]`; `None` stands for the `IndexError` raised when
      the URL holds fewer than two slashes. */
  function LinkDomain(url: string): (r: Option<string>)
    ensures r.Some? ==> '/' !in r.value
  {
    var pieces := Split(url, '/');
    if |pieces| > 2 then Some(pieces[2]) else None
  }

  /** The domain is found exactly when the URL has at least two slashes. */
  lemma LinkDomainDefined(url: string)
    ensures LinkDomain(url).Some? <==> multiset(url)['/'] >= 2
  {
    SplitCount(url, '/');
  }

  /** For a URL `scheme//host` followed by nothing or by a path starting with
      a slash, the domain is `host`. */
  lemma LinkDomainOfUrl(scheme: string, host: string, path: string)
    requires '/' !in scheme && '/' !in host
    requires path == [] || path[0] == '/'
    ensures LinkDomain(scheme + "//" + host + path) == Some(host)
  {
    var url := scheme + "//" + host + path;
    assert url == scheme + ['/'] + ([] + ['/'] + (host + path));
    SplitCons(scheme, '/', [] + ['/'] + (host + path));
    SplitCons([], '/', host + path);
    if path == [] {
      assert host + path == host;
      SplitNone(host, '/');
    } else {
      assert host + path == host + ['/'] + path[1..];
      SplitCons(host, '/', path[1..]);
    }
  }

  /** `via_title or ''`. */
  function ViaText(viaTitle: Option<string>): string
  {
    match viaTitle
    case None => ""
    case Some(t) => t
  }

  /** `index_components()` of any kind; `strip_tags` is a parameter. `None`
      stands for the `IndexError` of a blogmark whose link has no domain. */
  function IndexComponents(x: Item, stripTags: string -> string): Option<Components>
  {
    match x
    case Entry(_, _, _, tags, title, body) =>
      Some(Components(title, Join(" ", tags), stripTags(body)))
    case Quotation(_, _, _, tags, quotation, source, _) =>
      Some(Components(quotation, Join(" ", tags), source))
    case Blogmark(_, _, _, tags, linkUrl, linkTitle, _, viaTitle, commentary) =>
      match LinkDomain(linkUrl)
      case None => None
      case Some(domain) =>
        Some(Components(linkTitle, Join(" ", tags), commentary + " " + domain + " " + ViaText(viaTitle)))
  }

  /** Every kind has its components, except a blogmark whose link has fewer
      than two slashes, where `link_domain` raises. */
  lemma IndexComponentsDefined(x: Item, stripTags: string -> string)
    ensures IndexComponents(x, stripTags).None? <==> x.Blogmark? && multiset(x.linkUrl)['/'] < 2
  {
    if x.Blogmark? {
      LinkDomainDefined(x.linkUrl);
    }
  }

  /** The B component holds the record's tag names: empty when it has none,
      and otherwise splitting back at single spaces into exactly those names
      when none holds a space (tags are slugs, so none does). */
  lemma IndexComponentsTags(x: Item, stripTags: string -> string)
    ensures IndexComponents(x, stripTags).Some? && x.tags == [] ==> IndexComponents(x, stripTags).value.b == ""
    ensures IndexComponents(x, stripTags).Some? && |x.tags| >= 1 && (forall i :: 0 <= i < |x.tags| ==> ' ' !in x.tags[i])
      ==> Split(IndexComponents(x, stripTags).value.b, ' ') == x.tags
  {
    if |x.tags| >= 1 && (forall i :: 0 <= i < |x.tags| ==> ' ' !in x.tags[i]) {
      SplitJoin(x.tags, ' ');
    }
  }

  /** The A and C components of each kind: the title and the stripped body of
      an entry; the quotation and its source; the link title of a blogmark
      linking to `scheme//host path`, and as C its commentary, `host` and its
      via title, separated by single spaces. */
  lemma IndexComponentsFields(x: Item, stripTags: string -> string, scheme: string, host: string, path: string)
    requires x.Blogmark? ==>
      && x.linkUrl == scheme + "//" + host + path
      && '/' !in scheme && '/' !in host && (path == [] || path[0] == '/')
    ensures IndexComponents(x, stripTags).Some?
    ensures var r := IndexComponents(x, stripTags).value;
      match x
      case Entry(_, _, _, _, _, _) => r.a == x.title && r.c == stripTags(x.body)
      case Quotation(_, _, _, _, _, _, _) => r.a == x.quotation && r.c == x.source
      case Blogmark(_, _, _, _, _, _, _, _, _) =>
        r.a == x.linkTitle && r.c == x.commentary + " " + host + " " + ViaText(x.viaTitle)
  {
    if x.Blogmark? {
      LinkDomainOfUrl(scheme, host, path);
    }
  }

  /** `word_count()`: `'1 word'` or `'%d words'` of the number of
      whitespace-separated words of the commentary. */
  function WordCount(commentary: string): string
  {
    var n := |Words(commentary)|;
    if n == 1 then "1 word" else Decimal(n) + " words"
  }

  /** The label is `'1 word'` exactly when the commentary has one word start;
      otherwise it is a decimal numeral, reading back as the number of word
      starts, followed by `" words"`. */
  lemma WordCountSpec(commentary: string)
    ensures WordCount(commentary) == "1 word" <==> WordStarts(commentary, true) == 1
    ensures WordStarts(commentary, true) != 1 ==>
      exists d :: WordCount(commentary) == d + " words"
        && (forall i :: 0 <= i < |d| ==> '0' <= d[i] <= '9')
        && ParseDecimal(d) == WordStarts(commentary, true)
  {
    WordsCharacterized(commentary);
    var n := |Words(commentary)|;
    if n != 1 {
      DecimalRoundTrip(n);
      var d := Decimal(n);
      assert WordCount(commentary) == d + " words";
      assert |WordCount(commentary)| > |"1 word"|;
    }
  }
}
