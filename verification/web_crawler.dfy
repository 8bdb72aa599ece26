/** The sequential bookkeeping of pratices/webCrawler.go: the visited set,
    the extraction of `href` links from a page's token stream, the rewriting
    of site-relative links, and the depth and visited guard of the crawl.
    The HTML tokenizer's output is an input sequence, the base URL arrives
    already split into scheme and host, and the web is a function from a URL
    to the page it serves (or to `None` when the GET fails). */
module WebCrawler {
  import opened Options

  /** The set of URLs some crawl step has claimed. */
  datatype CrawlQueue = CrawlQueue(visited: set<string>)

  datatype Added = Added(queue: CrawlQueue, isNew: bool)

  function NewCrawlQueue(): (q: CrawlQueue)
    ensures forall u :: u !in q.visited
  {
    CrawlQueue({})
  }

  /** Marks `u` visited and reports whether it was new. */
  function Add(q: CrawlQueue, u: string): (r: Added)
    ensures r.isNew <==> u !in q.visited
    ensures u in r.queue.visited
    ensures forall v :: v != u ==> (v in r.queue.visited <==> v in q.visited)
  {
    if u in q.visited then Added(q, false)
    else Added(CrawlQueue(q.visited + {u}), true)
  }

  /** A second `Add` of the same URL reports it as known and changes nothing. */
  lemma AddTwice(q: CrawlQueue, u: string)
    ensures var first := Add(q, u);
            var second := Add(first.queue, u);
            !second.isNew && second.queue == first.queue
  {
  }

  // ---------------------------------------------------------------------
  // Link extraction

  datatype TokenType =
    | ErrorToken | TextToken | StartTagToken | EndTagToken
    | SelfClosingTagToken | CommentToken | DoctypeToken

  datatype Attribute = Attribute(key: string, val: string)

  /** A token as the tokenizer hands it out: its type, its tag name and its
      attributes in source order. */
  datatype Token = Token(kind: TokenType, data: string, attr: seq<Attribute>)

  /** The two parts of the page's URL that link rewriting uses. */
  datatype BaseURL = BaseURL(scheme: string, host: string)

  /** A link starting with "/" is put under the page's scheme and host; any
      other link, relative or not, is kept as it is. */
  function Absolutize(link: string, base: BaseURL): (r: string)
    ensures "/" <= link ==> r == base.scheme + "://" + base.host + link
    ensures !("/" <= link) ==> r == link
  {
    if "/" <= link then base.scheme + "://" + base.host + link else link
  }

  /** Rewriting an already rewritten link changes nothing, as long as the
      scheme does not itself start with "/". */
  lemma AbsolutizeIdempotent(link: string, base: BaseURL)
    requires |base.scheme| == 0 || base.scheme[0] != '/'
    ensures Absolutize(Absolutize(link, base), base) == Absolutize(link, base)
  {
    var r := Absolutize(link, base);
    if "/" <= link {
      if |base.scheme| == 0 {
        assert r[0] == ':';
      } else {
        assert r[0] == base.scheme[0];
      }
      assert !("/" <= r);
    }
  }

  predicate NoError(tokens: seq<Token>) {
    forall k :: 0 <= k < |tokens| ==> tokens[k].kind != ErrorToken
  }

  /** The links of a list of attributes: the `href` values, in order. */
  function Hrefs(attrs: seq<Attribute>, base: BaseURL): seq<string> {
    if |attrs| == 0 then []
    else
      (if attrs[0].key == "href" then [Absolutize(attrs[0].val, base)] else [])
      + Hrefs(attrs[1..], base)
  }

  /** The links one token contributes: only an `a` start tag has any. */
  function TokenLinks(t: Token, base: BaseURL): seq<string> {
    if t.kind == StartTagToken && t.data == "a" then Hrefs(t.attr, base) else []
  }

  /** The links of a token stream, in document order, up to the first error
      token. Running out of tokens counts as the end-of-input error token. */
  function Links(tokens: seq<Token>, base: BaseURL): seq<string> {
    if |tokens| == 0 || tokens[0].kind == ErrorToken then []
    else TokenLinks(tokens[0], base) + Links(tokens[1..], base)
  }

  /** Links of a concatenation: the first part's links, then the second's,
      provided the first part holds no error token. */
  lemma {:induction false} LinksAppend(a: seq<Token>, b: seq<Token>, base: BaseURL)
    requires NoError(a)
    ensures Links(a + b, base) == Links(a, base) + Links(b, base)
  {
    if |a| > 0 {
      assert (a + b)[1..] == a[1..] + b;
      LinksAppend(a[1..], b, base);
    } else {
      assert a + b == b;
    }
  }

  /** Nothing after an error token contributes a link. */
  lemma LinksStopAtError(tokens: seq<Token>, i: nat, base: BaseURL)
    requires i < |tokens| && tokens[i].kind == ErrorToken
    requires NoError(tokens[..i])
    ensures Links(tokens, base) == Links(tokens[..i], base)
  {
    assert tokens == tokens[..i] + tokens[i..];
    LinksAppend(tokens[..i], tokens[i..], base);
  }

  lemma {:induction false} HrefsAppend(a: seq<Attribute>, b: seq<Attribute>, base: BaseURL)
    ensures Hrefs(a + b, base) == Hrefs(a, base) + Hrefs(b, base)
  {
    if |a| > 0 {
      assert (a + b)[1..] == a[1..] + b;
      HrefsAppend(a[1..], b, base);
    } else {
      assert a + b == b;
    }
  }

  /** The attribute loop of `fetchLinks` for one `a` start tag: each `href`
      value, rewritten by `Absolutize`, in attribute order. */
  method AnchorHrefs(attrs: seq<Attribute>, base: BaseURL) returns (hrefs: seq<string>)
    ensures hrefs == Hrefs(attrs, base)
  {
    hrefs := [];
    var j := 0;
    while j < |attrs|
      invariant 0 <= j <= |attrs|
      invariant hrefs == Hrefs(attrs[..j], base)
    {
      var attr := attrs[j];
      if attr.key == "href" {
        hrefs := hrefs + [Absolutize(attr.val, base)];
      }
      assert attrs[..j + 1] == attrs[..j] + [attr];
      HrefsAppend(attrs[..j], [attr], base);
      j := j + 1;
    }
    assert attrs[..j] == attrs;
  }

  /** The token loop of `fetchLinks`: it stops at the first error token and
      collects, from every `a` start tag, each `href` value, rewritten by
      `Absolutize`. */
  method FetchLinks(tokens: seq<Token>, base: BaseURL) returns (links: seq<string>)
    ensures links == Links(tokens, base)
  {
    links := [];
    var i := 0;
    while true
      invariant 0 <= i <= |tokens|
      invariant NoError(tokens[..i])
      invariant links == Links(tokens[..i], base)
      decreases |tokens| - i
    {
      var token := if i < |tokens| then tokens[i] else Token(ErrorToken, "", []);
      if token.kind == ErrorToken {
        if i < |tokens| {
          LinksStopAtError(tokens, i, base);
        } else {
          assert tokens[..i] == tokens;
        }
        return;
      }
      if token.kind == StartTagToken && token.data == "a" {
        var hrefs := AnchorHrefs(token.attr, base);
        links := links + hrefs;
      }
      assert tokens[..i + 1] == tokens[..i] + [token];
      LinksAppend(tokens[..i], [token], base);
      i := i + 1;
    }
  }

  /** `t` is an `a` start tag that the loop reaches, and its attribute `j` is
      an `href`. */
  predicate HrefAt(tokens: seq<Token>, i: int, j: int) {
    && 0 <= i < |tokens|
    && NoError(tokens[..i])
    && tokens[i].kind == StartTagToken && tokens[i].data == "a"
    && 0 <= j < |tokens[i].attr|
    && tokens[i].attr[j].key == "href"
  }

  lemma {:induction false} HrefsMembership(attrs: seq<Attribute>, base: BaseURL, l: string)
    ensures l in Hrefs(attrs, base) <==>
              exists j :: 0 <= j < |attrs| && attrs[j].key == "href" && l == Absolutize(attrs[j].val, base)
  {
    if |attrs| > 0 {
      HrefsMembership(attrs[1..], base, l);
      if l in Hrefs(attrs[1..], base) {
        var j :| 0 <= j < |attrs[1..]| && attrs[1..][j].key == "href" && l == Absolutize(attrs[1..][j].val, base);
        assert attrs[j + 1] == attrs[1..][j];
      }
      if exists j :: 0 <= j < |attrs| && attrs[j].key == "href" && l == Absolutize(attrs[j].val, base) {
        var j :| 0 <= j < |attrs| && attrs[j].key == "href" && l == Absolutize(attrs[j].val, base);
        if j > 0 {
          assert attrs[1..][j - 1] == attrs[j];
        }
      }
    }
  }

  /** Every extracted link comes from an `href` of an `a` start tag that the
      loop reaches. */
  lemma {:induction false} LinkHasSource(tokens: seq<Token>, base: BaseURL, l: string)
    requires l in Links(tokens, base)
    ensures exists i, j :: HrefAt(tokens, i, j) && l == Absolutize(tokens[i].attr[j].val, base)
  {
    var t := tokens[0];
    var rest := tokens[1..];
    if l in TokenLinks(t, base) {
      HrefsMembership(t.attr, base, l);
      var j :| 0 <= j < |t.attr| && t.attr[j].key == "href" && l == Absolutize(t.attr[j].val, base);
      assert HrefAt(tokens, 0, j);
    } else {
      LinkHasSource(rest, base, l);
      var i, j :| HrefAt(rest, i, j) && l == Absolutize(rest[i].attr[j].val, base);
      assert t.kind != ErrorToken;
      assert tokens[i + 1] == rest[i];
      var prefix := tokens[..i + 1];
      assert NoError(prefix) by {
        forall k | 0 <= k < |prefix|
          ensures prefix[k].kind != ErrorToken
        {
          if k > 0 {
            assert prefix[k] == rest[..i][k - 1];
          }
        }
      }
      assert HrefAt(tokens, i + 1, j);
    }
  }

  /** Every `href` of an `a` start tag that the loop reaches is extracted. */
  lemma {:induction false} SourceHasLink(tokens: seq<Token>, base: BaseURL, i: int, j: int)
    requires HrefAt(tokens, i, j)
    ensures Absolutize(tokens[i].attr[j].val, base) in Links(tokens, base)
    decreases i
  {
    var t := tokens[i];
    if i == 0 {
      HrefsMembership(t.attr, base, Absolutize(t.attr[j].val, base));
    } else {
      assert tokens[..i][0] == tokens[0];
      var rest := tokens[1..];
      assert rest[..i - 1] == tokens[1..i];
      assert HrefAt(rest, i - 1, j);
      SourceHasLink(rest, base, i - 1, j);
    }
  }

  /** A string is an extracted link exactly when it is the rewritten value of
      an `href` attribute on an `a` start tag before the first error token. */
  lemma LinksProvenance(tokens: seq<Token>, base: BaseURL, l: string)
    ensures l in Links(tokens, base) <==>
              exists i, j :: HrefAt(tokens, i, j) && l == Absolutize(tokens[i].attr[j].val, base)
  {
    if l in Links(tokens, base) {
      LinkHasSource(tokens, base, l);
    }
    if exists i, j :: HrefAt(tokens, i, j) && l == Absolutize(tokens[i].attr[j].val, base) {
      var i, j :| HrefAt(tokens, i, j) && l == Absolutize(tokens[i].attr[j].val, base);
      SourceHasLink(tokens, base, i, j);
    }
  }

  // ---------------------------------------------------------------------
  // The crawl

  /** One "Crawling:" announcement: the URL and the depth it was crawled with. */
  datatype Visit = Visit(url: string, depth: int)

  /** The queue after a crawl and the visits it announced, in the order a
      depth-first schedule of the crawl goroutines makes them. */
  datatype CrawlRun = CrawlRun(queue: CrawlQueue, crawled: seq<Visit>)

  function Elems(c: seq<Visit>): set<string> {
    set v | v in c :: v.url
  }

  predicate Distinct(c: seq<Visit>) {
    forall i, j :: 0 <= i < j < |c| ==> c[i].url != c[j].url
  }

  function Budget(depth: int): nat {
    if depth > 0 then depth else 0
  }

  lemma DistinctAppend(a: seq<Visit>, b: seq<Visit>)
    requires Distinct(a) && Distinct(b) && Elems(a) !! Elems(b)
    ensures Distinct(a + b)
  {
    forall i, j | 0 <= i < j < |a + b|
      ensures (a + b)[i].url != (a + b)[j].url
    {
      if j >= |a| && i < |a| {
        assert (a + b)[i] == a[i];
        assert (a + b)[j] == b[j - |a|];
        assert a[i].url in Elems(a);
        assert b[j - |a|].url in Elems(b);
      }
    }
  }

  /** `crawl`: nothing happens at depth 0 or below (the queue is not even
      consulted) or for a URL already visited; otherwise the URL is claimed
      and fetched, and each link found is crawled with one level less. The
      links of a page are rewritten against the parts of its own URL. */
  function Crawl(u: string, depth: int, q: CrawlQueue,
                 web: string -> Option<seq<Token>>, parse: string -> BaseURL): (r: CrawlRun)
    ensures r.queue.visited == q.visited + Elems(r.crawled)
    ensures Distinct(r.crawled) && Elems(r.crawled) !! q.visited
    ensures depth <= 0 || u in q.visited ==> r == CrawlRun(q, [])
    ensures depth > 0 ==> u in r.queue.visited
    ensures depth > 0 && u !in q.visited ==> |r.crawled| > 0 && r.crawled[0] == Visit(u, depth)
    decreases Budget(depth), 0
  {
    if depth <= 0 then CrawlRun(q, [])
    else
      var added := Add(q, u);
      if !added.isNew then CrawlRun(q, [])
      else match web(u)
        case None => CrawlRun(added.queue, [Visit(u, depth)])
        case Some(tokens) =>
          var rest := CrawlEach(Links(tokens, parse(u)), depth - 1, added.queue, web, parse);
          DistinctAppend([Visit(u, depth)], rest.crawled);
          CrawlRun(rest.queue, [Visit(u, depth)] + rest.crawled)
  }

  /** The loop over the links of one page, each crawled at `depth`. */
  function CrawlEach(links: seq<string>, depth: int, q: CrawlQueue,
                     web: string -> Option<seq<Token>>, parse: string -> BaseURL): (r: CrawlRun)
    ensures r.queue.visited == q.visited + Elems(r.crawled)
    ensures Distinct(r.crawled) && Elems(r.crawled) !! q.visited
    ensures depth > 0 ==> forall l :: l in links ==> l in r.queue.visited
    decreases Budget(depth), 1, |links|
  {
    if |links| == 0 then CrawlRun(q, [])
    else
      var first := Crawl(links[0], depth, q, web, parse);
      var rest := CrawlEach(links[1..], depth, first.queue, web, parse);
      DistinctAppend(first.crawled, rest.crawled);
      CrawlRun(rest.queue, first.crawled + rest.crawled)
  }

  /** The links of the page `u` serves, when the GET succeeds. */
  function PageLinks(u: string, web: string -> Option<seq<Token>>, parse: string -> BaseURL): seq<string>
    requires web(u).Some?
  {
    Links(web(u).value, parse(u))
  }

  /** `child` is one level below `parent`, whose fetched page links to it. */
  predicate LinksTo(parent: Visit, child: Visit, web: string -> Option<seq<Token>>, parse: string -> BaseURL) {
    parent.depth == child.depth + 1 && web(parent.url).Some? && child.url in PageLinks(parent.url, web, parse)
  }

  /** Visit `k` was reached from an earlier visit by a link. */
  predicate LinkedFrom(c: seq<Visit>, k: int, web: string -> Option<seq<Token>>, parse: string -> BaseURL)
    requires 0 <= k < |c|
  {
    exists i {:trigger LinksTo(c[i], c[k], web, parse)} :: 0 <= i < k && LinksTo(c[i], c[k], web, parse)
  }

  /** Every visit after the first was reached by a link. */
  predicate Parented(c: seq<Visit>, web: string -> Option<seq<Token>>, parse: string -> BaseURL) {
    forall k {:trigger LinkedFrom(c, k, web, parse)} :: 0 < k < |c| ==> LinkedFrom(c, k, web, parse)
  }

  /** Every visit was reached by a link, or is one of `links` crawled at `depth`. */
  predicate Rooted(c: seq<Visit>, links: seq<string>, depth: int,
                   web: string -> Option<seq<Token>>, parse: string -> BaseURL) {
    forall k {:trigger LinkedFrom(c, k, web, parse)} ::
      0 <= k < |c| ==> LinkedFrom(c, k, web, parse) || (c[k].depth == depth && c[k].url in links)
  }

  predicate DepthsWithin(c: seq<Visit>, depth: int) {
    forall k :: 0 <= k < |c| ==> 1 <= c[k].depth <= depth
  }

  /** A visit with depth to spare whose page was fetched had all its links
      claimed. */
  predicate Expanded(v: Visit, visited: set<string>, web: string -> Option<seq<Token>>, parse: string -> BaseURL) {
    v.depth > 1 && web(v.url).Some? ==> forall l :: l in PageLinks(v.url, web, parse) ==> l in visited
  }

  predicate AllExpanded(c: seq<Visit>, visited: set<string>, web: string -> Option<seq<Token>>, parse: string -> BaseURL) {
    forall k :: 0 <= k < |c| ==> Expanded(c[k], visited, web, parse)
  }

  lemma LinkedFromPrefix(a: seq<Visit>, b: seq<Visit>, k: int,
                         web: string -> Option<seq<Token>>, parse: string -> BaseURL)
    requires 0 <= k < |a| && LinkedFrom(a, k, web, parse)
    ensures LinkedFrom(a + b, k, web, parse)
  {
    var i :| 0 <= i < k && LinksTo(a[i], a[k], web, parse);
    assert (a + b)[i] == a[i] && (a + b)[k] == a[k];
  }

  lemma LinkedFromShift(a: seq<Visit>, b: seq<Visit>, k: int,
                        web: string -> Option<seq<Token>>, parse: string -> BaseURL)
    requires 0 <= k < |b| && LinkedFrom(b, k, web, parse)
    ensures LinkedFrom(a + b, k + |a|, web, parse)
  {
    var i :| 0 <= i < k && LinksTo(b[i], b[k], web, parse);
    assert (a + b)[i + |a|] == b[i] && (a + b)[k + |a|] == b[k];
  }

  /** A fetched page followed by a crawl of its links one level down is a
      crawl in which every visit after the first was reached by a link. */
  lemma ParentedCons(v: Visit, e: seq<Visit>, web: string -> Option<seq<Token>>, parse: string -> BaseURL)
    requires web(v.url).Some?
    requires Rooted(e, PageLinks(v.url, web, parse), v.depth - 1, web, parse)
    ensures Parented([v] + e, web, parse)
  {
    var c := [v] + e;
    forall k | 0 < k < |c|
      ensures LinkedFrom(c, k, web, parse)
    {
      LinkedFromCons(v, e, k - 1, web, parse);
    }
  }

  lemma LinkedFromCons(v: Visit, e: seq<Visit>, k: int, web: string -> Option<seq<Token>>, parse: string -> BaseURL)
    requires web(v.url).Some?
    requires Rooted(e, PageLinks(v.url, web, parse), v.depth - 1, web, parse)
    requires 0 <= k < |e|
    ensures LinkedFrom([v] + e, k + 1, web, parse)
  {
    if LinkedFrom(e, k, web, parse) {
      LinkedFromShift([v], e, k, web, parse);
    } else {
      var c := [v] + e;
      assert c[0] == v && c[k + 1] == e[k];
      assert e[k].depth == v.depth - 1 && e[k].url in PageLinks(v.url, web, parse);
      assert LinksTo(c[0], c[k + 1], web, parse);
    }
  }

  lemma RootedWiden(c: seq<Visit>, small: seq<string>, big: seq<string>, depth: int,
                    web: string -> Option<seq<Token>>, parse: string -> BaseURL)
    requires forall x :: x in small ==> x in big
    requires Rooted(c, small, depth, web, parse)
    ensures Rooted(c, big, depth, web, parse)
  {
    forall k | 0 <= k < |c|
      ensures LinkedFrom(c, k, web, parse) || (c[k].depth == depth && c[k].url in big)
    {
      if !LinkedFrom(c, k, web, parse) {
        assert c[k].url in small;
      }
    }
  }

  lemma RootedAppend(f: seq<Visit>, g: seq<Visit>, links: seq<string>, depth: int,
                     web: string -> Option<seq<Token>>, parse: string -> BaseURL)
    requires Parented(f, web, parse)
    requires |f| > 0 ==> f[0].depth == depth && f[0].url in links
    requires Rooted(g, links, depth, web, parse)
    ensures Rooted(f + g, links, depth, web, parse)
  {
    var c := f + g;
    forall k | 0 <= k < |c|
      ensures LinkedFrom(c, k, web, parse) || (c[k].depth == depth && c[k].url in links)
    {
      if k < |f| {
        assert c[k] == f[k];
        if k > 0 {
          LinkedFromPrefix(f, g, k, web, parse);
        }
      } else {
        assert c[k] == g[k - |f|];
        if LinkedFrom(g, k - |f|, web, parse) {
          LinkedFromShift(f, g, k - |f|, web, parse);
        }
      }
    }
  }

  lemma ExpandedAppend(f: seq<Visit>, g: seq<Visit>, small: set<string>, big: set<string>,
                       web: string -> Option<seq<Token>>, parse: string -> BaseURL)
    requires small <= big
    requires AllExpanded(f, small, web, parse) && AllExpanded(g, big, web, parse)
    ensures AllExpanded(f + g, big, web, parse)
  {
    forall k | 0 <= k < |f + g|
      ensures Expanded((f + g)[k], big, web, parse)
    {
      if k < |f| {
        assert (f + g)[k] == f[k];
        assert Expanded(f[k], small, web, parse);
      } else {
        assert (f + g)[k] == g[k - |f|];
      }
    }
  }

  lemma DepthsWithinAppend(f: seq<Visit>, g: seq<Visit>, depth: int)
    requires DepthsWithin(f, depth) && DepthsWithin(g, depth)
    ensures DepthsWithin(f + g, depth)
  {
    forall k | 0 <= k < |f + g|
      ensures 1 <= (f + g)[k].depth <= depth
    {
      if k < |f| {
        assert (f + g)[k] == f[k];
      } else {
        assert (f + g)[k] == g[k - |f|];
      }
    }
  }

  /** The shape of a crawl: every visit after the first has a parent one
      level up that links to it, so depths count down by exactly one per link
      followed; no depth is below 1 or above the start's; and every fetched
      page with depth to spare had all its links visited. */
  lemma {:induction false} CrawlShape(u: string, depth: int, q: CrawlQueue,
                                      web: string -> Option<seq<Token>>, parse: string -> BaseURL)
    ensures Parented(Crawl(u, depth, q, web, parse).crawled, web, parse)
    ensures DepthsWithin(Crawl(u, depth, q, web, parse).crawled, depth)
    ensures AllExpanded(Crawl(u, depth, q, web, parse).crawled, Crawl(u, depth, q, web, parse).queue.visited, web, parse)
    decreases Budget(depth), 0
  {
    if depth > 0 && u !in q.visited && web(u).Some? {
      var added := Add(q, u);
      var links := Links(web(u).value, parse(u));
      var rest := CrawlEach(links, depth - 1, added.queue, web, parse);
      CrawlEachShape(links, depth - 1, added.queue, web, parse);
      var v := Visit(u, depth);
      assert Crawl(u, depth, q, web, parse) == CrawlRun(rest.queue, [v] + rest.crawled);
      assert links == PageLinks(u, web, parse);
      ParentedCons(v, rest.crawled, web, parse);
      assert Expanded(v, rest.queue.visited, web, parse) by {
        if depth > 1 {
          assert forall l :: l in links ==> l in rest.queue.visited;
        }
      }
      ExpandedAppend([v], rest.crawled, rest.queue.visited, rest.queue.visited, web, parse);
      DepthsWithinAppend([v], rest.crawled, depth);
    }
  }

  lemma {:induction false} CrawlEachShape(links: seq<string>, depth: int, q: CrawlQueue,
                                          web: string -> Option<seq<Token>>, parse: string -> BaseURL)
    ensures Rooted(CrawlEach(links, depth, q, web, parse).crawled, links, depth, web, parse)
    ensures DepthsWithin(CrawlEach(links, depth, q, web, parse).crawled, depth)
    ensures AllExpanded(CrawlEach(links, depth, q, web, parse).crawled,
                        CrawlEach(links, depth, q, web, parse).queue.visited, web, parse)
    decreases Budget(depth), 1, |links|
  {
    if |links| > 0 {
      var first := Crawl(links[0], depth, q, web, parse);
      var rest := CrawlEach(links[1..], depth, first.queue, web, parse);
      CrawlShape(links[0], depth, q, web, parse);
      CrawlEachShape(links[1..], depth, first.queue, web, parse);
      var f := first.crawled;
      var g := rest.crawled;
      assert CrawlEach(links, depth, q, web, parse) == CrawlRun(rest.queue, f + g);
      assert |f| > 0 ==> f[0] == Visit(links[0], depth);
      RootedWiden(g, links[1..], links, depth, web, parse);
      RootedAppend(f, g, links, depth, web, parse);
      ExpandedAppend(f, g, first.queue.visited, rest.queue.visited, web, parse);
      DepthsWithinAppend(f, g, depth);
    }
  }

  /** Every link of a page crawled with depth 2 or more ends up visited. */
  lemma LinksOfCrawledPageVisited(u: string, depth: int, q: CrawlQueue,
                                  web: string -> Option<seq<Token>>, parse: string -> BaseURL, l: string)
    requires depth > 1 && u !in q.visited && web(u).Some?
    requires l in PageLinks(u, web, parse)
    ensures l in Crawl(u, depth, q, web, parse).queue.visited
  {
  }

  /** At depth 1 the page is fetched but its links are handed depth 0, so
      nothing beyond the start URL is crawled. */
  lemma DepthOneCrawlsOnlyStart(u: string, q: CrawlQueue, web: string -> Option<seq<Token>>, parse: string -> BaseURL)
    requires u !in q.visited
    ensures Crawl(u, 1, q, web, parse).crawled == [Visit(u, 1)]
    ensures Crawl(u, 1, q, web, parse).queue.visited == q.visited + {u}
  {
    match web(u)
    case None =>
    case Some(tokens) =>
      var links := Links(tokens, parse(u));
      var rest := CrawlEach(links, 0, Add(q, u).queue, web, parse);
      assert rest.crawled == [] by {
        ZeroDepthCrawlsNothing(links, Add(q, u).queue, web, parse);
      }
  }

  lemma {:induction false} ZeroDepthCrawlsNothing(links: seq<string>, q: CrawlQueue,
                                                  web: string -> Option<seq<Token>>, parse: string -> BaseURL)
    ensures CrawlEach(links, 0, q, web, parse) == CrawlRun(q, [])
    decreases |links|
  {
    if |links| > 0 {
      ZeroDepthCrawlsNothing(links[1..], q, web, parse);
    }
  }

  /** `RunWebCrawler`: the start URL, depth 3, a fresh queue. */
  function RunWebCrawler(web: string -> Option<seq<Token>>, parse: string -> BaseURL): (r: CrawlRun)
    ensures |r.crawled| > 0 && r.crawled[0] == Visit("https://www.example.ai", 3)
    ensures Distinct(r.crawled)
    ensures r.queue.visited == Elems(r.crawled)
    ensures Parented(r.crawled, web, parse)
    ensures DepthsWithin(r.crawled, 3)
  {
    CrawlShape("https://www.example.ai", 3, NewCrawlQueue(), web, parse);
    Crawl("https://www.example.ai", 3, NewCrawlQueue(), web, parse)
  }
}
