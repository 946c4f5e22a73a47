/** The depth-bounded sitemap crawler: the link extractor object with its
    `visited` and `all_links` sets, the filter that keeps a page's internal
    links, the input validation with the scheme prefix added in front of it,
    and the "is a longer extension of" relation the sitemap graph is drawn
    with. The HTTP session and the HTML parser are replaced by a function
    from a URL to the `href` values of the page's anchors (nothing when the
    request raises), `urljoin` by a function parameter; the thread pool is
    replaced by one sequential schedule: the new links of a page are
    admitted in the order the page lists them, then expanded in that order. */
module Sitemap {
  import opened Strings
  import opened Wrappers

  type Url = string

  /** `urljoin(base, ref)` (section 5.2 of RFC 3986), taken as given. */
  type Joiner = (Url, string) -> Url

  /** The `href` of every anchor of the page at a URL, absent or present,
      in document order; nothing when the request raises. */
  type Fetcher = Url -> Option<seq<Option<string>>>

  // ----- the internal-link filter ---------------------------------------

  /** `href and not re.match('(http|https|ftp|javascript)', href)`: a
      present, non-empty value that does not start with one of the four
      words. The test is a case-sensitive prefix test; it is not restricted
      to schemes, so a relative `ftp-guide.html` is dropped as well. */
  predicate IsInternalHref(href: Option<string>) {
    href.Some? && href.value != [] &&
    !(StartsWith(href.value, "http") || StartsWith(href.value, "https") ||
      StartsWith(href.value, "ftp") || StartsWith(href.value, "javascript"))
  }

  /** The kept values resolved against the page URL, in document order. */
  function Resolved(join: Joiner, url: Url, hrefs: seq<Option<string>>): seq<Url>
    decreases |hrefs|
  {
    if hrefs == [] then []
    else
      var last := hrefs[|hrefs| - 1];
      Resolved(join, url, hrefs[..|hrefs| - 1]) + (if IsInternalHref(last) then [join(url, last.value)] else [])
  }

  /** The result of `get_internal_links`: a request error gives no links. */
  function InternalLinks(fetch: Fetcher, join: Joiner, url: Url): seq<Url> {
    match fetch(url)
    case None => []
    case Some(hrefs) => Resolved(join, url, hrefs)
  }

  /** A resolved link comes from a kept value of the page, and each kept
      value contributes one link. */
  lemma {:induction false} ResolvedMembers(join: Joiner, url: Url, hrefs: seq<Option<string>>, u: Url)
    ensures u in Resolved(join, url, hrefs) <==>
            exists k :: 0 <= k < |hrefs| && IsInternalHref(hrefs[k]) && u == join(url, hrefs[k].value)
    ensures |Resolved(join, url, hrefs)| <= |hrefs|
    decreases |hrefs|
  {
    if hrefs != [] {
      var n := |hrefs| - 1;
      ResolvedMembers(join, url, hrefs[..n], u);
      if k :| 0 <= k < n && IsInternalHref(hrefs[..n][k]) && u == join(url, hrefs[..n][k].value) {
        assert hrefs[k] == hrefs[..n][k];
      }
      if k :| 0 <= k < |hrefs| && IsInternalHref(hrefs[k]) && u == join(url, hrefs[k].value) {
        if k < n {
          assert hrefs[..n][k] == hrefs[k];
        }
      }
    }
  }

  /** What the filter keeps and drops: the empty value, absolute `http`,
      `https` and `ftp` links and `javascript:` links are dropped; relative
      paths are kept; since the test is case-sensitive, `HTTP://…` is
      treated as relative; since it is a bare prefix test, relative names
      that merely begin with one of the words are dropped too. */
  lemma InternalHrefExamples()
    ensures !IsInternalHref(None) && !IsInternalHref(Some(""))
    ensures !IsInternalHref(Some("https://example.com/")) && !IsInternalHref(Some("ftp://example.com/"))
    ensures !IsInternalHref(Some("javascript:void(0)"))
    ensures IsInternalHref(Some("/about")) && IsInternalHref(Some("#top"))
    ensures IsInternalHref(Some("HTTP://example.com/"))
    ensures !IsInternalHref(Some("ftp-guide.html")) && !IsInternalHref(Some("httpd.conf"))
  {
    assert "/about"[..4][0] == '/' && "/about"[..3][0] == '/';
    assert "#top"[..4][0] == '#' && "#top"[..3][0] == '#';
    var upper := "HTTP://example.com/";
    assert upper[..4][0] == 'H' && upper[..5][0] == 'H' && upper[..3][0] == 'H' && upper[..10][0] == 'H';
    assert "ftp-guide.html"[..3] == "ftp";
    assert "httpd.conf"[..4] == "http";
    assert "https://example.com/"[..4] == "http";
    assert "ftp://example.com/"[..3] == "ftp";
    assert "javascript:void(0)"[..10] == "javascript";
  }

  // ----- the crawl, as a specification ----------------------------------

  /** The state of a crawl: the `visited` set and, as a record kept for the
      proofs, the order in which links were admitted. */
  datatype Visit = Visit(visited: set<Url>, order: seq<Url>)

  function SetOf(xs: seq<Url>): set<Url> {
    set x | x in xs
  }

  predicate Distinct(xs: seq<Url>) {
    forall i, j :: 0 <= i < j < |xs| ==> xs[i] != xs[j]
  }

  /** The links of a page admitted by the loop of `extract_links`: those
      not visited yet, each the first time it is listed, in list order. */
  function Admitted(visited: set<Url>, links: seq<Url>): seq<Url>
    decreases |links|
  {
    if links == [] then []
    else
      var a := Admitted(visited, links[..|links| - 1]);
      var last := links[|links| - 1];
      if last in visited || last in a then a else a + [last]
  }

  /** The admitted links are exactly the listed links that were not visited,
      each once. */
  lemma {:induction false} AdmittedFacts(visited: set<Url>, links: seq<Url>)
    ensures Distinct(Admitted(visited, links))
    ensures forall x :: x in Admitted(visited, links) <==> x in links && x !in visited
    decreases |links|
  {
    if links != [] {
      var n := |links| - 1;
      AdmittedFacts(visited, links[..n]);
      assert links == links[..n] + [links[n]];
    }
  }

  lemma AdmittedSingle(visited: set<Url>, u: Url)
    ensures Admitted(visited, [u]) == if u in visited then [] else [u]
  {
    assert [u][..0] == [];
  }

  /** `extract_links(url, depth)` from the state `s`: at depth 0 nothing
      happens; otherwise the page's new links are admitted (added to
      `visited`) and then each is crawled with one level less. The page
      itself is not admitted. */
  function Crawl(fetch: Fetcher, join: Joiner, s: Visit, url: Url, depth: nat): Visit
    decreases depth, 0, 0
  {
    if depth == 0 then s
    else
      var jobs := Admitted(s.visited, InternalLinks(fetch, join, url));
      ExpandAll(fetch, join, Visit(s.visited + SetOf(jobs), s.order + jobs), jobs, depth - 1)
  }

  /** Crawl the admitted links one after the other, each from the state the
      previous one left. */
  function ExpandAll(fetch: Fetcher, join: Joiner, s: Visit, jobs: seq<Url>, depth: nat): Visit
    decreases depth, 1, |jobs|
  {
    if jobs == [] then s
    else ExpandAll(fetch, join, Crawl(fetch, join, s, jobs[0], depth), jobs[1..], depth)
  }

  /** `r` is `s` after more admissions: `visited` only grows, by exactly
      the newly admitted links, each of which was not visited before and
      is admitted once. */
  predicate Extends(s: Visit, r: Visit) {
    |s.order| <= |r.order| && r.order[..|s.order|] == s.order &&
    r.visited == s.visited + SetOf(r.order[|s.order|..]) &&
    Distinct(r.order[|s.order|..]) &&
    (forall x :: x in r.order[|s.order|..] ==> x !in s.visited)
  }

  lemma ExtendsTrans(a: Visit, b: Visit, c: Visit)
    requires Extends(a, b) && Extends(b, c)
    ensures Extends(a, c)
  {
    var x := b.order[|a.order|..];
    var y := c.order[|b.order|..];
    assert c.order[..|b.order|][..|a.order|] == c.order[..|a.order|];
    assert c.order[|a.order|..] == x + y by {
      assert c.order == c.order[..|b.order|] + y;
      assert b.order == b.order[..|a.order|] + x;
    }
    assert SetOf(x + y) == SetOf(x) + SetOf(y);
    forall i, j | 0 <= i < j < |x + y|
      ensures (x + y)[i] != (x + y)[j]
    {
      if i < |x| && j >= |x| {
        assert (x + y)[i] in SetOf(x) && (x + y)[j] == y[j - |x|];
      }
    }
  }

  /** A crawl only admits new links, each once, and `visited` grows by
      exactly the links it admits. */
  lemma {:induction false} CrawlExtends(fetch: Fetcher, join: Joiner, s: Visit, url: Url, depth: nat)
    ensures Extends(s, Crawl(fetch, join, s, url, depth))
    decreases depth, 0, 0
  {
    if depth == 0 {
      assert s.order[|s.order|..] == [];
      assert s.order[..|s.order|] == s.order;
    } else {
      var jobs := Admitted(s.visited, InternalLinks(fetch, join, url));
      var s1 := Visit(s.visited + SetOf(jobs), s.order + jobs);
      AdmittedFacts(s.visited, InternalLinks(fetch, join, url));
      assert s1.order[|s.order|..] == jobs;
      assert s1.order[..|s.order|] == s.order;
      ExpandAllExtends(fetch, join, s1, jobs, depth - 1);
      ExtendsTrans(s, s1, Crawl(fetch, join, s, url, depth));
    }
  }

  lemma {:induction false} ExpandAllExtends(fetch: Fetcher, join: Joiner, s: Visit, jobs: seq<Url>, depth: nat)
    ensures Extends(s, ExpandAll(fetch, join, s, jobs, depth))
    decreases depth, 1, |jobs|
  {
    if jobs == [] {
      assert s.order[|s.order|..] == [];
      assert s.order[..|s.order|] == s.order;
    } else {
      var s1 := Crawl(fetch, join, s, jobs[0], depth);
      CrawlExtends(fetch, join, s, jobs[0], depth);
      ExpandAllExtends(fetch, join, s1, jobs[1..], depth);
      ExtendsTrans(s, s1, ExpandAll(fetch, join, s, jobs, depth));
    }
  }

  /** `dst` can be reached from the page `src` by following at least one
      and at most `n` internal links. */
  ghost predicate Reachable(fetch: Fetcher, join: Joiner, src: Url, dst: Url, n: nat)
    decreases n
  {
    n >= 1 &&
    (dst in InternalLinks(fetch, join, src) ||
     exists mid :: mid in InternalLinks(fetch, join, src) && Reachable(fetch, join, mid, dst, n - 1))
  }

  /** Every link a crawl of depth `depth` adds is reachable from its start
      page in at most `depth` hops. */
  lemma {:induction false} CrawlSound(fetch: Fetcher, join: Joiner, s: Visit, url: Url, depth: nat, u: Url)
    requires u in Crawl(fetch, join, s, url, depth).visited
    ensures u in s.visited || Reachable(fetch, join, url, u, depth)
    decreases depth, 0, 0
  {
    if depth > 0 {
      var links := InternalLinks(fetch, join, url);
      var jobs := Admitted(s.visited, links);
      var s1 := Visit(s.visited + SetOf(jobs), s.order + jobs);
      AdmittedFacts(s.visited, links);
      ExpandAllSound(fetch, join, s1, jobs, depth - 1, u);
      if u !in s1.visited {
        var k :| 0 <= k < |jobs| && Reachable(fetch, join, jobs[k], u, depth - 1);
        assert jobs[k] in links;
      }
    }
  }

  lemma {:induction false} ExpandAllSound(fetch: Fetcher, join: Joiner, s: Visit, jobs: seq<Url>, depth: nat, u: Url)
    requires u in ExpandAll(fetch, join, s, jobs, depth).visited
    ensures u in s.visited || exists k :: 0 <= k < |jobs| && Reachable(fetch, join, jobs[k], u, depth)
    decreases depth, 1, |jobs|
  {
    if jobs != [] {
      var s1 := Crawl(fetch, join, s, jobs[0], depth);
      ExpandAllSound(fetch, join, s1, jobs[1..], depth, u);
      if u in s1.visited {
        CrawlSound(fetch, join, s, jobs[0], depth, u);
      } else {
        var k :| 0 <= k < |jobs[1..]| && Reachable(fetch, join, jobs[1..][k], u, depth);
        assert jobs[k + 1] == jobs[1..][k];
      }
    }
  }

  /** A crawl of depth 0 changes nothing; at depth 1 it adds exactly the
      page's internal links, since their own crawls have depth 0. */
  lemma CrawlShallow(fetch: Fetcher, join: Joiner, s: Visit, url: Url)
    ensures Crawl(fetch, join, s, url, 0) == s
    ensures Crawl(fetch, join, s, url, 1).visited == s.visited + SetOf(InternalLinks(fetch, join, url))
  {
    var links := InternalLinks(fetch, join, url);
    var jobs := Admitted(s.visited, links);
    AdmittedFacts(s.visited, links);
    ExpandAllZero(fetch, join, Visit(s.visited + SetOf(jobs), s.order + jobs), jobs);
  }

  lemma {:induction false} ExpandAllZero(fetch: Fetcher, join: Joiner, s: Visit, jobs: seq<Url>)
    ensures ExpandAll(fetch, join, s, jobs, 0) == s
    decreases |jobs|
  {
    if jobs != [] {
      ExpandAllZero(fetch, join, s, jobs[1..]);
    }
  }

  /** From depth 1 on, every internal link of the start page ends up
      visited, the start page included when it links to itself. */
  lemma DirectLinksVisited(fetch: Fetcher, join: Joiner, s: Visit, url: Url, depth: nat)
    requires depth >= 1
    ensures SetOf(InternalLinks(fetch, join, url)) <= Crawl(fetch, join, s, url, depth).visited
  {
    var links := InternalLinks(fetch, join, url);
    var jobs := Admitted(s.visited, links);
    var s1 := Visit(s.visited + SetOf(jobs), s.order + jobs);
    AdmittedFacts(s.visited, links);
    ExpandAllExtends(fetch, join, s1, jobs, depth - 1);
  }

  /** A crawl started from nothing admits every link once, so every link is
      expanded at most once; `visited` is exactly the set of admitted
      links, and it holds the start page only when the start page is
      reachable from itself. */
  lemma CrawlFromScratch(fetch: Fetcher, join: Joiner, url: Url, depth: nat)
    ensures Distinct(Crawl(fetch, join, Visit({}, []), url, depth).order)
    ensures Crawl(fetch, join, Visit({}, []), url, depth).visited == SetOf(Crawl(fetch, join, Visit({}, []), url, depth).order)
    ensures url in Crawl(fetch, join, Visit({}, []), url, depth).visited ==> Reachable(fetch, join, url, url, depth)
  {
    var r := Crawl(fetch, join, Visit({}, []), url, depth);
    CrawlExtends(fetch, join, Visit({}, []), url, depth);
    assert r.order[0..] == r.order;
    if url in r.visited {
      CrawlSound(fetch, join, Visit({}, []), url, depth, u := url);
    }
  }

  /** A link first admitted on a longer path is crawled with the depth
      left on that path and never again. On a site where `s` links to `a`
      and `b`, `a` to `x`, `x` and `b` to `c`, and `c` to `e`, the page `e`
      is three hops from `s` through `b`; but a crawl of depth 3 from `s`
      first reaches `c` through `a` and `x`, with no depth left to follow
      its link, and does not crawl `c` again when `b` lists it. */
  lemma DeeperPathShadows(fetch: Fetcher, join: Joiner, s: Url, a: Url, b: Url, x: Url, c: Url, e: Url)
    requires a != b && x !in {a, b} && c !in {a, b, x} && e !in {a, b, x, c}
    requires InternalLinks(fetch, join, s) == [a, b]
    requires InternalLinks(fetch, join, a) == [x]
    requires InternalLinks(fetch, join, x) == [c]
    requires InternalLinks(fetch, join, b) == [c]
    requires InternalLinks(fetch, join, c) == [e]
    ensures Reachable(fetch, join, s, e, 3)
    ensures e !in Crawl(fetch, join, Visit({}, []), s, 3).visited
  {
    assert Reachable(fetch, join, s, e, 3) by {
      assert Reachable(fetch, join, c, e, 1);
      assert c in InternalLinks(fetch, join, b);
      assert Reachable(fetch, join, b, e, 2);
      assert b in InternalLinks(fetch, join, s);
    }
    ShadowedCrawl(fetch, join, s, a, b, x, c);
  }

  /** The crawl of `DeeperPathShadows`: it admits `a`, `b`, `x` and `c`, in
      this order, and nothing else. */
  lemma ShadowedCrawl(fetch: Fetcher, join: Joiner, s: Url, a: Url, b: Url, x: Url, c: Url)
    requires a != b && x !in {a, b} && c !in {a, b, x}
    requires InternalLinks(fetch, join, s) == [a, b]
    requires InternalLinks(fetch, join, a) == [x]
    requires InternalLinks(fetch, join, x) == [c]
    requires InternalLinks(fetch, join, b) == [c]
    ensures Crawl(fetch, join, Visit({}, []), s, 3) == Visit({a, b, x, c}, [a, b, x, c])
  {
    var s1 := Visit({a, b}, [a, b]);
    var sx := Visit({a, b, x, c}, [a, b, x, c]);
    CrawlTwoLinks(fetch, join, Visit({}, []), s, 3, a, b);
    assert Visit({} + {a, b}, [] + [a, b]) == s1;
    ShadowedFirstBranch(fetch, join, a, b, x, c);
    CrawlNoNewLinks(fetch, join, sx, b, 2);
    assert [a, b][1..] == [b];
    ExpandAllSingle(fetch, join, sx, b, 2);
  }

  /** The crawl of `a` in `ShadowedCrawl` takes `x` and `c`. */
  lemma ShadowedFirstBranch(fetch: Fetcher, join: Joiner, a: Url, b: Url, x: Url, c: Url)
    requires a != b && x !in {a, b} && c !in {a, b, x}
    requires InternalLinks(fetch, join, a) == [x]
    requires InternalLinks(fetch, join, x) == [c]
    ensures Crawl(fetch, join, Visit({a, b}, [a, b]), a, 2) == Visit({a, b, x, c}, [a, b, x, c])
  {
    var s1 := Visit({a, b}, [a, b]);
    var sa := Visit({a, b, x}, [a, b, x]);
    CrawlSingleLink(fetch, join, s1, a, 2, x);
    assert Visit(s1.visited + {x}, s1.order + [x]) == sa;
    CrawlSingleLink(fetch, join, sa, x, 1, c);
    assert Visit(sa.visited + {c}, sa.order + [c]) == Visit({a, b, x, c}, [a, b, x, c]);
  }

  /** A page with one link that is not visited yet admits it and crawls
      it with one level less. */
  lemma CrawlSingleLink(fetch: Fetcher, join: Joiner, s: Visit, url: Url, depth: nat, link: Url)
    requires depth >= 1
    requires InternalLinks(fetch, join, url) == [link] && link !in s.visited
    ensures Crawl(fetch, join, s, url, depth) ==
            Crawl(fetch, join, Visit(s.visited + {link}, s.order + [link]), link, depth - 1)
  {
    AdmittedSingle(s.visited, link);
    assert SetOf([link]) == {link};
    ExpandAllSingle(fetch, join, Visit(s.visited + {link}, s.order + [link]), link, depth - 1);
  }

  /** A page with two links that are not visited yet admits both, then
      crawls them in order. */
  lemma CrawlTwoLinks(fetch: Fetcher, join: Joiner, s: Visit, url: Url, depth: nat, l1: Url, l2: Url)
    requires depth >= 1
    requires InternalLinks(fetch, join, url) == [l1, l2] && l1 != l2 && l1 !in s.visited && l2 !in s.visited
    ensures Crawl(fetch, join, s, url, depth) ==
            ExpandAll(fetch, join, Visit(s.visited + {l1, l2}, s.order + [l1, l2]), [l1, l2], depth - 1)
  {
    AdmittedSingle(s.visited, l1);
    assert [l1, l2][..1] == [l1];
    assert Admitted(s.visited, [l1, l2]) == [l1, l2];
    assert SetOf([l1, l2]) == {l1, l2};
  }

  lemma ExpandAllSingle(fetch: Fetcher, join: Joiner, s: Visit, u: Url, depth: nat)
    ensures ExpandAll(fetch, join, s, [u], depth) == Crawl(fetch, join, s, u, depth)
  {
    assert [u][1..] == [];
  }

  /** A page whose internal links are all visited changes nothing. */
  lemma CrawlNoNewLinks(fetch: Fetcher, join: Joiner, s: Visit, url: Url, depth: nat)
    requires forall l :: l in InternalLinks(fetch, join, url) ==> l in s.visited
    ensures Crawl(fetch, join, s, url, depth) == s
  {
    if depth > 0 {
      AdmittedNone(s.visited, InternalLinks(fetch, join, url));
      assert SetOf([]) == {};
      assert Visit(s.visited + {}, s.order + []) == s;
    }
  }

  lemma {:induction false} AdmittedNone(visited: set<Url>, links: seq<Url>)
    requires forall l :: l in links ==> l in visited
    ensures Admitted(visited, links) == []
    decreases |links|
  {
    if links != [] {
      var n := |links| - 1;
      assert forall l :: l in links[..n] ==> l in links;
      AdmittedNone(visited, links[..n]);
      assert links[n] in links;
    }
  }

  // ----- the link extractor object --------------------------------------

  /** `LinkExtractor`: the session is the fetch function. */
  class LinkExtractor {
    const baseUrl: Url
    const depth: int
    const fetch: Fetcher
    const join: Joiner
    var visited: set<Url>
    var allLinks: set<Url>
    /** The admissions so far, in order; kept for the proofs only. */
    ghost var order: seq<Url>

    /** `all_links` starts empty and grows together with `visited`. */
    predicate Valid()
      reads this
    {
      allLinks == visited
    }

    ghost function State(): Visit
      reads this
    {
      Visit(visited, order)
    }

    constructor(url: Url, depth: int, fetch: Fetcher, join: Joiner)
      ensures baseUrl == url && this.depth == depth && this.fetch == fetch && this.join == join
      ensures visited == {} && allLinks == {} && order == []
      ensures Valid()
    {
      baseUrl := url;
      this.depth := depth;
      this.fetch := fetch;
      this.join := join;
      visited := {};
      allLinks := {};
      order := [];
    }

    /** `get_internal_links`: the kept `href` values of the page resolved
        against its URL, in document order; none when the request raises. */
    method GetInternalLinks(url: Url) returns (links: seq<Url>)
      ensures links == InternalLinks(fetch, join, url)
    {
      links := [];
      match fetch(url)
      case None =>
      case Some(hrefs) =>
        for i := 0 to |hrefs|
          invariant links == Resolved(join, url, hrefs[..i])
        {
          assert hrefs[..i + 1][..i] == hrefs[..i];
          var href := hrefs[i];
          if IsInternalHref(href) {
            links := links + [join(url, href.value)];
          }
        }
        assert hrefs[..|hrefs|] == hrefs;
    }

    /** `extract_links`: admit the page's new links, then crawl each with
        one level less. */
    method ExtractLinks(url: Url, depth: nat)
      requires Valid()
      modifies this
      ensures Valid()
      ensures State() == Crawl(fetch, join, old(State()), url, depth)
      decreases depth, 0
    {
      if depth == 0 {
        return;
      }
      var links := GetInternalLinks(url);
      var futures := AdmitLinks(links);
      ExpandEach(futures, depth - 1);
    }

    /** The first loop of `extract_links`: each link not yet visited is
        added to `visited` and `all_links` and queued. */
    method AdmitLinks(links: seq<Url>) returns (futures: seq<Url>)
      requires Valid()
      modifies this
      ensures Valid()
      ensures futures == Admitted(old(visited), links)
      ensures State() == Visit(old(visited) + SetOf(futures), old(order) + futures)
    {
      futures := [];
      for i := 0 to |links|
        invariant Valid()
        invariant futures == Admitted(old(visited), links[..i])
        invariant visited == old(visited) + SetOf(futures)
        invariant order == old(order) + futures
      {
        assert links[..i + 1][..i] == links[..i];
        var link := links[i];
        if link !in visited {
          visited := visited + {link};
          allLinks := allLinks + {link};
          order := order + [link];
          futures := futures + [link];
        }
      }
      assert links[..|links|] == links;
    }

    /** The queued links crawled in order, each with the given depth. */
    method ExpandEach(futures: seq<Url>, depth: nat)
      requires Valid()
      modifies this
      ensures Valid()
      ensures State() == ExpandAll(fetch, join, old(State()), futures, depth)
      decreases depth, 1
    {
      for j := 0 to |futures|
        invariant Valid()
        invariant ExpandAll(fetch, join, State(), futures[j..], depth) == ExpandAll(fetch, join, old(State()), futures, depth)
      {
        assert futures[j..][1..] == futures[j + 1..];
        ExtractLinks(futures[j], depth);
      }
    }
  }

  // ----- input handling -------------------------------------------------

  /** The scheme prefix of `sitemap_main`: `http://` is put in front unless
      the text already starts with `http://` or `https://`. */
  function AddScheme(url: string): (r: string)
    ensures StartsWith(r, "http://") || StartsWith(r, "https://")
    ensures r == url <==> StartsWith(url, "http://") || StartsWith(url, "https://")
    ensures !(StartsWith(url, "http://") || StartsWith(url, "https://")) ==> r == "http://" + url
  {
    if StartsWith(url, "http://") || StartsWith(url, "https://") then url
    else
      var r := "http://" + url;
      assert r[..7] == "http://";
      r
  }

  lemma AddSchemeIdempotent(url: string)
    ensures AddScheme(AddScheme(url)) == AddScheme(url)
  {
  }

  predicate IsLetter(c: char) {
    'a' <= c <= 'z' || 'A' <= c <= 'Z'
  }

  /** `[a-zA-Z0-9\-\.]` */
  predicate IsHostChar(c: char) {
    IsLetter(c) || '0' <= c <= '9' || c == '-' || c == '.'
  }

  /** The characters from `p` up to `d` are host characters. */
  predicate HostRun(s: string, p: nat, d: nat) {
    d <= |s| && forall q :: p <= q < d ==> IsHostChar(s[q])
  }

  /** A dot at `d` followed by two letters: `\.[a-zA-Z]{2,}` matches there. */
  predicate DotAt(s: string, d: nat) {
    d + 3 <= |s| && s[d] == '.' && IsLetter(s[d + 1]) && IsLetter(s[d + 2])
  }

  /** From position `p`, `[a-zA-Z0-9\-\.]+\.[a-zA-Z]{2,}` matches a prefix:
      host characters up to some dot past `p`, and two letters after it.
      What follows is not looked at. */
  ghost predicate HostAt(s: string, p: nat) {
    exists d: nat :: p < d && DotAt(s, d) && HostRun(s, p, d)
  }

  /** `re.match(r'(https?://)?[a-zA-Z0-9\-\.]+\.[a-zA-Z]{2,}', url)`: the
      optional group may be taken or skipped. */
  ghost predicate UrlShapeOk(s: string) {
    HostAt(s, 0) || (StartsWith(s, "http://") && HostAt(s, 7)) || (StartsWith(s, "https://") && HostAt(s, 8))
  }

  /** A left-to-right search for the dot: `d` runs over the candidate
      positions while the characters from `p` on are host characters. */
  function FindHostDot(s: string, p: nat, d: nat): bool
    requires p < d
    decreases |s| - d
  {
    if d + 3 > |s| || !IsHostChar(s[d - 1]) then false
    else if DotAt(s, d) then true
    else FindHostDot(s, p, d + 1)
  }

  /** The search finds a dot exactly when the pattern matches from `p`,
      provided the characters before `d` are host characters. */
  lemma {:induction false} FindHostDotCorrect(s: string, p: nat, d: nat)
    requires p < d
    requires d + 3 <= |s| ==> HostRun(s, p, d - 1)
    ensures FindHostDot(s, p, d) <==> exists e: nat :: d <= e && DotAt(s, e) && HostRun(s, p, e)
    decreases |s| - d
  {
    if d + 3 > |s| {
    } else if !IsHostChar(s[d - 1]) {
      forall e: nat | d <= e && DotAt(s, e)
        ensures !HostRun(s, p, e)
      {
        assert p <= d - 1 < e;
      }
    } else {
      assert HostRun(s, p, d);
      if !DotAt(s, d) {
        FindHostDotCorrect(s, p, d + 1);
      }
    }
  }

  /** The regular expression, decided. */
  function UrlPatternMatches(s: string): (r: bool)
    ensures r <==> UrlShapeOk(s)
  {
    FindHostDotCorrect(s, 0, 1);
    FindHostDotCorrect(s, 7, 8);
    FindHostDotCorrect(s, 8, 9);
    assert HostAt(s, 0) <==> exists e: nat :: 1 <= e && DotAt(s, e) && HostRun(s, 0, e);
    FindHostDot(s, 0, 1) ||
    (StartsWith(s, "http://") && FindHostDot(s, 7, 8)) ||
    (StartsWith(s, "https://") && FindHostDot(s, 8, 9))
  }

  /** The pattern is a prefix match, so trailing text passes, and a scheme
      is optional; a text without a dot followed by two letters fails. */
  lemma UrlShapeExamples()
    ensures UrlShapeOk("ab.cd")
    ensures UrlShapeOk("http://ab.cd")
    ensures UrlShapeOk("ab.cd/?!")
    ensures !UrlShapeOk("http://ab")
    ensures !UrlShapeOk("ab.c")
  {
    assert UrlPatternMatches("ab.cd");
    assert UrlPatternMatches("http://ab.cd");
    assert UrlPatternMatches("ab.cd/?!");
    assert !UrlPatternMatches("http://ab");
    assert !UrlPatternMatches("ab.c");
  }

  /** `validate_input`: the URL shape is checked first, then the depth. */
  function ValidateInput(url: string, depth: int): (r: Result<(), string>)
    ensures r.Success? <==> UrlShapeOk(url) && depth > 0
    ensures !UrlShapeOk(url) ==> r == Failure("Invalid URL format")
  {
    if !UrlPatternMatches(url) then Failure("Invalid URL format")
    else if depth <= 0 then Failure("Invalid depth level. Depth level must be a positive integer")
    else Success(())
  }

  /** `sitemap_main` up to the link count it reports: the scheme is added,
      the input validated, and a fresh extractor crawls from the URL. The
      file, the graph and the HTTP server are not modelled. */
  method SitemapMain(input: string, depth: int, fetch: Fetcher, join: Joiner) returns (r: Result<set<Url>, string>)
    ensures var url := AddScheme(input);
            match ValidateInput(url, depth)
            case Failure(e) => r == Failure(e)
            case Success(_) => r == Success(Crawl(fetch, join, Visit({}, []), url, depth).visited)
  {
    var url := AddScheme(input);
    var check := ValidateInput(url, depth);
    if check.Failure? {
      return Failure(check.error);
    }
    var extractor := new LinkExtractor(url, depth, fetch, join);
    extractor.ExtractLinks(url, depth);
    return Success(extractor.allLinks);
  }

  // ----- the sitemap graph ----------------------------------------------

  /** An edge of the graph: `child` extends `url` and is longer. */
  predicate Edge(url: Url, child: Url) {
    StartsWith(child, url) && child != url
  }

  /** The relation is irreflexive and transitive, and every edge leads to a
      longer URL. */
  lemma EdgeOrder(a: Url, b: Url, c: Url)
    ensures !Edge(a, a)
    ensures Edge(a, b) ==> |a| < |b|
    ensures Edge(a, b) && Edge(b, c) ==> Edge(a, c)
  {
    if Edge(a, b) && Edge(b, c) {
      assert c[..|a|] == c[..|b|][..|a|];
    }
  }

  /** A path along edges never returns to where it started. */
  lemma {:induction false} EdgePathAcyclic(path: seq<Url>)
    requires |path| >= 2
    requires forall i :: 0 <= i < |path| - 1 ==> Edge(path[i], path[i + 1])
    ensures |path[0]| < |path[|path| - 1]|
    ensures path[0] != path[|path| - 1]
    decreases |path|
  {
    EdgeOrder(path[0], path[1], path[1]);
    if |path| > 2 {
      EdgePathAcyclic(path[1..]);
    }
  }

  /** The nested loops of `visualize_sitemap`: a node per link and an edge
      for every ordered pair of links in the relation. */
  method BuildGraph(links: set<Url>) returns (nodes: set<Url>, edges: set<(Url, Url)>)
    ensures nodes == links
    ensures forall a, b :: (a, b) in edges <==> a in links && b in links && Edge(a, b)
  {
    nodes, edges := {}, {};
    var todo := links;
    while todo != {}
      invariant todo <= links
      invariant nodes == links - todo
      invariant forall a, b :: (a, b) in edges <==> a in nodes && b in links && Edge(a, b)
      decreases |todo|
    {
      var url :| url in todo;
      nodes := nodes + {url};
      var children := links;
      ghost var before := edges;
      while children != {}
        invariant children <= links
        invariant forall a, b :: (a, b) in edges <==>
                    (a, b) in before || (a == url && b in links - children && Edge(a, b))
        decreases |children|
      {
        var child :| child in children;
        if StartsWith(child, url) && child != url {
          edges := edges + {(url, child)};
        }
        children := children - {child};
      }
      todo := todo - {url};
    }
  }
}
