/** The page crawler's extractors: the resources a parsed page refers to,
    its meta tags and headings, the links found inside its scripts, and the
    name of the file the report is written to. The HTML parser is replaced
    by the lists of tags it would return, `urljoin` by a function parameter
    and the download plus regular-expression scan of a script by a function
    from the script's URL to its matches. */
module PageCrawler {
  import opened Strings
  import opened Wrappers

  type Url = string

  /** `urljoin(base, ref)`: resolution of a reference against a base URL
      (section 5.2 of RFC 3986), taken as given. */
  type Joiner = (Url, string) -> Url

  /** A `<meta>` tag: the attributes the extractor reads, absent or present. */
  datatype MetaTag = MetaTag(name: Option<string>, property: Option<string>,
                             httpEquiv: Option<string>, content: Option<string>)

  /** A heading tag `h1` … `h6`: its level and its text. */
  datatype Heading = Heading(level: nat, text: string)

  /** The parsed page, as the tag searches of the extractors see it: the
      `href` of every `<link>` and `<a>`, the `src` of every `<script>` and
      `<img>`, the `<meta>` tags and the headings, each in document order. */
  datatype Page = Page(linkHrefs: seq<Option<string>>, scriptSrcs: seq<Option<string>>,
                       anchorHrefs: seq<Option<string>>, imgSrcs: seq<Option<string>>,
                       metas: seq<MetaTag>, headings: seq<Heading>)

  // ----- stylesheets, scripts, links and images -------------------------

  /** The five sets the resource extractor fills. */
  datatype Kind = Css | Script | Internal | External | Image

  /** Whether a reference found in a tag goes into the set of `kind`. A link
      that mentions the base URL is internal, even when it starts with
      `http`; only the others that start with `http` are external. */
  predicate Picks(kind: Kind, base: Url, ref: string) {
    match kind
    case Css => Contains(ref, ".css")
    case Script => Contains(ref, ".js")
    case Internal => Contains(ref, base)
    case External => !Contains(ref, base) && StartsWith(ref, "http")
    case Image => |ref| > 1
  }

  /** What is stored for a picked reference: external links verbatim,
      everything else resolved against the base URL. */
  function Entry(kind: Kind, join: Joiner, base: Url, ref: string): Url {
    if kind == External then ref else join(base, ref)
  }

  /** The set of `kind` gathered from the attribute values `refs`. */
  function Collect(kind: Kind, join: Joiner, base: Url, refs: seq<Option<string>>): set<Url>
    decreases |refs|
  {
    if refs == [] then {}
    else
      var last := refs[|refs| - 1];
      Collect(kind, join, base, refs[..|refs| - 1]) +
      (if last.Some? && Picks(kind, base, last.value) then {Entry(kind, join, base, last.value)} else {})
  }

  /** A URL is collected exactly when some present reference that the
      kind picks yields it. */
  lemma {:induction false} CollectMembers(kind: Kind, join: Joiner, base: Url, refs: seq<Option<string>>, u: Url)
    ensures u in Collect(kind, join, base, refs) <==>
            exists k :: 0 <= k < |refs| && refs[k].Some? && Picks(kind, base, refs[k].value) &&
                        u == Entry(kind, join, base, refs[k].value)
    decreases |refs|
  {
    if refs != [] {
      var n := |refs| - 1;
      var init := refs[..n];
      CollectMembers(kind, join, base, init, u);
      if u in Collect(kind, join, base, refs) && u !in Collect(kind, join, base, init) {
        assert refs[n].Some? && Picks(kind, base, refs[n].value) && u == Entry(kind, join, base, refs[n].value);
      }
      if u in Collect(kind, join, base, init) {
        var k :| 0 <= k < n && init[k].Some? && Picks(kind, base, init[k].value) &&
                 u == Entry(kind, join, base, init[k].value);
        assert refs[k] == init[k];
      }
      if k :| 0 <= k < |refs| && refs[k].Some? && Picks(kind, base, refs[k].value) &&
              u == Entry(kind, join, base, refs[k].value) {
        if k < n {
          assert init[k] == refs[k];
        }
      }
    }
  }

  /** No link lands in both link sets, and a present link is dropped only
      when it neither mentions the base URL nor starts with `http`. */
  lemma AnchorKinds(base: Url, ref: string)
    ensures !(Picks(Internal, base, ref) && Picks(External, base, ref))
    ensures Picks(Internal, base, ref) || Picks(External, base, ref) <==>
            Contains(ref, base) || StartsWith(ref, "http")
  {
  }

  /** The order of the tags does not matter, only which references occur. */
  lemma CollectOrderFree(kind: Kind, join: Joiner, base: Url, a: seq<Option<string>>, b: seq<Option<string>>)
    requires forall x :: x in a <==> x in b
    ensures Collect(kind, join, base, a) == Collect(kind, join, base, b)
  {
    forall u | u in Collect(kind, join, base, a)
      ensures u in Collect(kind, join, base, b)
    {
      CollectMembers(kind, join, base, a, u);
      var k :| 0 <= k < |a| && a[k].Some? && Picks(kind, base, a[k].value) &&
               u == Entry(kind, join, base, a[k].value);
      assert a[k] in b;
      var j :| 0 <= j < |b| && b[j] == a[k];
      CollectMembers(kind, join, base, b, u);
    }
    forall u | u in Collect(kind, join, base, b)
      ensures u in Collect(kind, join, base, a)
    {
      CollectMembers(kind, join, base, b, u);
      var k :| 0 <= k < |b| && b[k].Some? && Picks(kind, base, b[k].value) &&
               u == Entry(kind, join, base, b[k].value);
      assert b[k] in a;
      var j :| 0 <= j < |a| && a[j] == b[k];
      CollectMembers(kind, join, base, a, u);
    }
  }

  /** One loop of the resource extractor: every reference of the list is
      looked at in turn and, when present and picked, added to the set. */
  method CollectLoop(kind: Kind, join: Joiner, base: Url, refs: seq<Option<string>>) returns (found: set<Url>)
    ensures found == Collect(kind, join, base, refs)
  {
    found := {};
    for i := 0 to |refs|
      invariant found == Collect(kind, join, base, refs[..i])
    {
      assert refs[..i + 1][..i] == refs[..i];
      var ref := refs[i];
      if ref.Some? && Picks(kind, base, ref.value) {
        found := found + {Entry(kind, join, base, ref.value)};
      }
    }
    assert refs[..|refs|] == refs;
  }

  /** `extract_css_js_internal_external_images`: stylesheets, scripts,
      internal links, external links and images of the page. */
  method ExtractResources(page: Page, base: Url, join: Joiner)
    returns (css: set<Url>, js: set<Url>, internal: set<Url>, external: set<Url>, images: set<Url>)
    ensures css == Collect(Css, join, base, page.linkHrefs)
    ensures js == Collect(Script, join, base, page.scriptSrcs)
    ensures internal == Collect(Internal, join, base, page.anchorHrefs)
    ensures external == Collect(External, join, base, page.anchorHrefs)
    ensures images == Collect(Image, join, base, page.imgSrcs)
  {
    css := CollectLoop(Css, join, base, page.linkHrefs);
    js := CollectLoop(Script, join, base, page.scriptSrcs);
    internal, external := {}, {};
    for i := 0 to |page.anchorHrefs|
      invariant internal == Collect(Internal, join, base, page.anchorHrefs[..i])
      invariant external == Collect(External, join, base, page.anchorHrefs[..i])
    {
      assert page.anchorHrefs[..i + 1][..i] == page.anchorHrefs[..i];
      var ref := page.anchorHrefs[i];
      if ref.Some? {
        if Contains(ref.value, base) {
          internal := internal + {join(base, ref.value)};
        } else if StartsWith(ref.value, "http") {
          external := external + {ref.value};
        }
      }
    }
    assert page.anchorHrefs[..|page.anchorHrefs|] == page.anchorHrefs;
    images := CollectLoop(Image, join, base, page.imgSrcs);
  }

  // ----- meta tags ------------------------------------------------------

  /** The key of a meta tag: its `name`, else its `property`, else its
      `http-equiv`, else the empty text. */
  function MetaKey(t: MetaTag): string {
    if t.name.Some? then t.name.value
    else if t.property.Some? then t.property.value
    else if t.httpEquiv.Some? then t.httpEquiv.value
    else ""
  }

  /** The value of a meta tag: its `content`, else the empty text. */
  function MetaContent(t: MetaTag): string {
    if t.content.Some? then t.content.value else ""
  }

  /** The dictionary after storing the tags in document order. */
  function MetaMap(tags: seq<MetaTag>): map<string, string>
    decreases |tags|
  {
    if tags == [] then map[]
    else
      var last := tags[|tags| - 1];
      MetaMap(tags[..|tags| - 1])[MetaKey(last) := MetaContent(last)]
  }

  /** `extract_meta_tags`. */
  method ExtractMetaTags(tags: seq<MetaTag>) returns (meta: map<string, string>)
    ensures meta == MetaMap(tags)
  {
    meta := map[];
    for i := 0 to |tags|
      invariant meta == MetaMap(tags[..i])
    {
      assert tags[..i + 1][..i] == tags[..i];
      meta := meta[MetaKey(tags[i]) := MetaContent(tags[i])];
    }
    assert tags[..|tags|] == tags;
  }

  /** The keys of the dictionary are exactly the keys of the tags. */
  lemma {:induction false} MetaMapKeys(tags: seq<MetaTag>, key: string)
    ensures key in MetaMap(tags) <==> exists i :: 0 <= i < |tags| && MetaKey(tags[i]) == key
    decreases |tags|
  {
    if tags != [] {
      var n := |tags| - 1;
      MetaMapKeys(tags[..n], key);
      if exists i :: 0 <= i < n && MetaKey(tags[..n][i]) == key {
        var i :| 0 <= i < n && MetaKey(tags[..n][i]) == key;
        assert tags[i] == tags[..n][i];
      }
      if i :| 0 <= i < |tags| && MetaKey(tags[i]) == key {
        if i < n {
          assert tags[..n][i] == tags[i];
        }
      }
    }
  }

  /** Of several tags with the same key, the last one gives the value. */
  lemma {:induction false} MetaMapLastWins(tags: seq<MetaTag>, i: nat)
    requires i < |tags|
    requires forall j :: i < j < |tags| ==> MetaKey(tags[j]) != MetaKey(tags[i])
    ensures MetaKey(tags[i]) in MetaMap(tags)
    ensures MetaMap(tags)[MetaKey(tags[i])] == MetaContent(tags[i])
    decreases |tags|
  {
    var n := |tags| - 1;
    if i < n {
      var init := tags[..n];
      assert init[i] == tags[i];
      assert forall j :: i < j < |init| ==> init[j] == tags[j];
      MetaMapLastWins(init, i);
    }
  }

  // ----- headings -------------------------------------------------------

  /** The key `h1` … `h6` of a heading level. */
  function HeadingKey(level: nat): (r: string)
    requires 1 <= level <= 6
    ensures |r| == 2 && r[0] == 'h' && r[1] == "123456"[level - 1]
  {
    ['h', ('0' as int + level) as char]
  }

  /** The six keys are `h1` to `h6`. */
  lemma HeadingKeys()
    ensures HeadingKey(1) == "h1" && HeadingKey(2) == "h2" && HeadingKey(3) == "h3"
    ensures HeadingKey(4) == "h4" && HeadingKey(5) == "h5" && HeadingKey(6) == "h6"
  {
  }

  lemma HeadingKeyInjective(a: nat, b: nat)
    requires 1 <= a <= 6 && 1 <= b <= 6
    requires HeadingKey(a) == HeadingKey(b)
    ensures a == b
  {
    assert HeadingKey(a)[1] == HeadingKey(b)[1];
  }

  /** The stripped texts of the headings of one level, in document order. */
  function LevelTexts(hs: seq<Heading>, level: nat): seq<string>
    decreases |hs|
  {
    if hs == [] then []
    else
      var last := hs[|hs| - 1];
      LevelTexts(hs[..|hs| - 1], level) + (if last.level == level then [Strip(last.text)] else [])
  }

  /** A level has texts exactly when the page has a heading of that level,
      one text per heading. */
  lemma {:induction false} LevelTextsCount(hs: seq<Heading>, level: nat)
    ensures |LevelTexts(hs, level)| == |set k | 0 <= k < |hs| && hs[k].level == level|
    ensures LevelTexts(hs, level) == [] <==> forall k :: 0 <= k < |hs| ==> hs[k].level != level
    decreases |hs|
  {
    var n := |hs|;
    if n > 0 {
      var init := hs[..n - 1];
      LevelTextsCount(init, level);
      var before := set k | 0 <= k < n - 1 && init[k].level == level;
      var now := set k | 0 <= k < n && hs[k].level == level;
      assert forall k :: 0 <= k < n - 1 ==> init[k] == hs[k];
      if hs[n - 1].level == level {
        assert now == before + {n - 1};
      } else {
        assert now == before;
      }
    }
  }

  /** `extract_headings`: for each level from 1 to 6 that occurs on the
      page, the stripped texts of its headings. */
  method ExtractHeadings(hs: seq<Heading>) returns (headings: map<string, seq<string>>)
    ensures forall level :: 1 <= level <= 6 ==>
              (HeadingKey(level) in headings <==> LevelTexts(hs, level) != [])
    ensures forall level :: 1 <= level <= 6 && HeadingKey(level) in headings ==>
              headings[HeadingKey(level)] == LevelTexts(hs, level)
    ensures forall key :: key in headings ==> exists level :: 1 <= level <= 6 && key == HeadingKey(level)
  {
    headings := map[];
    for i := 1 to 7
      invariant forall level :: 1 <= level < i ==>
                  (HeadingKey(level) in headings <==> LevelTexts(hs, level) != [])
      invariant forall level :: 1 <= level < i && HeadingKey(level) in headings ==>
                  headings[HeadingKey(level)] == LevelTexts(hs, level)
      invariant forall key :: key in headings ==> exists level :: 1 <= level < i && key == HeadingKey(level)
    {
      var texts := LevelTexts(hs, i);
      if texts != [] {
        forall level | 1 <= level < i
          ensures HeadingKey(level) != HeadingKey(i)
        {
          if HeadingKey(level) == HeadingKey(i) {
            HeadingKeyInjective(level, i);
          }
        }
        headings := headings[HeadingKey(i) := texts];
      } else {
        assert HeadingKey(i) !in headings by {
          if HeadingKey(i) in headings {
            var level :| 1 <= level < i && HeadingKey(i) == HeadingKey(level);
            HeadingKeyInjective(level, i);
          }
        }
      }
    }
  }

  // ----- links inside scripts -------------------------------------------

  /** What is kept of a match found in the script at `src`: a match that
      starts with `http` as it is, any other resolved against the script's
      own URL. */
  function Normalise(join: Joiner, src: Url, m: string): (r: Url)
    ensures StartsWith(m, "http") ==> r == m
    ensures !StartsWith(m, "http") ==> r == join(src, m)
  {
    if StartsWith(m, "http") then m else join(src, m)
  }

  /** The links kept from the matches of one script, in order. */
  function MatchLinks(join: Joiner, src: Url, ms: seq<string>): set<Url>
    decreases |ms|
  {
    if ms == [] then {}
    else MatchLinks(join, src, ms[..|ms| - 1]) + {Normalise(join, src, ms[|ms| - 1])}
  }

  /** The links of the scripts `srcs`; `scan` gives the matches of a script
      that was fetched, or nothing when the request failed, answered with
      another status than 200 or raised. */
  function JsLinks(scan: Url -> Option<seq<string>>, join: Joiner, srcs: seq<Url>): set<Url>
    decreases |srcs|
  {
    if srcs == [] then {}
    else
      var src := srcs[|srcs| - 1];
      JsLinks(scan, join, srcs[..|srcs| - 1]) +
      (if scan(src).Some? then MatchLinks(join, src, scan(src).value) else {})
  }

  /** A link belongs to the matches of a script exactly when some match
      normalises to it. */
  lemma {:induction false} MatchLinksMembers(join: Joiner, src: Url, ms: seq<string>, u: Url)
    ensures u in MatchLinks(join, src, ms) <==> exists j :: 0 <= j < |ms| && u == Normalise(join, src, ms[j])
    decreases |ms|
  {
    if ms != [] {
      var n := |ms| - 1;
      MatchLinksMembers(join, src, ms[..n], u);
      if j :| 0 <= j < n && u == Normalise(join, src, ms[..n][j]) {
        assert ms[j] == ms[..n][j];
      }
      if j :| 0 <= j < |ms| && u == Normalise(join, src, ms[j]) {
        if j < n {
          assert ms[..n][j] == ms[j];
        }
      }
    }
  }

  /** A link is found exactly when one of the scripts was fetched and one
      of its matches normalises to it; failed scripts contribute nothing. */
  lemma {:induction false} JsLinksMembers(scan: Url -> Option<seq<string>>, join: Joiner, srcs: seq<Url>, u: Url)
    ensures u in JsLinks(scan, join, srcs) <==>
            exists k :: 0 <= k < |srcs| && scan(srcs[k]).Some? && u in MatchLinks(join, srcs[k], scan(srcs[k]).value)
    decreases |srcs|
  {
    if srcs != [] {
      var n := |srcs| - 1;
      JsLinksMembers(scan, join, srcs[..n], u);
      if k :| 0 <= k < n && scan(srcs[..n][k]).Some? && u in MatchLinks(join, srcs[..n][k], scan(srcs[..n][k]).value) {
        assert srcs[k] == srcs[..n][k];
      }
      if k :| 0 <= k < |srcs| && scan(srcs[k]).Some? && u in MatchLinks(join, srcs[k], scan(srcs[k]).value) {
        if k < n {
          assert srcs[..n][k] == srcs[k];
        }
      }
    }
  }

  /** The scripts are fetched concurrently, so the order in which they
      finish cannot matter: the result depends only on which scripts are
      crawled. */
  lemma JsLinksOrderFree(scan: Url -> Option<seq<string>>, join: Joiner, a: seq<Url>, b: seq<Url>)
    requires forall x :: x in a <==> x in b
    ensures JsLinks(scan, join, a) == JsLinks(scan, join, b)
  {
    forall u | u in JsLinks(scan, join, a)
      ensures u in JsLinks(scan, join, b)
    {
      JsLinksMembers(scan, join, a, u);
      var k :| 0 <= k < |a| && scan(a[k]).Some? && u in MatchLinks(join, a[k], scan(a[k]).value);
      assert a[k] in b;
      var j :| 0 <= j < |b| && b[j] == a[k];
      JsLinksMembers(scan, join, b, u);
    }
    forall u | u in JsLinks(scan, join, b)
      ensures u in JsLinks(scan, join, a)
    {
      JsLinksMembers(scan, join, b, u);
      var k :| 0 <= k < |b| && scan(b[k]).Some? && u in MatchLinks(join, b[k], scan(b[k]).value);
      assert b[k] in a;
      var j :| 0 <= j < |a| && a[j] == b[k];
      JsLinksMembers(scan, join, a, u);
    }
  }

  /** A source naming a `.json` file is taken as a script, since the test
      is a substring test for `.js`. */
  lemma JsonIsScript(base: Url, ref: string)
    requires Contains(ref, ".json")
    ensures Picks(Script, base, ref)
  {
    ContainsAt(ref, ".json");
    var i :| OccursAt(ref, ".json", i);
    assert ref[i..i + 3] == ref[i..i + 5][..3];
    assert OccursAt(ref, ".js", i);
    ContainsAt(ref, ".js");
  }

  /** `js_crawl`, with the concurrent fetches run one after the other. */
  method JsCrawl(srcs: seq<Url>, scan: Url -> Option<seq<string>>, join: Joiner) returns (total: set<Url>)
    ensures total == JsLinks(scan, join, srcs)
  {
    total := {};
    for k := 0 to |srcs|
      invariant total == JsLinks(scan, join, srcs[..k])
    {
      assert srcs[..k + 1][..k] == srcs[..k];
      var src := srcs[k];
      var found := scan(src);
      if found.Some? {
        var ms := found.value;
        ghost var before := total;
        for j := 0 to |ms|
          invariant total == before + MatchLinks(join, src, ms[..j])
        {
          assert ms[..j + 1][..j] == ms[..j];
          var m := ms[j];
          if !StartsWith(m, "http") {
            m := join(src, m);
          }
          total := total + {m};
        }
        assert ms[..|ms|] == ms;
      }
    }
    assert srcs[..|srcs|] == srcs;
  }

  // ----- output file ----------------------------------------------------

  const CrawlerSuffix: string := "_Crawler.json"

  /** The stem of the report's file name: the URL with every `http://`, then
      every `https://` removed and every `/` replaced by `_`. */
  function CrawlerStem(url: string): string {
    ReplaceAll(ReplaceAll(ReplaceAll(url, "http://", ""), "https://", ""), "/", "_")
  }

  /** The report's file name: no `/`, and so neither `http://` nor
      `https://`, is left in front of its suffix. */
  function CrawlerFileName(url: string): (r: string)
    ensures EndsWith(r, CrawlerSuffix)
    ensures '/' !in r[..|r| - |CrawlerSuffix|]
    ensures !Contains(r[..|r| - |CrawlerSuffix|], "http://") && !Contains(r[..|r| - |CrawlerSuffix|], "https://")
  {
    var stem := CrawlerStem(url);
    ReplaceCharRemoves(ReplaceAll(ReplaceAll(url, "http://", ""), "https://", ""), '/', '_');
    MissingCharNoMatch(stem, '/', "http://");
    MissingCharNoMatch(stem, '/', "https://");
    var r := stem + CrawlerSuffix;
    assert r[..|r| - |CrawlerSuffix|] == stem;
    assert r[|r| - |CrawlerSuffix|..] == CrawlerSuffix;
    r
  }

  /** A text without `:` and `/` is neither changed by the replacements. */
  lemma CrawlerStemPlain(host: string)
    requires ':' !in host && '/' !in host
    ensures CrawlerStem(host) == host
  {
    MissingCharNoMatch(host, ':', "http://");
    ReplaceAbsent(host, "http://", "");
    MissingCharNoMatch(host, ':', "https://");
    ReplaceAbsent(host, "https://", "");
    ContainsChar(host, '/');
    ReplaceAbsent(host, "/", "_");
  }

  /** For `http://host` and `https://host` with a plain host, the file is
      named after the host alone. */
  lemma CrawlerFileNameOfHost(host: string)
    requires ':' !in host && '/' !in host
    ensures CrawlerFileName("http://" + host) == host + CrawlerSuffix
    ensures CrawlerFileName("https://" + host) == host + CrawlerSuffix
  {
    MissingCharNoMatch(host, ':', "http://");
    ReplaceAbsent(host, "http://", "");
    MissingCharNoMatch(host, ':', "https://");
    ReplaceAbsent(host, "https://", "");
    ContainsChar(host, '/');
    ReplaceAbsent(host, "/", "_");
    ReplaceLeading("http://", host, "");
    assert "" + host == host;
    var s := "https://" + host;
    HttpsNoHttp(host);
    ReplaceAbsent(s, "http://", "");
    ReplaceLeading("https://", host, "");
  }

  /** For `https://rest` with no further colon, the scheme is dropped and
      every `/` of the rest becomes `_`. */
  lemma CrawlerFileNameHttps(rest: string)
    requires ':' !in rest
    ensures CrawlerFileName("https://" + rest) == ReplaceAll(rest, "/", "_") + CrawlerSuffix
  {
    HttpsNoHttp(rest);
    ReplaceAbsent("https://" + rest, "http://", "");
    ReplaceLeading("https://", rest, "");
    assert "" + rest == rest;
    MissingCharNoMatch(rest, ':', "https://");
    ReplaceAbsent(rest, "https://", "");
  }

  /** For `http://rest` with no further colon, the scheme is dropped and
      every `/` of the rest becomes `_`. */
  lemma CrawlerFileNameHttp(rest: string)
    requires ':' !in rest
    ensures CrawlerFileName("http://" + rest) == ReplaceAll(rest, "/", "_") + CrawlerSuffix
  {
    ReplaceLeading("http://", rest, "");
    MissingCharNoMatch(rest, ':', "http://");
    ReplaceAbsent(rest, "http://", "");
    assert "" + rest == rest;
    MissingCharNoMatch(rest, ':', "https://");
    ReplaceAbsent(rest, "https://", "");
  }

  /** A text without the character `c` holds no pattern that has one. */
  lemma {:induction false} MissingCharNoMatch(s: string, c: char, pat: string)
    requires c !in s && c in pat
    ensures !Contains(s, pat)
    decreases |s|
  {
    if s != [] {
      MissingCharNoMatch(s[1..], c, pat);
      var i :| 0 <= i < |pat| && pat[i] == c;
      if |pat| <= |s| {
        assert s[..|pat|][i] == s[i] && s[i] != c;
      }
    }
  }

  /** `https://host` with a host without `:` holds no `http://`: the only
      colon is at position 5, where `http://` would need its `p`. */
  lemma HttpsNoHttp(host: string)
    requires ':' !in host
    ensures !Contains("https://" + host, "http://")
  {
    var s := "https://" + host;
    MissingCharNoMatch(host, ':', "http://");
    ContainsAt(host, "http://");
    ContainsAt(s, "http://");
    forall i | 0 <= i <= |s| - 7
      ensures !OccursAt(s, "http://", i)
    {
      if i >= 8 {
        assert s[i..i + 7] == host[i - 8..i - 1];
        assert !OccursAt(host, "http://", i - 8);
      } else if i == 1 {
        assert s[i..i + 7][0] == 't';
      } else {
        if i + 4 >= 8 {
          assert s[i + 4] == host[i - 4];
        }
        assert s[i..i + 7][4] != ':';
      }
    }
  }
}
