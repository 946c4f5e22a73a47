# Network Information Toolkit — a Dafny model of its logic

The Network Information Toolkit is a menu-driven collection of network
lookups. Most of it sends a request and writes the answer to a file. This
project models the parts that hold logic of their own, and proves what
they promise:

- **Sitemap crawler** (`Sitemap`). The `LinkExtractor` class crawls a site
  to a bounded depth and remembers what it has visited. The model also
  covers:
  - its filter for internal links;
  - the input validation, and the scheme that is added before it;
  - the "URL is a strict prefix of URL" relation behind the sitemap graph.
- **Page crawler extractors** (`PageCrawler`):
  - the sorting of a page's references into CSS, script, internal,
    external and image sets;
  - the meta-tag map;
  - the heading lists;
  - the normalisation of links found in scripts;
  - the name of the output file.
- **robots.txt reader** (`RobotsTxt`):
  - where the file is fetched from;
  - the loop that reads its lines into user-agent blocks (the block is
    appended to the list, then updated through a second reference);
  - the name of the saved file.
- **PTR lookup name** (`ReverseDns`): the reverse-lookup name of an
  address, in the IN-ADDR.ARPA form of section 3.5 of RFC 1035.
- **Menu and file names** (`Toolkit`): the file-name sanitiser, the
  IP-information file name, and the check on the menu choice.
- **BGPView client** (`BgpView`): the endpoint and the output file name of
  each kind of query. Its `safe_filename` (`imp/ASN_info.py:20-22`) is the
  same expression as the toolkit's, so `Toolkit.SafeFilename` models both.
- **Header tool** (`HeaderInfo`): the name of the file it writes.

Python's string operations are modelled once, in `Strings`:

- `startswith`, `in`, `replace`, `strip`, `rstrip(c)`, `split`, `join`
  and `reversed`;
- `strip` uses Python's full set of whitespace characters.

`Wrappers` holds `Option` and `Result`.

The network, HTML parsing, `urljoin` and regular-expression scans are
outside the model. They enter as function-typed parameters:

- a fetcher from a URL to the `href`s of the page, or to the lines of a
  file, with `None` when the request fails;
- a joiner `(base, reference) -> URL`;
- a scanner from a script URL to the matches found in it.

A page's tags are sequences of optional attribute values. This keeps the
`is not None` checks of the code.

The crawler is modelled on one sequential schedule:

1. take all the links of a page and admit, in list order, those not yet
   visited;
2. then crawl each admitted link, in order, with one level less.

The specification of that schedule is the pair of functions
`Sitemap.Crawl` / `Sitemap.ExpandAll`. The class's methods are proved to
follow it exactly. The lemmas about these functions state:

- what the crawl visits, and that each URL is admitted at most once;
- that the sets only grow;
- that everything visited is reachable within the depth;
- that a URL first reached along a deeper path is not crawled again from
  a shallower one.

The seed URL is not entered into `visited` before the crawl starts
(`IP_info/sitemap.py:139-140`): it enters `all_links` only if some page
links back to it. `Sitemap.CrawlFromScratch` states that the seed is
visited only when it is reachable from itself.

## Model

| member | source | states |
|---|---|---|
| Sitemap.ResolvedMembers | IP_info/sitemap.py:43-48 | A URL is among the page's internal links iff some `href` passes the filter and resolves to it. There are never more links than `href`s. |
| Sitemap.Resolved | IP_info/sitemap.py:44-47 | The loop body of `get_internal_links` over a list of `href`s: each kept `href`, resolved against the page URL, in list order. Its members are stated by `Sitemap.ResolvedMembers`. |
| Sitemap.InternalHrefExamples | IP_info/sitemap.py:45-46 | A missing or empty `href` is dropped, and so are `https:`, `ftp:` and `javascript:` links. `/about` and `#top` are kept. The test is case-sensitive (`HTTP://…` is kept) and looks only at the start of the text (`httpd.conf` and `ftp-guide.html` are dropped). |
| Sitemap.IsInternalHref | IP_info/sitemap.py:46 | The filter: a present, non-empty `href` that does not start with `http`, `https`, `ftp` or `javascript`. Its cases are pinned by `Sitemap.InternalHrefExamples`. |
| Sitemap.InternalLinks | IP_info/sitemap.py:38-51 | The resolved internal links of a page in document order, or none when the request fails. Its members are stated by `Sitemap.ResolvedMembers`. |
| Sitemap.AdmittedFacts | IP_info/sitemap.py:59-62 | The links a page admits are distinct. A link is admitted iff it is on the page and was not visited before. |
| Sitemap.Admitted | IP_info/sitemap.py:59-62 | The links `extract_links` admits from a page: those not visited, each the first time it is listed, in list order. Its properties are stated by `Sitemap.AdmittedFacts`. |
| Sitemap.AdmittedSingle | IP_info/sitemap.py:60-63 | A single link is admitted exactly when it is not yet visited. |
| Sitemap.AdmittedNone | IP_info/sitemap.py:59-60 | When every link of a page is already visited, nothing is admitted. |
| Sitemap.Crawl | IP_info/sitemap.py:53-66 | The crawl specification. At depth 0 it changes nothing. Otherwise it admits the page's unvisited links, then crawls each of them one level down. It is tied to the class by `Sitemap.LinkExtractor.ExtractLinks`. |
| Sitemap.ExpandAll | IP_info/sitemap.py:63-64 | The crawls of the admitted links, one after the other, each starting from the state the previous one left. |
| Sitemap.ExtendsTrans | IP_info/sitemap.py:29-30 | Proof helper for `Sitemap.CrawlExtends` and `Sitemap.CrawlSound`, about the `visited` / `all_links` state set up here: growth of the crawl state composes, so a later state extends every earlier one. |
| Sitemap.CrawlExtends | IP_info/sitemap.py:53-66 | A crawl only adds to the state. The visited set and the admission order grow together. Each new URL is admitted once and was not visited before. |
| Sitemap.ExpandAllExtends | IP_info/sitemap.py:63-64 | Crawling the admitted links one after the other only adds to the state, in the same way. |
| Sitemap.CrawlSound | IP_info/sitemap.py:57-63 | Every URL the crawl adds is reachable from the start page by at most `depth` link hops. |
| Sitemap.ExpandAllSound | IP_info/sitemap.py:59-64 | Every URL added while crawling the admitted links is reachable from one of them within the remaining depth. |
| Sitemap.CrawlShallow | IP_info/sitemap.py:54-55 | At depth 0 the crawl returns at once and changes nothing. At depth 1 it visits exactly the start page's internal links. |
| Sitemap.ExpandAllZero | IP_info/sitemap.py:54-55 | Children handed depth 0 change nothing. |
| Sitemap.DirectLinksVisited | IP_info/sitemap.py:57-62 | With depth at least 1, every internal link of the start page ends up visited. |
| Sitemap.CrawlFromScratch | IP_info/sitemap.py:29-30 | A crawl from empty sets admits each URL at most once, and the visited set is exactly the set of admitted URLs. The seed is visited only if it can reach itself by links. |
| Sitemap.DeeperPathShadows | IP_info/sitemap.py:59-63 | A page that is reachable within the depth can still be missed: a URL first admitted along a deeper path is not expanded again with more depth. |
| Sitemap.ShadowedCrawl | IP_info/sitemap.py:57-64 | The crawl of the shadowing example visits exactly four pages, in the order the schedule gives. |
| Sitemap.ShadowedFirstBranch | IP_info/sitemap.py:59-64 | The first branch of that example admits the deeper pages before the second branch is crawled. |
| Sitemap.CrawlSingleLink | IP_info/sitemap.py:57-63 | A page with one unvisited link admits it and crawls it one level down. |
| Sitemap.CrawlTwoLinks | IP_info/sitemap.py:57-64 | A page with two unvisited links admits both first, then crawls them in order. |
| Sitemap.ExpandAllSingle | IP_info/sitemap.py:63-64 | Crawling a single admitted link is one crawl of it. |
| Sitemap.CrawlNoNewLinks | IP_info/sitemap.py:59-60 | A page whose links are all visited changes nothing, at any depth. |
| Sitemap.LinkExtractor.constructor | IP_info/sitemap.py:26-30 | A new extractor keeps the URL and the depth, and starts with empty `visited` and `all_links`. |
| Sitemap.LinkExtractor.GetInternalLinks | IP_info/sitemap.py:38-51 | The loop returns the page's internal links, resolved, in document order. A failed request gives no links. |
| Sitemap.LinkExtractor.ExtractLinks | IP_info/sitemap.py:53-66 | The new `visited` and `all_links` are the crawl specification applied to the old ones. `all_links == visited` is kept. |
| Sitemap.LinkExtractor.AdmitLinks | IP_info/sitemap.py:59-63 | The loop adds each unvisited link to both sets and queues it. The queue holds exactly the admitted links, in order. |
| Sitemap.LinkExtractor.ExpandEach | IP_info/sitemap.py:63-64 | Crawling the queued links one by one reaches the state the specification gives. |
| Sitemap.AddScheme | IP_info/sitemap.py:136-137 | The result starts with `http://` or `https://`. The input is unchanged exactly when it already started with one of them. Otherwise `http://` is put in front of it. |
| Sitemap.AddSchemeIdempotent | IP_info/sitemap.py:136-137 | Adding the scheme twice is adding it once. |
| Sitemap.FindHostDotCorrect | IP_info/sitemap.py:114 | The left-to-right scan finds a `.` followed by two letters, after host characters only, iff such a position exists. |
| Sitemap.UrlPatternMatches | IP_info/sitemap.py:114 | The pattern matches iff, after an optional `http://` or `https://`, one or more letters, digits, `-` or `.` are followed by `.` and two letters. It is a prefix match. |
| Sitemap.UrlShapeOk | IP_info/sitemap.py:114 | What `re.match(r'(https?://)?[a-zA-Z0-9\-\.]+\.[a-zA-Z]{2,}', url)` accepts: the host pattern matches a prefix, from the start or after `http://` or `https://`. It is decided by `Sitemap.UrlPatternMatches`. |
| Sitemap.UrlShapeExamples | IP_info/sitemap.py:114 | `ab.cd`, `http://ab.cd` and `ab.cd/?!` are accepted. `http://ab` and `ab.c` are rejected. |
| Sitemap.ValidateInput | IP_info/sitemap.py:113-117 | Input is accepted iff the URL has the required shape and the depth is positive. A bad URL is reported as `Invalid URL format` before the depth is looked at. |
| Sitemap.SitemapMain | IP_info/sitemap.py:132-140 | The scheme is added, then the input is validated. A failure is returned unchanged and nothing is crawled. Otherwise the result is the set a crawl from the URL with empty sets visits. |
| Sitemap.EdgeOrder | IP_info/sitemap.py:88-90 | The graph's edge relation is irreflexive and transitive, and every edge leads to a longer URL. |
| Sitemap.Edge | IP_info/sitemap.py:89 | The edge test of the sitemap graph: the child starts with the URL and differs from it. Its properties are stated by `Sitemap.EdgeOrder` and `Sitemap.EdgePathAcyclic`. |
| Sitemap.EdgePathAcyclic | IP_info/sitemap.py:86-90 | A path of edges never returns to its start, so the sitemap graph has no cycles. |
| Sitemap.BuildGraph | IP_info/sitemap.py:85-90 | The nested loops give one node per link, and an edge between two links exactly when the relation holds. |
| PageCrawler.CollectMembers | IP_info/Crawler.py:206-231 | A URL is in a resource set iff some present attribute value of that kind passes the kind's test and yields it. Internal, CSS, script and image values are resolved; external ones are kept verbatim. |
| PageCrawler.Collect | IP_info/Crawler.py:206-231 | The set one loop builds from the attribute values of one kind. Its members are stated by `PageCrawler.CollectMembers`. |
| PageCrawler.Picks | IP_info/Crawler.py:206-231 | The test each of the four loops applies to a present value: `.css` in it, `.js` in it, the base URL in it, not the base URL but starting with `http`, or longer than one character. Used by `PageCrawler.CollectMembers`. |
| PageCrawler.Entry | IP_info/Crawler.py:206-231 | What each loop stores for a picked value: external links verbatim, everything else joined to the base URL. Used by `PageCrawler.CollectMembers`. |
| PageCrawler.AnchorKinds | IP_info/Crawler.py:218-225 | No anchor is both internal and external. An anchor is kept iff it contains the base URL or starts with `http`. |
| PageCrawler.CollectOrderFree | IP_info/Crawler.py:200-233 | The resource sets do not depend on the order or repetition of the tags. |
| PageCrawler.CollectLoop | IP_info/Crawler.py:206-231 | Each of the four loops builds exactly the set its test defines. |
| PageCrawler.ExtractResources | IP_info/Crawler.py:190-233 | The five sets are the CSS links, the scripts, the internal anchors, the external anchors and the images the tests define. |
| PageCrawler.JsonIsScript | IP_info/Crawler.py:215 | The `.js` test is a substring test, so a `.json` source counts as a script. |
| PageCrawler.ExtractMetaTags | IP_info/Crawler.py:129-136 | The loop builds the map of keys to contents. The key is `name`, else `property`, else `http-equiv`, else empty; the content defaults to empty. |
| PageCrawler.MetaMap | IP_info/Crawler.py:129-136 | The meta-tag map after the tags in order. Its keys and values are stated by `PageCrawler.MetaMapKeys` and `PageCrawler.MetaMapLastWins`. |
| PageCrawler.MetaKey | IP_info/Crawler.py:132 | The key of a meta tag: its `name`, else its `property`, else its `http-equiv`, else the empty text. Used by `PageCrawler.MetaMapKeys`. |
| PageCrawler.MetaContent | IP_info/Crawler.py:133 | The value of a meta tag: its `content`, else the empty text. Used by `PageCrawler.MetaMapLastWins`. |
| PageCrawler.MetaMapKeys | IP_info/Crawler.py:131-134 | A key is in the map iff some tag has it as its key. |
| PageCrawler.MetaMapLastWins | IP_info/Crawler.py:134 | The map holds, for each key, the content of the last tag with that key. |
| PageCrawler.HeadingKey | IP_info/Crawler.py:152 | The key of a level from 1 to 6 is `h` followed by the digit of the level. |
| PageCrawler.HeadingKeys | IP_info/Crawler.py:149-152 | The six keys are `h1` to `h6`. |
| PageCrawler.HeadingKeyInjective | IP_info/Crawler.py:149-152 | Different levels have different keys. |
| PageCrawler.LevelTexts | IP_info/Crawler.py:150-152 | The stripped texts of one level's headings in document order. Their number is stated by `PageCrawler.LevelTextsCount`. |
| PageCrawler.LevelTextsCount | IP_info/Crawler.py:150-152 | A level's list has one text per heading of that level. It is empty iff the page has no heading of that level. |
| PageCrawler.ExtractHeadings | IP_info/Crawler.py:147-154 | A level from 1 to 6 has a key iff it has a heading, and its value is the stripped texts in document order. There are no other keys. |
| PageCrawler.Normalise | IP_info/Crawler.py:55-58 | A match that starts with `http` is kept as it is. Any other match is resolved against the script URL. |
| PageCrawler.MatchLinksMembers | IP_info/Crawler.py:55-58 | The links of one script are exactly its normalised matches. |
| PageCrawler.MatchLinks | IP_info/Crawler.py:55-58 | The set of one script's matches, each normalised. Its members are stated by `PageCrawler.MatchLinksMembers`. |
| PageCrawler.JsLinks | IP_info/Crawler.py:47-65 | The links found in all the scripts. Its members are stated by `PageCrawler.JsLinksMembers`. |
| PageCrawler.JsLinksMembers | IP_info/Crawler.py:49-63 | A link is found iff some script was fetched and one of its matches normalises to it. A failed script adds nothing. |
| PageCrawler.JsLinksOrderFree | IP_info/Crawler.py:62-63 | The result does not depend on the order in which the scripts are handled. |
| PageCrawler.JsCrawl | IP_info/Crawler.py:47-65 | The loops gather exactly the links the specification gives. |
| PageCrawler.CrawlerFileName | IP_info/Crawler.py:266 | The name ends with `_Crawler.json`. Before that suffix it contains no `/`, no `http://` and no `https://`. The exact names are stated by the lemmas below. |
| PageCrawler.CrawlerStem | IP_info/Crawler.py:266 | The chain of three replacements in front of the suffix. |
| PageCrawler.CrawlerStemPlain | IP_info/Crawler.py:266 | A name without `:` or `/` passes through unchanged. |
| PageCrawler.CrawlerFileNameOfHost | IP_info/Crawler.py:266 | `http://host` and `https://host` both give `host_Crawler.json`. |
| PageCrawler.CrawlerFileNameHttps | IP_info/Crawler.py:266 | For `https://rest` with no further colon, the name is `rest` with every `/` replaced by `_`, followed by `_Crawler.json`. |
| PageCrawler.CrawlerFileNameHttp | IP_info/Crawler.py:266 | The same holds for `http://rest`. |
| PageCrawler.HttpsNoHttp | IP_info/Crawler.py:266 | Removing `http://` first does not touch `https://…`, so the second replacement is the one that removes it. |
| RobotsTxt.RobotsUrl | IP_info/Robot_info.py:14 | The robots URL ends with `/robots.txt`. |
| RobotsTxt.RobotsUrlSite | IP_info/Robot_info.py:14 | Before `/robots.txt` stands the given URL without its trailing slashes, and it does not end with a slash. |
| RobotsTxt.RobotsUrlTrailingSlash | IP_info/Robot_info.py:14 | `url` and `url/` give the same robots URL. |
| RobotsTxt.FieldValue | IP_info/Robot_info.py:29 | `split(':')[1].strip()` of a line that has a colon. Its value is stated by `RobotsTxt.FieldValueOneColon` and `RobotsTxt.FieldValueCut`. |
| RobotsTxt.ClassifyLine | IP_info/Robot_info.py:28-38 | What a stripped line says: a `User-agent:`, `Allow:` or `Disallow:` line with its value, or nothing. |
| RobotsTxt.FieldValueCut | IP_info/Robot_info.py:29 | The recorded value is the text between the first and the second colon, stripped, so `Disallow: /a:b` records `/a`. |
| RobotsTxt.FieldValueOneColon | IP_info/Robot_info.py:34 | A one-colon line such as `Disallow: /private` records the stripped text after the colon, with no whitespace at either end. |
| RobotsTxt.ClassifyCaseSensitive | IP_info/Robot_info.py:28-38 | The prefixes are case-sensitive. `user-agent:` and `Sitemap:` lines change nothing. |
| RobotsTxt.ParseLinesDirectives | IP_info/Robot_info.py:25-38 | Reading the lines is running, from no blocks, what each stripped line says. |
| RobotsTxt.ParseLines | IP_info/Robot_info.py:22-38 | The blocks after the lines in order. Their properties are stated by the lemmas in this module. |
| RobotsTxt.ParseLinesSnoc | IP_info/Robot_info.py:25-26 | Reading one more line is one more step. |
| RobotsTxt.ParseFromAppend | IP_info/Robot_info.py:25-38 | Reading a file in two pieces is reading it whole. |
| RobotsTxt.NamesLastUpdated | IP_info/Robot_info.py:34 | Proof helper for `RobotsTxt.ParseNames`: updating the lists of the last block keeps all names. |
| RobotsTxt.ParseNames | IP_info/Robot_info.py:28-30 | There is one block per `User-agent:` line, named after it, in file order. |
| RobotsTxt.ParseLinesNames | IP_info/Robot_info.py:25-30 | The same holds for the lines of a file. |
| RobotsTxt.OrphanDirectivesIgnored | IP_info/Robot_info.py:32-38 | `Allow:` and `Disallow:` lines before the first `User-agent:` line are ignored. |
| RobotsTxt.NoUserAgentNoBlocks | IP_info/Robot_info.py:22-38 | A file without `User-agent:` lines gives no blocks. |
| RobotsTxt.DirectivesGoToLastBlock | IP_info/Robot_info.py:32-38 | Values go to the most recently opened block, in order. Earlier blocks are unchanged. |
| RobotsTxt.OtherLinesIgnored | IP_info/Robot_info.py:28-38 | Lines with none of the three prefixes change nothing. |
| RobotsTxt.Block.constructor | IP_info/Robot_info.py:29 | A new block has its name and empty `allowed` and `disallowed` lists. |
| RobotsTxt.Block.AddAllowed | IP_info/Robot_info.py:34 | The value is appended to `allowed`. Nothing else changes. |
| RobotsTxt.Block.AddDisallowed | IP_info/Robot_info.py:38 | The value is appended to `disallowed`. Nothing else changes. |
| RobotsTxt.Apply | IP_info/Robot_info.py:28-38 | One line acts on the shared block objects as its step on block values does. The list stays a list of distinct blocks whose last one is the current block. |
| RobotsTxt.StepBlocks | IP_info/Robot_info.py:28-38 | One line's effect on the block list: a User-agent line appends a new block; an Allow or Disallow line extends the last block, if any; other lines change nothing. Its properties are stated by `RobotsTxt.DirectivesGoToLastBlock`, `RobotsTxt.OrphanDirectivesIgnored` and `RobotsTxt.OtherLinesIgnored`. |
| RobotsTxt.ReadBlocks | IP_info/Robot_info.py:22-38 | The loop over the lines produces exactly the blocks of the line-by-line specification. |
| RobotsTxt.ParseRobotsTxt | IP_info/Robot_info.py:14-45 | A failed request saves nothing. Otherwise the blocks of the fetched lines are saved under the file name derived from the URL. |
| RobotsTxt.RobotFileName | IP_info/Robot_info.py:54 | Every `/` and `:` becomes `_`, every other character stays, and `_combined_robot_info.json` follows. |
| ReverseDns.ReverseName | DNS_Records/PTR_records.py:16 | The name ends with `.in-addr.arpa` and is exactly as long as the input plus the suffix. |
| ReverseDns.ForwardAddress | DNS_Records/PTR_records.py:16 | The inverse reading is defined exactly on names with the suffix. |
| ReverseDns.ReverseNameLabels | DNS_Records/PTR_records.py:16 | The labels before the suffix are the input's dot-separated fields in reverse order, one per field. |
| ReverseDns.ForwardReverse | DNS_Records/PTR_records.py:16 | Reading the name back gives the input. |
| ReverseDns.ReverseNameInjective | DNS_Records/PTR_records.py:16 | Different inputs never share a name. |
| ReverseDns.JoinReverseLength | DNS_Records/PTR_records.py:16 | Proof helper for `ReverseDns.ReverseName`: reversing the fields does not change the joined length. |
| ReverseDns.ReverseNameQuad | DNS_Records/PTR_records.py:16 | A dotted quad `a.b.c.d` gives `d.c.b.a.in-addr.arpa`. |
| ReverseDns.ReverseNameOfFields | DNS_Records/PTR_records.py:16 | For dot-free fields joined by dots, the name is the fields in reverse order, joined by dots, then the suffix. |
| ReverseDns.ReverseNamePair | DNS_Records/PTR_records.py:16-18 | There is no validation: a two-field text such as `10.8` still gets a name, with the fields swapped. |
| Toolkit.SafeFilename | NetInfo_Toolkit.py:26-27 | There is no `:` in the result. The length and every other character are kept, and each `:` becomes `_`. |
| Toolkit.SafeFilenameIdentity | NetInfo_Toolkit.py:26-27 | A name without `:` is unchanged. |
| Toolkit.SafeFilenameIdempotent | NetInfo_Toolkit.py:26-27 | Sanitising twice is sanitising once. |
| Toolkit.IpInfoFileName | NetInfo_Toolkit.py:40 | The name is the sanitised address followed by `_IP_info.json`. |
| Toolkit.Dispatch | NetInfo_Toolkit.py:129-213 | The `if`/`elif` chain: the tool each key from `1` to `26` selects. |
| Toolkit.MenuRound | NetInfo_Toolkit.py:122-129 | A tool runs iff the choice is a key of the description table. |
| Toolkit.MenuRoundKeyOf | NetInfo_Toolkit.py:93-213 | Every tool is listed, and its key selects it. |
| Toolkit.MenuRoundOnlyKey | NetInfo_Toolkit.py:122-213 | A choice that selects a tool is that tool's key. |
| Toolkit.KeyOfInjective | NetInfo_Toolkit.py:129-207 | No two tools share a key. |
| Toolkit.KeyOf | NetInfo_Toolkit.py:93-119 | The key each tool is listed under, `1` to `26`, in menu order. It is tied to the dispatch by `Toolkit.MenuRoundKeyOf` and `Toolkit.MenuRoundOnlyKey`. |
| Toolkit.MenuRoundRejects | NetInfo_Toolkit.py:122-126 | The comparison is exact: `01`, ` 1`, `1 `, `0` and `27` are rejected. |
| BgpView.OutputFileName | imp/ASN_info.py:41-83 | Every output name ends with `.json` and has no `:`. Its exact parts are stated by `BgpView.OutputFileNameParts`. |
| BgpView.Subject | imp/ASN_info.py:41-83 | The argument each method names its file after; for the prefix query, the address only. Used by `BgpView.OutputFileNameParts`. |
| BgpView.FileTag | imp/ASN_info.py:41-83 | The fixed part of each method's file name in front of `.json`, such as `_ASN_Info` or `_IP_Prefix`. Distinct per method, by `BgpView.FileTagInjective`. |
| BgpView.OutputFileNameParts | imp/ASN_info.py:41-83 | The name is `safe_filename` of the argument (the address, for a prefix query), then the method's own tag such as `_ASN_Info`, then `.json`, and nothing else: its length is the argument's plus the tag's plus 5. |
| BgpView.OutputFileNameKind | imp/ASN_info.py:41-83 | Queries of different kinds never write the same file, whatever their arguments. |
| BgpView.CommonTail | imp/ASN_info.py:41-83 | Proof helper for `BgpView.OutputFileNameKind`: of two equal concatenations, the shorter tail ends the longer one. |
| BgpView.TagTails | imp/ASN_info.py:41-83 | No kind's file suffix ends another kind's longer suffix. |
| BgpView.FileTagInjective | imp/ASN_info.py:41-83 | Different kinds have different file suffixes. |
| BgpView.OutputFileNameSubject | imp/ASN_info.py:41-83 | Within one kind, two queries share a file iff their sanitised arguments agree. |
| BgpView.IpPrefixFileIgnoresCidr | imp/ASN_info.py:71-73 | The prefix query's file name depends on the address only, not on the CIDR. |
| BgpView.Endpoint | imp/ASN_info.py:43-83 | Every endpoint starts with `https://api.bgpview.io/`. Its exact paths are stated by `BgpView.EndpointShape` and `BgpView.PrefixEndpointShape`. |
| BgpView.PrefixEndpointShape | imp/ASN_info.py:71-73 | The prefix endpoint is the API base, `prefix/`, the address, `/` and the CIDR length, both as typed. |
| BgpView.PrefixEndpointInjective | imp/ASN_info.py:71-73 | For addresses without `/`, equal prefix endpoints have equal addresses and equal CIDR lengths. |
| BgpView.EndpointShape | imp/ASN_info.py:41-83 | A one-argument endpoint is the API base, a fixed head, the raw argument and a fixed tail. |
| BgpView.EndpointInjective | imp/ASN_info.py:41-83 | Within one single-argument kind, different arguments request different endpoints. |
| BgpView.EndpointsCollide | imp/ASN_info.py:43-73 | Arguments are not escaped. So an information query for `X/prefixes` requests the prefix-list endpoint of `X`, and a `/` moved between address and CIDR gives the same prefix endpoint. |
| HeaderInfo.HeaderFileName | IP_info/HEADER_info.py:7 | The name ends with `_header.txt`, and before it there is no `/` and no `.`. |
| HeaderInfo.HeaderStemChainIsStem | IP_info/HEADER_info.py:7 | The chain of three replacements equals one left-to-right pass: `://` becomes one `_`, any other `/` or `.` becomes `_`, and every other character stays. |
| HeaderInfo.HeaderStemChain | IP_info/HEADER_info.py:7 | The three `replace` calls of `file_name`, in the code's order. It is shown equal to the one-pass reading by `HeaderInfo.HeaderStemChainIsStem`. |
| HeaderInfo.CleanAllChain | IP_info/HEADER_info.py:7 | The `/` and `.` replacements together clean every character in place. |
| HeaderInfo.CleanAfterScheme | IP_info/HEADER_info.py:7 | Cleaning after the `://` replacement is the one-pass stem. |
| HeaderInfo.HeaderStemClean | IP_info/HEADER_info.py:7 | The stem has no `/` and no `.`. |
| HeaderInfo.HeaderStemNoScheme | IP_info/HEADER_info.py:7 | Without a `://`, every character except `/` and `.` is kept in place, so a port's `:` survives. |
| HeaderInfo.HeaderStemScheme | IP_info/HEADER_info.py:7 | `://` is replaced as a unit, before its slashes could be: a scheme leaves one `_`, not `:__`. |
| HeaderInfo.HeaderFileNameOfUrl | IP_info/HEADER_info.py:7 | `scheme://rest` with no other colon gives the cleaned scheme, `_`, the cleaned rest, then `_header.txt`. |

## Left out

- Network I/O is not modelled. Every fetch is a parameter whose `None` stands for a failed request. This covers:
  - the `requests` session and its timeout;
  - the HEAD request of the header tool;
  - DNS resolution of the PTR name;
  - the BGPView HTTP calls.
- Sitemap.CrawlShallow: states only that a depth-0 crawl changes nothing. The code also returns before requesting the page (`IP_info/sitemap.py:54-55`). A fetch is a pure parameter, so which requests are made, and how often a URL is requested, cannot be observed in the model.
- HTML parsing and `soup.text` are outside the model. Pages and files come in already split into attribute values and lines. Python's `splitlines` is not modelled.
- `urljoin` is an uninterpreted parameter. So is the regular expression that finds URLs in scripts. The model does not capture relative resolution as defined in section 5.2 of RFC 3986.
- Concurrency is replaced by one sequential schedule. This covers:
  - the thread pool of `LinkExtractor`;
  - `concurrent.futures.wait`;
  - the check-then-add on `visited`, which is not atomic;
  - `asyncio.gather` in `js_crawl`.

  The lemmas about the crawl hold for that schedule only. The result set may depend on the schedule in the code.
- Sitemap.LinkExtractor.ExtractLinks: depth is a natural number here. `sitemap_main` validates that depth is positive before the first call, and every recursive call lowers it by one from there.
- Sitemap.LinkExtractor.ExtractLinks: the body is split into the helpers `AdmitLinks` and `ExpandEach`. The split only keeps each proof small; the steps are those of the source.
- Sitemap.LinkExtractor.ExtractLinks: the `except Exception` around the body (`IP_info/sitemap.py:65-66`) is not modelled, because the joiner is total. In the code `urljoin` can raise, for example `ValueError` for an `href` such as `//[x` with an unbalanced `[`. Such an `href` passes the filter, and `get_internal_links` catches only request errors. The exception then ends `extract_links` for that page before any of its links is admitted. In the model, the page's other links are still admitted and crawled.
- PageCrawler.JsCrawl: the same holds for `js_crawl` (`IP_info/Crawler.py:55-60`). In the code, a match that `urljoin` rejects ends the handling of that script: the links added before it are kept, the later ones are lost. In the model, every match of the script is normalised and kept.
- Sitemap.SitemapMain: the result is the link set that the code counts and saves. Not modelled:
  - reading the input;
  - `int()` of the depth text;
  - `save_links_to_file` with its `tldextract` domain;
  - the pyvis rendering and node colours of `visualize_sitemap`;
  - `close_session`;
  - `serve_html_file`;
  - logging and printing.

  `visualize_sitemap` takes one colour per graph node from matplotlib's `plasma` map (`IP_info/sitemap.py:93-94`), which holds 256 colours. With more than 256 links it raises `IndexError`. That happens after the file is saved but before `close_session` and before the count is printed (`IP_info/sitemap.py:141-146`), so `sitemap_main` then prints the error instead of the count. The model returns the link set in every case.
- Crawler.py beyond the extractors is not modelled: `crawl`'s orchestration, `fetch_page_content`, `extract_advanced_info`, `check_wayback_availability`, and the JSON dump in `main`.
- Output files are not modelled. The JSON and text written by every tool, and the `save_to_file` helpers, are left out; only the file names are modelled.
- Console output and `os.system` calls are not modelled.
- The other menu tools are not modelled. They are thin wrappers around external libraries and services:
  - the A, CNAME, MX, NS, SOA, SRV and TXT record fetchers;
  - `IP_location`, the port scanner, the SSL certificate reader and the WHOIS lookup.

  `Toolkit.Dispatch` only names the tool each choice selects.
