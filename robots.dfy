/** The robots.txt reader: where the file is fetched from, how its lines are
    grouped into user-agent blocks, and the name of the file the blocks are
    saved to. This is the reader's own simplified, case-sensitive line
    format, not the full Robots Exclusion Protocol of RFC 9309: consecutive
    `User-agent:` lines are not grouped, and only `Allow:` and `Disallow:`
    are recorded. The HTTP request, the HTML parsing that yields the text
    and the JSON dump are not modelled: the fetched text arrives already
    split into lines, or as nothing when the request failed. */
module RobotsTxt {
  import opened Strings
  import opened Wrappers

  const UserAgentPrefix: string := "User-agent:"
  const AllowPrefix: string := "Allow:"
  const DisallowPrefix: string := "Disallow:"
  const RobotsPath: string := "/robots.txt"
  const SavedSuffix: string := "_combined_robot_info.json"

  /** `url.rstrip('/') + '/robots.txt'` */
  function RobotsUrl(url: string): (r: string)
    ensures EndsWith(r, RobotsPath)
  {
    var r := RStripChar(url, '/') + RobotsPath;
    assert r[|r| - |RobotsPath|..] == RobotsPath;
    r
  }

  /** The site part of the robots URL is the given URL without its trailing
      slashes, and never ends with a slash itself. */
  lemma RobotsUrlSite(url: string)
    ensures var site := RobotsUrl(url)[..|RobotsUrl(url)| - |RobotsPath|];
            && url[..|site|] == site
            && (forall i :: |site| <= i < |url| ==> url[i] == '/')
            && (site == [] || site[|site| - 1] != '/')
  {
    var r := RobotsUrl(url);
    assert r[..|r| - |RobotsPath|] == RStripChar(url, '/');
  }

  /** A trailing slash makes no difference. */
  lemma RobotsUrlTrailingSlash(url: string)
    ensures RobotsUrl(url + "/") == RobotsUrl(url)
  {
    assert (url + "/")[..|url|] == url;
  }

  /** One user-agent block as it is saved: `{'name', 'allowed', 'disallowed'}`. */
  datatype UserAgentBlock = UserAgentBlock(name: string, allowed: seq<string>, disallowed: seq<string>)

  /** `line.split(':')[1].strip()`: the text between the first and the second
      colon, stripped. Every line it is applied to starts with a prefix
      ending in a colon, so the second field exists. */
  function FieldValue(line: string): string
    requires ':' in line
  {
    ColonSplits(line);
    Strip(Split(line, ':')[1])
  }

  /** A text with a colon has at least two colon-separated fields. */
  lemma {:induction false} ColonSplits(line: string)
    requires ':' in line
    ensures |Split(line, ':')| >= 2
    decreases |line|
  {
    if line[0] != ':' {
      ColonSplits(line[1..]);
    }
  }

  /** A line starting with a prefix that ends in a colon contains a colon. */
  lemma PrefixColon(line: string, prefix: string)
    requires StartsWith(line, prefix) && prefix != [] && prefix[|prefix| - 1] == ':'
    ensures ':' in line
  {
    assert line[|prefix| - 1] == prefix[|prefix| - 1];
  }

  /** The value of a directive is cut at the next colon: `Disallow: /a:b`
      records `/a`. */
  lemma FieldValueCut(key: string, value: string, tail: string)
    requires ':' !in key && ':' !in value
    ensures FieldValue(key + ":" + value + ":" + tail) == Strip(value)
  {
    SplitGlued(key, value + ":" + tail, ':');
    SplitGlued(value, tail, ':');
    assert key + ":" + value + ":" + tail == key + [':'] + (value + [':'] + tail);
  }

  /** A directive line with a single colon records its value stripped:
      `Disallow: /private` records `/private`, with no blank at either end. */
  lemma FieldValueOneColon(key: string, value: string)
    requires ':' !in key && ':' !in value
    ensures FieldValue(key + ":" + value) == Strip(value)
    ensures var v := FieldValue(key + ":" + value);
            v == [] || (!IsSpace(v[0]) && !IsSpace(v[|v| - 1]))
  {
    SplitGlued(key, value, ':');
    SplitFree(value, ':');
    assert key + ":" + value == key + [':'] + value;
    StripTrims(value);
  }

  /** What one line of the file says, after stripping: the three prefixes
      are tried in this order and compared case-sensitively. */
  datatype Directive = UserAgent(name: string) | Allow(path: string) | Disallow(path: string) | Other

  function ClassifyLine(line: string): Directive {
    if StartsWith(line, UserAgentPrefix) then
      PrefixColon(line, UserAgentPrefix);
      UserAgent(FieldValue(line))
    else if StartsWith(line, AllowPrefix) then
      PrefixColon(line, AllowPrefix);
      Allow(FieldValue(line))
    else if StartsWith(line, DisallowPrefix) then
      PrefixColon(line, DisallowPrefix);
      Disallow(FieldValue(line))
    else
      Other
  }

  /** The prefixes are compared exactly: a lower-case `user-agent:` or a
      `Sitemap:` line is not a directive of this reader. */
  lemma ClassifyCaseSensitive(rest: string)
    ensures ClassifyLine("user-agent:" + rest) == Other
    ensures ClassifyLine("Sitemap:" + rest) == Other
  {
    assert ("user-agent:" + rest)[0] != UserAgentPrefix[0];
    assert ("user-agent:" + rest)[0] != AllowPrefix[0];
    assert ("user-agent:" + rest)[0] != DisallowPrefix[0];
    assert ("Sitemap:" + rest)[0] != UserAgentPrefix[0];
    assert ("Sitemap:" + rest)[0] != AllowPrefix[0];
    assert ("Sitemap:" + rest)[0] != DisallowPrefix[0];
  }

  /** The effect of one line on the list of blocks: a `User-agent:` line
      opens a new block; an `Allow:` or `Disallow:` line adds its value to
      the most recently opened block, and is dropped when there is none. */
  function StepBlocks(blocks: seq<UserAgentBlock>, d: Directive): seq<UserAgentBlock> {
    match d
    case UserAgent(name) => blocks + [UserAgentBlock(name, [], [])]
    case Allow(path) =>
      if blocks == [] then blocks
      else
        var last := blocks[|blocks| - 1];
        blocks[..|blocks| - 1] + [last.(allowed := last.allowed + [path])]
    case Disallow(path) =>
      if blocks == [] then blocks
      else
        var last := blocks[|blocks| - 1];
        blocks[..|blocks| - 1] + [last.(disallowed := last.disallowed + [path])]
    case Other => blocks
  }

  /** What each line of a file says: the line is stripped, then classified.
      The ensures only unfolds the comprehension, position by position. */
  function Directives(lines: seq<string>): (ds: seq<Directive>)
    ensures |ds| == |lines| && forall k :: 0 <= k < |lines| ==> ds[k] == ClassifyLine(Strip(lines[k]))
  {
    seq(|lines|, k requires 0 <= k < |lines| => ClassifyLine(Strip(lines[k])))
  }

  /** The blocks after the directives `ds`, starting from `blocks`. */
  function ParseFrom(blocks: seq<UserAgentBlock>, ds: seq<Directive>): seq<UserAgentBlock>
    decreases |ds|
  {
    if ds == [] then blocks
    else StepBlocks(ParseFrom(blocks, ds[..|ds| - 1]), ds[|ds| - 1])
  }

  /** The blocks of a whole file. */
  function ParseLines(lines: seq<string>): seq<UserAgentBlock>
    decreases |lines|
  {
    if lines == [] then []
    else StepBlocks(ParseLines(lines[..|lines| - 1]), ClassifyLine(Strip(lines[|lines| - 1])))
  }

  /** Reading a file is running its directives from no blocks. */
  lemma {:induction false} ParseLinesDirectives(lines: seq<string>)
    ensures ParseLines(lines) == ParseFrom([], Directives(lines))
    decreases |lines|
  {
    if lines != [] {
      ParseLinesDirectives(lines[..|lines| - 1]);
      var ds := Directives(lines);
      assert ds[..|ds| - 1] == Directives(lines[..|lines| - 1]);
    }
  }

  /** Reading one more line is one more step. */
  lemma ParseLinesSnoc(lines: seq<string>, i: nat)
    requires i < |lines|
    ensures ParseLines(lines[..i + 1]) == StepBlocks(ParseLines(lines[..i]), ClassifyLine(Strip(lines[i])))
  {
    assert lines[..i + 1][..i] == lines[..i];
  }

  /** Reading a file in two pieces is reading it whole. */
  lemma {:induction false} ParseFromAppend(blocks: seq<UserAgentBlock>, a: seq<Directive>, b: seq<Directive>)
    ensures ParseFrom(blocks, a + b) == ParseFrom(ParseFrom(blocks, a), b)
    decreases |b|
  {
    if b == [] {
      assert a + b == a;
    } else {
      ParseFromAppend(blocks, a, b[..|b| - 1]);
      assert (a + b)[..|a + b| - 1] == a + b[..|b| - 1];
    }
  }

  /** The names of the `User-agent:` lines, in file order. */
  function UserAgentNames(ds: seq<Directive>): seq<string>
    decreases |ds|
  {
    if ds == [] then []
    else
      var d := ds[|ds| - 1];
      if d.UserAgent? then UserAgentNames(ds[..|ds| - 1]) + [d.name]
      else UserAgentNames(ds[..|ds| - 1])
  }

  /** The values of the `Allow:` lines, in file order. */
  function AllowValues(ds: seq<Directive>): seq<string>
    decreases |ds|
  {
    if ds == [] then []
    else
      var d := ds[|ds| - 1];
      if d.Allow? then AllowValues(ds[..|ds| - 1]) + [d.path]
      else AllowValues(ds[..|ds| - 1])
  }

  /** The values of the `Disallow:` lines, in file order. */
  function DisallowValues(ds: seq<Directive>): seq<string>
    decreases |ds|
  {
    if ds == [] then []
    else
      var d := ds[|ds| - 1];
      if d.Disallow? then DisallowValues(ds[..|ds| - 1]) + [d.path]
      else DisallowValues(ds[..|ds| - 1])
  }

  function Names(blocks: seq<UserAgentBlock>): seq<string>
    decreases |blocks|
  {
    if blocks == [] then [] else Names(blocks[..|blocks| - 1]) + [blocks[|blocks| - 1].name]
  }

  /** Changing the lists of the last block keeps the names. */
  lemma NamesLastUpdated(blocks: seq<UserAgentBlock>, b: UserAgentBlock)
    requires blocks != [] && b.name == blocks[|blocks| - 1].name
    ensures Names(blocks[..|blocks| - 1] + [b]) == Names(blocks)
  {
    var init := blocks[..|blocks| - 1] + [b];
    assert init[..|init| - 1] == blocks[..|blocks| - 1];
  }

  /** One block per `User-agent:` line, named after it, in file order;
      directives never open or rename a block. */
  lemma {:induction false} ParseNames(ds: seq<Directive>)
    ensures Names(ParseFrom([], ds)) == UserAgentNames(ds)
    ensures |ParseFrom([], ds)| == |UserAgentNames(ds)|
    decreases |ds|
  {
    if ds != [] {
      var init := ds[..|ds| - 1];
      ParseNames(init);
      var before := ParseFrom([], init);
      match ds[|ds| - 1]
      case UserAgent(name) =>
        var after := before + [UserAgentBlock(name, [], [])];
        assert after[..|after| - 1] == before;
      case Allow(path) =>
        if before != [] {
          var last := before[|before| - 1];
          NamesLastUpdated(before, last.(allowed := last.allowed + [path]));
        }
      case Disallow(path) =>
        if before != [] {
          var last := before[|before| - 1];
          NamesLastUpdated(before, last.(disallowed := last.disallowed + [path]));
        }
      case Other =>
    }
  }

  /** The same for a file. */
  lemma ParseLinesNames(lines: seq<string>)
    ensures Names(ParseLines(lines)) == UserAgentNames(Directives(lines))
    ensures |ParseLines(lines)| == |UserAgentNames(Directives(lines))|
  {
    ParseLinesDirectives(lines);
    ParseNames(Directives(lines));
  }

  /** `Allow:` and `Disallow:` lines in front of the first `User-agent:`
      line are dropped: the file reads as if they were not there. */
  lemma OrphanDirectivesIgnored(head: seq<Directive>, rest: seq<Directive>)
    requires forall k :: 0 <= k < |head| ==> !head[k].UserAgent?
    ensures ParseFrom([], head + rest) == ParseFrom([], rest)
  {
    NoUserAgentNoBlocks(head);
    ParseFromAppend([], head, rest);
  }

  lemma {:induction false} NoUserAgentNoBlocks(ds: seq<Directive>)
    requires forall k :: 0 <= k < |ds| ==> !ds[k].UserAgent?
    ensures ParseFrom([], ds) == []
    decreases |ds|
  {
    if ds != [] {
      NoUserAgentNoBlocks(ds[..|ds| - 1]);
    }
  }

  /** Lines after the last `User-agent:` line touch only the last block:
      its `allowed` and `disallowed` lists grow by the values of the
      `Allow:` and `Disallow:` lines, in order, and every earlier block is
      left as it was. */
  lemma {:induction false} DirectivesGoToLastBlock(blocks: seq<UserAgentBlock>, ds: seq<Directive>)
    requires blocks != []
    requires forall k :: 0 <= k < |ds| ==> !ds[k].UserAgent?
    ensures var last := blocks[|blocks| - 1];
            ParseFrom(blocks, ds) ==
              blocks[..|blocks| - 1] +
              [last.(allowed := last.allowed + AllowValues(ds),
                     disallowed := last.disallowed + DisallowValues(ds))]
    decreases |ds|
  {
    var last := blocks[|blocks| - 1];
    if ds == [] {
      assert last.allowed + [] == last.allowed && last.disallowed + [] == last.disallowed;
      assert blocks == blocks[..|blocks| - 1] + [last];
    } else {
      var init := ds[..|ds| - 1];
      DirectivesGoToLastBlock(blocks, init);
      var mid := ParseFrom(blocks, init);
      assert mid[..|mid| - 1] == blocks[..|blocks| - 1];
      var a, b := AllowValues(init), DisallowValues(init);
      match ds[|ds| - 1]
      case Allow(path) =>
        assert last.allowed + a + [path] == last.allowed + (a + [path]);
      case Disallow(path) =>
        assert last.disallowed + b + [path] == last.disallowed + (b + [path]);
      case Other =>
    }
  }

  /** A file without any of the three kinds of line changes nothing. */
  lemma {:induction false} OtherLinesIgnored(blocks: seq<UserAgentBlock>, ds: seq<Directive>)
    requires forall k :: 0 <= k < |ds| ==> ds[k].Other?
    ensures ParseFrom(blocks, ds) == blocks
    decreases |ds|
  {
    if ds != [] {
      OtherLinesIgnored(blocks, ds[..|ds| - 1]);
    }
  }

  /** One block while the file is being read; the reader appends it to its
      list and then keeps changing it through a second reference. */
  class Block {
    var name: string
    var allowed: seq<string>
    var disallowed: seq<string>

    constructor (name: string)
      ensures Value() == UserAgentBlock(name, [], [])
    {
      this.name := name;
      allowed := [];
      disallowed := [];
    }

    function Value(): UserAgentBlock
      reads this
    {
      UserAgentBlock(name, allowed, disallowed)
    }

    /** `current_user_agent['allowed'].append(path)` */
    method AddAllowed(path: string)
      modifies this
      ensures Value() == old(Value()).(allowed := old(allowed) + [path])
    {
      allowed := allowed + [path];
    }

    /** `current_user_agent['disallowed'].append(path)` */
    method AddDisallowed(path: string)
      modifies this
      ensures Value() == old(Value()).(disallowed := old(disallowed) + [path])
    {
      disallowed := disallowed + [path];
    }
  }

  /** The values of a list of block objects. */
  function Snapshot(blocks: seq<Block>): seq<UserAgentBlock>
    reads set b | b in blocks
    decreases |blocks|
  {
    if blocks == [] then [] else Snapshot(blocks[..|blocks| - 1]) + [blocks[|blocks| - 1].Value()]
  }

  /** The list of blocks holds distinct objects, and `current` is its last
      element, or null while the list is empty. */
  predicate Chain(blocks: seq<Block>, current: Block?) {
    && (forall j, k :: 0 <= j < k < |blocks| ==> blocks[j] != blocks[k])
    && (current == null <==> blocks == [])
    && (current != null ==> current == blocks[|blocks| - 1])
  }

  /** The actions of the `if`/`elif` chain in the loop of
      `parse_robots_txt`, for a line already classified: on `User-agent:`
      append a new block and make it the current one; on `Allow:` or
      `Disallow:` append the value to the current block, if there is one. */
  method Apply(blocks: seq<Block>, current: Block?, d: Directive) returns (blocks': seq<Block>, current': Block?)
    requires Chain(blocks, current)
    modifies current
    ensures Chain(blocks', current')
    ensures forall b :: b in blocks' ==> b in blocks || fresh(b)
    ensures Snapshot(blocks') == StepBlocks(old(Snapshot(blocks)), d)
  {
    blocks', current' := blocks, current;
    match d {
      case UserAgent(name) =>
        current' := new Block(name);
        blocks' := blocks + [current'];
        assert blocks'[..|blocks'| - 1] == blocks;
      case Allow(path) =>
        if current != null {
          assert current !in blocks[..|blocks| - 1];
          current.AddAllowed(path);
        }
      case Disallow(path) =>
        if current != null {
          assert current !in blocks[..|blocks| - 1];
          current.AddDisallowed(path);
        }
      case Other =>
    }
  }

  /** The loop of `parse_robots_txt`: the blocks read from the lines, in
      the order their `User-agent:` lines appear. The result is the list's
      content at the end. */
  method ReadBlocks(lines: seq<string>) returns (result: seq<UserAgentBlock>)
    ensures result == ParseLines(lines)
  {
    var blocks: seq<Block> := [];
    var current: Block? := null;
    for i := 0 to |lines|
      invariant forall b :: b in blocks ==> fresh(b)
      invariant Chain(blocks, current)
      invariant Snapshot(blocks) == ParseLines(lines[..i])
    {
      ParseLinesSnoc(lines, i);
      assert current != null ==> current in blocks;
      var d := ClassifyLine(Strip(lines[i]));
      blocks, current := Apply(blocks, current, d);
    }
    assert lines[..|lines|] == lines;
    result := Snapshot(blocks);
  }

  /** What the reader saves: the file name and the blocks. */
  datatype SavedRobots = SavedRobots(fileName: string, blocks: seq<UserAgentBlock>)

  /** `parse_robots_txt`: fetch the text at the robots URL; when the request
      fails nothing is saved; otherwise the blocks read from its lines are
      saved under the name derived from the URL. */
  method ParseRobotsTxt(url: string, fetch: string -> Option<seq<string>>) returns (saved: Option<SavedRobots>)
    ensures fetch(RobotsUrl(url)).None? ==> saved.None?
    ensures fetch(RobotsUrl(url)).Some? ==>
              saved == Some(SavedRobots(RobotFileName(url), ParseLines(fetch(RobotsUrl(url)).value)))
  {
    var text := fetch(RobotsUrl(url));
    if text.None? {
      return None;
    }
    var blocks := ReadBlocks(text.value);
    saved := Some(SavedRobots(RobotFileName(url), blocks));
  }

  /** `save_robot_info`'s file name: every `/` and `:` of the URL becomes
      `_`, then `_combined_robot_info.json` follows. */
  function RobotFileName(url: string): (r: string)
    ensures EndsWith(r, SavedSuffix)
    ensures |r| == |url| + |SavedSuffix|
    ensures forall i :: 0 <= i < |url| ==>
              r[i] == if url[i] == '/' || url[i] == ':' then '_' else url[i]
  {
    var once := ReplaceAll(url, "/", "_");
    ReplaceCharAt(url, '/', '_');
    ReplaceCharAt(once, ':', '_');
    var r := ReplaceAll(once, ":", "_") + SavedSuffix;
    assert r[|r| - |SavedSuffix|..] == SavedSuffix;
    r
  }
}
