/** The name of the file the header tool writes: the URL with `://`, then
    every `/`, then every `.` replaced by `_`, followed by `_header.txt`.
    The HEAD request and the file contents are not modelled. */
module HeaderInfo {
  import opened Strings

  const HeaderSuffix: string := "_header.txt"

  /** The chain of three `replace` calls. */
  function HeaderStemChain(url: string): string {
    ReplaceAll(ReplaceAll(ReplaceAll(url, "://", "_"), "/", "_"), ".", "_")
  }

  /** `file_name` in `save_header_info`. */
  function HeaderFileName(url: string): (r: string)
    ensures EndsWith(r, HeaderSuffix)
    ensures '/' !in r[..|r| - |HeaderSuffix|] && '.' !in r[..|r| - |HeaderSuffix|]
  {
    var stem := HeaderStemChain(url);
    HeaderStemChainIsStem(url);
    HeaderStemClean(url);
    var r := stem + HeaderSuffix;
    assert r[..|r| - |HeaderSuffix|] == stem;
    assert r[|r| - |HeaderSuffix|..] == HeaderSuffix;
    r
  }

  /** What the chain does to one character that is not part of a `://`. */
  function CleanChar(c: char): char {
    if c == '/' || c == '.' then '_' else c
  }

  /** The same result in one left-to-right pass: a `://` becomes one `_`,
      a `/` or `.` elsewhere becomes `_`, every other character stays. */
  function HeaderStem(url: string): (r: string)
    decreases |url|
  {
    if StartsWith(url, "://") then "_" + HeaderStem(url[3..])
    else if url == [] then []
    else [CleanChar(url[0])] + HeaderStem(url[1..])
  }

  /** `CleanChar` applied to every character. The ensures only unfolds the
      comprehension, position by position. */
  function CleanAll(s: string): (r: string)
    ensures |r| == |s| && forall i :: 0 <= i < |s| ==> r[i] == CleanChar(s[i])
  {
    seq(|s|, i requires 0 <= i < |s| => CleanChar(s[i]))
  }

  /** The last two replacements together clean every character. */
  lemma CleanAllChain(s: string)
    ensures ReplaceAll(ReplaceAll(s, "/", "_"), ".", "_") == CleanAll(s)
  {
    ReplaceCharAt(s, '/', '_');
    ReplaceCharAt(ReplaceAll(s, "/", "_"), '.', '_');
  }

  lemma CleanAllAppend(a: string, b: string)
    ensures CleanAll(a + b) == CleanAll(a) + CleanAll(b)
  {
  }

  /** Cleaning after the `://` replacement is the one-pass stem. */
  lemma {:induction false} CleanAfterScheme(url: string)
    ensures CleanAll(ReplaceAll(url, "://", "_")) == HeaderStem(url)
    decreases |url|
  {
    if StartsWith(url, "://") {
      CleanAfterScheme(url[3..]);
      CleanAllAppend("_", ReplaceAll(url[3..], "://", "_"));
    } else if url != [] {
      CleanAfterScheme(url[1..]);
      CleanAllAppend([url[0]], ReplaceAll(url[1..], "://", "_"));
    }
  }

  /** The chain of replacements equals the one-pass description. */
  lemma HeaderStemChainIsStem(url: string)
    ensures HeaderStemChain(url) == HeaderStem(url)
  {
    CleanAllChain(ReplaceAll(url, "://", "_"));
    CleanAfterScheme(url);
  }

  /** The stem holds no `/` and no `.`. */
  lemma {:induction false} HeaderStemClean(url: string)
    ensures '/' !in HeaderStem(url) && '.' !in HeaderStem(url)
    decreases |url|
  {
    if StartsWith(url, "://") {
      HeaderStemClean(url[3..]);
    } else if url != [] {
      HeaderStemClean(url[1..]);
    }
  }

  /** Where no `://` occurs, every character is kept in place except `/`
      and `.`; in particular a lone `:`, such as a port separator,
      survives. */
  lemma {:induction false} HeaderStemNoScheme(url: string)
    requires !Contains(url, "://")
    ensures HeaderStem(url) == CleanAll(url)
    decreases |url|
  {
    if url != [] {
      HeaderStemNoScheme(url[1..]);
      CleanAllAppend([url[0]], url[1..]);
      assert url == [url[0]] + url[1..];
    }
  }

  /** `://` is replaced as a unit, before the `/` replacement could see its
      slashes: a scheme leaves one `_`, not `:__`. */
  lemma {:induction false} HeaderStemScheme(scheme: string, rest: string)
    requires !Contains(scheme, "://")
    ensures HeaderStem(scheme + "://" + rest) == CleanAll(scheme) + "_" + HeaderStem(rest)
    decreases |scheme|
  {
    var s := scheme + "://" + rest;
    if scheme == [] {
      assert s == "://" + rest;
      assert StartsWith(s, "://");
      assert s[3..] == rest;
    } else {
      assert !StartsWith(s, "://") by {
        if |scheme| >= 3 {
          assert s[..3] == scheme[..3];
          assert !StartsWith(scheme, "://");
        } else if |scheme| == 2 {
          assert s[2] == ':';
        } else {
          assert s[1] == ':';
        }
      }
      HeaderStemScheme(scheme[1..], rest);
      assert s[1..] == scheme[1..] + "://" + rest;
      CleanAllAppend([scheme[0]], scheme[1..]);
      assert scheme == [scheme[0]] + scheme[1..];
    }
  }

  /** For a URL `scheme://rest` with no other colon, the file name is the
      cleaned scheme, one `_` for the `://`, and the cleaned rest: so
      `https://www.google.com` is saved as `https_www_google_com_header.txt`. */
  lemma HeaderFileNameOfUrl(scheme: string, rest: string)
    requires ':' !in scheme && ':' !in rest
    ensures HeaderFileName(scheme + "://" + rest) == CleanAll(scheme) + "_" + CleanAll(rest) + HeaderSuffix
  {
    ContainsColonSlash(scheme);
    ContainsColonSlash(rest);
    HeaderStemScheme(scheme, rest);
    HeaderStemNoScheme(rest);
    HeaderStemChainIsStem(scheme + "://" + rest);
  }

  /** A text without `:` holds no `://`. */
  lemma {:induction false} ContainsColonSlash(s: string)
    requires ':' !in s
    ensures !Contains(s, "://")
    decreases |s|
  {
    if s != [] {
      ContainsColonSlash(s[1..]);
      assert s[0] != ':';
      if |s| >= 3 {
        assert s[..3][0] == s[0];
      }
    }
  }
}
