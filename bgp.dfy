/** The BGPView client: for each kind of query, the API endpoint it requests
    and the name of the file it writes the answer to. The request, the JSON
    decoding and the file writing are not modelled. */
module BgpView {
  import opened Strings
  import Toolkit

  const ApiBase: string := "https://api.bgpview.io/"

  /** One call of a `BGP` method, with the text the user typed. */
  datatype Query =
    | AsnInfo(asn: string)
    | AsnPrefixes(asn: string)
    | AsnPeers(asn: string)
    | AsnUpstreams(asn: string)
    | AsnDownstreams(asn: string)
    | AsnIxs(asn: string)
    | IpPrefix(ip: string, cidr: string)
    | Ix(ixId: string)
    | Search(term: string)

  /** The argument the output file is named after (for a prefix query, the
      address only). */
  function Subject(q: Query): string {
    match q
    case AsnInfo(a) => a
    case AsnPrefixes(a) => a
    case AsnPeers(a) => a
    case AsnUpstreams(a) => a
    case AsnDownstreams(a) => a
    case AsnIxs(a) => a
    case IpPrefix(ip, _) => ip
    case Ix(i) => i
    case Search(t) => t
  }

  /** The fixed part of the output file name of each kind of query, in
      front of `.json`. */
  function FileTag(q: Query): string {
    match q
    case AsnInfo(_) => "_ASN_Info"
    case AsnPrefixes(_) => "_ASN_Prefixes"
    case AsnPeers(_) => "_ASN_Peers"
    case AsnUpstreams(_) => "_ASN_Upstreams"
    case AsnDownstreams(_) => "_ASN_Downstreams"
    case AsnIxs(_) => "_ASN_IXs"
    case IpPrefix(_, _) => "_IP_Prefix"
    case Ix(_) => "_IX"
    case Search(_) => "_Search"
  }

  /** The `output_filename` of each method: the sanitised argument, the
      tag of the method and `.json`. `BGP.safe_filename` is the same
      `replace(':', '_')` expression as the toolkit's `safe_filename`, so
      the toolkit's definition serves both. */
  function OutputFileName(q: Query): (r: string)
    ensures ':' !in r
    ensures EndsWith(r, ".json")
  {
    var r := Toolkit.SafeFilename(Subject(q)) + FileTag(q) + ".json";
    assert r[|r| - 5..] == ".json";
    r
  }

  /** The output file name is the sanitised argument followed by the tag of
      the method and `.json`. */
  lemma OutputFileNameParts(q: Query)
    ensures |OutputFileName(q)| == |Subject(q)| + |FileTag(q)| + 5
    ensures OutputFileName(q)[..|Subject(q)|] == Toolkit.SafeFilename(Subject(q))
    ensures EndsWith(OutputFileName(q), FileTag(q) + ".json")
  {
    var x, tail := Toolkit.SafeFilename(Subject(q)), FileTag(q) + ".json";
    var r := OutputFileName(q);
    assert r == x + tail;
    assert r[..|x|] == x;
    assert r[|r| - |tail|..] == tail;
  }

  /** The URL each method requests; the argument is pasted in as typed,
      without any escaping. */
  function Endpoint(q: Query): (r: string)
    ensures StartsWith(r, ApiBase)
  {
    var path :=
      match q
      case AsnInfo(a) => "asn/" + a
      case AsnPrefixes(a) => "asn/" + a + "/prefixes"
      case AsnPeers(a) => "asn/" + a + "/peers"
      case AsnUpstreams(a) => "asn/" + a + "/upstreams"
      case AsnDownstreams(a) => "asn/" + a + "/downstreams"
      case AsnIxs(a) => "asn/" + a + "/ixs"
      case IpPrefix(ip, cidr) => "prefix/" + ip + "/" + cidr
      case Ix(i) => "ix/" + i
      case Search(t) => "search?query_term=" + t;
    var r := ApiBase + path;
    assert r[..|ApiBase|] == ApiBase;
    r
  }

  /** The two queries are calls of the same method. */
  predicate SameKind(q1: Query, q2: Query) {
    match (q1, q2)
    case (AsnInfo(_), AsnInfo(_)) => true
    case (AsnPrefixes(_), AsnPrefixes(_)) => true
    case (AsnPeers(_), AsnPeers(_)) => true
    case (AsnUpstreams(_), AsnUpstreams(_)) => true
    case (AsnDownstreams(_), AsnDownstreams(_)) => true
    case (AsnIxs(_), AsnIxs(_)) => true
    case (IpPrefix(_, _), IpPrefix(_, _)) => true
    case (Ix(_), Ix(_)) => true
    case (Search(_), Search(_)) => true
    case _ => false
  }

  /** The output file name tells which method wrote it, whatever the
      arguments: calls of different methods never write the same file. */
  lemma OutputFileNameKind(q1: Query, q2: Query)
    requires OutputFileName(q1) == OutputFileName(q2)
    ensures SameKind(q1, q2)
  {
    var x1, x2 := Toolkit.SafeFilename(Subject(q1)), Toolkit.SafeFilename(Subject(q2));
    var t1, t2 := FileTag(q1), FileTag(q2);
    assert x1 + t1 == x2 + t2 by {
      var w := OutputFileName(q1);
      assert x1 + t1 == w[..|w| - 5];
      assert x2 + t2 == OutputFileName(q2)[..|w| - 5];
    }
    if |t1| <= |t2| {
      CommonTail(x1, t1, x2, t2);
      if |t1| < |t2| {
        TagTails(q1, q2);
      } else {
        FileTagInjective(q1, q2);
      }
    } else {
      CommonTail(x2, t2, x1, t1);
      TagTails(q2, q1);
    }
  }

  /** If `x + s == y + t` and `s` is no longer than `t`, then `s` ends `t`. */
  lemma CommonTail(x: string, s: string, y: string, t: string)
    requires x + s == y + t
    requires |s| <= |t|
    ensures t[|t| - |s|..] == s
  {
    var w := x + s;
    assert w[|w| - |s|..] == s;
    assert w[|w| - |t|..] == t;
    assert t[|t| - |s|..] == w[|w| - |s|..];
  }

  /** No tag ends a longer tag: the last two characters and the character
      where the shorter tag would start tell them apart. */
  lemma TagTails(q1: Query, q2: Query)
    requires |FileTag(q1)| < |FileTag(q2)|
    ensures FileTag(q2)[|FileTag(q2)| - |FileTag(q1)|..] != FileTag(q1)
  {
    var s, t := FileTag(q1), FileTag(q2);
    var tail := t[|t| - |s|..];
    assert tail[|s| - 1] == t[|t| - 1] && tail[|s| - 2] == t[|t| - 2] && tail[0] == t[|t| - |s|];
  }

  /** Different methods have different tags: all tag lengths differ except
      those of the peers and the prefix query, which differ in their second
      character. */
  lemma FileTagInjective(q1: Query, q2: Query)
    requires FileTag(q1) == FileTag(q2)
    ensures SameKind(q1, q2)
  {
    assert |FileTag(q1)| == |FileTag(q2)|;
    assert FileTag(q1)[1] == FileTag(q2)[1];
  }

  /** Within one method the file name depends on the sanitised argument
      only, so two arguments that differ only in `:` against `_` share a
      file. */
  lemma OutputFileNameSubject(q1: Query, q2: Query)
    requires SameKind(q1, q2)
    ensures OutputFileName(q1) == OutputFileName(q2) <==>
            Toolkit.SafeFilename(Subject(q1)) == Toolkit.SafeFilename(Subject(q2))
  {
    var s := FileTag(q1) + ".json";
    assert FileTag(q2) == FileTag(q1);
    assert OutputFileName(q1) == Toolkit.SafeFilename(Subject(q1)) + s;
    assert OutputFileName(q2) == Toolkit.SafeFilename(Subject(q2)) + s;
    var a, b := Toolkit.SafeFilename(Subject(q1)), Toolkit.SafeFilename(Subject(q2));
    if a + s == b + s {
      assert |a| == |b|;
      assert a == (a + s)[..|a|];
      assert b == (b + s)[..|b|];
    }
  }

  /** The prefix query names its file after the address; the CIDR length
      plays no part. */
  lemma IpPrefixFileIgnoresCidr(ip: string, c1: string, c2: string)
    ensures OutputFileName(IpPrefix(ip, c1)) == OutputFileName(IpPrefix(ip, c2))
  {
  }

  /** Within one method different single arguments request different
      endpoints. */
  lemma EndpointInjective(q1: Query, q2: Query)
    requires SameKind(q1, q2) && !q1.IpPrefix?
    requires Endpoint(q1) == Endpoint(q2)
    ensures q1 == q2
  {
    EndpointShape(q1);
    EndpointShape(q2);
    SameKindParts(q1, q2);
    CancelAround(ApiBase + PathHead(q1), Subject(q1), Subject(q2), PathTail(q1));
    SameKindSubject(q1, q2);
  }

  /** The text in front of the argument in the path of a one-argument query. */
  function PathHead(q: Query): string {
    match q
    case IpPrefix(_, _) => "prefix/"
    case Ix(_) => "ix/"
    case Search(_) => "search?query_term="
    case _ => "asn/"
  }

  /** The text after the argument in the path of a one-argument query. */
  function PathTail(q: Query): string {
    match q
    case AsnPrefixes(_) => "/prefixes"
    case AsnPeers(_) => "/peers"
    case AsnUpstreams(_) => "/upstreams"
    case AsnDownstreams(_) => "/downstreams"
    case AsnIxs(_) => "/ixs"
    case _ => ""
  }

  /** A one-argument endpoint is the base, the head of its path, the
      argument and the tail of its path. */
  lemma EndpointShape(q: Query)
    requires !q.IpPrefix?
    ensures Endpoint(q) == ApiBase + PathHead(q) + Subject(q) + PathTail(q)
  {
  }

  /** The prefix endpoint is the base, `prefix/`, the address, a `/` and
      the CIDR length. */
  lemma PrefixEndpointShape(ip: string, cidr: string)
    ensures Endpoint(IpPrefix(ip, cidr)) == ApiBase + "prefix/" + ip + "/" + cidr
  {
  }

  /** With addresses that hold no `/`, different prefix queries request
      different endpoints: the first `/` after `prefix/` ends the address. */
  lemma PrefixEndpointInjective(ip1: string, c1: string, ip2: string, c2: string)
    requires '/' !in ip1 && '/' !in ip2
    requires Endpoint(IpPrefix(ip1, c1)) == Endpoint(IpPrefix(ip2, c2))
    ensures ip1 == ip2 && c1 == c2
  {
    var head := ApiBase + "prefix/";
    PrefixEndpointShape(ip1, c1);
    PrefixEndpointShape(ip2, c2);
    var u, v := ip1 + "/" + c1, ip2 + "/" + c2;
    assert u == v by {
      assert Endpoint(IpPrefix(ip1, c1)) == head + u;
      assert Endpoint(IpPrefix(ip2, c2)) == head + v;
      assert u == (head + u)[|head|..];
      assert v == (head + v)[|head|..];
    }
    assert u[|ip1|] == '/' && v[|ip2|] == '/';
    if |ip1| != |ip2| {
      assert false;
    }
    assert ip1 == u[..|ip1|] && ip2 == v[..|ip2|];
    assert c1 == u[|ip1| + 1..] && c2 == v[|ip2| + 1..];
  }

  /** Queries of one kind share the fixed parts of their path. */
  lemma SameKindParts(q1: Query, q2: Query)
    requires SameKind(q1, q2)
    ensures PathHead(q1) == PathHead(q2) && PathTail(q1) == PathTail(q2)
  {
  }

  /** A one-argument query is fixed by its kind and its argument. */
  lemma SameKindSubject(q1: Query, q2: Query)
    requires SameKind(q1, q2) && !q1.IpPrefix?
    requires Subject(q1) == Subject(q2)
    ensures q1 == q2
  {
  }

  /** Because the argument is not escaped, an information query for
      `X/prefixes` requests the same URL as a prefix-list query for `X`, and
      a `/` in the address of a prefix query is indistinguishable from the
      separator before the CIDR length. */
  lemma EndpointsCollide(x: string, a: string, b: string, c: string)
    ensures Endpoint(AsnInfo(x + "/prefixes")) == Endpoint(AsnPrefixes(x))
    ensures Endpoint(IpPrefix(a + "/" + b, c)) == Endpoint(IpPrefix(a, b + "/" + c))
  {
  }
}
