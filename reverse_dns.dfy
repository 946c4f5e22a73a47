/** The reverse-lookup name that the PTR fetcher asks the resolver for: the
    dot-separated fields of the address in reverse order, followed by the
    `in-addr.arpa` domain (the IN-ADDR.ARPA scheme of section 3.5 of
    RFC 1035). The resolver call itself is not modelled. */
module ReverseDns {
  import opened Strings
  import opened Wrappers

  const ArpaSuffix: string := ".in-addr.arpa"

  /** `'.'.join(reversed(ip_address.split('.'))) + '.in-addr.arpa'`. Nothing
      is validated: every text, whatever its number of fields, gets a name. */
  function ReverseName(ip: string): (r: string)
    ensures EndsWith(r, ArpaSuffix)
    ensures |r| == |ip| + |ArpaSuffix|
  {
    var fields := Split(ip, '.');
    JoinSplit(ip, '.');
    JoinReverseLength(fields, '.');
    var r := Join('.', Reverse(fields)) + ArpaSuffix;
    assert r[|r| - |ArpaSuffix|..] == ArpaSuffix;
    r
  }

  /** The labels of a reverse name in front of the suffix. */
  function Labels(name: string): seq<string>
    requires EndsWith(name, ArpaSuffix)
  {
    Split(name[..|name| - |ArpaSuffix|], '.')
  }

  /** The inverse direction: the address a reverse name stands for, or
      nothing when the name does not end with the suffix. */
  function ForwardAddress(name: string): (r: Option<string>)
    ensures r.Some? <==> EndsWith(name, ArpaSuffix)
  {
    if EndsWith(name, ArpaSuffix) then Some(Join('.', Reverse(Labels(name)))) else None
  }

  /** The labels in front of the suffix are the fields of the address in
      reverse order, as many as the address has. */
  lemma ReverseNameLabels(ip: string)
    ensures Labels(ReverseName(ip)) == Reverse(Split(ip, '.'))
    ensures |Labels(ReverseName(ip))| == |Split(ip, '.')|
  {
    var fields := Split(ip, '.');
    var r := ReverseName(ip);
    assert r[..|r| - |ArpaSuffix|] == Join('.', Reverse(fields));
    SplitFieldsFree(ip, '.');
    SplitJoin(Reverse(fields), '.');
  }

  /** Reading the reverse name back gives the address it was built from. */
  lemma ForwardReverse(ip: string)
    ensures ForwardAddress(ReverseName(ip)) == Some(ip)
  {
    ReverseNameLabels(ip);
    ReverseReverse(Split(ip, '.'));
    JoinSplit(ip, '.');
  }

  /** Two different addresses never share a reverse name. */
  lemma ReverseNameInjective(a: string, b: string)
    requires ReverseName(a) == ReverseName(b)
    ensures a == b
  {
    ForwardReverse(a);
    ForwardReverse(b);
  }

  /** Joining the fields in reverse order takes as many characters as
      joining them in their own order. */
  lemma JoinReverseLength(xs: seq<string>, c: char)
    ensures |Join(c, Reverse(xs))| == |Join(c, xs)|
  {
    JoinSum(xs, c);
    JoinSum(Reverse(xs), c);
    SumReverse(xs);
  }

  /** Total length of the parts. */
  function SumLengths(xs: seq<string>): nat
    decreases |xs|
  {
    if xs == [] then 0 else |xs[0]| + SumLengths(xs[1..])
  }

  lemma {:induction false} JoinSum(xs: seq<string>, c: char)
    ensures xs != [] ==> |Join(c, xs)| == SumLengths(xs) + |xs| - 1
    ensures xs == [] ==> |Join(c, xs)| == 0
    decreases |xs|
  {
    if |xs| > 1 {
      JoinSum(xs[1..], c);
    }
  }

  lemma {:induction false} SumAppend(xs: seq<string>, ys: seq<string>)
    ensures SumLengths(xs + ys) == SumLengths(xs) + SumLengths(ys)
    decreases |xs|
  {
    if xs == [] {
      assert xs + ys == ys;
    } else {
      SumAppend(xs[1..], ys);
      assert (xs + ys)[0] == xs[0];
      assert (xs + ys)[1..] == xs[1..] + ys;
    }
  }

  lemma {:induction false} SumReverse(xs: seq<string>)
    ensures SumLengths(Reverse(xs)) == SumLengths(xs)
    decreases |xs|
  {
    if xs != [] {
      var n := |xs|;
      SumReverse(xs[..n - 1]);
      SumAppend([xs[n - 1]], Reverse(xs[..n - 1]));
      assert xs == xs[..n - 1] + [xs[n - 1]];
      SumAppend(xs[..n - 1], [xs[n - 1]]);
    }
  }

  /** An address given as dot-free fields: the name is those fields in
      reverse order, joined by dots, then the suffix. */
  lemma ReverseNameOfFields(fields: seq<string>)
    requires |fields| >= 1
    requires forall k :: 0 <= k < |fields| ==> '.' !in fields[k]
    ensures ReverseName(Join('.', fields)) == Join('.', Reverse(fields)) + ArpaSuffix
  {
    SplitJoin(fields, '.');
  }

  /** Four parts joined by a separator. */
  lemma JoinFour(a: string, b: string, c: string, d: string, sep: char)
    ensures Join(sep, [a, b, c, d]) == a + [sep] + b + [sep] + c + [sep] + d
  {
    assert [c, d][1..] == [d];
    assert Join(sep, [c, d]) == c + [sep] + d;
    assert [b, c, d][1..] == [c, d];
    assert Join(sep, [b, c, d]) == b + [sep] + (c + [sep] + d);
    assert [a, b, c, d][1..] == [b, c, d];
    assert Join(sep, [a, b, c, d]) == a + [sep] + (b + [sep] + (c + [sep] + d));
  }

  /** A dotted-quad address: its four octets come back in reverse order. */
  lemma ReverseNameQuad(a: string, b: string, c: string, d: string)
    requires '.' !in a && '.' !in b && '.' !in c && '.' !in d
    ensures ReverseName(a + "." + b + "." + c + "." + d) == d + "." + c + "." + b + "." + a + ArpaSuffix
  {
    var fields := [a, b, c, d];
    JoinFour(a, b, c, d, '.');
    assert a + "." + b + "." + c + "." + d == Join('.', fields);
    ReverseNameOfFields(fields);
    assert Reverse(fields) == [d, c, b, a];
    JoinFour(d, c, b, a, '.');
    assert Join('.', [d, c, b, a]) == d + "." + c + "." + b + "." + a;
  }

  /** No validation: a text with two fields, such as `10.8`, still yields a
      name, with the two fields swapped. */
  lemma ReverseNamePair(a: string, b: string)
    requires '.' !in a && '.' !in b
    ensures ReverseName(a + "." + b) == b + "." + a + ArpaSuffix
  {
    var fields := [a, b];
    assert fields[1..] == [b];
    assert a + "." + b == Join('.', fields);
    ReverseNameOfFields(fields);
    assert Reverse(fields) == [b, a];
    assert [b, a][1..] == [a];
    assert Join('.', [b, a]) == b + "." + a;
  }
}
