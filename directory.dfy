/** utils._get_server_url: the base URL that avatar paths are appended to. */
module Directory {
  import opened Wrappers

  /** '{0}://{1}:{2}'.format(protocol, host, port), given the text of the
      three XML elements. */
  function ServerUrl(protocol: string, host: string, port: string): (url: string)
    ensures |url| == |protocol| + |host| + |port| + 4
    ensures url[..|protocol|] == protocol && url[|protocol|..|protocol| + 3] == "://"
    ensures url[|url| - |port| - 1] == ':' && url[|url| - |port|..] == port
    ensures url[|protocol| + 3..|url| - |port| - 1] == host
  {
    protocol + "://" + host + ":" + port
  }

  /** The position of the first `c` in `s`. */
  function IndexOf(s: string, c: char): (r: Option<nat>)
    ensures r.Some? ==> r.value < |s| && s[r.value] == c && c !in s[..r.value]
    ensures r.None? ==> c !in s
  {
    if s == [] then None
    else if s[0] == c then Some(0)
    else
      match IndexOf(s[1..], c)
      case None => None
      case Some(i) =>
        assert s[..i + 1] == [s[0]] + s[1..][..i];
        Some(i + 1)
  }

  /** The position of the last `c` in `s`. */
  function LastIndexOf(s: string, c: char): (r: Option<nat>)
    ensures r.Some? ==> r.value < |s| && s[r.value] == c && c !in s[r.value + 1..]
    ensures r.None? ==> c !in s
  {
    if s == [] then None
    else if s[|s| - 1] == c then Some(|s| - 1)
    else
      var r := LastIndexOf(s[..|s| - 1], c);
      if r.Some? then
        assert s[r.value + 1..] == s[..|s| - 1][r.value + 1..] + [s[|s| - 1]];
        r
      else r
  }

  /** Reads a server URL back into protocol, host and port: the protocol
      ends at the first ':', which must open "://", and the port follows
      the last ':'. */
  function SplitServerUrl(url: string): Option<(string, string, string)>
  {
    match IndexOf(url, ':')
    case None => None
    case Some(i) =>
      match LastIndexOf(url, ':')
      case None => None
      case Some(j) =>
        if i + 3 <= j && url[i + 1] == '/' && url[i + 2] == '/' then Some((url[..i], url[i + 3..j], url[j + 1..]))
        else None
  }

  lemma {:induction false} IndexOfAfter(a: string, b: string, c: char)
    requires c !in a && b != [] && b[0] == c
    ensures IndexOf(a + b, c) == Some(|a|)
  {
    if a == [] {
      assert a + b == b;
    } else {
      assert (a + b)[1..] == a[1..] + b;
      IndexOfAfter(a[1..], b, c);
    }
  }

  lemma {:induction false} LastIndexOfBefore(a: string, b: string, c: char)
    requires c !in b && a != [] && a[|a| - 1] == c
    ensures LastIndexOf(a + b, c) == Some(|a| - 1)
  {
    if b == [] {
      assert a + b == a;
    } else {
      assert (a + b)[..|a + b| - 1] == a + b[..|b| - 1];
      LastIndexOfBefore(a, b[..|b| - 1], c);
    }
  }

  /** Where the separators of a server URL sit. */
  lemma ServerUrlSeparators(protocol: string, host: string, port: string)
    requires ':' !in protocol && ':' !in port
    ensures var url, p := ServerUrl(protocol, host, port), |protocol|;
      && IndexOf(url, ':') == Some(p)
      && LastIndexOf(url, ':') == Some(p + 3 + |host|)
  {
    var url := ServerUrl(protocol, host, port);
    var rest := "://" + host + ":" + port;
    var front := protocol + "://" + host + ":";
    assert url == protocol + rest;
    assert url == front + port;
    IndexOfAfter(protocol, rest, ':');
    LastIndexOfBefore(front, port, ':');
  }

  /** The URL keeps its three parts apart whenever the protocol and the
      port contain no ':' (the host may, as an IPv6 literal does). */
  lemma ServerUrlRoundTrip(protocol: string, host: string, port: string)
    requires ':' !in protocol && ':' !in port
    ensures SplitServerUrl(ServerUrl(protocol, host, port)) == Some((protocol, host, port))
  {
    var url := ServerUrl(protocol, host, port);
    var p, j := |protocol|, |protocol| + 3 + |host|;
    ServerUrlSeparators(protocol, host, port);
    assert url[p + 1] == '/' && url[p + 2] == '/';
    assert url[p + 3..j] == host;
  }
}
