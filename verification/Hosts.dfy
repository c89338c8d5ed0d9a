/** Host extraction in the OpenCode and Presearch connectors, and the network capabilities declared from it. */
module Hosts {
  import opened Prelude
  import opened Text

  // ---------------------------------------------------------------- the two parsers

  /** `trim_end_matches('/')`. */
  function TrimSlashes(s: string): string {
    if s != "" && s[|s|-1] == '/' then TrimSlashes(s[..|s|-1]) else s
  }

  /** `split("://").nth(1)`: the text between the first delimiter and the next one, if there is a first. */
  function SecondPart(url: string): Option<string> {
    var k := FindDelimiter(url);
    if k == |url| then None
    else
      var rest := url[k + 3..];
      Some(rest[..FindDelimiter(rest)])
  }

  /** `.next()` of a split. */
  function First(parts: seq<string>): Option<string> {
    if parts == [] then None else Some(parts[0])
  }

  const DEFAULT_HOST: string := "127.0.0.1:4096"

  /** The text OpenCode looks for a host in. */
  function AfterDelimiter(url: string): string {
    OrElse(SecondPart(url), url)
  }

  /** The host OpenCode finds there, if any. */
  function FoundHost(baseUrl: string): Option<string> {
    First(Split(TrimSlashes(AfterDelimiter(baseUrl)), '/'))
  }

  /** OpenCode's `outbound_host`. */
  function OutboundHost(baseUrl: string): string {
    OrElse(FoundHost(baseUrl), DEFAULT_HOST)
  }

  /** Presearch's `extract_host`. */
  function ExtractHost(url: string): Option<string> {
    if StartsWith(url, "https://") then Some(Split(url[8..], '/')[0])
    else if StartsWith(url, "http://") then Some(Split(url[7..], '/')[0])
    else None
  }

  // ---------------------------------------------------------------- first segments

  /** The first segment ends at the first slash, or is the whole text. */
  lemma {:induction false} FirstSegment(s: string)
    ensures var n := |Split(s, '/')[0]|;
            && n <= |s| && Split(s, '/')[0] == s[..n]
            && (forall i | 0 <= i < n :: s[i] != '/') && (n < |s| ==> s[n] == '/')
  {
    if s != "" && s[0] != '/' {
      FirstSegment(s[1..]);
      var n := |Split(s[1..], '/')[0]|;
      assert s[..n+1] == [s[0]] + s[1..][..n];
      assert forall i | 1 <= i < n + 1 :: s[i] == s[1..][i-1];
    }
  }

  /** And nothing else is it. */
  lemma FirstSegmentUnique(s: string, n: nat)
    requires n <= |s| && (forall i | 0 <= i < n :: s[i] != '/') && (n < |s| ==> s[n] == '/')
    ensures Split(s, '/')[0] == s[..n]
  {
    FirstSegment(s);
  }

  /** Trimming slashes off the end leaves the first segment alone. */
  lemma {:induction false} TrimKeepsFirstSegment(s: string)
    ensures Split(TrimSlashes(s), '/')[0] == Split(s, '/')[0]
  {
    if s != "" && s[|s|-1] == '/' {
      var t := s[..|s|-1];
      TrimKeepsFirstSegment(t);
      FirstSegment(t);
      var n := |Split(t, '/')[0]|;
      assert t[..n] == s[..n];
      FirstSegmentUnique(s, n);
    }
  }

  // ---------------------------------------------------------------- the parsers agree

  /** The text between the scheme and the first slash ends in a colon and two slashes follow: `host://`. */
  predicate HidesDelimiter(rest: string) {
    var n := |Split(rest, '/')[0]|;
    n >= 1 && DelimiterAt(rest, n - 1)
  }

  /** Cutting at the next `://` changes the first segment exactly when the delimiter's own slash is the first one. */
  lemma CutAtDelimiter(rest: string)
    ensures Split(rest[..FindDelimiter(rest)], '/')[0] == Split(rest, '/')[0] <==> !HidesDelimiter(rest)
  {
    FirstSegment(rest);
    var n, j := |Split(rest, '/')[0]|, FindDelimiter(rest);
    var cut := rest[..j];
    if j == |rest| {
      assert cut == rest;
    } else {
      if n == j + 1 {
        FirstSegment(cut);
        assert |Split(cut, '/')[0]| < n;
      } else {
        assert rest[..n] == cut[..n];
        FirstSegmentUnique(cut, n);
        assert n >= 1 ==> !DelimiterAt(rest, n - 1);
      }
    }
  }

  /** An `http(s)` URL's rest, as OpenCode's parser sees it. */
  lemma AfterScheme(scheme: string, rest: string)
    requires scheme == "https" || scheme == "http"
    ensures AfterDelimiter(scheme + "://" + rest) == rest[..FindDelimiter(rest)]
  {
    var url := scheme + "://" + rest;
    FindDelimiterAfter(scheme, rest);
    assert url[|scheme| + 3..] == rest;
  }

  /** On every `http` or `https` URL both parsers find the same host, if and only if the host is not directly
      followed by a second `://`. */
  lemma ParsersAgreeIff(url: string)
    requires StartsWith(url, "https://") || StartsWith(url, "http://")
    ensures var rest := if StartsWith(url, "https://") then url[8..] else url[7..];
            && ExtractHost(url) == Some(Split(rest, '/')[0])
            && (ExtractHost(url) == Some(OutboundHost(url)) <==> !HidesDelimiter(rest))
  {
    var scheme := if StartsWith(url, "https://") then "https" else "http";
    var rest := if StartsWith(url, "https://") then url[8..] else url[7..];
    assert url == scheme + "://" + rest by {
      assert "https" + "://" == "https://" && "http" + "://" == "http://";
    }
    AfterScheme(scheme, rest);
    DefaultNeverUsed(url);
    CutAtDelimiter(rest);
  }

  /** In particular they agree whenever the host does not end in a colon. */
  lemma ParsersAgree(url: string)
    requires ExtractHost(url).Some?
    requires var host := ExtractHost(url).value; host == "" || host[|host|-1] != ':'
    ensures OutboundHost(url) == ExtractHost(url).value
  {
    ParsersAgreeIff(url);
    var rest := if StartsWith(url, "https://") then url[8..] else url[7..];
    FirstSegment(rest);
  }

  /** The default host is documented for malformed URLs, but for every text a host is found: the first segment of
      the text after the delimiter. */
  lemma DefaultNeverUsed(url: string)
    ensures FoundHost(url) == Some(Split(AfterDelimiter(url), '/')[0])
    ensures OutboundHost(url) == Split(AfterDelimiter(url), '/')[0]
  {
    TrimKeepsFirstSegment(AfterDelimiter(url));
  }

  /** Malformed: nothing, a slash or a second `://` where the host should start. */
  predicate LacksHost(url: string) {
    var k := FindDelimiter(url);
    var rest := if k == |url| then url else url[k + 3..];
    rest == "" || rest[0] == '/' || DelimiterAt(rest, 0)
  }

  /** What a malformed URL gets instead of the default is the empty host. */
  lemma HostEmptyIff(url: string)
    ensures OutboundHost(url) == "" <==> LacksHost(url)
  {
    DefaultNeverUsed(url);
    var after := AfterDelimiter(url);
    FirstSegment(after);
    assert Split(after, '/')[0] == "" <==> after == "" || after[0] == '/';
  }

  /** A text without `://` is taken to start with a host by OpenCode, and to have none by Presearch. */
  lemma NoScheme(url: string)
    requires DelimiterFree(url)
    ensures OutboundHost(url) == Split(url, '/')[0] && ExtractHost(url) == None
  {
    DefaultNeverUsed(url);
    assert StartsWith(url, "https://") ==> DelimiterAt(url, 5);
    assert StartsWith(url, "http://") ==> DelimiterAt(url, 4);
  }

  // ---------------------------------------------------------------- Presearch's allow list

  datatype PresearchConfig = PresearchConfig(apiBase: string, allowedScrapeHosts: seq<string>)

  datatype Capability = NetworkOutbound(host: string)

  predicate IsScrapeHostAllowed(config: PresearchConfig, host: string) {
    ExtractHost(config.apiBase) == Some(host) || host in config.allowedScrapeHosts
  }

  /** Every host that needs a capability: exactly the allowed ones, each once, the API host first and the
      others in the order of their first mention. */
  method AllNetworkHosts(config: PresearchConfig) returns (hosts: seq<string>)
    ensures forall h :: h in hosts <==> ExtractHost(config.apiBase) == Some(h) || h in config.allowedScrapeHosts
    ensures forall h :: h in hosts <==> IsScrapeHostAllowed(config, h)
    ensures NoRepeats(hosts)
    ensures ExtractHost(config.apiBase).Some? ==> hosts != [] && hosts[0] == ExtractHost(config.apiBase).value
    ensures forall i, j | 0 <= i < j < |hosts| && ExtractHost(config.apiBase) != Some(hosts[i]) ::
              exists k | 0 <= k < |config.allowedScrapeHosts| ::
                config.allowedScrapeHosts[k] == hosts[i] && hosts[j] !in config.allowedScrapeHosts[..k]
  {
    hosts := [];
    match ExtractHost(config.apiBase) {
      case Some(baseHost) => hosts := [baseHost];
      case None =>
    }
    var list := config.allowedScrapeHosts;
    for n := 0 to |list|
      invariant forall h :: h in hosts <==> ExtractHost(config.apiBase) == Some(h) || h in list[..n]
      invariant NoRepeats(hosts)
      invariant ExtractHost(config.apiBase).Some? ==> hosts != [] && hosts[0] == ExtractHost(config.apiBase).value
      invariant forall i, j | 0 <= i < j < |hosts| && ExtractHost(config.apiBase) != Some(hosts[i]) ::
                  exists k | 0 <= k < n :: list[k] == hosts[i] && hosts[j] !in list[..k]
    {
      assert list[..n+1] == list[..n] + [list[n]];
      if list[n] !in hosts {
        forall i | 0 <= i < |hosts| && ExtractHost(config.apiBase) != Some(hosts[i])
          ensures exists k | 0 <= k < n :: list[k] == hosts[i] && list[n] !in list[..k]
        {
          assert hosts[i] in list[..n];
          var k :| 0 <= k < n && list[..n][k] == hosts[i];
          assert list[n] !in list[..n] && forall x | x in list[..k] :: x in list[..n];
        }
        hosts := hosts + [list[n]];
      }
    }
    assert list[..|list|] == list;
  }

  /** `config_capabilities`: one capability per host. */
  function Capabilities(hosts: seq<string>): seq<Capability> {
    seq(|hosts|, i requires 0 <= i < |hosts| => NetworkOutbound(hosts[i]))
  }

  /** The allow check, the host list and the declared capabilities name the same hosts. */
  method ConfigCapabilities(config: PresearchConfig) returns (capabilities: seq<Capability>)
    ensures forall h :: NetworkOutbound(h) in capabilities <==> IsScrapeHostAllowed(config, h)
    ensures forall h :: h in config.allowedScrapeHosts ==> NetworkOutbound(h) in capabilities
    ensures NoRepeats(capabilities)
    ensures ExtractHost(config.apiBase).Some? ==>
              capabilities != [] && capabilities[0] == NetworkOutbound(ExtractHost(config.apiBase).value)
  {
    var hosts := AllNetworkHosts(config);
    capabilities := Capabilities(hosts);
    forall h
      ensures NetworkOutbound(h) in capabilities <==> h in hosts
    {
      if h in hosts {
        var i :| 0 <= i < |hosts| && hosts[i] == h;
        assert capabilities[i] == NetworkOutbound(h);
      }
    }
  }
}
