/** Which upstream URL a passthrough request path is solved as (src/passthrough.py). */
module PassthroughRouting {
  import opened Basics
  import Text

  datatype Split = NoHost | Host(host: string, remainder: string)

  /**
    The allow list, default mirror first; str.strip, str.lower, and the test for a static
    asset's name, which are the same whatever they compute.
   */
  datatype Routing = Routing(hosts: seq<string>, strip: string -> string, lower: string -> string, isAsset: string -> bool)

  /** _split_host. */
  function SplitHost(r: Routing, raw: string): Split {
    var body := if raw != "" && raw[0] == '/' then raw[1..] else raw;
    if body == "" || body[0] in "?#" then NoHost
    else
      var slash := Text.IndexOf(body, '/');
      var mark := Text.IndexOf(body, '?');
      var cut := if slash < |body| then slash else mark;
      var remainder := if slash < |body| then body[slash..] else "/" + body[mark..];
      var host := r.lower(r.strip(body[..cut]));
      if host == "" || '?' in host || '#' in host then NoHost else Host(host, remainder)
  }

  /** The path without its query and fragment, which is what the asset test sees. */
  function PathOnly(raw: string): string {
    var path := raw[..Text.IndexOf(raw, '?')];
    path[..Text.IndexOf(path, '#')]
  }

  function Rooted(raw: string): string {
    if raw != "" && raw[0] == '/' then raw else "/" + raw
  }

  /** The target a path is solved as, or None for a 404. */
  function Target(r: Routing, raw: string): Option<string> {
    if r.isAsset(PathOnly(raw)) then None
    else match SplitHost(r, raw)
      case NoHost => None
      case Host(host, remainder) =>
        if host in r.hosts then Some("https://" + host + remainder)
        else if r.hosts == [] then None
        else Some("https://" + r.hosts[0] + Rooted(raw))
  }

  /** Never a blind proxy: whatever the path, the upstream host is one of the allow-listed ones. */
  lemma TargetIsAllowed(r: Routing, raw: string)
    ensures Target(r, raw).Some? ==> exists h :: h in r.hosts && "https://" + h + "/" <= Target(r, raw).value
    ensures Target(r, raw).None? <==> r.isAsset(PathOnly(raw)) || SplitHost(r, raw).NoHost? || r.hosts == []
  {
    if Target(r, raw).Some? {
      var split := SplitHost(r, raw);
      var allowed := split.host in r.hosts;
      UnderHost(if allowed then split.host else r.hosts[0], if allowed then split.remainder else Rooted(raw));
    }
  }

  lemma UnderHost(host: string, rest: string)
    requires rest != "" && rest[0] == '/'
    ensures "https://" + host + "/" <= "https://" + host + rest
  {
    var site := "https://" + host;
    assert (site + rest)[..|site|] == site && (site + rest)[|site|] == '/';
  }

  // ---- how much of the path reaches the target ----

  /** The host as the allow list is asked for it; a segment that leaves none is no host. */
  predicate IsHost(r: Routing, segment: string) {
    var host := r.lower(r.strip(segment));
    && segment != "" && segment[0] != '?' && segment[0] != '#'
    && host != "" && '?' !in host && '#' !in host
  }

  /** Where `raw` goes when its first segment names `host` and `rest` is what follows. */
  predicate GoesTo(r: Routing, raw: string, host: string, rest: string)
    requires raw != ""
  {
    Target(r, raw) == if host in r.hosts then Some("https://" + host + rest)
                      else if r.hosts == [] then None
                      else Some("https://" + r.hosts[0] + (if raw[0] == '/' then raw else "/" + raw))
  }

  lemma Reaches(r: Routing, raw: string, host: string, rest: string)
    requires raw != "" && SplitHost(r, raw) == Host(host, rest) && !r.isAsset(PathOnly(raw))
    ensures GoesTo(r, raw, host, rest)
  {
  }

  /** One leading slash more or less makes no difference to the split. */
  lemma SlashIsDropped(r: Routing, body: string)
    requires body != "" && body[0] != '/'
    ensures SplitHost(r, "/" + body) == SplitHost(r, body)
  {
    assert ("/" + body)[1..] == body;
  }

  lemma SplitRest(r: Routing, segment: string, rest: string)
    requires '/' !in segment && IsHost(r, segment)
    ensures SplitHost(r, segment + "/" + rest) == Host(r.lower(r.strip(segment)), "/" + rest)
  {
    var body := segment + "/" + rest;
    Text.IndexOfFirst(segment, '/', rest);
    assert body[0] == segment[0] && body[..|segment|] == segment && body[|segment|..] == "/" + rest;
  }

  lemma SplitAlone(r: Routing, segment: string)
    requires '/' !in segment && '?' !in segment && IsHost(r, segment)
    ensures SplitHost(r, segment) == Host(r.lower(r.strip(segment)), "/")
  {
    Text.IndexOfFirst(segment, '/', "");
    Text.IndexOfFirst(segment, '?', "");
    assert segment[..|segment|] == segment && segment[|segment|..] == "" && "/" + "" == "/";
  }

  lemma SplitQuery(r: Routing, segment: string, query: string)
    requires '/' !in segment && '?' !in segment && '/' !in query && IsHost(r, segment)
    ensures SplitHost(r, segment + "?" + query) == Host(r.lower(r.strip(segment)), "/?" + query)
  {
    var body := segment + "?" + query;
    Text.IndexOfFirst(segment, '?', query);
    Text.IndexOfFirst(body, '/', "");
    assert body[0] == segment[0] && body[..|segment|] == segment && body[|segment|..] == "?" + query;
    assert "/" + ("?" + query) == "/?" + query;
  }

  /** A first segment that leaves no host, and a path without one, are refused. */
  lemma NoHostIsRefused(r: Routing, segment: string, rest: string)
    requires '/' !in segment && !IsHost(r, segment) && segment != ""
    ensures SplitHost(r, segment + "/" + rest).NoHost?
    ensures '?' !in segment ==> SplitHost(r, segment).NoHost?
    ensures SplitHost(r, "").NoHost? && SplitHost(r, "/").NoHost?
  {
    var body := segment + "/" + rest;
    Text.IndexOfFirst(segment, '/', rest);
    assert body[0] == segment[0] && body[..|segment|] == segment;
    if '?' !in segment { Text.IndexOfFirst(segment, '?', ""); }
    assert segment[..|segment|] == segment;
    assert "/"[1..] == "";
  }

  /** A path below the first segment is handed on whole, query and all, with or without its leading slash. */
  lemma RestIsKept(r: Routing, segment: string, rest: string, raw: string)
    requires '/' !in segment && IsHost(r, segment) && !r.isAsset(PathOnly(raw))
    requires raw == segment + "/" + rest || raw == "/" + (segment + "/" + rest)
    ensures GoesTo(r, raw, r.lower(r.strip(segment)), "/" + rest)
  {
    assert (segment + "/" + rest)[0] == segment[0];
    SplitRest(r, segment, rest);
    SlashIsDropped(r, segment + "/" + rest);
    Reaches(r, raw, r.lower(r.strip(segment)), "/" + rest);
  }

  /** A host alone is asked for its root. */
  lemma HostAloneIsTheRoot(r: Routing, segment: string, raw: string)
    requires '/' !in segment && '?' !in segment && IsHost(r, segment) && !r.isAsset(PathOnly(raw))
    requires raw == segment || raw == "/" + segment
    ensures GoesTo(r, raw, r.lower(r.strip(segment)), "/")
  {
    SplitAlone(r, segment);
    SlashIsDropped(r, segment);
    Reaches(r, raw, r.lower(r.strip(segment)), "/");
  }

  /** A query straight after the host is kept, behind the root's slash. */
  lemma QueryIsKept(r: Routing, segment: string, query: string, raw: string)
    requires '/' !in segment && '?' !in segment && '/' !in query && IsHost(r, segment) && !r.isAsset(PathOnly(raw))
    requires raw == segment + "?" + query || raw == "/" + (segment + "?" + query)
    ensures GoesTo(r, raw, r.lower(r.strip(segment)), "/?" + query)
  {
    assert (segment + "?" + query)[0] == segment[0];
    SplitQuery(r, segment, query);
    SlashIsDropped(r, segment + "?" + query);
    Reaches(r, raw, r.lower(r.strip(segment)), "/?" + query);
  }

  /** The asset test sees the path up to its query or fragment. */
  lemma AssetSeesThePath(path: string, mark: char, more: string)
    requires '?' !in path && '#' !in path && (mark == '?' || mark == '#')
    ensures PathOnly(path) == path && PathOnly(path + [mark] + more) == path
  {
    var raw := path + [mark] + more;
    Text.IndexOfFirst(path, '?', more);
    Text.IndexOfFirst(path, '#', more);
    assert path[..|path|] == path;
    if mark == '?' {
      assert raw[..|path|] == path;
    } else {
      var cut := raw[..Text.IndexOf(raw, '?')];
      FirstMark(path, more, Text.IndexOf(raw, '?'));
      assert cut[..Text.IndexOf(cut, '#')] == path;
    }
  }

  lemma FirstMark(path: string, more: string, n: nat)
    requires '?' !in path && '#' !in path
    requires var raw := path + "#" + more; n <= |raw| && (n < |raw| ==> raw[n] == '?')
    ensures var cut := (path + "#" + more)[..n]; Text.IndexOf(cut, '#') == |path| && cut[..|path|] == path
  {
    var raw := path + "#" + more;
    assert forall i | 0 <= i <= |path| :: raw[i] != '?';
    var cut := raw[..n];
    assert cut == path + "#" + raw[|path| + 1..n];
    Text.IndexOfFirst(path, '#', raw[|path| + 1..n]);
  }
}
