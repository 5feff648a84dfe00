/**
  Choosing a handler for a request by the longest registered prefix of its
  target, and what the handlers make of the rest of the target.
 */
module Routing {
  import opened Wrappers
  import opened RequestState
  import opened RequestParsing

  /** The position of the last slash at or before index `n - 1`, as a count from 1; 0 when there is none. */
  function LastSlash(s: string, n: nat): (p: nat)
    requires n <= |s|
    ensures p <= n && (p > 0 ==> s[p - 1] == '/') && forall i :: p <= i < n ==> s[i] != '/'
  {
    if n == 0 then 0 else if s[n - 1] == '/' then n else LastSlash(s, n - 1)
  }

  /** The next shorter prefix to try; empty when there is none. */
  function Shorten(prefix: string): (r: string)
    ensures prefix != "" ==> |r| < |prefix|
  {
    if prefix == "/" then ""
    else
      var p := LastSlash(prefix, |prefix|);
      if p == 0 then "" else if p == 1 then "/" else prefix[..p - 1]
  }

  method ShortenUriPrefix(uriPrefix: string) returns (r: string)
    ensures r == Shorten(uriPrefix)
  {
    if uriPrefix == "/" {
      return "";
    }
    var pos: nat := |uriPrefix|;
    while pos > 0 && uriPrefix[pos - 1] != '/'
      invariant pos <= |uriPrefix| && LastSlash(uriPrefix, |uriPrefix|) == LastSlash(uriPrefix, pos)
    {
      pos := pos - 1;
    }
    if pos != 0 {
      var shortened := uriPrefix[..pos - 1];
      return if shortened != "" then shortened else "/";
    }
    return "";
  }

  /** The prefixes at which a target may be cut: whole, just before a later slash, or down to the root. */
  predicate IsCut(uri: string, k: string) {
    || k == uri
    || k == "/"
    || (1 <= |k| < |uri| && uri[..|k|] == k && uri[|k|] == '/')
  }

  predicate Absolute(uri: string) { uri != "" && uri[0] == '/' }

  /** `k` is the longest registered prefix of `uri`. */
  ghost predicate RoutesTo(uri: string, keys: set<string>, k: string) {
    k in keys && IsCut(uri, k) && forall x :: x in keys && IsCut(uri, x) ==> |x| <= |k|
  }

  /** Shortening a cut gives the next shorter cut. */
  lemma ShortenIsNextCut(uri: string, k: string)
    requires Absolute(uri) && IsCut(uri, k)
    ensures var s := Shorten(k);
            && (s == "" || IsCut(uri, s))
            && forall x :: IsCut(uri, x) && |x| < |k| ==> |x| <= |s|
  {
    var p := LastSlash(k, |k|);
    assert k[0] == '/';
    if k != "/" && p > 1 {
      assert uri[..p - 1] == k[..p - 1] && uri[p - 1] == k[p - 1];
    }
    forall x | IsCut(uri, x) && |x| < |k| ensures |x| <= |Shorten(k)| {
      if x != "/" {
        assert uri[|x|] == k[|x|];
      }
    }
  }

  datatype Route<H> =
    | Found(prefix: string, handler: H)
    | Fallback(handler: H)
    | NoDefault
    | BadReferer

  /** The first slash of `s` at or after index `from`; the length of `s` when there is none. */
  function FindSlash(s: string, from: nat): (p: nat)
    ensures p <= |s| && (p < |s| ==> from <= p && s[p] == '/')
    ensures forall i :: from <= i < p ==> s[i] != '/'
    decreases |s| - from
  {
    if from >= |s| then |s| else if s[from] == '/' then from else FindSlash(s, from + 1)
  }

  /**
    What routing goes by: the target, or the part of the last Referer from its first
    slash after the scheme; none if some Referer has no such slash.
   */
  function Basis(uri: string, headers: seq<(string, string)>): Option<string> {
    if headers == [] then Some(uri)
    else
      var h := headers[|headers| - 1];
      var before := Basis(uri, headers[..|headers| - 1]);
      if before.None? || h.0 != "Referer" then before
      else if FindSlash(h.1, 8) == |h.1| then None
      else Some(h.1[FindSlash(h.1, 8)..])
  }

  /** A Referer with no slash after its scheme, where the original throws. */
  predicate SlashlessReferer(h: (string, string)) { h.0 == "Referer" && forall i :: 8 <= i < |h.1| ==> h.1[i] != '/' }

  /** Routing throws exactly when some Referer has no slash after its scheme. */
  lemma {:induction false} NoBasisIffSlashless(uri: string, headers: seq<(string, string)>)
    ensures Basis(uri, headers).None? <==> exists h <- headers :: SlashlessReferer(h)
  {
    if headers != [] {
      var front, last := headers[..|headers| - 1], headers[|headers| - 1];
      NoBasisIffSlashless(uri, front);
      assert headers == front + [last];
      assert forall h :: h in headers <==> h in front || h == last;
      assert last.0 == "Referer" ==> (FindSlash(last.1, 8) == |last.1| <==> SlashlessReferer(last));
    }
  }

  lemma {:induction false} BasisWithoutReferer(uri: string, headers: seq<(string, string)>)
    requires forall h <- headers :: h.0 != "Referer"
    ensures Basis(uri, headers) == Some(uri)
  {
    if headers != [] {
      assert headers[|headers| - 1] in headers;
      BasisWithoutReferer(uri, headers[..|headers| - 1]);
    }
  }

  /**
    A Referer after any others is what counts: its scheme, host and port are cut
    off, and its path is kept.
   */
  lemma LastRefererCounts(uri: string, front: seq<(string, string)>, scheme: string, host: string, path: string)
    requires Basis(uri, front).Some? && |scheme| == 8 && '/' !in host && Absolute(path)
    ensures Basis(uri, front + [("Referer", scheme + host + path)]) == Some(path)
  {
    var h := ("Referer", scheme + host + path);
    var hs := front + [h];
    assert hs[..|hs| - 1] == front;
    var p := 8 + |host|;
    assert forall i :: 8 <= i < p ==> h.1[i] == host[i - 8];
    assert h.1[p] == '/' && h.1[p..] == path;
    var q := FindSlash(h.1, 8);
    assert q == p;
  }

  /** Other fields do not count. */
  lemma OtherFieldsDoNotCount(uri: string, front: seq<(string, string)>, h: (string, string))
    requires h.0 != "Referer"
    ensures Basis(uri, front + [h]) == Basis(uri, front) && Basis(uri, []) == Some(uri)
  {
    var hs := front + [h];
    assert hs[..|hs| - 1] == front;
  }

  lemma {:induction false} BasisIsAbsolute(uri: string, headers: seq<(string, string)>)
    requires uri != "" ==> Absolute(uri)
    ensures Basis(uri, headers).Some? && Basis(uri, headers).value != "" ==> Absolute(Basis(uri, headers).value)
  {
    if headers != [] {
      BasisIsAbsolute(uri, headers[..|headers| - 1]);
    }
  }

  lemma {:induction false} NoBasisIsFinal(uri: string, headers: seq<(string, string)>, n: nat)
    requires n <= |headers| && Basis(uri, headers[..n]).None?
    ensures Basis(uri, headers).None?
    decreases |headers|
  {
    if n == |headers| {
      assert headers[..n] == headers;
    } else {
      var t := headers[..|headers| - 1];
      assert t[..n] == headers[..n];
      NoBasisIsFinal(uri, t, n);
    }
  }

  /** Finds the handler for a request: the longest registered prefix, or else the default one. */
  method FindHandler<H>(uri: string, headers: seq<(string, string)>, handlers: map<string, H>) returns (r: Route<H>)
    requires uri != "" ==> Absolute(uri)
    ensures r.BadReferer? <==> Basis(uri, headers).None?
    ensures r.Found? ==>
      && Basis(uri, headers).value != ""
      && RoutesTo(Basis(uri, headers).value, handlers.Keys, r.prefix)
      && r.handler == handlers[r.prefix]
    ensures r.Fallback? || r.NoDefault? ==>
      Basis(uri, headers).value == "" || forall k :: k in handlers ==> !IsCut(Basis(uri, headers).value, k)
    ensures r.Fallback? ==> "default" in handlers && r.handler == handlers["default"]
    ensures r.NoDefault? ==> "default" !in handlers
  {
    var prefix := uri;
    for i := 0 to |headers|
      invariant Basis(uri, headers[..i]) == Some(prefix)
    {
      assert headers[..i + 1][..i] == headers[..i];
      if headers[i].0 == "Referer" {
        var refUri := FindSlash(headers[i].1, 8);
        if refUri == |headers[i].1| {
          NoBasisIsFinal(uri, headers, i + 1);
          return BadReferer;
        }
        prefix := headers[i].1[refUri..];
      }
    }
    assert headers[..|headers|] == headers;
    BasisIsAbsolute(uri, headers);
    ghost var basis := prefix;
    while prefix != ""
      invariant prefix != "" ==> Absolute(basis) && IsCut(basis, prefix)
      invariant basis != "" ==> forall k :: k in handlers && IsCut(basis, k) ==> |k| <= |prefix|
      decreases |prefix|
    {
      if prefix in handlers {
        return Found(prefix, handlers[prefix]);
      }
      ShortenIsNextCut(basis, prefix);
      SameLengthCut(basis, prefix);
      prefix := ShortenUriPrefix(prefix);
    }
    if "default" in handlers {
      return Fallback(handlers["default"]);
    }
    return NoDefault;
  }

  lemma SameLengthCut(uri: string, k: string)
    requires Absolute(uri) && IsCut(uri, k)
    ensures forall x :: IsCut(uri, x) && |x| == |k| ==> x == k
  {
    assert k[0] == uri[0] == '/';
    forall x | IsCut(uri, x) && |x| == |k| ensures x == k {
      assert x == uri[..|x|] && k == uri[..|k|];
    }
  }

  /** At most one key is the longest registered prefix. */
  lemma RoutesToOne(uri: string, keys: set<string>, a: string, b: string)
    requires Absolute(uri) && RoutesTo(uri, keys, a) && RoutesTo(uri, keys, b)
    ensures a == b
  {
    SameLengthCut(uri, a);
  }

  /** The target lies strictly below the prefix as a string. */
  predicate Extends(uri: string, prefix: string) { |uri| > |prefix| && uri[..|prefix|] == prefix }

  /** The object key the storage handler asks for; none where the handler answers with an error. */
  function ObjectKey(uri: string, prefix: string): Option<string> {
    if Extends(uri, prefix) then Some(uri[|prefix| + 1..]) else None
  }

  /** The path below the handler's root directory that the file handler serves; none where it answers with an error. */
  function FileSuffix(uri: string, prefix: string): Option<string> {
    if Extends(uri, prefix) then Some(uri[|prefix|..]) else None
  }

  /** The target the proxy asks the remote host for. */
  method RewriteUri(requestUri: string, uriPrefix: string) returns (uri: string)
    ensures uri == ProxyUri(requestUri, uriPrefix)
    ensures requestUri == uriPrefix ==> uri == "/"
    ensures forall rest :: rest != "" && requestUri == uriPrefix + rest ==> uri == rest
    ensures !(uriPrefix <= requestUri) ==> uri == requestUri
  {
    if requestUri == uriPrefix {
      uri := "/";
    } else {
      uri := requestUri;
    }
    if uri != uriPrefix && |uri| > |uriPrefix| && uri[..|uriPrefix|] == uriPrefix {
      uri := uri[|uriPrefix|..];
    }
  }

  function ProxyUri(uri: string, prefix: string): string {
    if uri == prefix then "/"
    else if Extends(uri, prefix) then uri[|prefix|..]
    else uri
  }

  /** The byte after the prefix is a slash: always below a prefix other than the root, and not always below the root. */
  predicate SlashFollows(uri: string, k: string) { k != "/" || (|uri| > 1 && uri[1] == '/') }

  lemma RoutedExtends(uri: string, keys: set<string>, k: string)
    requires Absolute(uri) && RoutesTo(uri, keys, k)
    ensures uri == k || (Extends(uri, k) && (uri[|k|] == '/' <==> SlashFollows(uri, k)))
  {
    if uri != k && k == "/" {
      assert uri[..1] == "/";
    }
  }

  /**
    The storage handler refuses exactly the bare prefix; else its key is what
    follows the prefix and a slash, exactly when there is one.
   */
  lemma RoutedObjectKey(uri: string, keys: set<string>, k: string)
    requires Absolute(uri) && RoutesTo(uri, keys, k)
    ensures ObjectKey(uri, k).None? <==> uri == k
    ensures uri != k ==> (uri == k + "/" + ObjectKey(uri, k).value <==> SlashFollows(uri, k))
    ensures forall c, rest :: uri == k + [c] + rest ==> ObjectKey(uri, k) == Some(rest)
  {
    RoutedExtends(uri, keys, k);
    if uri != k {
      var key := uri[|k| + 1..];
      assert uri == k + [uri[|k|]] + key;
      assert (k + [uri[|k|]] + key)[|k|] == uri[|k|];
      assert (k + "/" + key)[|k|] == '/';
    }
  }

  /**
    The file handler refuses exactly the bare prefix; else prefix and suffix make up
    the target, and the suffix is absolute exactly when a slash follows.
   */
  lemma RoutedFileSuffix(uri: string, keys: set<string>, k: string)
    requires Absolute(uri) && RoutesTo(uri, keys, k)
    ensures FileSuffix(uri, k).None? <==> uri == k
    ensures uri != k ==> uri == k + FileSuffix(uri, k).value
    ensures uri != k ==> (Absolute(FileSuffix(uri, k).value) <==> SlashFollows(uri, k))
  {
    RoutedExtends(uri, keys, k);
  }

  /** The proxy asks for an absolute target, unless it is registered at the root and no second slash follows. */
  lemma RoutedProxyUri(uri: string, keys: set<string>, k: string)
    requires Absolute(uri) && RoutesTo(uri, keys, k)
    ensures uri == k ==> ProxyUri(uri, k) == "/"
    ensures Absolute(ProxyUri(uri, k)) <==> uri == k || SlashFollows(uri, k)
    ensures uri != k ==> uri == k + ProxyUri(uri, k)
  {
    RoutedExtends(uri, keys, k);
  }

  /** A root-registered proxy does drop the slash. */
  lemma RootProxyLosesSlash()
    ensures RoutesTo("/a", {"/"}, "/") && ProxyUri("/a", "/") == "a"
    ensures ObjectKey("/a", "/") == Some("")
  {
    assert "/a"[..1] == "/" && "/a"[1..] == "a" && "/a"[2..] == "";
    assert IsCut("/a", "/");
  }

  /** The prefix `k` is followed by a slash in the target, and a cut of it. */
  predicate StripsAt(uri: string, k: string) { IsCut(uri, k) && uri != k && SlashFollows(uri, k) }

  /**
    Stripping by a registered prefix leaves what follows it and a slash exactly when
    the target itself could be cut there.
   */
  lemma StripsIffCut(uri: string, basis: string, keys: set<string>, k: string)
    requires (uri != "" ==> Absolute(uri)) && Absolute(basis) && RoutesTo(basis, keys, k)
    ensures StripsAt(uri, k) <==> Extends(uri, k) && uri[|k|] == '/'
    ensures k != "/" ==> (StripsAt(uri, k) <==> IsCut(uri, k) && uri != k)
  {
    assert k[0] == '/';
    if k == "/" && Absolute(uri) {
      assert uri[..1] == "/";
    }
  }

  /**
    With a Referer the handler is chosen by one target, `basis`, and strips
    another, `uri`. The object key of the storage handler is what follows prefix
    and slash exactly when the prefix is a cut of the target stripped.
   */
  lemma RefererObjectKey(uri: string, basis: string, keys: set<string>, k: string)
    requires (uri != "" ==> Absolute(uri)) && Absolute(basis) && RoutesTo(basis, keys, k)
    ensures ObjectKey(uri, k).Some? && uri == k + "/" + ObjectKey(uri, k).value <==> StripsAt(uri, k)
    ensures k != "/" ==>
      (ObjectKey(uri, k).Some? && uri == k + "/" + ObjectKey(uri, k).value <==> IsCut(uri, k) && uri != k)
  {
    StripsIffCut(uri, basis, keys, k);
    if Extends(uri, k) {
      var key := uri[|k| + 1..];
      assert uri == k + [uri[|k|]] + key;
      assert (k + [uri[|k|]] + key)[|k|] == uri[|k|];
      assert (k + "/" + key)[|k|] == '/';
    }
  }

  /** The file handler serves an absolute path below its prefix under the same condition. */
  lemma RefererFileSuffix(uri: string, basis: string, keys: set<string>, k: string)
    requires (uri != "" ==> Absolute(uri)) && Absolute(basis) && RoutesTo(basis, keys, k)
    ensures FileSuffix(uri, k).Some? && Absolute(FileSuffix(uri, k).value) <==> StripsAt(uri, k)
    ensures FileSuffix(uri, k).Some? ==> uri == k + FileSuffix(uri, k).value
  {
    StripsIffCut(uri, basis, keys, k);
  }

  /**
    So does the proxy; it asks for the root when the target is the prefix, and for
    the target itself when that does not extend the prefix.
   */
  lemma RefererProxyUri(uri: string, basis: string, keys: set<string>, k: string)
    requires (uri != "" ==> Absolute(uri)) && Absolute(basis) && RoutesTo(basis, keys, k)
    ensures uri == k ==> ProxyUri(uri, k) == "/"
    ensures uri == k + ProxyUri(uri, k) && Absolute(ProxyUri(uri, k)) <==> StripsAt(uri, k)
    ensures !Absolute(ProxyUri(uri, k)) <==> uri == "" || (Extends(uri, k) && !StripsAt(uri, k))
    ensures !Extends(uri, k) && uri != k ==> ProxyUri(uri, k) == uri
  {
    StripsIffCut(uri, basis, keys, k);
    assert uri == k + ProxyUri(uri, k) ==> uri[..|k|] == k;
  }

  /**
    With a Referer the handler is chosen by one target and strips another: the
    storage handler then refuses a request it was chosen for.
   */
  lemma RefererBreaksStripping()
    ensures Basis("/x", [("Referer", "http://h/s3/y")]) == Some("/s3/y")
    ensures RoutesTo("/s3/y", {"/s3"}, "/s3") && ObjectKey("/x", "/s3").None?
  {
    var h := ("Referer", "http://h/s3/y");
    var none: seq<(string, string)> := [];
    assert [h][..0] == none;
    assert FindSlash(h.1, 8) == 8;
    assert h.1[8..] == "/s3/y";
    assert "/s3/y"[..3] == "/s3";
  }

  /**
    Whatever bytes are received, well-formed or not, routing without a Referer
    header goes by an absolute target or by none.
   */
  lemma ParsedTargetRoutes(raw: string)
    requires forall h <- Parse(raw).req.headers :: h.0 != "Referer"
    ensures var r := Parse(raw).req;
            Basis(r.uri, r.headers) == Some(r.uri) && (r.uri != "" ==> Absolute(r.uri))
  {
    TargetIsAbsolute(raw);
    BasisWithoutReferer(Parse(raw).req.uri, Parse(raw).req.headers);
  }
}
