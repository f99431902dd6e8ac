/**
  Link resolution inside `crawl_target`: how one raw `href` found on a page
  of the target host is classified as a page to fetch (with the key that
  deduplicates it), a new crawl target to forward, or nothing.

  `Url::parse` belongs to the `url` crate and is not re-implemented: an
  `Href` carries the raw string together with what parsing it gave.
 */
module Links {
  import opened Wrappers
  import opened Strings
  import opened Hosts

  /** A parsed absolute URL: its scheme, its host if any, and its serialisation. */
  datatype Url = Url(scheme: string, host: Option<Host>, serialization: string)

  /** A raw `href` value and the result of `Url::parse` on it (`None` when it failed). */
  datatype Href = Href(raw: string, parsed: Option<Url>)

  /** What the coordinator does with one link. */
  datatype Candidate =
    | Page(key: string, url: string)   // fetch `url` unless `key` was crawled
    | NewTarget(target: CrawlTarget)   // send upward to the orchestrator
    | Drop

  /** Only HTTP and HTTPS links are followed. */
  predicate IsWebScheme(scheme: string)
  {
    scheme == "https" || scheme == "http"
  }

  /**
    The serialisation starts with `scheme://` followed by a non-empty
    authority, as the `url` crate writes every http(s) URL that has a host.
   */
  predicate HasAuthority(serialization: string, scheme: string)
  {
    |scheme| + 3 < |serialization| &&
    serialization[..|scheme| + 3] == scheme + "://" &&
    serialization[|scheme| + 3] != '/'
  }

  /** What the `url` crate guarantees of a parsed URL that the crawler relies on. */
  predicate WellFormed(u: Url)
  {
    IsWebScheme(u.scheme) && u.host.Some? ==> HasAuthority(u.serialization, u.scheme)
  }

  predicate WellFormedHref(h: Href)
  {
    h.parsed.Some? ==> WellFormed(h.parsed.value)
  }

  /**
    The crawled-URL key of a same-host absolute link: the serialisation with
    every trailing `/` removed and everything up to the first `://` dropped.
    The key is non-empty, never ends in `/`, and the serialisation is the
    scheme, `://`, the key and the removed slashes.
   */
  function NormalizeKey(u: Url): (key: string)
    requires IsWebScheme(u.scheme) && HasAuthority(u.serialization, u.scheme)
    ensures key != [] && key[0] != '/' && !EndsWith(key, '/')
    ensures |u.scheme| + 3 + |key| <= |u.serialization|
    ensures u.serialization ==
              u.scheme + "://" + key + Repeat('/', |u.serialization| - |u.scheme| - 3 - |key|)
  {
    AfterSchemeSeparator(u.serialization, u.scheme);
    SplitOnce(TrimEnd(u.serialization, '/'), "://").value.1
  }

  /** A string that starts with `scheme://` splits once right after the scheme. */
  lemma SplitOnceAfterScheme(t: string, scheme: string)
    requires ':' !in scheme
    requires |scheme| + 3 <= |t| && t[..|scheme| + 3] == scheme + "://"
    ensures SplitOnce(t, "://") == Some((scheme, t[|scheme| + 3..]))
  {
    var n := |scheme| + 3;
    assert OccursAt(t, "://", |scheme|) by {
      assert t[|scheme|..n] == (scheme + "://")[|scheme|..n];
    }
    var r := SplitOnce(t, "://");
    var before := r.value.0;
    assert t == before + "://" + r.value.1;
    assert t[|before|] == ':';
    assert forall j :: 0 <= j < |scheme| ==> t[j] == scheme[j];
    assert |before| == |scheme|;
    assert before == t[..|scheme|] == scheme;
  }

  /**
    After trimming trailing slashes, the first `://` of an http(s)
    serialisation is the one right after the scheme, and what follows it is
    the rest of the serialisation without its trailing slashes.
   */
  lemma AfterSchemeSeparator(s: string, scheme: string)
    requires IsWebScheme(scheme) && HasAuthority(s, scheme)
    ensures SplitOnce(TrimEnd(s, '/'), "://").Some?
    ensures var key := SplitOnce(TrimEnd(s, '/'), "://").value.1;
            key != [] && key[0] != '/' && !EndsWith(key, '/') &&
            |scheme| + 3 + |key| <= |s| &&
            s == scheme + "://" + key + Repeat('/', |s| - |scheme| - 3 - |key|)
  {
    var t := TrimEnd(s, '/');
    var n := |scheme| + 3;
    assert |t| > n;
    assert t[..n] == s[..n];
    SplitOnceAfterScheme(t, scheme);
    var key := t[n..];
    assert t == scheme + "://" + key;
    assert key[0] == t[n] && key[|key| - 1] == t[|t| - 1];
    TrimEndRemovesOnlyTrail(s, '/');
  }

  /** `https://<host><path>`, the URL the root-relative branch builds. */
  function RootRelative(target: Host, path: string): (link: string)
    ensures HostText(target) != [] && HostText(target)[0] != '/' ==> HasAuthority(link, "https")
  {
    var host := HostText(target);
    if host != [] && host[0] != '/' then
      HttpsAuthority(host, path);
      "https://" + host + path
    else "https://" + host + path
  }

  /** `https://` followed by a host that does not start with `/` has an authority. */
  lemma HttpsAuthority(host: string, path: string)
    requires host != [] && host[0] != '/'
    ensures HasAuthority("https://" + host + path, "https")
  {
    var link := "https://" + host + path;
    assert link == "https" + "://" + (host + path);
    AuthorityOf(link, "https", host + path);
  }

  /**
    One link of `crawl_target`'s loop: a same-host absolute http(s) link is a
    page keyed by its normalised URL; a related-host one names a new target;
    a string that does not parse is a root-relative page when, with trailing
    slashes stripped, it starts with `/`, keyed by the full `https://` URL;
    everything else is dropped.
   */
  function Classify(h: Href, target: Host): (c: Candidate)
    requires WellFormedHref(h)
    ensures c.NewTarget? <==>
              h.parsed.Some? && IsWebScheme(h.parsed.value.scheme) && h.parsed.value.host.Some? &&
              CompareHosts(h.parsed.value.host.value, target) == Related
    ensures c.NewTarget? ==> c.target.host == h.parsed.value.host.value
    ensures c.Page? && h.parsed.Some? <==>
              h.parsed.Some? && IsWebScheme(h.parsed.value.scheme) && h.parsed.value.host == Some(target)
    ensures c.Page? && h.parsed.None? <==>
              h.parsed.None? && StartsWith(TrimEnd(h.raw, '/'), "/")
    ensures c.Page? ==> c.key != [] && !EndsWith(c.key, '/')
  {
    match h.parsed
    case Some(u) =>
      if !IsWebScheme(u.scheme) then Drop
      else
        match u.host {
          case None => Drop
          case Some(linkHost) =>
            SameIffEqual(linkHost, target);
            match CompareHosts(linkHost, target) {
              case Same => Page(NormalizeKey(u), u.serialization)
              case Related => NewTarget(CrawlTarget(linkHost))
              case Unrelated => Drop
            }
        }
    case None =>
      var path := TrimEnd(h.raw, '/');
      if StartsWith(path, "/") then
        var link := RootRelative(target, path);
        Page(link, link)
      else Drop
  }

  /**
    A forwarded target is a domain other than the crawled host, lying under
    the same parent domain.
   */
  lemma ForwardedIsRelatedDomain(h: Href, target: Host)
    requires WellFormedHref(h) && Classify(h, target).NewTarget?
    ensures Classify(h, target).target.host.Domain? && target.Domain?
    ensures Classify(h, target).target.host != target
    ensures Parent(Classify(h, target).target.host.name) == Parent(target.name)
  {
    var t := Classify(h, target).target.host;
    if !(t.Domain? && target.Domain?) {
      AddressRelation(t, target);
    }
    RelatedIffSameParent(t.name, target.name);
  }

  /**
    The key of a same-host absolute link with serialisation
    `scheme://rest` followed by slashes is `rest` without trailing slashes.
   */
  lemma KeyOfSerialization(u: Url, rest: string, n: nat)
    requires IsWebScheme(u.scheme)
    requires rest != [] && rest[0] != '/'
    requires u.serialization == u.scheme + "://" + rest + Repeat('/', n)
    ensures HasAuthority(u.serialization, u.scheme)
    ensures NormalizeKey(u) == TrimEnd(rest, '/')
  {
    var tail := rest + Repeat('/', n);
    assert u.serialization == u.scheme + "://" + tail;
    AuthorityOf(u.serialization, u.scheme, tail);
    KeyText(u.serialization, u.scheme, rest, n);
  }

  /** The body of `NormalizeKey` on `scheme://rest` followed by `n` slashes. */
  lemma KeyText(s: string, scheme: string, rest: string, n: nat)
    requires ':' !in scheme
    requires rest != [] && rest[0] != '/'
    requires s == scheme + "://" + rest + Repeat('/', n)
    ensures SplitOnce(TrimEnd(s, '/'), "://") == Some((scheme, TrimEnd(rest, '/')))
  {
    TrimmedSerialization(scheme + "://", rest, n);
    SplitAfterPrefix(scheme, TrimEnd(rest, '/'));
  }

  /** `scheme://tail` splits once into the scheme and the tail. */
  lemma SplitAfterPrefix(scheme: string, tail: string)
    requires ':' !in scheme
    ensures SplitOnce(scheme + "://" + tail, "://") == Some((scheme, tail))
  {
    var t := scheme + "://" + tail;
    assert t[..|scheme| + 3] == scheme + "://";
    SplitOnceAfterScheme(t, scheme);
    assert t[|scheme| + 3..] == tail;
  }

  /** Cutting the trailing slashes of `p + rest + "//..."` only cuts into `rest`. */
  lemma TrimmedSerialization(p: string, rest: string, n: nat)
    requires rest != [] && rest[0] != '/'
    ensures TrimEnd(p + rest + Repeat('/', n), '/') == p + TrimEnd(rest, '/')
  {
    TrimEndRepeat(p + rest, '/', n);
    TrimEndPrefix(p, rest, '/');
  }

  /**
    The key ignores the scheme and trailing slashes: `http://rest/` and
    `https://rest` are the same page.
   */
  lemma KeyIgnoresSchemeAndTrailingSlashes(u1: Url, u2: Url, rest: string, n1: nat, n2: nat)
    requires IsWebScheme(u1.scheme) && IsWebScheme(u2.scheme)
    requires rest != [] && rest[0] != '/'
    requires u1.serialization == u1.scheme + "://" + rest + Repeat('/', n1)
    requires u2.serialization == u2.scheme + "://" + rest + Repeat('/', n2)
    ensures HasAuthority(u1.serialization, u1.scheme) && HasAuthority(u2.serialization, u2.scheme)
    ensures NormalizeKey(u1) == NormalizeKey(u2)
  {
    KeyOfSerialization(u1, rest, n1);
    KeyOfSerialization(u2, rest, n2);
  }

  /** Normalising is idempotent: the URL `scheme://key` normalises back to `key`. */
  lemma NormalizeIdempotent(u: Url, v: Url)
    requires IsWebScheme(u.scheme) && HasAuthority(u.serialization, u.scheme)
    requires IsWebScheme(v.scheme) && v.serialization == v.scheme + "://" + NormalizeKey(u)
    ensures HasAuthority(v.serialization, v.scheme)
    ensures NormalizeKey(v) == NormalizeKey(u)
  {
    var key := NormalizeKey(u);
    assert v.serialization == v.scheme + "://" + key + Repeat('/', 0);
    KeyOfSerialization(v, key, 0);
  }

  /** `https://x.com/a` is keyed by `x.com/a`. */
  lemma SecurePageKey(h: Host, rest: string)
    requires rest == "x.com/a"
    ensures NormalizeKey(Url("https", Some(h), "https://x.com/a")) == rest
  {
    var u := Url("https", Some(h), "https://x.com/a");
    assert u.serialization == u.scheme + "://" + rest + Repeat('/', 0);
    KeyOfSerialization(u, rest, 0);
    assert !EndsWith(rest, '/');
  }

  /** `http://x.com/a/` is keyed by `x.com/a` as well: the two spellings are one page. */
  lemma PlainPageWithSlashKey(h: Host, rest: string)
    requires rest == "x.com/a"
    ensures NormalizeKey(Url("http", Some(h), "http://x.com/a/")) == rest
  {
    var u := Url("http", Some(h), "http://x.com/a/");
    assert u.serialization == u.scheme + "://" + rest + Repeat('/', 1);
    KeyOfSerialization(u, rest, 1);
    assert !EndsWith(rest, '/');
  }

  /**
    The root page `scheme://<host>/` of the target is keyed by the bare host
    text, which is what the crawled-URL set is seeded with.
   */
  lemma RootPageKeyIsHostText(target: Host, scheme: string, raw: string)
    requires IsWebScheme(scheme)
    requires HostText(target) != [] && HostText(target)[0] != '/' && !EndsWith(HostText(target), '/')
    ensures var u := Url(scheme, Some(target), scheme + "://" + HostText(target) + "/");
            WellFormed(u) && Classify(Href(raw, Some(u)), target) == Page(HostText(target), u.serialization)
  {
    var t := HostText(target);
    var u := Url(scheme, Some(target), scheme + "://" + t + "/");
    assert u.serialization == scheme + "://" + t + Repeat('/', 1);
    SameHostPage(raw, u, target, t, 1);
    assert TrimEnd(t, '/') == t;
  }

  /** A link made only of slashes (such as a bare `/`) trims to nothing and is dropped. */
  lemma SlashesOnlyDropped(n: nat, target: Host)
    ensures Classify(Href(Repeat('/', n), None), target) == Drop
  {
    assert Repeat('/', n) == [] + Repeat('/', n);
    TrimEndRepeat([], '/', n);
  }

  /** A non-http(s) or host-less URL is dropped whatever its host relation. */
  lemma UnsupportedDropped(h: Href, target: Host)
    requires h.parsed.Some? && WellFormed(h.parsed.value)
    requires !IsWebScheme(h.parsed.value.scheme) || h.parsed.value.host.None?
    ensures Classify(h, target) == Drop
  {
  }

  /** A serialisation `scheme://rest` has an authority when `rest` starts with a non-`/` character. */
  lemma AuthorityOf(s: string, scheme: string, rest: string)
    requires s == scheme + "://" + rest && rest != [] && rest[0] != '/'
    ensures HasAuthority(s, scheme)
  {
    assert s[..|scheme| + 3] == scheme + "://";
    assert s[|scheme| + 3] == rest[0];
  }

  /** An http(s) link to a related host names that host as a new target. */
  lemma RelatedLinkForwarded(raw: string, u: Url, target: Host)
    requires WellFormed(u) && IsWebScheme(u.scheme) && u.host.Some?
    requires CompareHosts(u.host.value, target) == Related
    ensures Classify(Href(raw, Some(u)), target) == NewTarget(CrawlTarget(u.host.value))
  {
  }

  /** An http(s) link to an unrelated host is dropped. */
  lemma UnrelatedLinkDropped(raw: string, u: Url, target: Host)
    requires WellFormed(u) && IsWebScheme(u.scheme) && u.host.Some?
    requires CompareHosts(u.host.value, target) == Unrelated
    ensures Classify(Href(raw, Some(u)), target) == Drop
  {
    SameIffEqual(u.host.value, target);
  }

  /** An unparsable link starting with `/` is the root-relative page keyed by its full URL. */
  lemma RootRelativePage(raw: string, target: Host)
    requires StartsWith(TrimEnd(raw, '/'), "/")
    ensures Classify(Href(raw, None), target) ==
              Page(RootRelative(target, TrimEnd(raw, '/')), RootRelative(target, TrimEnd(raw, '/')))
  {
  }

  /** Trailing slashes on a link that does not parse change nothing: `/about/` is `/about`. */
  lemma RootRelativeTrailingSlashes(raw: string, n: nat, target: Host)
    ensures Classify(Href(raw + Repeat('/', n), None), target) == Classify(Href(raw, None), target)
  {
    TrimEndRepeat(raw, '/', n);
  }

  /** A same-host http(s) link `scheme://rest` is the page keyed by `rest`, trailing slashes cut. */
  lemma SameHostPage(raw: string, u: Url, target: Host, rest: string, n: nat)
    requires IsWebScheme(u.scheme) && u.host == Some(target)
    requires rest != [] && rest[0] != '/'
    requires u.serialization == u.scheme + "://" + rest + Repeat('/', n)
    ensures WellFormed(u)
    ensures Classify(Href(raw, Some(u)), target) == Page(TrimEnd(rest, '/'), u.serialization)
  {
    KeyOfSerialization(u, rest, n);
    SameIffEqual(target, target);
  }
}
