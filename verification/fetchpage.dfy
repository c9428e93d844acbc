/** The page fetcher: URL normalisation, the never-evicting result cache,
    the relaxed-TLS retry, the charset taken from the Content-Type header,
    and the first ten sub-resources with their HEAD probes. The network,
    URL resolution and the MIME table are inputs. */
module FetchPage {
  import opened Common
  import opened Text

  /** A probed resource: the tag that referenced it, its URL, its size in
      bytes and its content type ("" when unknown). */
  datatype Resource = Resource(tag: string, url: string, size: nat, contentType: string)

  /** A stylesheet link, script or image the page references. */
  datatype Element = Element(tag: string, href: Option<string>, src: Option<string>)

  /** The page as fetched: its final URL after redirects, the Content-Type
      header, the decoded HTML and the referencing elements found in it. */
  datatype Response = Response(url: string, contentType: Option<string>, html: string, elements: seq<Element>)

  /** A rejected request, with Node's error code and message. */
  datatype Failure = Failure(code: string, message: string)

  datatype Exchange = Failed(failure: Failure) | Answered(response: Response)

  /** The outcome of a HEAD probe: it threw, or it answered with these headers. */
  datatype HeadProbe = HeadThrew | HeadAnswered(contentLength: Option<nat>, contentType: Option<string>)

  /** Everything the fetcher learns from outside: the page request with and
      without certificate checks, `new URL(src, base)` (None when it throws),
      the HEAD probes, and the MIME table lookup by URL. */
  datatype Network = Network(
    strict: string -> Exchange,
    relaxed: string -> Exchange,
    resolve: (string, string) -> Option<string>,
    head: string -> HeadProbe,
    mime: string -> Option<string>)

  datatype FetchResult = FetchResult(
    finalUrl: string,
    html: string,
    contentType: string,
    charset: string,
    resources: seq<Resource>)

  type Cache = map<string, FetchResult>

  /* ---------------- URL normalisation ---------------- */

  function Normalize(input: string): (u: string)
    ensures StartsWith(u, "http")
  {
    if StartsWith(input, "http") then input else "https://" + input
  }

  /* ---------------- charset ---------------- */

  const DefaultContentType: string := "text/html; charset=utf-8"
  const DefaultCharset: string := "utf-8"

  predicate IsSemicolon(c: char) {
    c == ';'
  }

  /** `/charset=([^;]+)/i` matches at `i` of the lower-cased header `l`:
      the literal, then at least one character other than `;`. */
  predicate CharsetAt(l: string, i: int) {
    OccursAt(l, "charset=", i) && i + 8 < |l| && l[i + 8] != ';'
  }

  /** The leftmost match at or after `i`. */
  function FirstCharset(ctype: string, i: nat): (r: Option<nat>)
    requires i <= |ctype|
    ensures r.Some? ==> i <= r.value && CharsetAt(ctype, r.value)
    decreases |ctype| - i
  {
    if i == |ctype| then None
    else if CharsetAt(ctype, i) then Some(i)
    else FirstCharset(ctype, i + 1)
  }

  /** The captured group of the leftmost match, or "utf-8". Lower-casing
      keeps the length and every `;`, so the group is cut from the header
      as sent. */
  function Charset(ctype: string): string {
    match FirstCharset(Lower(ctype), 0)
    case None => DefaultCharset
    case Some(i) => ctype[i + 8..RunEnd(ctype, i + 8, IsSemicolon)]
  }

  /* ---------------- sub-resources ---------------- */

  /** The first ten sub-resources a page may probe. */
  const MaxResources: nat := 10

  /** `href || src`. */
  function Reference(e: Element): string {
    if Attr(e.href) != "" then Attr(e.href) else Attr(e.src)
  }

  /** The referencing elements resolved against the final URL, skipping
      those without a reference; a reference that cannot be resolved
      rejects the whole fetch. */
  function Discover(els: seq<Element>, base: string, resolve: (string, string) -> Option<string>): Result<seq<(string, string)>, Failure>
    decreases |els|
  {
    if |els| == 0 then Ok([])
    else
      var rest := Discover(els[1..], base, resolve);
      var ref := Reference(els[0]);
      if ref == "" then rest
      else match resolve(ref, base)
        case None => Err(Failure("ERR_INVALID_URL", "Invalid URL"))
        case Some(abs) =>
          if rest.Err? then rest else Ok([(els[0].tag, abs)] + rest.value)
  }

  /** A HEAD probe's resource: size from Content-Length (0 when absent),
      type from Content-Type, then the MIME table, then "". */
  function Probe(tag: string, url: string, net: Network): Resource {
    match net.head(url)
    case HeadThrew => Resource(tag, url, 0, "")
    case HeadAnswered(length, ctype) =>
      var t := if Attr(ctype) != "" then Attr(ctype) else Attr(net.mime(url));
      Resource(tag, url, length.GetOr(0), t)
  }

  function ProbeAll(found: seq<(string, string)>, net: Network): (r: seq<Resource>)
    ensures |r| == |found|
    ensures forall i :: 0 <= i < |found| ==> r[i] == Probe(found[i].0, found[i].1, net)
    decreases |found|
  {
    if |found| == 0 then [] else [Probe(found[0].0, found[0].1, net)] + ProbeAll(found[1..], net)
  }

  /* ---------------- the fetch ---------------- */

  /** The certificate errors that earn a retry without verification. */
  predicate IsCertificateError(f: Failure) {
    f.code == "UNABLE_TO_VERIFY_LEAF_SIGNATURE" || Contains(f.message, "unable to get local issuer certificate")
  }

  function Request(u: string, net: Network): Result<Response, Failure> {
    match net.strict(u)
    case Answered(resp) => Ok(resp)
    case Failed(f) =>
      if !IsCertificateError(f) then Err(f)
      else match net.relaxed(u)
        case Answered(resp) => Ok(resp)
        case Failed(f2) => Err(f2)
  }

  function Build(resp: Response, net: Network): Result<FetchResult, Failure> {
    var ctype := if Attr(resp.contentType) != "" then Attr(resp.contentType) else DefaultContentType;
    match Discover(resp.elements, resp.url, net.resolve)
    case Err(f) => Err(f)
    case Ok(found) =>
      Ok(FetchResult(resp.url, resp.html, ctype, Charset(ctype), ProbeAll(Take(found, MaxResources), net)))
  }

  /** `fetchPage(inputUrl)` against a cache: the outcome and the cache after. */
  function Fetch(cache: Cache, input: string, net: Network): (Result<FetchResult, Failure>, Cache) {
    var u := Normalize(input);
    if u in cache then (Ok(cache[u]), cache)
    else
      match Request(u, net)
      case Err(f) => (Err(f), cache)
      case Ok(resp) =>
        match Build(resp, net)
        case Err(f) => (Err(f), cache)
        case Ok(res) => (Ok(res), cache[u := res])
  }

  /* ---------------- properties ---------------- */

  /** Normalising twice changes nothing. */
  lemma NormalizeIdempotent(input: string)
    ensures Normalize(Normalize(input)) == Normalize(input)
    ensures StartsWith(input, "http") ==> Normalize(input) == input
    ensures !StartsWith(input, "http") ==> Normalize(input) == "https://" + input
  {
  }

  /** A cached URL is answered from the cache whatever the network would
      do, and the cache is left as it was. */
  lemma CacheHit(cache: Cache, input: string, net1: Network, net2: Network)
    requires Normalize(input) in cache
    ensures Fetch(cache, input, net1) == Fetch(cache, input, net2)
    ensures Fetch(cache, input, net1) == (Ok(cache[Normalize(input)]), cache)
  {
  }

  /** The cache only grows: a success stores its result under the
      normalised URL, a failure stores nothing, nothing is evicted. */
  lemma CacheGrows(cache: Cache, input: string, net: Network)
    ensures var (r, after) := Fetch(cache, input, net);
      && (forall k :: k in cache ==> k in after && after[k] == cache[k])
      && (r.Ok? ==> Normalize(input) in after && after[Normalize(input)] == r.value)
      && (r.Err? ==> after == cache)
      && after.Keys <= cache.Keys + {Normalize(input)}
  {
  }

  /** After a success, a second call with the same input (or any input
      that normalises the same) returns the same result, with any network. */
  lemma StoredThenServed(cache: Cache, input: string, again: string, net: Network, later: Network)
    requires Fetch(cache, input, net).0.Ok?
    requires Normalize(again) == Normalize(input)
    ensures Fetch(Fetch(cache, input, net).1, again, later) == (Fetch(cache, input, net).0, Fetch(cache, input, net).1)
  {
    CacheGrows(cache, input, net);
  }

  /** A strict failure that is not a certificate error. */
  predicate FinalFailure(e: Exchange) {
    e.Failed? && !IsCertificateError(e.failure)
  }

  /** The outcome of one exchange taken as final. */
  function Outcome(e: Exchange): Result<Response, Failure> {
    match e
    case Answered(resp) => Ok(resp)
    case Failed(f) => Err(f)
  }

  /** The retry without certificate checks is transparent except after a
      certificate error: the request succeeds exactly when the strict
      client answers or, after a certificate error, the relaxed one does;
      the relaxed client is never consulted otherwise; and when both
      clients behave alike the outcome is the strict client's. */
  lemma RetryOnlyOnCertificate(u: string, net: Network)
    ensures Request(u, net).Ok? <==>
      net.strict(u).Answered? || (net.strict(u).Failed? && IsCertificateError(net.strict(u).failure) && net.relaxed(u).Answered?)
    ensures !(net.strict(u).Failed? && IsCertificateError(net.strict(u).failure)) ==>
      forall other: string -> Exchange :: Request(u, net.(relaxed := other)) == Outcome(net.strict(u))
    ensures net.relaxed(u) == net.strict(u) ==> Request(u, net) == Outcome(net.strict(u))
    ensures FinalFailure(net.strict(u)) ==> Request(u, net) == Err(net.strict(u).failure)
  {
  }

  /** Without a match the charset is "utf-8". */
  lemma CharsetDefault(ctype: string)
    requires forall i :: 0 <= i < |ctype| ==> !CharsetAt(Lower(ctype), i)
    ensures Charset(ctype) == DefaultCharset
  {
    FirstCharsetLeftmost(Lower(ctype), 0);
  }

  /** With a leftmost match at `i`, the charset is the text after its
      `charset=` (any letter case) up to the next `;` or the end: never
      empty and never holding a `;`. */
  lemma CharsetCaptured(ctype: string, i: nat)
    requires i < |ctype| && CharsetAt(Lower(ctype), i)
    requires forall j :: 0 <= j < i ==> !CharsetAt(Lower(ctype), j)
    ensures |Charset(ctype)| > 0
    ensures OccursAt(ctype, Charset(ctype), i + 8)
    ensures forall k :: 0 <= k < |Charset(ctype)| ==> Charset(ctype)[k] != ';'
    ensures i + 8 + |Charset(ctype)| == |ctype| || ctype[i + 8 + |Charset(ctype)|] == ';'
  {
    var e := CharsetSlice(ctype, i);
    var c := ctype[i + 8..e];
    assert forall k :: 0 <= k < |c| ==> c[k] == ctype[i + 8 + k];
  }

  /** The leftmost match's group runs from after `charset=` to the first
      `;` or the end, and holds at least one character. */
  lemma CharsetSlice(ctype: string, i: nat) returns (e: nat)
    requires i < |ctype| && CharsetAt(Lower(ctype), i)
    requires forall j :: 0 <= j < i ==> !CharsetAt(Lower(ctype), j)
    ensures i + 8 < e <= |ctype| && e == RunEnd(ctype, i + 8, IsSemicolon)
    ensures Charset(ctype) == ctype[i + 8..e]
  {
    var l := Lower(ctype);
    FirstIsLeftmost(l, i);
    assert l[i + 8] == LowerChar(ctype[i + 8]);
    e := RunEnd(ctype, i + 8, IsSemicolon);
  }

  lemma FirstIsLeftmost(l: string, i: nat)
    requires i < |l| && CharsetAt(l, i)
    requires forall j :: 0 <= j < i ==> !CharsetAt(l, j)
    ensures FirstCharset(l, 0) == Some(i)
  {
    FirstCharsetLeftmost(l, 0);
  }

  lemma {:induction false} FirstCharsetLeftmost(ctype: string, i: nat)
    requires i <= |ctype|
    ensures FirstCharset(ctype, i).None? <==> forall j :: i <= j < |ctype| ==> !CharsetAt(ctype, j)
    ensures FirstCharset(ctype, i).Some? ==> forall j :: i <= j < FirstCharset(ctype, i).value ==> !CharsetAt(ctype, j)
    decreases |ctype| - i
  {
    if i < |ctype| {
      FirstCharsetLeftmost(ctype, i + 1);
    }
  }

  /** A response without Content-Type is read as UTF-8 HTML. */
  lemma DefaultIsUtf8()
    ensures Charset(DefaultContentType) == "utf-8"
  {
    var c := DefaultContentType;
    DefaultLower();
    forall j | 0 <= j < 11 ensures !CharsetAt(c, j) {
      NoCharsetBefore(c, j);
    }
    assert OccursAt(c, "charset=", 11);
    FirstIsLeftmost(c, 11);
    DefaultCapture(c);
  }

  lemma DefaultCapture(c: string)
    requires c == DefaultContentType
    ensures RunEnd(c, 19, IsSemicolon) == |c| && c[19..] == "utf-8"
  {
    assert forall k :: 19 <= k < |c| ==> c[k] != ';';
  }

  lemma DefaultLower()
    ensures Lower(DefaultContentType) == DefaultContentType
  {
  }

  lemma NoCharsetBefore(c: string, j: int)
    requires c == DefaultContentType && Lower(c) == c && 0 <= j < 11
    ensures !CharsetAt(c, j)
  {
    assert c[j] != 'c';
  }

  /** The resources are the first ten references in document order, each
      probed once; a failed probe gives size 0 and type "". */
  lemma ResourceCap(resp: Response, net: Network)
    ensures Build(resp, net).Ok? ==>
      var found := Discover(resp.elements, resp.url, net.resolve).value;
      var rs := Build(resp, net).value.resources;
      && |rs| == Min(MaxResources, |found|)
      && forall i :: 0 <= i < |rs| ==>
        (rs[i].tag == found[i].0 && rs[i].url == found[i].1
         && (net.head(found[i].1).HeadThrew? ==> rs[i].size == 0 && rs[i].contentType == ""))
  {
  }

  /** Discovery keeps one entry per element with a reference, in order, and
      fails exactly when some reference cannot be resolved. */
  lemma {:induction false} DiscoverRule(els: seq<Element>, base: string, resolve: (string, string) -> Option<string>)
    ensures Discover(els, base, resolve).Err? <==>
      exists i :: 0 <= i < |els| && Reference(els[i]) != "" && resolve(Reference(els[i]), base).None?
    ensures Discover(els, base, resolve).Ok? ==>
      |Discover(els, base, resolve).value| == |RefsOf(els)|
      && forall i :: 0 <= i < |RefsOf(els)| ==>
        && Discover(els, base, resolve).value[i].0 == RefsOf(els)[i].tag
        && resolve(Reference(RefsOf(els)[i]), base) == Some(Discover(els, base, resolve).value[i].1)
    decreases |els|
  {
    if |els| > 0 {
      DiscoverRule(els[1..], base, resolve);
      var tail := els[1..];
      assert forall i :: 1 <= i < |els| ==> els[i] == tail[i - 1];
      if exists i :: 0 <= i < |tail| && Reference(tail[i]) != "" && resolve(Reference(tail[i]), base).None? {
        var i :| 0 <= i < |tail| && Reference(tail[i]) != "" && resolve(Reference(tail[i]), base).None?;
        assert els[i + 1] == tail[i];
      }
    }
  }

  /** The elements that carry a reference, in order. */
  function RefsOf(els: seq<Element>): (r: seq<Element>)
    ensures forall e :: e in r ==> Reference(e) != ""
    decreases |els|
  {
    if |els| == 0 then []
    else (if Reference(els[0]) != "" then [els[0]] else []) + RefsOf(els[1..])
  }
}
