/** The technical analyzer: the broken-link scan over the page's absolute
    links, the robots.txt and sitemap checks on fetched bodies, schema.org
    detection, the robots-noindex signals, HTTPS, analytics, viewport,
    favicon and iframe flags. Every network exchange is an input value. */
module Tech {
  import opened Common
  import opened Text
  import Onpage

  /* ---------------- broken links ---------------- */

  /** An `a[href]` element: its `href` and its text content. */
  datatype Anchor = Anchor(href: string, text: string)

  /** `/^https?:\/\//i`. */
  predicate IsHttpUrl(u: string) {
    StartsWith(Lower(u), "http://") || StartsWith(Lower(u), "https://")
  }

  /** At most this many links are probed. */
  const MaxLinks: nat := 30

  /** The anchors with a non-empty absolute http(s) `href`, in document order. */
  function HttpAnchors(anchors: seq<Anchor>): (r: seq<Anchor>)
    ensures forall a :: a in r <==> a in anchors && IsHttpUrl(a.href)
    ensures |r| <= |anchors|
    decreases |anchors|
  {
    if |anchors| == 0 then []
    else
      var rest := HttpAnchors(anchors[1..]);
      assert forall a :: a in anchors <==> a == anchors[0] || a in anchors[1..];
      if anchors[0].href != "" && IsHttpUrl(anchors[0].href) then [anchors[0]] + rest else rest
  }

  /** One request of the probe: it threw, or it answered with a status code
      (0 standing for a missing code). */
  datatype Attempt = Threw | Answered(code: nat)

  /** The requests one link may cost: HEAD, then a GET, then a second GET. */
  datatype LinkProbes = LinkProbes(head: Attempt, get: Attempt, retry: Attempt)

  /** `testLink`. A HEAD answering with a code below 400 is believed; a
      missing or error code falls back to GET. When that GET throws, the
      `catch` issues a second GET; when HEAD itself throws, the GET of the
      `catch` is the first one. Anything unanswered is status 0. */
  function ProbeStatus(p: LinkProbes): nat {
    match p.head
    case Threw =>
      (match p.get case Threw => 0 case Answered(c) => c)
    case Answered(h) =>
      if h != 0 && h < 400 then h
      else match p.get
        case Answered(g) => g
        case Threw => (match p.retry case Threw => 0 case Answered(c) => c)
  }

  /** How many requests the probe issues. */
  function RequestsIssued(p: LinkProbes): nat {
    match p.head
    case Threw => 2
    case Answered(h) =>
      if h != 0 && h < 400 then 1
      else if p.get.Answered? then 2
      else 3
  }

  /** Status 0 (unreachable) or a client error other than 403 and 429. */
  predicate IsBroken(status: nat) {
    status == 0 || (400 <= status < 500 && status != 403 && status != 429)
  }

  datatype CheckedLink = CheckedLink(url: string, anchorText: string, status: nat)

  datatype BrokenLinks = BrokenLinks(
    totalChecked: nat,
    brokenCount: nat,
    brokenExamples: seq<CheckedLink>,
    ok: bool,
    list: seq<CheckedLink>)

  function BrokenOnly(list: seq<CheckedLink>): (r: seq<CheckedLink>)
    ensures forall l :: l in r <==> l in list && IsBroken(l.status)
    ensures |r| <= |list|
    decreases |list|
  {
    if |list| == 0 then []
    else
      var rest := BrokenOnly(list[1..]);
      assert forall l :: l in list <==> l == list[0] || l in list[1..];
      if IsBroken(list[0].status) then [list[0]] + rest else rest
  }

  /** `checkBrokenLinks`: `probes(i)` is what the network does for the i-th
      checked link. */
  function CheckBrokenLinks(anchors: seq<Anchor>, probes: nat -> LinkProbes): BrokenLinks {
    var limited := Take(HttpAnchors(anchors), MaxLinks);
    if |limited| == 0 then BrokenLinks(0, 0, [], true, [])
    else
      var list := seq(|limited|, i requires 0 <= i < |limited| =>
        CheckedLink(limited[i].href, Trim(limited[i].text), ProbeStatus(probes(i))));
      var broken := BrokenOnly(list);
      BrokenLinks(|limited|, |broken|, Take(broken, 5), |broken| == 0, list)
  }

  /* ---------------- robots.txt and sitemap ---------------- */

  /** A GET of a well-known file: it threw, or it answered. */
  datatype Fetch = FetchThrew | Fetched(status: int, body: string, contentType: Option<string>)

  datatype Robots = Robots(present: bool, optimized: bool, content: string, status: Option<int>)

  predicate Is2xx(status: int) {
    200 <= status < 300
  }

  /** The robots.txt check. */
  function RobotsCheck(f: Fetch): Robots {
    match f
    case FetchThrew => Robots(false, false, "", None)
    case Fetched(status, body, _) =>
      var content := Trim(body);
      if Is2xx(status) && content != "" then
        var lower := Lower(content);
        Robots(true, Contains(lower, "user-agent") || Contains(lower, "disallow") || Contains(lower, "sitemap"),
               content, Some(status))
      else Robots(false, false, "", Some(status))
  }

  /** `https?:\/\/` at `j`, case-insensitively: where the rest of the URL starts. */
  function Scheme(s: string, j: nat): (k: Option<nat>)
    ensures k.Some? ==> j + 7 <= k.value <= |s|
  {
    if CIAt(s, "https://", j) then Some(j + 8)
    else if CIAt(s, "http://", j) then Some(j + 7)
    else None
  }

  predicate IsLt(c: char) {
    c == '<'
  }

  /** Where a match of `<loc>(https?:\/\/[^<]+)<\/loc>` (flag i) that starts
      at `i` ends. `[^<]+` stops at the first `<`, which must open `</loc>`. */
  function LocEnd(s: string, i: nat): (e: Option<nat>)
    ensures e.Some? ==> i + 19 <= e.value <= |s|
  {
    if !CIAt(s, "<loc>", i) then None
    else match Scheme(s, i + 5)
      case None => None
      case Some(k) =>
        var m := RunEnd(s, k, IsLt);
        if m > k && CIAt(s, "</loc>", m) then Some(m + 6) else None
  }

  /** `body.match(/<loc>(https?:\/\/[^<]+)<\/loc>/gi).length`, scanning from `i`. */
  function LocCount(s: string, i: nat): nat
    decreases |s| - i
  {
    if i >= |s| then 0
    else match LocEnd(s, i)
      case Some(e) => 1 + LocCount(s, e)
      case None => LocCount(s, i + 1)
  }

  /** The characters `[^\s<>"']` excludes. */
  predicate UrlStop(c: char) {
    IsSpace(c) || c == '<' || c == '>' || c == '"' || c == '\''
  }

  /** Where a match of `https?:\/\/[^\s<>"']+` (flag i) that starts at `i` ends. */
  function RawEnd(s: string, i: nat): (e: Option<nat>)
    ensures e.Some? ==> i + 8 <= e.value <= |s|
  {
    match Scheme(s, i)
    case None => None
    case Some(k) =>
      var m := RunEnd(s, k, UrlStop);
      if m > k then Some(m) else None
  }

  /** `body.match(/https?:\/\/[^\s<>"']+/gi)`, scanning from `i`. */
  function RawUrls(s: string, i: nat): seq<string>
    decreases |s| - i
  {
    if i >= |s| then []
    else match RawEnd(s, i)
      case Some(e) => [s[i..e]] + RawUrls(s, e)
      case None => RawUrls(s, i + 1)
  }

  function WithHost(urls: seq<string>, host: string): (r: seq<string>)
    ensures forall u :: u in r <==> u in urls && Contains(u, host)
    decreases |urls|
  {
    if |urls| == 0 then []
    else
      var rest := WithHost(urls[1..], host);
      assert forall u :: u in urls <==> u == urls[0] || u in urls[1..];
      if Contains(urls[0], host) then [urls[0]] + rest else rest
  }

  datatype Sitemap = Sitemap(present: bool, optimized: bool, urlCount: nat, status: Option<int>)

  /** The sitemap check; `host` is the host name of the audited site. */
  function SitemapCheck(f: Fetch, host: string): Sitemap {
    match f
    case FetchThrew => Sitemap(false, false, 0, None)
    case Fetched(status, body, contentType) =>
      if Is2xx(status) && |body| > 0 then
        var count := if Contains(Lower(Attr(contentType)), "xml") then LocCount(body, 0)
                     else |WithHost(RawUrls(body, 0), host)|;
        Sitemap(true, count > 0, count, Some(status))
      else Sitemap(false, false, 0, Some(status))
  }

  /* ---------------- schema.org ---------------- */

  datatype SchemaOrg = SchemaOrg(present: bool, optimized: bool)

  predicate MentionsSchema(block: Option<string>) {
    ContainsCI(Attr(block), "schema.org")
  }

  function CountSchema(blocks: seq<Option<string>>): (n: nat)
    ensures n <= |blocks|
    ensures n > 0 <==> exists b :: b in blocks && MentionsSchema(b)
    decreases |blocks|
  {
    if |blocks| == 0 then 0
    else
      assert forall b :: b in blocks <==> b == blocks[0] || b in blocks[1..];
      (if MentionsSchema(blocks[0]) then 1 else 0) + CountSchema(blocks[1..])
  }

  /** Schema detection over the JSON-LD blocks (their inner HTML, absent
      when null) and the number of microdata/RDFa elements naming schema.org. */
  function SchemaCheck(jsonLd: seq<Option<string>>, microdata: nat): SchemaOrg {
    var n := |jsonLd|;
    var k := CountSchema(jsonLd);
    var found := n > 0 && k > 0;
    var optimized := n > 0 && k == 1 && n == 1;
    if found then SchemaOrg(found, optimized)
    else SchemaOrg(microdata > 0, microdata > 0 && n <= 1)
  }

  /* ---------------- the whole analyzer ---------------- */

  datatype TechNoindex = TechNoindex(header: bool, meta: bool, present: bool)

  datatype TechReport = TechReport(
    ssl: bool,
    httpsRedirect: bool,
    robots: Robots,
    sitemap: Sitemap,
    canonical: Tag,
    schemaOrg: SchemaOrg,
    analytics: bool,
    noindex: TechNoindex,
    brokenLinks: BrokenLinks,
    viewport: bool,
    favicon: bool,
    iframes: bool)

  /** What the analyzer reads from the page and the network. */
  datatype TechInput = TechInput(
    finalUrl: string,
    host: string,                        // host name of the site, lower case
    html: string,                        // the serialized document
    canonical: Option<string>,
    robotsHeader: Option<string>,        // X-Robots-Tag
    jsonLd: seq<Option<string>>,
    microdata: nat,
    anchors: seq<Anchor>,
    metaRobots: seq<Option<string>>,     // `content` of every meta[name=robots]
    viewport: Option<string>,            // `content` of the first meta[name=viewport]
    iconLinks: nat,
    iframes: nat,
    robotsFetch: Fetch,
    sitemapFetch: Fetch,
    linkProbes: nat -> LinkProbes)

  const AnalyticsMarkers: seq<string> :=
    ["gtag(", "googletagmanager", "ga(", "google-analytics.com", "plausible.io", "umami.is"]

  predicate AnyNoindex(contents: seq<Option<string>>) {
    exists c :: c in contents && Contains(Lower(Attr(c)), "noindex")
  }

  /** `tech(base)`. */
  /** The noindex signals: the X-Robots-Tag header, and every robots meta tag. */
  function NoindexOf(robotsHeader: Option<string>, metaRobots: seq<Option<string>>): TechNoindex {
    var header := Contains(Lower(Attr(robotsHeader)), "noindex");
    var meta := AnyNoindex(metaRobots);
    TechNoindex(header, meta, header || meta)
  }

  function Analyze(x: TechInput): TechReport {
    var https := StartsWith(x.finalUrl, "https://");
    TechReport(
      https,
      https,
      RobotsCheck(x.robotsFetch),
      SitemapCheck(x.sitemapFetch, x.host),
      Tagged(x.canonical),
      SchemaCheck(x.jsonLd, x.microdata),
      exists m :: m in AnalyticsMarkers && ContainsCI(x.html, m),
      NoindexOf(x.robotsHeader, x.metaRobots),
      CheckBrokenLinks(x.anchors, x.linkProbes),
      x.viewport.Some? && Contains(x.viewport.value, "width=device-width"),
      x.iconLinks > 0,
      x.iframes > 0)
  }

  /* ---------------- properties ---------------- */

  /** The selection is an order-preserving filter: the http(s) anchors of
      two stretches of the page are those of the first followed by those of
      the second. */
  lemma {:induction false} HttpAnchorsAppend(a: seq<Anchor>, b: seq<Anchor>)
    ensures HttpAnchors(a + b) == HttpAnchors(a) + HttpAnchors(b)
    decreases |a|
  {
    if |a| == 0 {
      assert a + b == b;
    } else {
      var ab := a + b;
      assert ab[0] == a[0] && ab[1..] == a[1..] + b;
      HttpAnchorsAppend(a[1..], b);
    }
  }

  /** A single anchor is selected exactly when its `href` is an absolute
      http(s) url. */
  lemma HttpAnchorsOne(x: Anchor)
    ensures HttpAnchors([x]) == if IsHttpUrl(x.href) then [x] else []
  {
    assert [x][1..] == [];
    assert x in [x];
  }

  /** The probed links are the first thirty http(s) anchors, in document
      order: a prefix of the selection, all of it when it has fewer than
      thirty entries. */
  lemma LinkSelection(anchors: seq<Anchor>)
    ensures Take(HttpAnchors(anchors), MaxLinks) == HttpAnchors(anchors)[..Min(30, |HttpAnchors(anchors)|)]
    ensures forall a :: a in Take(HttpAnchors(anchors), MaxLinks) ==> a in anchors && IsHttpUrl(a.href)
    ensures |Take(HttpAnchors(anchors), MaxLinks)| < 30 ==>
      forall a :: a in anchors && IsHttpUrl(a.href) ==> a in Take(HttpAnchors(anchors), MaxLinks)
  {
    var h := HttpAnchors(anchors);
    var t := Take(h, MaxLinks);
    forall a | a in t ensures a in h {
      var j :| 0 <= j < |t| && t[j] == a;
      assert h[j] == a;
    }
  }

  /** A page without absolute links reports the empty, passing result. */
  lemma NoLinks(anchors: seq<Anchor>, probes: nat -> LinkProbes)
    requires forall a :: a in anchors ==> !IsHttpUrl(a.href)
    ensures CheckBrokenLinks(anchors, probes) == BrokenLinks(0, 0, [], true, [])
  {
    NoHttpAnchors(anchors);
  }

  lemma {:induction false} NoHttpAnchors(anchors: seq<Anchor>)
    requires forall a :: a in anchors ==> !IsHttpUrl(a.href)
    ensures HttpAnchors(anchors) == []
    decreases |anchors|
  {
    if |anchors| > 0 {
      assert anchors[0] in anchors;
      NoHttpAnchors(anchors[1..]);
    }
  }

  /** The code a request yields: its status, or 0 when it threw. */
  function CodeOf(a: Attempt): nat {
    match a
    case Threw => 0
    case Answered(c) => c
  }

  /** A request after which the probe goes on: any request that threw, and
      a HEAD answering without a code or with an error code. */
  predicate GoesOn(a: Attempt, isHead: bool) {
    a.Threw? || (isHead && (a.code == 0 || a.code >= 400))
  }

  /** The requests of one probe in the order they are sent: each is sent
      only when the one before it goes on, and there are never more than
      three. */
  function Sent(p: LinkProbes): (r: seq<Attempt>)
    ensures 1 <= |r| <= 3 && r[0] == p.head
  {
    if !GoesOn(p.head, true) then [p.head]
    else if !GoesOn(p.get, false) || p.head.Threw? then [p.head, p.get]
    else [p.head, p.get, p.retry]
  }

  /** The fallback chain: the status is the code of the last request sent,
      and every request before it went on. HEAD answering below 400 is
      final; when HEAD throws, one GET decides. */
  lemma ProbeChain(p: LinkProbes)
    ensures ProbeStatus(p) == CodeOf(Sent(p)[|Sent(p)| - 1])
    ensures RequestsIssued(p) == |Sent(p)|
    ensures GoesOn(Sent(p)[0], true) <==> |Sent(p)| > 1
    ensures |Sent(p)| == 3 ==> GoesOn(Sent(p)[1], false)
    ensures p.head.Threw? ==> |Sent(p)| == 2
  {
  }

  /** Broken means unreachable or a client error other than 403 and 429:
      success, redirect and server-error codes never count. */
  lemma BrokenClasses(status: nat)
    ensures 200 <= status < 400 ==> !IsBroken(status)
    ensures 500 <= status ==> !IsBroken(status)
    ensures status == 403 || status == 429 ==> !IsBroken(status)
    ensures status == 0 || status == 404 || status == 410 ==> IsBroken(status)
  {
  }

  /** The summary counts: every checked link is listed, the broken count is
      the number of broken links listed, the examples are the first five of
      them, and `ok` holds exactly when no listed link is broken. */
  lemma {:induction false} BrokenSummary(anchors: seq<Anchor>, probes: nat -> LinkProbes)
    ensures var r := CheckBrokenLinks(anchors, probes);
      && r.totalChecked == |r.list| <= 30
      && r.brokenCount <= r.totalChecked
      && r.brokenCount == |BrokenOnly(r.list)|
      && r.brokenExamples == Take(BrokenOnly(r.list), 5)
      && (forall l :: l in r.brokenExamples ==> l in r.list && IsBroken(l.status))
      && (r.ok <==> forall l :: l in r.list ==> !IsBroken(l.status))
      && (forall i :: 0 <= i < |r.list| ==> r.list[i].status == ProbeStatus(probes(i)))
      && |r.list| == Min(30, |HttpAnchors(anchors)|)
      && (forall i :: 0 <= i < |r.list| ==>
            r.list[i].url == HttpAnchors(anchors)[i].href && r.list[i].anchorText == Trim(HttpAnchors(anchors)[i].text))
  {
    var r := CheckBrokenLinks(anchors, probes);
    var b := BrokenOnly(r.list);
    forall l | l in r.brokenExamples ensures l in b {
      var j :| 0 <= j < |r.brokenExamples| && r.brokenExamples[j] == l;
      assert b[j] == l;
    }
    if r.ok {
      assert |b| == 0;
    } else {
      assert b[0] in b;
    }
  }

  /** robots.txt is present when the fetch answered 2xx with a body that is
      not all white space. */
  lemma RobotsPresent(f: Fetch)
    ensures RobotsCheck(f).optimized ==> RobotsCheck(f).present
    ensures RobotsCheck(f).present <==> f.Fetched? && Is2xx(f.status) && !Blank(f.body)
  {
    if f.Fetched? {
      TrimEmptyIffBlank(f.body);
    }
  }

  /** The directive test on the trimmed body agrees with the test on the raw body. */
  lemma RobotsOptimized(f: Fetch)
    ensures RobotsCheck(f).optimized <==> (RobotsCheck(f).present
      && (ContainsCI(f.body, "user-agent") || ContainsCI(f.body, "disallow") || ContainsCI(f.body, "sitemap")))
  {
    if f.Fetched? {
      DirectiveTrim(f.body, "user-agent");
      DirectiveTrim(f.body, "disallow");
      DirectiveTrim(f.body, "sitemap");
    }
  }

  /** One directive word: its test on the trimmed, lower-cased body is its
      case-insensitive test on the raw body. */
  lemma DirectiveTrim(body: string, p: string)
    requires p == "user-agent" || p == "disallow" || p == "sitemap"
    ensures Contains(Lower(Trim(body)), p) <==> ContainsCI(body, p)
  {
    assert |p| > 0 && !IsSpace(p[0]) && !IsSpace(p[|p| - 1]);
    ContainsTrim(body, p);
  }

  /** The `<loc>` counter is positive exactly when some `<loc>` match exists. */
  lemma {:induction false} LocCountPositive(s: string, i: nat)
    ensures LocCount(s, i) > 0 <==> exists j :: i <= j < |s| && LocEnd(s, j).Some?
    decreases |s| - i
  {
    if i < |s| {
      var here := LocEnd(s, i);
      if here.Some? {
        assert LocCount(s, i) == 1 + LocCount(s, here.value);
      } else {
        assert LocCount(s, i) == LocCount(s, i + 1);
        LocCountPositive(s, i + 1);
        if exists j :: i <= j < |s| && LocEnd(s, j).Some? {
          var j :| i <= j < |s| && LocEnd(s, j).Some?;
          assert j != i;
        }
      }
    }
  }

  /** Every `<loc>` match spans at least nineteen characters, so the count
      is bounded by the body length. */
  lemma {:induction false} LocCountBound(s: string, i: nat)
    ensures 19 * LocCount(s, i) <= |s| - i || (i >= |s| && LocCount(s, i) == 0)
    decreases |s| - i
  {
    if i < |s| {
      match LocEnd(s, i)
      case Some(e) =>
        LocCountBound(s, e);
      case None =>
        LocCountBound(s, i + 1);
    }
  }

  /** A sitemap is optimized exactly when it is present and lists a URL;
      for an XML sitemap, exactly when it holds a `<loc>` entry with an
      absolute http(s) URL. */
  lemma SitemapRule(f: Fetch, host: string)
    ensures SitemapCheck(f, host).optimized <==> SitemapCheck(f, host).present && SitemapCheck(f, host).urlCount > 0
    ensures SitemapCheck(f, host).present <==> f.Fetched? && Is2xx(f.status) && |f.body| > 0
    ensures f.Fetched? && Is2xx(f.status) && |f.body| > 0 && Contains(Lower(Attr(f.contentType)), "xml") ==>
      (SitemapCheck(f, host).optimized <==> exists j :: 0 <= j < |f.body| && LocEnd(f.body, j).Some?)
    ensures f.Fetched? && Is2xx(f.status) && |f.body| > 0 && !Contains(Lower(Attr(f.contentType)), "xml") ==>
      (SitemapCheck(f, host).optimized <==> exists u :: u in RawUrls(f.body, 0) && Contains(u, host))
  {
    if f.Fetched? {
      LocCountPositive(f.body, 0);
      var w := WithHost(RawUrls(f.body, 0), host);
      if |w| > 0 {
        assert w[0] in w;
      }
    }
  }

  /** Schema.org: optimized implies present; a block naming schema.org makes
      it present; a single JSON-LD block naming it is optimized; with no
      such block, microdata decides presence, and it is optimized unless
      there are two or more JSON-LD blocks. */
  lemma SchemaRule(jsonLd: seq<Option<string>>, microdata: nat)
    ensures SchemaCheck(jsonLd, microdata).optimized ==> SchemaCheck(jsonLd, microdata).present
    ensures SchemaCheck(jsonLd, microdata).present <==>
      (exists b :: b in jsonLd && MentionsSchema(b)) || microdata > 0
    ensures |jsonLd| == 1 && MentionsSchema(jsonLd[0]) ==> SchemaCheck(jsonLd, microdata).optimized
    ensures (forall b :: b in jsonLd ==> !MentionsSchema(b)) ==>
      SchemaCheck(jsonLd, microdata) == SchemaOrg(microdata > 0, microdata > 0 && |jsonLd| <= 1)
    ensures |jsonLd| >= 2 ==> !SchemaCheck(jsonLd, microdata).optimized
  {
    if |jsonLd| == 1 {
      assert jsonLd[0] in jsonLd;
    }
  }

  /** Noindex is present when either signal mentions it, in any letter case. */
  lemma TechFlags(robotsHeader: Option<string>, metaRobots: seq<Option<string>>)
    ensures NoindexOf(robotsHeader, metaRobots).present <==> NoindexOf(robotsHeader, metaRobots).header || NoindexOf(robotsHeader, metaRobots).meta
    ensures NoindexOf(robotsHeader, metaRobots).meta <==> exists c :: c in metaRobots && ContainsCI(Attr(c), "noindex")
  {
  }

  /** Both `ssl` and `httpsRedirect` report only the final url's scheme,
      matched case-sensitively: no redirect is observed, and a final url
      under plain http is never reported secure. */
  lemma HttpsFlags(x: TechInput)
    ensures Analyze(x).ssl == Analyze(x).httpsRedirect
    ensures Analyze(x).ssl <==> |x.finalUrl| >= 8 && x.finalUrl[..8] == "https://"
    ensures |x.finalUrl| >= 7 && x.finalUrl[..7] == "http://" ==> !Analyze(x).ssl
  {
    if |x.finalUrl| >= 8 && x.finalUrl[..8] == "https://" {
      assert x.finalUrl[..8][4] == 's';
    }
  }

  /** The on-page and technical noindex signals agree: the header flag is
      the same, and the on-page meta flag, which reads only the first robots
      meta tag, implies the technical one, which reads them all; they are
      equal when no later robots meta tag mentions `noindex`. */
  lemma NoindexAgrees(o: Onpage.OnpageInput, t: TechInput)
    requires o.robotsHeader == t.robotsHeader
    requires o.metaRobots == if |t.metaRobots| == 0 then None else t.metaRobots[0]
    ensures Onpage.Analyze(o).noindex.header == Analyze(t).noindex.header
    ensures Onpage.Analyze(o).noindex.meta ==> Analyze(t).noindex.meta
    ensures Onpage.Analyze(o).noindex.blocked ==> Analyze(t).noindex.present
    ensures (forall j :: 1 <= j < |t.metaRobots| ==> !ContainsCI(Attr(t.metaRobots[j]), "noindex")) ==>
      (Onpage.Analyze(o).noindex.meta <==> Analyze(t).noindex.meta)
  {
    assert Onpage.Analyze(o).noindex == Onpage.NoindexOf(o.metaRobots, o.robotsHeader);
    assert Analyze(t).noindex == NoindexOf(t.robotsHeader, t.metaRobots);
    SignalsAgree(o.metaRobots, t.robotsHeader, t.metaRobots);
  }

  lemma SignalsAgree(first: Option<string>, header: Option<string>, metas: seq<Option<string>>)
    requires first == if |metas| == 0 then None else metas[0]
    ensures Onpage.NoindexOf(first, header).header == NoindexOf(header, metas).header
    ensures Onpage.NoindexOf(first, header).meta ==> NoindexOf(header, metas).meta
    ensures Onpage.NoindexOf(first, header).blocked ==> NoindexOf(header, metas).present
    ensures (forall j :: 1 <= j < |metas| ==> !ContainsCI(Attr(metas[j]), "noindex")) ==>
      (Onpage.NoindexOf(first, header).meta <==> NoindexOf(header, metas).meta)
  {
    Onpage.NoindexSignals(first, header);
    TechFlags(header, metas);
    LowerIdempotent(Attr(header));
    if |metas| > 0 {
      assert metas[0] in metas;
      if forall j :: 1 <= j < |metas| ==> !ContainsCI(Attr(metas[j]), "noindex") {
        forall c | c in metas && ContainsCI(Attr(c), "noindex") ensures c == metas[0] {
          var j :| 0 <= j < |metas| && metas[j] == c;
        }
      }
    }
  }
}
