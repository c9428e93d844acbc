/** The social analyzer: the first link to each platform among the page's
    anchors, the Open Graph and Twitter card tags, and the Facebook pixel.
    Every DOM query may throw on malformed markup; a throwing query falls
    back to an empty value, so the analyzer always produces a full record. */
module Social {
  import opened Common
  import opened Text

  /** The outcome of a DOM query that may throw. */
  datatype Query<+T> = Threw | Returned(value: T)

  /** What the analyzer reads from the page. */
  datatype SocialInput = SocialInput(
    anchors: Query<seq<Query<Option<string>>>>,  // the <a> elements, each with its `href` lookup
    ogTitle: Query<Option<string>>,             // `content` of meta[property='og:title']
    ogDescription: Query<Option<string>>,
    ogImage: Query<Option<string>>,
    twitterCard: Query<Option<string>>,         // `content` of meta[name='twitter:card']
    twitterTitle: Query<Option<string>>,
    twitterDescription: Query<Option<string>>,
    pixelScripts: Query<nat>)                   // how many scripts load or call the pixel

  datatype Links = Links(
    facebook: Option<string>,
    instagram: Option<string>,
    twitter: Option<string>,
    linkedin: Option<string>,
    youtube: Option<string>)
  datatype OpenGraph = OpenGraph(present: bool, title: string, description: string, image: string)
  datatype TwitterCards = TwitterCards(present: bool, card: string, title: string, description: string)
  datatype SocialReport = SocialReport(links: Links, openGraph: OpenGraph, twitterCards: TwitterCards, facebookPixel: bool)

  /** An attribute lookup that yields "" when it throws or finds nothing. */
  function SafeGet(q: Query<Option<string>>): string {
    match q
    case Threw => ""
    case Returned(a) => Attr(a)
  }

  function Hrefs(els: seq<Query<Option<string>>>): (r: seq<string>)
    ensures |r| == |els|
    ensures forall i :: 0 <= i < |els| ==> r[i] == SafeGet(els[i])
    decreases |els|
  {
    if |els| == 0 then [] else [SafeGet(els[0])] + Hrefs(els[1..])
  }

  /** The non-empty `href`s in document order; none if the query throws. */
  function Anchors(q: Query<seq<Query<Option<string>>>>): seq<string> {
    match q
    case Threw => []
    case Returned(els) => NonEmpty(Hrefs(els))
  }

  /** The platform patterns, each a case-insensitive substring test against
      one of the lower-case literals. */
  const Facebook: seq<string> := ["facebook.com"]
  const Instagram: seq<string> := ["instagram.com"]
  const Twitter: seq<string> := ["twitter.com", "x.com"]
  const Linkedin: seq<string> := ["linkedin.com"]
  const Youtube: seq<string> := ["youtube.com", "youtu.be"]

  predicate Matches(h: string, pattern: seq<string>) {
    exists p :: p in pattern && ContainsCI(h, p)
  }

  /** The first anchor matching the pattern. */
  function Find(anchors: seq<string>, pattern: seq<string>): Option<string>
    decreases |anchors|
  {
    if |anchors| == 0 then None
    else if Matches(anchors[0], pattern) then Some(anchors[0])
    else Find(anchors[1..], pattern)
  }

  function AnyNonEmpty(a: string, b: string, c: string): bool {
    a != "" || b != "" || c != ""
  }

  /** `social(base)`. */
  function Analyze(x: SocialInput): SocialReport {
    var anchors := Anchors(x.anchors);
    var og := (SafeGet(x.ogTitle), SafeGet(x.ogDescription), SafeGet(x.ogImage));
    var tw := (SafeGet(x.twitterCard), SafeGet(x.twitterTitle), SafeGet(x.twitterDescription));
    var pixel := match x.pixelScripts
      case Threw => false
      case Returned(n) => n > 0;
    SocialReport(
      Links(Find(anchors, Facebook), Find(anchors, Instagram), Find(anchors, Twitter),
            Find(anchors, Linkedin), Find(anchors, Youtube)),
      OpenGraph(AnyNonEmpty(og.0, og.1, og.2), og.0, og.1, og.2),
      TwitterCards(AnyNonEmpty(tw.0, tw.1, tw.2), tw.0, tw.1, tw.2),
      pixel)
  }

  /* ---------------- properties ---------------- */

  /** A value a tag query contributes: present and non-empty. */
  predicate Given(q: Query<Option<string>>) {
    q.Returned? && q.value.Some? && q.value.value != ""
  }

  /** The anchors are exactly the non-empty `href`s the lookups returned. */
  lemma AnchorMembers(q: Query<seq<Query<Option<string>>>>)
    ensures q.Threw? ==> Anchors(q) == []
    ensures q.Returned? ==> forall h :: h in Anchors(q) <==>
      h != "" && exists i :: 0 <= i < |q.value| && q.value[i] == Returned(Some(h))
  {
    if q.Returned? {
      forall h ensures h in NonEmpty(Hrefs(q.value)) <==>
        h != "" && exists i :: 0 <= i < |q.value| && q.value[i] == Returned(Some(h))
      {
        HrefMember(q.value, h);
      }
    }
  }

  lemma GivenValue(q: Query<Option<string>>)
    ensures SafeGet(q) != "" ==> q == Returned(Some(SafeGet(q)))
  {
  }

  lemma HrefMember(els: seq<Query<Option<string>>>, h: string)
    ensures h in NonEmpty(Hrefs(els)) <==> h != "" && exists i :: 0 <= i < |els| && els[i] == Returned(Some(h))
  {
    var hs := Hrefs(els);
    if h in NonEmpty(hs) {
      assert h in hs;
      var i :| 0 <= i < |hs| && hs[i] == h;
      assert SafeGet(els[i]) == h;
      GivenValue(els[i]);
    }
    if h != "" && exists i :: 0 <= i < |els| && els[i] == Returned(Some(h)) {
      var i :| 0 <= i < |els| && els[i] == Returned(Some(h));
      assert hs[i] == h;
    }
  }

  /** `r` is the first anchor matching the pattern, or nothing exactly when
      no anchor matches: what `anchors.find(...)` answers. */
  predicate FirstMatch(anchors: seq<string>, pattern: seq<string>, r: Option<string>) {
    && (r.None? <==> forall i :: 0 <= i < |anchors| ==> !Matches(anchors[i], pattern))
    && (r.Some? ==>
          exists i :: 0 <= i < |anchors| && r.value == anchors[i] && Matches(anchors[i], pattern)
            && forall j :: 0 <= j < i ==> !Matches(anchors[j], pattern))
  }

  /** `Find` answers with the first matching anchor, and with nothing only
      when no anchor matches. */
  lemma {:induction false} FindFirst(anchors: seq<string>, pattern: seq<string>)
    ensures FirstMatch(anchors, pattern, Find(anchors, pattern))
    decreases |anchors|
  {
    if |anchors| > 0 {
      FindFirst(anchors[1..], pattern);
      var tail := anchors[1..];
      if !Matches(anchors[0], pattern) {
        assert forall i :: 1 <= i < |anchors| ==> anchors[i] == tail[i - 1];
        if Find(tail, pattern).Some? {
          var i :| 0 <= i < |tail| && Find(tail, pattern).value == tail[i] && Matches(tail[i], pattern)
            && forall j :: 0 <= j < i ==> !Matches(tail[j], pattern);
          assert forall j :: 0 <= j < i + 1 ==> !Matches(anchors[j], pattern);
          assert Find(anchors, pattern).value == anchors[i + 1];
        }
      } else {
        assert Find(anchors, pattern).value == anchors[0];
      }
    }
  }

  /** The twitter pattern is a bare substring test, so any link to a host
      ending in "x.com" counts as a twitter link. */
  lemma TwitterIsLoose()
    ensures Find(["https://dropbox.com/s/a"], Twitter) == Some("https://dropbox.com/s/a")
  {
    var h := "https://dropbox.com/s/a";
    var l := Lower(h);
    assert l[14..19] == "x.com";
    assert OccursAt(l, "x.com", 14);
    assert Matches(h, Twitter) by {
      assert "x.com" in Twitter && ContainsCI(h, "x.com");
    }
  }

  /** A query that throws degrades to the empty value: no links, no tags and
      no pixel when everything throws. */
  lemma EverythingThrows(x: SocialInput)
    requires x.anchors.Threw? && x.pixelScripts.Threw?
    requires x.ogTitle.Threw? && x.ogDescription.Threw? && x.ogImage.Threw?
    requires x.twitterCard.Threw? && x.twitterTitle.Threw? && x.twitterDescription.Threw?
    ensures Analyze(x) == SocialReport(Links(None, None, None, None, None),
      OpenGraph(false, "", "", ""), TwitterCards(false, "", "", ""), false)
  {
  }

  /** Each reported link is the first anchor, in document order, that
      matches its platform's pattern, and a platform has no link exactly
      when no anchor matches it. */
  lemma LinksAreFirstMatches(x: SocialInput)
    ensures FirstMatch(Anchors(x.anchors), Facebook, Analyze(x).links.facebook)
    ensures FirstMatch(Anchors(x.anchors), Instagram, Analyze(x).links.instagram)
    ensures FirstMatch(Anchors(x.anchors), Twitter, Analyze(x).links.twitter)
    ensures FirstMatch(Anchors(x.anchors), Linkedin, Analyze(x).links.linkedin)
    ensures FirstMatch(Anchors(x.anchors), Youtube, Analyze(x).links.youtube)
  {
    var a := Anchors(x.anchors);
    assert Analyze(x).links == Links(Find(a, Facebook), Find(a, Instagram), Find(a, Twitter),
                                     Find(a, Linkedin), Find(a, Youtube));
    FindFirst(a, Facebook);
    FindFirst(a, Instagram);
    FindFirst(a, Twitter);
    FindFirst(a, Linkedin);
    FindFirst(a, Youtube);
  }
}
