/** The on-page analyzer: title and meta-description length windows, the
    heading census, the visible word count, missing `alt` attributes, the
    language, hreflang and canonical tags, the SERP preview and the
    robots-noindex signals. The document is given as the strings and
    sequences the analyzer extracts from it. */
module Onpage {
  import opened Common
  import opened Text
  import opened Keywords

  /** What the analyzer reads from the parsed page and its response headers. */
  datatype OnpageInput = OnpageInput(
    titleText: string,                 // text of the first <title>, "" when there is none
    metaDescription: Option<string>,   // `content` of the first meta[name=description]
    h1Texts: seq<string>,              // text of every <h1>, in document order
    h2: nat, h3: nat, h4: nat, h5: nat, h6: nat,
    lang: Option<string>,              // the `lang` attribute of <html>
    hreflangs: seq<string>,            // `hreflang` of every alternate link carrying one
    canonical: Option<string>,         // `href` of the first canonical link
    bodyText: string,                  // text content of <body>
    imageAlts: seq<Option<string>>,    // the `alt` attribute of every <img>
    metaRobots: Option<string>,        // `content` of the first meta[name=robots]
    robotsHeader: Option<string>,      // the X-Robots-Tag response header
    finalUrl: string,
    keywordSource: KeywordSource)

  datatype LengthCheck = LengthCheck(value: string, length: nat, ok: bool)
  datatype Levels = Levels(h1: nat, h2: nat, h3: nat, h4: nat, h5: nat, h6: nat, allH1: seq<string>)
  datatype HeadingUsage = HeadingUsage(h1Present: bool, h1Values: seq<string>, levels: Levels)
  datatype ContentAmount = ContentAmount(wordCount: nat, thin: bool)
  datatype Hreflang = Hreflang(values: seq<string>, present: bool)
  datatype SerpPreview = SerpPreview(title: string, url: string, description: string)
  datatype Noindex = Noindex(meta: bool, header: bool, blocked: bool)

  datatype OnpageReport = OnpageReport(
    title: LengthCheck,
    metaDescription: LengthCheck,
    headingUsage: HeadingUsage,
    keywordConsistency: KeywordConsistency,
    contentAmount: ContentAmount,
    altMissing: nat,
    lang: Tag,
    hreflang: Hreflang,
    canonical: Tag,
    serpPreview: SerpPreview,
    noindex: Noindex)

  /** The title length window. */
  const TitleMin: nat := 40
  const TitleMax: nat := 60
  /** The meta-description length window. */
  const MetaMin: nat := 130
  const MetaMax: nat := 160
  /** Fewer words than this make the page thin. */
  const ThinBelow: nat := 500

  /** A length window test on `value.length`, which counts UTF-16 code units. */
  function Check(value: string, lo: nat, hi: nat): LengthCheck {
    LengthCheck(value, Utf16Length(value), lo <= Utf16Length(value) <= hi)
  }

  /** `texts.map(trim).filter(Boolean)`. */
  function TrimmedNonEmpty(texts: seq<string>): (r: seq<string>)
    ensures |r| <= |texts|
    ensures forall j :: 0 <= j < |r| ==> |r[j]| > 0
    decreases |texts|
  {
    if |texts| == 0 then [] else Kept(texts[0]) + TrimmedNonEmpty(texts[1..])
  }

  /** What one text contributes: itself trimmed, unless that is empty. */
  function Kept(t: string): (r: seq<string>)
    ensures |r| <= 1
    ensures forall j :: 0 <= j < |r| ==> |r[j]| > 0
  {
    if |Trim(t)| > 0 then [Trim(t)] else []
  }

  /** `bodyText.replace(/\s+/g, " ").trim().split(" ").filter(Boolean)`. */
  function Words(body: string): seq<string> {
    NonEmpty(SplitOn(Trim(Collapse(body)), ' '))
  }

  /** Images whose `alt` is missing or empty. */
  function AltMissing(alts: seq<Option<string>>): nat
    decreases |alts|
  {
    if |alts| == 0 then 0
    else (if Attr(alts[0]) == "" then 1 else 0) + AltMissing(alts[1..])
  }

  /** The case-insensitive `noindex` test. */
  predicate SaysNoindex(s: string) {
    ContainsCI(s, "noindex")
  }

  /** The noindex signals: the first robots meta tag's `content` and the
      X-Robots-Tag header, each lower-cased, then tested case-insensitively. */
  function NoindexOf(metaRobots: Option<string>, robotsHeader: Option<string>): Noindex {
    var meta := SaysNoindex(Lower(Attr(metaRobots)));
    var header := SaysNoindex(Lower(Attr(robotsHeader)));
    Noindex(meta, header, meta || header)
  }

  /** `onpage(base)`. */
  function Analyze(x: OnpageInput): OnpageReport {
    var title := Trim(x.titleText);
    var metaDesc := Trim(Attr(x.metaDescription));
    var allH1 := TrimmedNonEmpty(x.h1Texts);
    var levels := Levels(|allH1|, x.h2, x.h3, x.h4, x.h5, x.h6, allH1);
    var wordCount := |Words(x.bodyText)|;
    OnpageReport(
      Check(title, TitleMin, TitleMax),
      Check(metaDesc, MetaMin, MetaMax),
      HeadingUsage(|allH1| > 0, allH1, levels),
      CheckKeywordConsistency(x.keywordSource),
      ContentAmount(wordCount, wordCount < ThinBelow),
      AltMissing(x.imageAlts),
      Tagged(x.lang),
      Hreflang(x.hreflangs, |x.hreflangs| > 0),
      Tagged(x.canonical),
      SerpPreview(title, x.finalUrl, metaDesc),
      NoindexOf(x.metaRobots, x.robotsHeader))
  }

  /* ---------------- properties ---------------- */

  /** The word count is the number of maximal runs of non-white-space
      characters in the body text. */
  lemma {:induction false} WordsAreRuns(body: string)
    ensures Words(body) == Runs(body, NotSpace)
  {
    var t := Trim(Collapse(body));
    BlankOnlyTrimCollapse(body);
    SplitIsRuns(t, ' ', NotSpace);
    RunsTrim(Collapse(body), NotSpace);
    RunsCollapse(body, NotSpace);
  }

  lemma WordCountIsRuns(x: OnpageInput)
    ensures Analyze(x).contentAmount.wordCount == |Runs(x.bodyText, NotSpace)|
    ensures Analyze(x).contentAmount.thin <==> |Runs(x.bodyText, NotSpace)| < 500
  {
    WordsAreRuns(x.bodyText);
  }

  /** The title is reported trimmed, as the SERP preview shows it, with its
      length in UTF-16 code units; the window test applies to that length,
      which is the character count when no character lies outside the Basic
      Multilingual Plane. */
  lemma TitleWindow(x: OnpageInput)
    ensures Analyze(x).title.value == Trim(x.titleText) == Analyze(x).serpPreview.title
    ensures Trim(Analyze(x).title.value) == Analyze(x).title.value
    ensures Analyze(x).title.length == Utf16Length(Trim(x.titleText))
    ensures Analyze(x).title.ok <==> 40 <= Utf16Length(Trim(x.titleText)) <= 60
    ensures (forall i :: 0 <= i < |x.titleText| ==> InBmp(x.titleText[i])) ==>
      (Analyze(x).title.ok <==> 40 <= |Trim(x.titleText)| <= 60)
  {
    TrimmedCheck(x.titleText, TitleMin, TitleMax);
  }

  /** The same for the meta description, an absent one counting as empty. */
  lemma MetaWindow(x: OnpageInput)
    ensures Analyze(x).metaDescription.value == Trim(Attr(x.metaDescription)) == Analyze(x).serpPreview.description
    ensures Trim(Analyze(x).metaDescription.value) == Analyze(x).metaDescription.value
    ensures Analyze(x).metaDescription.length == Utf16Length(Trim(Attr(x.metaDescription)))
    ensures Analyze(x).metaDescription.ok <==> 130 <= Utf16Length(Trim(Attr(x.metaDescription))) <= 160
    ensures (forall i :: 0 <= i < |Attr(x.metaDescription)| ==> InBmp(Attr(x.metaDescription)[i])) ==>
      (Analyze(x).metaDescription.ok <==> 130 <= |Trim(Attr(x.metaDescription))| <= 160)
  {
    TrimmedCheck(Attr(x.metaDescription), MetaMin, MetaMax);
  }

  lemma TrimmedCheck(s: string, lo: nat, hi: nat)
    ensures Check(Trim(s), lo, hi).ok <==> lo <= Utf16Length(Trim(s)) <= hi
    ensures Trim(Check(Trim(s), lo, hi).value) == Check(Trim(s), lo, hi).value
    ensures Check(Trim(s), lo, hi).length == Utf16Length(Trim(s))
    ensures (forall i :: 0 <= i < |s| ==> InBmp(s[i])) ==> Utf16Length(Trim(s)) == |Trim(s)|
  {
    TrimIdempotent(s);
    if forall i :: 0 <= i < |s| ==> InBmp(s[i]) {
      TrimBmp(s);
    }
  }

  /** Trimming text with no character outside the Basic Multilingual Plane
      leaves such text, one code unit per character. */
  lemma TrimBmp(s: string)
    requires forall i :: 0 <= i < |s| ==> InBmp(s[i])
    ensures Utf16Length(Trim(s)) == |Trim(s)|
  {
    var a, b := TrimSlice(s);
    assert forall i :: 0 <= i < b - a ==> s[a..b][i] == s[a + i];
    Utf16LengthBmp(s[a..b]);
  }

  /** A 60-character title holding one emoji is 61 code units long and fails
      the window that the same title in plain letters passes. */
  lemma EmojiTitleTooLong()
    ensures var t := seq(59, i => 'a') + ['\U{1F600}'];
      |t| == 60 && Utf16Length(t) == 61 && !Check(t, TitleMin, TitleMax).ok
      && Check(seq(60, i => 'a'), TitleMin, TitleMax).ok
  {
    var plain := seq(59, i => 'a');
    Utf16LengthBmp(plain);
    Utf16LengthAppend(plain, ['\U{1F600}']);
    var longer := seq(60, i => 'a');
    Utf16LengthBmp(longer);
  }

  /** The kept heading texts of a concatenation are those of each part, one
      after the other. */
  lemma {:induction false} TrimmedNonEmptyAppend(a: seq<string>, b: seq<string>)
    ensures TrimmedNonEmpty(a + b) == TrimmedNonEmpty(a) + TrimmedNonEmpty(b)
    decreases |a|
  {
    if |a| == 0 {
      assert a + b == b;
    } else {
      var ab := a + b;
      assert ab[0] == a[0] && ab[1..] == a[1..] + b;
      var k, ta, tb := Kept(a[0]), TrimmedNonEmpty(a[1..]), TrimmedNonEmpty(b);
      TrimmedNonEmptyAppend(a[1..], b);
      assert TrimmedNonEmpty(ab) == k + (ta + tb);
      assert k + (ta + tb) == (k + ta) + tb;
    }
  }

  /** A single heading text is kept, trimmed, exactly when it is not blank.
      With `TrimmedNonEmptyAppend` this makes the h1 values the trimmed
      non-blank h1 texts, in document order. */
  lemma TrimmedNonEmptyOne(t: string)
    ensures TrimmedNonEmpty([t]) == if Blank(t) then [] else [Trim(t)]
  {
    TrimEmptyIffBlank(t);
    assert [t][1..] == [];
  }

  /** The indices of the non-blank texts. */
  function NonBlankAt(texts: seq<string>): set<int> {
    set i | 0 <= i < |texts| && !Blank(texts[i])
  }

  /** As many texts are kept as there are non-blank ones. */
  lemma {:induction false} TrimmedNonEmptyCount(texts: seq<string>)
    ensures |TrimmedNonEmpty(texts)| == |NonBlankAt(texts)|
    decreases |texts|
  {
    if |texts| > 0 {
      var n := |texts| - 1;
      var init, t := texts[..n], texts[n];
      assert init + [t] == texts;
      TrimmedNonEmptyCount(init);
      CountSnoc(init, t);
    }
  }

  lemma CountSnoc(init: seq<string>, t: string)
    requires |TrimmedNonEmpty(init)| == |NonBlankAt(init)|
    ensures |TrimmedNonEmpty(init + [t])| == |NonBlankAt(init + [t])|
  {
    TrimmedNonEmptyAppend(init, [t]);
    TrimmedNonEmptyOne(t);
    NonBlankSnoc(init, t);
  }

  lemma NonBlankSnoc(init: seq<string>, t: string)
    ensures NonBlankAt(init + [t]) == NonBlankAt(init) + (if Blank(t) then {} else {|init|})
    ensures |init| !in NonBlankAt(init)
  {
    var s := init + [t];
    assert forall i :: 0 <= i < |init| ==> s[i] == init[i];
  }

  /** Each kept heading text is trimmed, non-empty and comes from a heading. */
  lemma {:induction false} TrimmedNonEmptyMembers(texts: seq<string>)
    ensures forall v :: v in TrimmedNonEmpty(texts) ==> Trim(v) == v && exists t :: t in texts && Trim(t) == v
    ensures |TrimmedNonEmpty(texts)| > 0 <==> exists t :: t in texts && !Blank(t)
    decreases |texts|
  {
    if |texts| > 0 {
      TrimmedNonEmptyMembers(texts[1..]);
      TrimIdempotent(texts[0]);
      TrimEmptyIffBlank(texts[0]);
      var rest := TrimmedNonEmpty(texts[1..]);
      forall v | v in TrimmedNonEmpty(texts)
        ensures Trim(v) == v && exists t :: t in texts && Trim(t) == v
      {
        if v in rest {
          var t :| t in texts[1..] && Trim(t) == v;
          assert t in texts;
        } else {
          assert v == Trim(texts[0]);
        }
      }
      if exists t :: t in texts && !Blank(t) {
        var t :| t in texts && !Blank(t);
        if t != texts[0] {
          assert t in texts[1..];
        }
      }
      if exists t :: t in texts[1..] && !Blank(t) {
        var t :| t in texts[1..] && !Blank(t);
        assert t in texts;
      }
    }
  }

  /** The h1 census counts exactly the non-blank h1 headings: the count is
      the number of non-blank h1 texts, the values are trimmed, non-empty
      and taken from those texts, and the h1 is present exactly when some
      h1 text is not blank. */
  lemma H1Census(x: OnpageInput)
    ensures Analyze(x).headingUsage.levels.h1 == |Analyze(x).headingUsage.h1Values| == |NonBlankAt(x.h1Texts)|
    ensures Analyze(x).headingUsage.h1Present <==> exists t :: t in x.h1Texts && !Blank(t)
    ensures forall v :: v in Analyze(x).headingUsage.h1Values ==>
      v != "" && Trim(v) == v && exists t :: t in x.h1Texts && Trim(t) == v
  {
    TrimmedNonEmptyMembers(x.h1Texts);
    TrimmedNonEmptyCount(x.h1Texts);
    var r := TrimmedNonEmpty(x.h1Texts);
    forall v | v in r ensures v != "" {
      var j :| 0 <= j < |r| && r[j] == v;
    }
  }

  /** No image counts as missing its `alt` exactly when every image has a
      non-empty one. */
  lemma {:induction false} AltMissingNone(alts: seq<Option<string>>)
    ensures AltMissing(alts) == 0 <==> forall j :: 0 <= j < |alts| ==> alts[j].Some? && alts[j].value != ""
    ensures AltMissing(alts) <= |alts|
    decreases |alts|
  {
    if |alts| > 0 {
      AltMissingNone(alts[1..]);
      var tail := alts[1..];
      if forall j :: 0 <= j < |tail| ==> tail[j].Some? && tail[j].value != "" {
        assert forall j :: 1 <= j < |alts| ==> alts[j] == tail[j - 1];
      }
    }
  }

  /** Blocked exactly when either the first robots meta tag or the
      X-Robots-Tag header mentions `noindex` in any letter case. */
  lemma NoindexSignals(metaRobots: Option<string>, robotsHeader: Option<string>)
    ensures NoindexOf(metaRobots, robotsHeader).meta <==> SaysNoindex(Attr(metaRobots))
    ensures NoindexOf(metaRobots, robotsHeader).header <==> SaysNoindex(Attr(robotsHeader))
    ensures NoindexOf(metaRobots, robotsHeader).blocked <==> SaysNoindex(Attr(metaRobots)) || SaysNoindex(Attr(robotsHeader))
  {
    LowerIdempotent(Attr(metaRobots));
    LowerIdempotent(Attr(robotsHeader));
  }
}
