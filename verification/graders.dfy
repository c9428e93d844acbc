/** The graders: each category starts at 100 and loses a fixed deduction
    per failed check; the category letter comes from one shared scale, and
    the overall score is the rounded mean of the four category scores. */
module Graders {
  import opened Common
  import Onpage
  import Tech
  import Performance
  import Social
  import Local

  /* ---------------- the letter scale ---------------- */

  datatype Letter = APlus | A | AMinus | B | C | D | F

  function LetterOf(s: int): Letter {
    if s >= 97 then APlus
    else if s >= 90 then A
    else if s >= 80 then AMinus
    else if s >= 70 then B
    else if s >= 60 then C
    else if s >= 50 then D
    else F
  }

  /** The letters from worst to best. */
  function Rank(l: Letter): nat {
    match l
    case F => 0
    case D => 1
    case C => 2
    case B => 3
    case AMinus => 4
    case A => 5
    case APlus => 6
  }

  /** The lowest score of each letter's band, as a table. */
  const Bands: seq<(int, Letter)> := [(97, APlus), (90, A), (80, AMinus), (70, B), (60, C), (50, D)]

  /** The first band whose floor the score reaches, else F. */
  function BandOf(s: int, bands: seq<(int, Letter)>): Letter
    decreases |bands|
  {
    if |bands| == 0 then F
    else if s >= bands[0].0 then bands[0].1
    else BandOf(s, bands[1..])
  }

  /** A category grade: the clamped score and the letter of the unclamped one. */
  datatype Grade = Grade(score: int, letter: Letter)

  /** Start from 100, take off every deduction, clamp the score to [0, 100]
      and letter the unclamped total. */
  function Settle(deductions: seq<int>): Grade {
    var s := 100 - SumInts(deductions);
    Grade(Clamp(s, 0, 100), LetterOf(s))
  }

  /* ---------------- on-page ---------------- */

  /** The deductions, in the order `gradeOnpage` applies them. */
  function OnpageDeductions(o: Onpage.OnpageReport): seq<int> {
    [ if !o.title.ok then 14 else 0,
      if !o.metaDescription.ok then 14 else 0,
      if o.headingUsage.levels.h1 != 1 then 16 else 0,
      if o.headingUsage.levels.h2 == 0 || o.headingUsage.levels.h3 == 0 then 14 else 0,
      if o.contentAmount.thin then 20 else 0,
      if o.altMissing > 0 then 15 else 0,
      if !o.lang.present then 6 else 0 ]
  }

  const OnpageMax: seq<int> := [14, 14, 16, 14, 20, 15, 6]

  function GradeOnpage(o: Onpage.OnpageReport): Grade {
    Settle(OnpageDeductions(o))
  }

  /* ---------------- technical (the local record is not consulted) ---------------- */

  /** The broken-link tier is keyed on how many links were checked. */
  function BrokenTier(checked: nat): int {
    if checked == 0 then 0
    else if checked > 8 then 14
    else if checked > 5 then 10
    else 5
  }

  function SchemaTier(s: Tech.SchemaOrg): int {
    if s.optimized then 0 else if s.present then 5 else 15
  }

  function RobotsTier(r: Tech.Robots): int {
    if !r.present then 8 else if !r.optimized then 4 else 0
  }

  function SitemapTier(m: Tech.Sitemap): int {
    if !m.present then 12 else if !m.optimized then 6 else 0
  }

  function NoindexTier(n: Tech.TechNoindex): int {
    if !n.present then 0 else if n.header && n.meta then 8 else 6
  }

  /** The deductions in order; the canonical check reads the on-page record. */
  function TechDeductions(t: Tech.TechReport, o: Onpage.OnpageReport): seq<int> {
    [ if !t.ssl then 15 else 0,
      if !o.canonical.present then 10 else 0,
      if !t.httpsRedirect then 8 else 0,
      BrokenTier(|t.brokenLinks.list|),
      SchemaTier(t.schemaOrg),
      RobotsTier(t.robots),
      SitemapTier(t.sitemap),
      NoindexTier(t.noindex),
      if !t.viewport then 5 else 0,
      if !t.favicon then 5 else 0 ]
  }

  const TechMax: seq<int> := [15, 10, 8, 14, 15, 8, 12, 8, 5, 5]

  function GradeTechLocal(t: Tech.TechReport, l: Local.LocalReport, o: Onpage.OnpageReport): Grade {
    Settle(TechDeductions(t, o))
  }

  /* ---------------- performance ---------------- */

  /** `downloadSizeMB > 5` and `> 2`, on the size in hundredths of a megabyte. */
  function SizeTier(hundredths: nat): int {
    if hundredths > 500 then 30 else if hundredths > 200 then 15 else 0
  }

  /** The PageSpeed tier on the mean of the scores present; none without scores. */
  function PsiTier(scores: seq<int>): int {
    var n := |scores|;
    var sum := SumInts(scores);
    if n == 0 then 0
    else if sum >= 90 * n then 0
    else if sum >= 80 * n then 10
    else if sum >= 50 * n then 24
    else 35
  }

  function PerformanceDeductions(p: Performance.PerformanceReport): seq<int> {
    [ SizeTier(p.downloadHundredths),
      if !p.brotliOrGzip then 15 else 0,
      if !p.http2 then 20 else 0,
      PsiTier(Performance.PsiScores(p.pageSpeedInsights)) ]
  }

  const PerformanceMax: seq<int> := [30, 15, 20, 35]

  function GradePerformance(p: Performance.PerformanceReport): Grade {
    Settle(PerformanceDeductions(p))
  }

  /* ---------------- social ---------------- */

  /** A link counts when it is there and non-empty. */
  predicate Truthy(v: Option<string>) {
    v.Some? && v.value != ""
  }

  function SocialDeductions(s: Social.SocialReport): seq<int> {
    [ if !Truthy(s.links.facebook) then 15 else 0,
      if !Truthy(s.links.instagram) then 15 else 0,
      if !Truthy(s.links.twitter) then 15 else 0,
      if !Truthy(s.links.linkedin) then 15 else 0,
      if !Truthy(s.links.youtube) then 15 else 0,
      if !s.openGraph.present then 15 else 0,
      if !s.twitterCards.present then 10 else 0 ]
  }

  const SocialMax: seq<int> := [15, 15, 15, 15, 15, 15, 10]

  function GradeSocial(s: Social.SocialReport): Grade {
    Settle(SocialDeductions(s))
  }

  /* ---------------- all grades ---------------- */

  /** The five analyzer records an audit collects. */
  datatype Sections = Sections(
    onpage: Onpage.OnpageReport,
    tech: Tech.TechReport,
    performance: Performance.PerformanceReport,
    social: Social.SocialReport,
    local: Local.LocalReport)

  datatype Grades = Grades(onpage: Grade, performance: Grade, social: Grade, techlocal: Grade, overall: Grade)

  /** `Math.round(sum / 4)`: halves round up. */
  function RoundQuarter(sum: int): int {
    (sum + 2) / 4
  }

  function GradeAll(x: Sections): Grades {
    var on := GradeOnpage(x.onpage);
    var pe := GradePerformance(x.performance);
    var so := GradeSocial(x.social);
    var tl := GradeTechLocal(x.tech, x.local, x.onpage);
    var overall := RoundQuarter(on.score + pe.score + so.score + tl.score);
    Grades(on, pe, so, tl, Grade(overall, LetterOf(overall)))
  }

  /* ---------------- properties ---------------- */

  /** A higher score never earns a worse letter. */
  lemma LetterMonotone(a: int, b: int)
    requires a <= b
    ensures Rank(LetterOf(a)) <= Rank(LetterOf(b))
  {
  }

  /** The letter is the first band, from the top, whose floor the score reaches. */
  lemma LetterIsBand(s: int)
    ensures LetterOf(s) == BandOf(s, Bands)
  {
    assert Bands[1..][1..][1..][1..][1..][1..] == [];
  }

  /** Deductions each between zero and their maximum sum to at most the
      maximums' sum. */
  predicate Within(ds: seq<int>, ms: seq<int>) {
    |ds| == |ms| && forall i :: 0 <= i < |ds| ==> 0 <= ds[i] <= ms[i]
  }

  lemma {:induction false} SumWithin(ds: seq<int>, ms: seq<int>)
    requires Within(ds, ms)
    ensures 0 <= SumInts(ds) <= SumInts(ms)
    decreases |ds|
  {
    if |ds| > 0 {
      assert Within(ds[1..], ms[1..]) by {
        forall i | 0 <= i < |ds[1..]| ensures 0 <= ds[1..][i] <= ms[1..][i] {
          assert ds[1..][i] == ds[i + 1] && ms[1..][i] == ms[i + 1];
        }
      }
      SumWithin(ds[1..], ms[1..]);
    }
  }

  /** One step of the sum from the k-th element on. */
  lemma SumDrop(xs: seq<int>, k: nat)
    requires k < |xs|
    ensures SumInts(xs[k..]) == xs[k] + SumInts(xs[k + 1..])
  {
    assert xs[k..][1..] == xs[k + 1..];
  }

  /** The sums of the fixed-length deduction lists, spelled out. */
  lemma SumOfFour(xs: seq<int>)
    requires |xs| == 4
    ensures SumInts(xs) == xs[0] + xs[1] + xs[2] + xs[3]
  {
    assert xs[0..] == xs && xs[4..] == [];
    SumDrop(xs, 0); SumDrop(xs, 1); SumDrop(xs, 2); SumDrop(xs, 3);
  }

  lemma SumOfSeven(xs: seq<int>)
    requires |xs| == 7
    ensures SumInts(xs) == xs[0] + xs[1] + xs[2] + xs[3] + xs[4] + xs[5] + xs[6]
  {
    assert xs[0..] == xs && xs[7..] == [];
    SumDrop(xs, 0); SumDrop(xs, 1); SumDrop(xs, 2); SumDrop(xs, 3);
    SumDrop(xs, 4); SumDrop(xs, 5); SumDrop(xs, 6);
  }

  lemma SumOfTen(xs: seq<int>)
    requires |xs| == 10
    ensures SumInts(xs) == xs[0] + xs[1] + xs[2] + xs[3] + xs[4] + xs[5] + xs[6] + xs[7] + xs[8] + xs[9]
  {
    assert xs[0..] == xs && xs[10..] == [];
    SumDrop(xs, 0); SumDrop(xs, 1); SumDrop(xs, 2); SumDrop(xs, 3); SumDrop(xs, 4);
    SumDrop(xs, 5); SumDrop(xs, 6); SumDrop(xs, 7); SumDrop(xs, 8); SumDrop(xs, 9);
  }

  /** When the deductions cannot exceed 100 the clamp never binds: the
      score is 100 minus the deductions, and the letter is the score's. */
  lemma SettleUnclamped(ds: seq<int>, ms: seq<int>)
    requires Within(ds, ms) && SumInts(ms) <= 100
    ensures Settle(ds).score == 100 - SumInts(ds)
    ensures 100 - SumInts(ms) <= Settle(ds).score <= 100
    ensures Settle(ds).letter == LetterOf(Settle(ds).score)
  {
    SumWithin(ds, ms);
  }

  /** On-page deductions total at most 99, so the score lies in [1, 100]. */
  lemma OnpageRange(o: Onpage.OnpageReport)
    ensures 1 <= GradeOnpage(o).score <= 100
    ensures GradeOnpage(o).score == 100 - SumInts(OnpageDeductions(o))
    ensures GradeOnpage(o).letter == LetterOf(GradeOnpage(o).score)
  {
    SumOfSeven(OnpageMax);
    SettleUnclamped(OnpageDeductions(o), OnpageMax);
  }

  /** Only the h3 level missing: 100 - 14 = 86, an A-. */
  lemma OnpageOnlyH3Missing(o: Onpage.OnpageReport)
    requires o.title.ok && o.metaDescription.ok && o.headingUsage.levels.h1 == 1
    requires o.headingUsage.levels.h2 > 0 && o.headingUsage.levels.h3 == 0
    requires !o.contentAmount.thin && o.altMissing == 0 && o.lang.present
    ensures GradeOnpage(o) == Grade(86, AMinus)
  {
    SumOfSeven(OnpageDeductions(o));
  }

  /** Technical deductions total at most 100, so the score lies in [0, 100]. */
  lemma TechRange(t: Tech.TechReport, l: Local.LocalReport, o: Onpage.OnpageReport)
    ensures 0 <= GradeTechLocal(t, l, o).score <= 100
    ensures GradeTechLocal(t, l, o).score == 100 - SumInts(TechDeductions(t, o))
    ensures GradeTechLocal(t, l, o).letter == LetterOf(GradeTechLocal(t, l, o).score)
  {
    SumOfTen(TechMax);
    TechWithin(t, o);
    SettleUnclamped(TechDeductions(t, o), TechMax);
  }

  lemma TechWithin(t: Tech.TechReport, o: Onpage.OnpageReport)
    ensures Within(TechDeductions(t, o), TechMax)
  {
    var ds := TechDeductions(t, o);
    assert 0 <= ds[3] <= 14 && 0 <= ds[4] <= 15 && 0 <= ds[5] <= 8;
    assert 0 <= ds[6] <= 12 && 0 <= ds[7] <= 8;
  }

  /** The broken-link tier grows with the number of links checked, whether
      or not any is broken: nine healthy links cost 14 points. */
  lemma BrokenTierCountsChecked(a: nat, b: nat, t: Tech.TechReport, l: Local.LocalReport, o: Onpage.OnpageReport)
    requires a <= b
    ensures BrokenTier(a) <= BrokenTier(b)
    ensures |t.brokenLinks.list| == 9 && t.brokenLinks.brokenCount == 0 ==> TechDeductions(t, o)[3] == 14
  {
  }

  /** The technical grade ignores the local record, and its canonical
      check reads the on-page record, not the technical one. */
  lemma TechSources(t: Tech.TechReport, l1: Local.LocalReport, l2: Local.LocalReport, o: Onpage.OnpageReport, c: Tag)
    ensures GradeTechLocal(t, l1, o) == GradeTechLocal(t, l2, o)
    ensures GradeTechLocal(t.(canonical := c), l1, o) == GradeTechLocal(t, l1, o)
  {
  }

  /** Performance deductions total at most 100, so the score lies in [0, 100]. */
  lemma PerformanceRange(p: Performance.PerformanceReport)
    ensures 0 <= GradePerformance(p).score <= 100
    ensures GradePerformance(p).score == 100 - SumInts(PerformanceDeductions(p))
    ensures GradePerformance(p).letter == LetterOf(GradePerformance(p).score)
  {
    SumOfFour(PerformanceMax);
    SettleUnclamped(PerformanceDeductions(p), PerformanceMax);
  }

  /** The PageSpeed tier reads the mean of the scores present: a better
      mean never costs more, and no score at all costs nothing. */
  lemma PsiTierMonotone(s1: seq<int>, s2: seq<int>)
    requires |s1| == |s2| && SumInts(s1) <= SumInts(s2)
    ensures PsiTier(s2) <= PsiTier(s1)
    ensures 0 <= PsiTier(s1) <= 35
    ensures PsiTier([]) == 0
  {
  }

  /** A larger download never raises the performance score. */
  lemma HeavierPageScoresLower(p: Performance.PerformanceReport, h1: nat, h2: nat)
    requires h1 <= h2
    ensures GradePerformance(p.(downloadHundredths := h2)).score <= GradePerformance(p.(downloadHundredths := h1)).score
  {
    PerformanceRange(p.(downloadHundredths := h1));
    PerformanceRange(p.(downloadHundredths := h2));
  }

  /** Social deductions total exactly 100. */
  lemma SocialRange(s: Social.SocialReport)
    ensures 0 <= GradeSocial(s).score <= 100
    ensures GradeSocial(s).score == 100 - SumInts(SocialDeductions(s))
    ensures GradeSocial(s).letter == LetterOf(GradeSocial(s).score)
  {
    SumOfSeven(SocialMax);
    SettleUnclamped(SocialDeductions(s), SocialMax);
  }

  /** No signal at all: 0 and F; every signal: 100 and A+. */
  lemma SocialExtremes(s: Social.SocialReport)
    ensures (!Truthy(s.links.facebook) && !Truthy(s.links.instagram) && !Truthy(s.links.twitter)
      && !Truthy(s.links.linkedin) && !Truthy(s.links.youtube)
      && !s.openGraph.present && !s.twitterCards.present) ==> GradeSocial(s) == Grade(0, F)
    ensures (Truthy(s.links.facebook) && Truthy(s.links.instagram) && Truthy(s.links.twitter)
      && Truthy(s.links.linkedin) && Truthy(s.links.youtube)
      && s.openGraph.present && s.twitterCards.present) ==> GradeSocial(s) == Grade(100, APlus)
  {
    SumOfSeven(SocialDeductions(s));
  }

  /** `Math.round` of a quarter: the nearest integer, halves going up. */
  lemma RoundQuarterNearest(sum: int)
    ensures 4 * RoundQuarter(sum) - 2 <= sum < 4 * RoundQuarter(sum) + 2
  {
  }

  /** The overall score is the rounded mean of the four category scores;
      it lies in [0, 100] and carries its own letter. */
  lemma OverallRange(x: Sections)
    ensures var g := GradeAll(x);
      && 4 * g.overall.score - 2 <= g.onpage.score + g.performance.score + g.social.score + g.techlocal.score
      && g.onpage.score + g.performance.score + g.social.score + g.techlocal.score < 4 * g.overall.score + 2
      && 0 <= g.overall.score <= 100
      && g.overall.letter == LetterOf(g.overall.score)
  {
    var g := GradeAll(x);
    OnpageRange(x.onpage);
    TechRange(x.tech, x.local, x.onpage);
    PerformanceRange(x.performance);
    SocialRange(x.social);
    RoundQuarterNearest(g.onpage.score + g.performance.score + g.social.score + g.techlocal.score);
  }
}
