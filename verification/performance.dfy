/** The performance analyzer: transfer sizes by resource type, tag counts,
    the compression and HTTP/2 verdicts on a five-resource sample, the
    megabyte figure, the section's own score, and the PageSpeed Insights
    step with its screenshot validation and selection. The HEAD probes and
    the PageSpeed API calls are inputs. */
module Performance {
  import opened Common
  import opened Text
  import opened FetchPage

  /* ---------------- aggregation ---------------- */

  datatype Category = Css | Js | Image | Other

  /** The first of `/css/i`, `/javascript/i`, `/image/i` that the type matches. */
  function CategoryOf(contentType: string): Category {
    if ContainsCI(contentType, "css") then Css
    else if ContainsCI(contentType, "javascript") then Js
    else if ContainsCI(contentType, "image") then Image
    else Other
  }

  datatype Totals = Totals(total: nat, css: nat, js: nat, img: nat, other: nat)

  /** The byte totals after the loop over the resources. */
  function Aggregate(rs: seq<Resource>): Totals
    decreases |rs|
  {
    if |rs| == 0 then Totals(0, 0, 0, 0, 0)
    else
      var t := Aggregate(rs[1..]);
      var r := rs[0];
      var t' := t.(total := t.total + r.size);
      match CategoryOf(r.contentType)
      case Css => t'.(css := t.css + r.size)
      case Js => t'.(js := t.js + r.size)
      case Image => t'.(img := t.img + r.size)
      case Other => t'.(other := t.other + r.size)
  }

  function SumSizes(rs: seq<Resource>): nat
    decreases |rs|
  {
    if |rs| == 0 then 0 else rs[0].size + SumSizes(rs[1..])
  }

  /** Bytes of the resources of one category. */
  function CategorySize(rs: seq<Resource>, c: Category): nat
    decreases |rs|
  {
    if |rs| == 0 then 0
    else (if CategoryOf(rs[0].contentType) == c then rs[0].size else 0) + CategorySize(rs[1..], c)
  }

  datatype Counts = Counts(html: nat, js: nat, css: nat, img: nat, total: nat)

  function TagCount(rs: seq<Resource>, tag: string): nat
    decreases |rs|
  {
    if |rs| == 0 then 0
    else (if rs[0].tag == tag then 1 else 0) + TagCount(rs[1..], tag)
  }

  /** The resource counts: the page itself plus its scripts, stylesheets and images. */
  function CountTags(rs: seq<Resource>): Counts {
    var js := TagCount(rs, "script");
    var css := TagCount(rs, "link");
    var img := TagCount(rs, "img");
    Counts(1, js, css, img, js + css + img + 1)
  }

  /* ---------------- compression and HTTP/2 ---------------- */

  /** The HEAD probes run on the first five resources. */
  const SampleSize: nat := 5

  /** `/(gzip|br)/i`. */
  predicate Compressed(encoding: string) {
    ContainsCI(encoding, "gzip") || ContainsCI(encoding, "br")
  }

  /** `/^2/`. */
  predicate IsHttp2(version: string) {
    |version| > 0 && version[0] == '2'
  }

  /** How many of the first `n` probe answers satisfy `p`. */
  function CountSample(n: nat, answers: nat -> string, p: string -> bool): (c: nat)
    ensures c <= n
  {
    if n == 0 then 0 else CountSample(n - 1, answers, p) + (if p(answers(n - 1)) then 1 else 0)
  }

  /** `compressedCount / (n || 1) >= 0.6`, compared exactly. */
  predicate CompressionOk(compressed: nat, n: nat) {
    5 * compressed >= 3 * (if n == 0 then 1 else n)
  }

  /** `Math.ceil(n * 0.6)`; for the sample sizes 0 to 5 the product is
      computed without a rounding that moves the ceiling. */
  function CeilThreeFifths(n: nat): nat {
    (3 * n + 4) / 5
  }

  predicate Http2Ok(count: nat, n: nat) {
    count >= CeilThreeFifths(n)
  }

  /* ---------------- size in megabytes ---------------- */

  /** `+(bytes / (1024 * 1024)).toFixed(2)` in hundredths of a megabyte:
      `toFixed` rounds the exact quotient half up. */
  function Hundredths(bytes: nat): nat {
    (bytes * 100 + 524288) / 1048576
  }

  /* ---------------- PageSpeed Insights ---------------- */

  datatype Strategy = Mobile | Desktop

  /** The screenshot data an answered PageSpeed call carries, each absent
      when the path is missing or the value is empty. */
  datatype Shots = Shots(finalScreenshot: Option<string>, fullPage: Option<string>, thumbnail: Option<string>)

  /** One PageSpeed call of the screenshot loop. */
  datatype PsiAttempt = AttemptThrew | AttemptAnswered(status: int, shots: Shots)

  /** The last PageSpeed call, whose score is reported. */
  datatype PsiFinal = FinalThrew | FinalAnswered(status: int, score: int)

  datatype StrategyResult = StrategyResult(score: Option<int>, screenshot: Option<string>)
  datatype Psi = Psi(mobile: StrategyResult, desktop: StrategyResult)

  /** What the PageSpeed service does for one strategy. */
  datatype PsiService = PsiService(attempts: nat -> PsiAttempt, final: PsiFinal)

  /** The API is used only with a non-empty key and `SKIP_PSI` not "true". */
  predicate PsiEnabled(apiKey: Option<string>, skipPsi: Option<string>) {
    Attr(apiKey) != "" && skipPsi != Some("true")
  }

  function MaxAttempts(s: Strategy): nat {
    if s == Desktop then 2 else 1
  }

  /** The candidates in priority order; mobile does not read thumbnails. */
  function Candidates(s: Strategy, shots: Shots): seq<string> {
    var all := if s == Desktop then [shots.finalScreenshot, shots.fullPage, shots.thumbnail]
               else [shots.finalScreenshot, shots.fullPage];
    Present(all)
  }

  function Present(xs: seq<Option<string>>): (r: seq<string>)
    ensures forall v :: v in r <==> Some(v) in xs
    decreases |xs|
  {
    if |xs| == 0 then []
    else
      var rest := Present(xs[1..]);
      assert forall o :: o in xs <==> o == xs[0] || o in xs[1..];
      match xs[0]
      case Some(v) => [v] + rest
      case None => rest
  }

  /** `screenshot.split(',')[1]`: absent when there is no comma. */
  function Payload(s: string): Option<string> {
    var parts := SplitOn(s, ',');
    if |parts| > 1 then Some(parts[1]) else None
  }

  predicate IsLowerLetter(c: char) {
    'a' <= c <= 'z'
  }

  predicate NotLowerLetter(c: char) {
    !IsLowerLetter(c)
  }

  /** Where the data of a data URL starts, if `s` opens with
      `/^data:image\/[a-z]+;base64,/`. */
  function ImagePrefixEnd(s: string): (e: Option<nat>)
    ensures e.Some? ==> 20 <= e.value <= |s|
  {
    if !StartsWith(s, "data:image/") then None
    else
      var m := RunEnd(s, 11, NotLowerLetter);
      if m > 11 && OccursAt(s, ";base64,", m) then Some(m + 8) else None
  }

  /** The payload must be at least this long. */
  const MinPayload: nat := 1000

  /** `validateScreenshot`. */
  predicate ValidScreenshot(s: string) {
    && s != ""
    && ImagePrefixEnd(s).Some?
    && Payload(s).Some?
    && Utf16Length(Payload(s).value) >= MinPayload
  }

  /** `scoreScreenshotQuality`: 1, plus 2 above roughly 500 kB decoded or 1
      above roughly 200 kB, plus 1 for PNG; 0 without a payload. */
  function Quality(s: string): nat {
    match Payload(s)
    case None => 0
    case Some(p) =>
      if p == "" then 0
      else
        var decoded3 := 3 * Utf16Length(p);   // four times the decoded size estimate
        1 + (if decoded3 > 2000000 then 2 else if decoded3 > 800000 then 1 else 0)
          + (if Contains(s, "data:image/png") then 1 else 0)
  }

  /** The candidate loop of one attempt: a valid candidate replaces the
      current choice only when its quality is strictly greater. */
  function Select(cands: seq<string>, best: Option<string>, bestQ: nat): (r: (Option<string>, nat))
    decreases |cands|
  {
    if |cands| == 0 then (best, bestQ)
    else
      var c := cands[0];
      if ValidScreenshot(c) && Quality(c) > bestQ then Select(cands[1..], Some(c), Quality(c))
      else Select(cands[1..], best, bestQ)
  }

  /** Attempts `k` to `max` of the screenshot loop; it stops at the first
      attempt that yields a screenshot. */
  function AttemptLoop(s: Strategy, attempts: nat -> PsiAttempt, k: nat, max: nat, best: Option<string>, bestQ: nat): (Option<string>, nat)
    decreases max + 1 - k
  {
    if k > max then (best, bestQ)
    else match attempts(k)
      case AttemptThrew => AttemptLoop(s, attempts, k + 1, max, best, bestQ)
      case AttemptAnswered(status, shots) =>
        if status != 200 then AttemptLoop(s, attempts, k + 1, max, best, bestQ)
        else
          var r := Select(Candidates(s, shots), best, bestQ);
          if r.0.Some? then r else AttemptLoop(s, attempts, k + 1, max, r.0, r.1)
  }

  /** `run(strategy)`: the screenshot loop, the final re-validation, and
      the score from a last call. */
  function Run(s: Strategy, svc: PsiService): StrategyResult {
    var best := AttemptLoop(s, svc.attempts, 1, MaxAttempts(s), None, 0).0;
    var shot := if best.Some? && !ValidScreenshot(best.value) then None else best;
    var score := match svc.final
      case FinalAnswered(status, sc) => if status == 200 then Some(sc) else None
      case FinalThrew => None;
    StrategyResult(score, shot)
  }

  /** `fetchPageSpeedInsights`. */
  function PageSpeed(apiKey: Option<string>, skipPsi: Option<string>, mobile: PsiService, desktop: PsiService): Psi {
    if !PsiEnabled(apiKey, skipPsi) then Psi(StrategyResult(None, None), StrategyResult(None, None))
    else Psi(Run(Mobile, mobile), Run(Desktop, desktop))
  }

  /* ---------------- the section ---------------- */

  /** The PageSpeed scores that are not null. */
  function PsiScores(psi: Psi): seq<int> {
    (if psi.mobile.score.Some? then [psi.mobile.score.value] else [])
    + (if psi.desktop.score.Some? then [psi.desktop.score.value] else [])
  }

  /** The analyzer's own PageSpeed deduction; an average is compared as
      its sum against the bound times the number of scores. */
  function PsiPenalty(scores: seq<int>): nat {
    var n := |scores|;
    var sum := SumInts(scores);
    if n == 0 then 0
    else if sum < 50 * n then 20
    else if sum < 70 * n then 10
    else if sum < 90 * n then 5
    else 0
  }

  datatype PerformanceReport = PerformanceReport(
    downloadHundredths: nat,           // downloadSizeMB in hundredths
    breakdown: Totals,                 // the per-type figures, in hundredths of a megabyte
    resourceCounts: Counts,
    brotliOrGzip: bool,
    http2: bool,
    pageSpeedInsights: Psi,
    score: int)

  /** What the analyzer reads: the resources and the network's answers. */
  datatype PerformanceInput = PerformanceInput(
    resources: seq<Resource>,
    encodings: nat -> string,          // content-encoding of the i-th sampled HEAD, "" on failure
    versions: nat -> string,           // HTTP version of the i-th sampled HEAD, "" on failure
    apiKey: Option<string>,
    skipPsi: Option<string>,
    mobile: PsiService,
    desktop: PsiService)

  /** `performanceAudit(base)`. */
  function Analyze(x: PerformanceInput): PerformanceReport {
    var t := Aggregate(x.resources);
    var n := |Take(x.resources, SampleSize)|;
    var compression := CompressionOk(CountSample(n, x.encodings, Compressed), n);
    var http2 := Http2Ok(CountSample(n, x.versions, IsHttp2), n);
    var psi := PageSpeed(x.apiKey, x.skipPsi, x.mobile, x.desktop);
    var mb := Hundredths(t.total);
    var score := 100 - (if mb > 500 then 15 else 0) - (if compression then 0 else 10)
                 - (if http2 then 0 else 10) - PsiPenalty(PsiScores(psi));
    PerformanceReport(
      mb,
      Totals(mb, Hundredths(t.css), Hundredths(t.js), Hundredths(t.img), Hundredths(t.other)),
      CountTags(x.resources),
      compression,
      http2,
      psi,
      Clamp(score, 0, 100))
  }

  /* ---------------- properties ---------------- */

  /** Every byte is counted in the total and in exactly one category. */
  lemma {:induction false} AggregatePartition(rs: seq<Resource>)
    ensures Aggregate(rs).total == SumSizes(rs)
    ensures Aggregate(rs).css == CategorySize(rs, Css)
    ensures Aggregate(rs).js == CategorySize(rs, Js)
    ensures Aggregate(rs).img == CategorySize(rs, Image)
    ensures Aggregate(rs).other == CategorySize(rs, Other)
    ensures Aggregate(rs).css + Aggregate(rs).js + Aggregate(rs).img + Aggregate(rs).other == Aggregate(rs).total
    decreases |rs|
  {
    if |rs| > 0 {
      AggregatePartition(rs[1..]);
    }
  }

  /** The tag counts never exceed the resources, and the total is their sum plus the page. */
  lemma {:induction false} CountsBound(rs: seq<Resource>)
    ensures CountTags(rs).total == CountTags(rs).js + CountTags(rs).css + CountTags(rs).img + 1
    ensures CountTags(rs).total <= |rs| + 1
    decreases |rs|
  {
    if |rs| > 0 {
      CountsBound(rs[1..]);
    }
  }

  /** For a sample of at most five, compression needs three fifths of it
      compressed and an empty sample never passes, while HTTP/2 needs three
      fifths of it on version 2 and an empty sample always passes. */
  lemma SampleThresholds(c: nat, n: nat)
    requires n <= 5 && c <= n
    ensures CompressionOk(c, n) <==> n > 0 && 5 * c >= 3 * n
    ensures Http2Ok(c, n) <==> 5 * c >= 3 * n
    ensures n == 0 ==> !CompressionOk(c, n) && Http2Ok(c, n)
  {
  }

  /** The megabyte figure rounds half up, so the "over 5 MB" tier starts at
      5.005 MB and the "over 2 MB" tier at 2.005 MB. */
  lemma MegabyteThresholds(bytes: nat)
    ensures Hundredths(bytes) > 500 <==> 200 * bytes >= 1001 * 1048576
    ensures Hundredths(bytes) > 200 <==> 200 * bytes >= 401 * 1048576
    ensures Hundredths(bytes) * 1048576 <= bytes * 100 + 524288 < (Hundredths(bytes) + 1) * 1048576
  {
  }

  /** The section score never leaves [45, 100], so the clamp never binds. */
  lemma ScoreRange(x: PerformanceInput)
    ensures 45 <= Analyze(x).score <= 100
  {
  }

  /** The analyzer's PageSpeed deduction is at most 20, nothing exactly when
      there is no score or the mean reaches 90, and a better mean never
      costs more. */
  lemma PsiPenaltyMonotone(s1: seq<int>, s2: seq<int>)
    requires |s1| == |s2| && SumInts(s1) <= SumInts(s2)
    ensures PsiPenalty(s2) <= PsiPenalty(s1) <= 20
    ensures PsiPenalty(s1) == 0 <==> |s1| == 0 || SumInts(s1) >= 90 * |s1|
  {
  }

  /** Without a key, or with `SKIP_PSI` set to "true", both scores and both
      screenshots are null. */
  lemma PsiDisabled(apiKey: Option<string>, skipPsi: Option<string>, mobile: PsiService, desktop: PsiService)
    requires apiKey.None? || apiKey == Some("") || skipPsi == Some("true")
    ensures PageSpeed(apiKey, skipPsi, mobile, desktop).mobile == StrategyResult(None, None)
    ensures PageSpeed(apiKey, skipPsi, mobile, desktop).desktop == StrategyResult(None, None)
    ensures PsiScores(PageSpeed(apiKey, skipPsi, mobile, desktop)) == []
  {
  }

  /** A valid screenshot opens with its data-URL header, and its payload is
      the text right after that header up to the next comma. */
  lemma {:induction false} ValidPayload(s: string)
    requires ValidScreenshot(s)
    ensures Payload(s).value == SplitOn(s[ImagePrefixEnd(s).value..], ',')[0]
    ensures Quality(s) >= 1
  {
    var e := ImagePrefixEnd(s).value;
    var m := e - 8;
    assert OccursAt(s, ";base64,", m);
    assert s[m + 7] == ',';
    forall j | 0 <= j < m + 7 ensures s[j] != ',' {
      if j < 11 {
        assert s[..11] == "data:image/";
        assert s[j] == "data:image/"[j];
      } else if j >= m {
        assert s[m..m + 8] == ";base64,";
        assert s[j] == ";base64,"[j - m];
      }
    }
    SplitAfterFirst(s, ',', m + 7);
  }

  /** When the first separator is at `i`, the second piece of a split is the
      first piece of what follows it. */
  lemma {:induction false} SplitAfterFirst(s: string, sep: char, i: nat)
    requires i < |s| && s[i] == sep
    requires forall j :: 0 <= j < i ==> s[j] != sep
    ensures |SplitOn(s, sep)| > 1
    ensures SplitOn(s, sep)[1] == SplitOn(s[i + 1..], sep)[0]
    decreases i
  {
    if i > 0 {
      SplitAfterFirst(s[1..], sep, i - 1);
      assert s[1..][i..] == s[i + 1..];
    } else {
      assert s[1..] == s[i + 1..];
    }
  }

  /** `cands[i]` is valid with quality `q`, and no valid candidate before
      it reaches `q`. */
  predicate FirstWithQuality(cands: seq<string>, i: int, q: nat) {
    && 0 <= i < |cands|
    && ValidScreenshot(cands[i])
    && Quality(cands[i]) == q
    && forall j :: 0 <= j < i && ValidScreenshot(cands[j]) ==> Quality(cands[j]) < q
  }

  /** The candidate loop keeps the first valid candidate of the highest
      quality, unless the current choice is at least as good. */
  lemma {:induction false} SelectBest(cands: seq<string>, best: Option<string>, bestQ: nat)
    ensures var r := Select(cands, best, bestQ);
      && r.1 >= bestQ
      && (r.1 == bestQ ==> r.0 == best)
      && (r.1 > bestQ ==> exists i :: FirstWithQuality(cands, i, r.1) && r.0 == Some(cands[i]))
      && (forall c :: c in cands && ValidScreenshot(c) ==> Quality(c) <= r.1)
    decreases |cands|
  {
    if |cands| > 0 {
      var c := cands[0];
      var tail := cands[1..];
      assert forall d :: d in cands <==> d == c || d in tail;
      var r := Select(cands, best, bestQ);
      if ValidScreenshot(c) && Quality(c) > bestQ {
        SelectBest(tail, Some(c), Quality(c));
        if r.1 > Quality(c) {
          var i :| FirstWithQuality(tail, i, r.1) && r.0 == Some(tail[i]);
          assert FirstWithQuality(cands, i + 1, r.1);
        } else {
          assert FirstWithQuality(cands, 0, r.1);
        }
      } else {
        SelectBest(tail, best, bestQ);
        if r.1 > bestQ {
          var i :| FirstWithQuality(tail, i, r.1) && r.0 == Some(tail[i]);
          assert FirstWithQuality(cands, i + 1, r.1);
        }
      }
    }
  }

  /** Starting from nothing, the loop keeps nothing exactly when no candidate
      is valid, and otherwise the first valid candidate of the highest quality. */
  lemma SelectFromNothing(cands: seq<string>)
    ensures Select(cands, None, 0).0.None? <==> forall c :: c in cands ==> !ValidScreenshot(c)
    ensures Select(cands, None, 0).0.Some? ==>
      (exists i :: FirstWithQuality(cands, i, Select(cands, None, 0).1) && Select(cands, None, 0).0 == Some(cands[i]))
      && forall c :: c in cands && ValidScreenshot(c) ==> Quality(c) <= Select(cands, None, 0).1
  {
    SelectBest(cands, None, 0);
    forall c | c in cands && ValidScreenshot(c)
      ensures Select(cands, None, 0).0.Some?
    {
      ValidPayload(c);
    }
  }

  /** A screenshot loop that starts empty ends with the best candidate of
      the first answered attempt that has a valid one; attempts before it
      threw, answered with another status, or offered no valid candidate. */
  predicate NoValidShot(s: Strategy, a: PsiAttempt) {
    a.AttemptAnswered? && a.status == 200 ==> forall c :: c in Candidates(s, a.shots) ==> !ValidScreenshot(c)
  }

  /** One step of the loop from an empty start: an attempt without a valid
      candidate passes the empty state on; any other answers the loop. */
  lemma LoopStep(s: Strategy, attempts: nat -> PsiAttempt, k: nat, max: nat)
    requires k <= max
    ensures NoValidShot(s, attempts(k)) ==>
      AttemptLoop(s, attempts, k, max, None, 0) == AttemptLoop(s, attempts, k + 1, max, None, 0)
    ensures !NoValidShot(s, attempts(k)) ==>
      && attempts(k).AttemptAnswered? && attempts(k).status == 200
      && AttemptLoop(s, attempts, k, max, None, 0) == Select(Candidates(s, attempts(k).shots), None, 0)
      && AttemptLoop(s, attempts, k, max, None, 0).0.Some?
  {
    if attempts(k).AttemptAnswered? && attempts(k).status == 200 {
      SelectFromNothing(Candidates(s, attempts(k).shots));
      SelectBest(Candidates(s, attempts(k).shots), None, 0);
    }
  }

  /** Attempt `j` is the first from `k` on with a valid candidate, and the
      loop result is that attempt's best one. */
  predicate FirstShotAt(s: Strategy, attempts: nat -> PsiAttempt, k: nat, j: nat, max: nat, r: (Option<string>, nat)) {
    && k <= j <= max && attempts(j).AttemptAnswered? && attempts(j).status == 200
    && (forall i: nat :: k <= i < j ==> NoValidShot(s, attempts(i)))
    && r == Select(Candidates(s, attempts(j).shots), None, 0)
  }

  /** The loop finds nothing exactly when no attempt offers a valid candidate. */
  lemma {:induction false} LoopFindsNothing(s: Strategy, attempts: nat -> PsiAttempt, k: nat, max: nat)
    ensures AttemptLoop(s, attempts, k, max, None, 0).0.None? <==> forall j: nat :: k <= j <= max ==> NoValidShot(s, attempts(j))
    decreases max + 1 - k
  {
    if k <= max {
      LoopFindsNothing(s, attempts, k + 1, max);
      LoopStep(s, attempts, k, max);
    }
  }

  /** Otherwise it answers with the first such attempt's best candidate. */
  lemma FirstShotEarlier(s: Strategy, attempts: nat -> PsiAttempt, k: nat, j: nat, max: nat, r: (Option<string>, nat))
    requires NoValidShot(s, attempts(k)) && FirstShotAt(s, attempts, k + 1, j, max, r)
    ensures FirstShotAt(s, attempts, k, j, max, r)
  {
  }

  lemma {:induction false} LoopFindsFirst(s: Strategy, attempts: nat -> PsiAttempt, k: nat, max: nat)
    ensures var r := AttemptLoop(s, attempts, k, max, None, 0);
      r.0.Some? ==> exists j: nat :: FirstShotAt(s, attempts, k, j, max, r)
    decreases max + 1 - k
  {
    if k <= max {
      LoopFindsFirst(s, attempts, k + 1, max);
      LoopStep(s, attempts, k, max);
      var r := AttemptLoop(s, attempts, k, max, None, 0);
      if NoValidShot(s, attempts(k)) {
        if r.0.Some? {
          var j: nat :| FirstShotAt(s, attempts, k + 1, j, max, r);
          FirstShotEarlier(s, attempts, k, j, max, r);
        }
      } else {
        assert FirstShotAt(s, attempts, k, k, max, r);
      }
    }
  }

  /** A reported screenshot is a valid candidate of an answered attempt, the
      final re-validation never discards it, and mobile makes one attempt. */
  lemma RunScreenshot(s: Strategy, svc: PsiService)
    ensures Run(s, svc).screenshot == AttemptLoop(s, svc.attempts, 1, MaxAttempts(s), None, 0).0
    ensures Run(s, svc).screenshot.Some? ==>
      && ValidScreenshot(Run(s, svc).screenshot.value)
      && (exists j: nat :: FirstShotAt(s, svc.attempts, 1, j, MaxAttempts(s), AttemptLoop(s, svc.attempts, 1, MaxAttempts(s), None, 0))
            && Run(s, svc).screenshot.value in Candidates(s, svc.attempts(j).shots))
    ensures Run(s, svc).screenshot.None? <==> forall j: nat :: 1 <= j <= MaxAttempts(s) ==> NoValidShot(s, svc.attempts(j))
  {
    var r := AttemptLoop(s, svc.attempts, 1, MaxAttempts(s), None, 0);
    LoopFindsNothing(s, svc.attempts, 1, MaxAttempts(s));
    LoopFindsFirst(s, svc.attempts, 1, MaxAttempts(s));
    if r.0.Some? {
      var j: nat :| FirstShotAt(s, svc.attempts, 1, j, MaxAttempts(s), r);
      var cands := Candidates(s, svc.attempts(j).shots);
      SelectFromNothing(cands);
      var i :| FirstWithQuality(cands, i, r.1) && r.0 == Some(cands[i]);
      assert cands[i] in cands;
    }
  }

  /** The score is reported exactly when the last call answers 200; it
      does not depend on the screenshot attempts, and the screenshot does
      not depend on the last call. */
  lemma RunScore(s: Strategy, svc: PsiService)
    ensures Run(s, svc).score.Some? <==> svc.final.FinalAnswered? && svc.final.status == 200
    ensures Run(s, svc).score.Some? ==> Run(s, svc).score.value == svc.final.score
    ensures forall other: nat -> PsiAttempt :: Run(s, svc.(attempts := other)).score == Run(s, svc).score
    ensures forall f: PsiFinal :: Run(s, svc.(final := f)).screenshot == Run(s, svc).screenshot
  {
  }
}
