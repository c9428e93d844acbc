/** The orchestrator: a registry of audits in flight keyed by the raw url,
    so that a second request for the same url joins the first, and the
    assembly of the analyzers' records, the grades and the summary into one
    audit result. */
module Audit {
  import opened Common
  import FetchPage
  import Onpage
  import Tech
  import Performance
  import Social
  import Local
  import opened Graders

  /* ---------------- the in-progress registry ---------------- */

  /** The urls being audited, each with the handle of its pending result;
      `next` is the handle the next audit started will get. */
  datatype Registry = Registry(inProgress: map<string, nat>, next: nat)

  const Empty: Registry := Registry(map[], 0)

  /** Every pending handle was issued before `next`. */
  predicate Valid(r: Registry) {
    forall u :: u in r.inProgress ==> r.inProgress[u] < r.next
  }

  /** What a call to the audit does with the registry: the handle it waits
      on, and whether it started a new audit. */
  datatype Admission = Admission(registry: Registry, handle: nat, started: bool)

  /** A url already in the registry is joined; any other url starts a new
      audit under a fresh handle. The key is the url exactly as given. */
  function Begin(r: Registry, url: string): Admission {
    if url in r.inProgress then Admission(r, r.inProgress[url], false)
    else Admission(Registry(r.inProgress[url := r.next], r.next + 1), r.next, true)
  }

  /** An audit settling, on success or failure, removes its url. */
  function Finish(r: Registry, url: string): Registry {
    r.(inProgress := r.inProgress - {url})
  }

  /** What happens to the registry, in order: a request for a url, or the
      audit of a url settling. */
  datatype Event = Call(url: string) | Settled(url: string)

  function Step(r: Registry, e: Event): Registry {
    match e
    case Call(u) => Begin(r, u).registry
    case Settled(u) => Finish(r, u)
  }

  /** How many new audits of `url` the events start. */
  function Starts(r: Registry, evs: seq<Event>, url: string): nat
    decreases |evs|
  {
    if |evs| == 0 then 0
    else
      var started := evs[0].Call? && evs[0].url == url && Begin(r, url).started;
      (if started then 1 else 0) + Starts(Step(r, evs[0]), evs[1..], url)
  }

  /* ---------------- the audit result ---------------- */

  /** The analyzers, applied to the fetched page; each may reject. */
  datatype Analyzers = Analyzers(
    onpage: FetchPage.FetchResult -> Result<Onpage.OnpageReport, FetchPage.Failure>,
    social: FetchPage.FetchResult -> Result<Social.SocialReport, FetchPage.Failure>,
    local: FetchPage.FetchResult -> Result<Local.LocalReport, FetchPage.Failure>,
    tech: FetchPage.FetchResult -> Result<Tech.TechReport, FetchPage.Failure>,
    performance: FetchPage.FetchResult -> Result<Performance.PerformanceReport, FetchPage.Failure>)

  datatype Meta = Meta(url: string, screenshotDesktop: Option<string>, screenshotMobile: Option<string>)
  datatype Radar = Radar(onpage: int, performance: int, social: int, techlocal: int)
  datatype Summary = Summary(letter: Letter, radar: Radar)
  datatype AuditResult = AuditResult(meta: Meta, sections: Sections, grades: Grades, summary: Summary)

  /** `shot || null`: an empty screenshot is no screenshot. */
  function Shot(s: Option<string>): Option<string> {
    if s.Some? && s.value != "" then s else None
  }

  /** The result put together from the five records. */
  function Assemble(base: FetchPage.FetchResult, x: Sections): AuditResult {
    var g := GradeAll(x);
    var psi := x.performance.pageSpeedInsights;
    AuditResult(
      Meta(base.finalUrl, Shot(psi.desktop.screenshot), Shot(psi.mobile.screenshot)),
      x, g,
      Summary(g.overall.letter, Radar(g.onpage.score, g.performance.score, g.social.score, g.techlocal.score)))
  }

  /** One audit once the page is fetched: the four light analyzers together,
      then performance; the first rejection, in that order, fails it all. */
  function RunAnalyzers(base: FetchPage.FetchResult, a: Analyzers): Result<AuditResult, FetchPage.Failure> {
    match (a.onpage(base), a.social(base), a.local(base), a.tech(base))
    case (Err(e), _, _, _) => Err(e)
    case (_, Err(e), _, _) => Err(e)
    case (_, _, Err(e), _) => Err(e)
    case (_, _, _, Err(e)) => Err(e)
    case (Ok(on), Ok(soc), Ok(loc), Ok(tec)) =>
      match a.performance(base)
      case Err(e) => Err(e)
      case Ok(perf) => Ok(Assemble(base, Sections(on, tec, perf, soc, loc)))
  }

  /** `auditSite` for a call that starts a new audit: fetch, then analyze. */
  function AuditSite(fetched: Result<FetchPage.FetchResult, FetchPage.Failure>, a: Analyzers): Result<AuditResult, FetchPage.Failure> {
    match fetched
    case Err(e) => Err(e)
    case Ok(base) => RunAnalyzers(base, a)
  }

  /* ---------------- properties ---------------- */

  /** A url not in flight starts an audit under a handle no pending audit
      holds, and the registry gains exactly that url. */
  lemma StartFresh(r: Registry, url: string)
    requires Valid(r) && url !in r.inProgress
    ensures var a := Begin(r, url);
      && a.started
      && (forall u :: u in r.inProgress ==> r.inProgress[u] != a.handle)
      && a.registry.inProgress.Keys == r.inProgress.Keys + {url}
      && (forall u :: u in r.inProgress ==> a.registry.inProgress[u] == r.inProgress[u])
  {
  }

  /** Two calls for the same url with nothing settling in between share one
      audit: the second starts nothing and waits on the first's handle. */
  lemma SecondCallJoins(r: Registry, url: string)
    ensures var first := Begin(r, url);
      var second := Begin(first.registry, url);
      !second.started && second.handle == first.handle && second.registry == first.registry
  {
  }

  /** Settling removes the url and touches no other entry. */
  lemma FinishRemovesOnly(r: Registry, url: string)
    ensures url !in Finish(r, url).inProgress
    ensures forall u :: u != url ==> (u in Finish(r, url).inProgress <==> u in r.inProgress)
    ensures forall u :: u in Finish(r, url).inProgress ==> Finish(r, url).inProgress[u] == r.inProgress[u]
  {
  }

  /** After a settle the next call for that url starts a new audit. */
  lemma CallAfterSettleStarts(r: Registry, url: string)
    ensures Begin(Finish(r, url), url).started
  {
  }

  /** Every event keeps pending handles below `next`. */
  lemma StepValid(r: Registry, e: Event)
    requires Valid(r)
    ensures Valid(Step(r, e))
    ensures e.Call? ==> e.url in Step(r, e).inProgress
  {
  }

  /** Until an audit of `url` settles, the events start at most one audit
      of it, and none if one is already in flight. */
  lemma {:induction false} AtMostOneInFlight(r: Registry, evs: seq<Event>, url: string)
    requires forall i :: 0 <= i < |evs| ==> evs[i] != Settled(url)
    ensures Starts(r, evs, url) <= (if url in r.inProgress then 0 else 1)
    ensures url in r.inProgress ==> Starts(r, evs, url) == 0
    decreases |evs|
  {
    if |evs| > 0 {
      var r1 := Step(r, evs[0]);
      assert forall i :: 0 <= i < |evs[1..]| ==> evs[1..][i] == evs[i + 1];
      AtMostOneInFlight(r1, evs[1..], url);
      if url in r.inProgress {
        assert url in r1.inProgress;
      } else if evs[0] == Call(url) {
        assert url in r1.inProgress;
      }
    }
  }

  /** The audit fails exactly when the fetch or some analyzer does. */
  lemma FailsIffAnyFails(fetched: Result<FetchPage.FetchResult, FetchPage.Failure>, a: Analyzers)
    ensures AuditSite(fetched, a).Err? <==>
      fetched.Err? ||
      a.onpage(fetched.value).Err? || a.social(fetched.value).Err? || a.local(fetched.value).Err? ||
      a.tech(fetched.value).Err? || a.performance(fetched.value).Err?
  {
  }

  /** A successful audit holds each analyzer's own record under its key,
      the grades of exactly those records, the page's final url, and a
      summary whose letter is that of the radar's four scores averaged and
      rounded to the nearest integer, each score in [0, 100]. */
  lemma Assembled(base: FetchPage.FetchResult, a: Analyzers)
    requires AuditSite(Ok(base), a).Ok?
    ensures var res := AuditSite(Ok(base), a).value;
      var rd := res.summary.radar;
      && Ok(res.sections.onpage) == a.onpage(base)
      && Ok(res.sections.social) == a.social(base)
      && Ok(res.sections.local) == a.local(base)
      && Ok(res.sections.tech) == a.tech(base)
      && Ok(res.sections.performance) == a.performance(base)
      && res.grades == GradeAll(res.sections)
      && res.meta.url == base.finalUrl
      && 0 <= rd.onpage <= 100 && 0 <= rd.performance <= 100
      && 0 <= rd.social <= 100 && 0 <= rd.techlocal <= 100
      && 4 * res.grades.overall.score - 2 <= rd.onpage + rd.performance + rd.social + rd.techlocal
      && rd.onpage + rd.performance + rd.social + rd.techlocal < 4 * res.grades.overall.score + 2
      && res.summary.letter == LetterOf(res.grades.overall.score)
  {
    var res := AuditSite(Ok(base), a).value;
    SummaryInRange(base, res.sections);
  }

  /** When the performance record comes from its analyzer, a screenshot in
      the result is a valid PageSpeed screenshot (a base64 image data URL
      with a long enough payload); there is none when PageSpeed is switched
      off, and otherwise none exactly when no attempt of that strategy
      offered a valid one. */
  lemma Screenshots(base: FetchPage.FetchResult, x: Sections, pi: Performance.PerformanceInput)
    requires x.performance == Performance.Analyze(pi)
    ensures var m := Assemble(base, x).meta;
      var on := Performance.PsiEnabled(pi.apiKey, pi.skipPsi);
      && (m.screenshotDesktop.Some? ==> Performance.ValidScreenshot(m.screenshotDesktop.value))
      && (m.screenshotMobile.Some? ==> Performance.ValidScreenshot(m.screenshotMobile.value))
      && (!on ==> m.screenshotDesktop.None? && m.screenshotMobile.None?)
      && (on ==> (m.screenshotDesktop.None? <==>
            forall j: nat :: 1 <= j <= Performance.MaxAttempts(Performance.Desktop) ==>
              Performance.NoValidShot(Performance.Desktop, pi.desktop.attempts(j))))
      && (on ==> (m.screenshotMobile.None? <==>
            forall j: nat :: 1 <= j <= Performance.MaxAttempts(Performance.Mobile) ==>
              Performance.NoValidShot(Performance.Mobile, pi.mobile.attempts(j))))
  {
    var psi := Performance.PageSpeed(pi.apiKey, pi.skipPsi, pi.mobile, pi.desktop);
    assert x.performance.pageSpeedInsights == psi;
    ScreenshotOf(Performance.Desktop, pi.desktop, psi.desktop.screenshot);
    ScreenshotOf(Performance.Mobile, pi.mobile, psi.mobile.screenshot);
    Performance.RunScreenshot(Performance.Desktop, pi.desktop);
    Performance.RunScreenshot(Performance.Mobile, pi.mobile);
  }

  /** `shot || null` keeps a strategy's screenshot, which is never empty. */
  lemma ScreenshotOf(s: Performance.Strategy, svc: Performance.PsiService, shot: Option<string>)
    requires shot == None || shot == Performance.Run(s, svc).screenshot
    ensures Shot(shot) == shot
    ensures shot.Some? ==> Performance.ValidScreenshot(shot.value)
  {
    if shot.Some? {
      Performance.RunScreenshot(s, svc);
    }
  }

  /** Every score in the summary lies in [0, 100] and the letter is the
      overall score's. */
  lemma SummaryInRange(base: FetchPage.FetchResult, x: Sections)
    ensures var s := Assemble(base, x).summary;
      var g := Assemble(base, x).grades;
      && 0 <= s.radar.onpage <= 100 && 0 <= s.radar.performance <= 100
      && 0 <= s.radar.social <= 100 && 0 <= s.radar.techlocal <= 100
      && 0 <= g.overall.score <= 100 && s.letter == LetterOf(g.overall.score)
  {
    OverallRange(x);
  }
}
