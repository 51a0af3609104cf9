/**
 * The crawler of the auditor app (`streamlit_app.py`): a same-site,
 * breadth-first crawl from a start URL, bounded by a page ceiling, that
 * records one violation record per rule violation the engine reports.
 *
 * `AppNext` is one iteration of the `while` loop and `AppCrawl` the whole
 * loop, as functions of the crawl state; the class `AppScanner` is the loop
 * as the source writes it, with its `queue`, `visited`, violation list and
 * `pages_scanned`, and is proved to compute `AppCrawl`.
 */
module AppScan {
  import opened Wrappers
  import opened Seqs
  import opened Axe
  import opened Frontier

  /** An example element of a violation record; either key may be missing. */
  datatype Element = Element(selector: Option<string>, issue: Option<string>)

  /** A violation record of the auditor app's report. */
  datatype Violation = Violation(
    page: string,
    criterion: string,
    axeId: Option<string>,
    severity: Option<string>,
    elements: seq<Element>,
    recommendedFix: Option<string>)

  /** The record written for raw violation `v` found on page `url`. */
  function RecordOf(url: string, v: RawViolation): Violation
    requires HasSelector(v)
  {
    Violation(url, Criterion(v), v.id, v.impact, [Element(FirstSelector(v), None)], v.helpUrl)
  }

  /** The records of one page, one per raw violation, in the engine's order. */
  function PageRecords(url: string, raws: seq<RawViolation>): (r: seq<Violation>)
    requires forall i :: 0 <= i < |raws| ==> HasSelector(raws[i])
    ensures |r| == |raws|
    ensures forall i :: 0 <= i < |raws| ==> r[i] == RecordOf(url, raws[i])
  {
    if raws == [] then [] else [RecordOf(url, raws[0])] + PageRecords(url, raws[1..])
  }

  lemma PageRecordsSnoc(url: string, raws: seq<RawViolation>, v: RawViolation)
    requires forall i :: 0 <= i < |raws| ==> HasSelector(raws[i])
    requires HasSelector(v)
    ensures PageRecords(url, raws + [v]) == PageRecords(url, raws) + [RecordOf(url, v)]
  {
    assert forall i :: 0 <= i < |raws + [v]| ==> HasSelector((raws + [v])[i]);
  }

  /** Every violation the page reports has a representative selector (no empty node or target list). */
  ghost predicate WellFormedPage(p: PageLoad) {
    p.Loaded? ==> forall i :: 0 <= i < |RawViolationsOf(p)| ==> HasSelector(RawViolationsOf(p)[i])
  }

  ghost predicate WellFormedBrowser(browser: Browser) {
    forall u :: WellFormedPage(browser(u))
  }

  /** The crawl state: the frontier, the violations so far and `pages_scanned`. */
  datatype AppState = AppState(frontier: Frontier, violations: seq<Violation>, pagesScanned: nat)

  function AppInit(start: string): AppState {
    AppState(Seed(start), [], 0)
  }

  /** The loop condition `queue and len(visited) < max_pages`. */
  predicate Running(c: Config, s: AppState) {
    s.frontier.queue != [] && |s.frontier.visited| < c.maxPages
  }

  /**
   * One loop iteration. A page whose navigation fails is marked visited but
   * contributes no links and no violations and leaves `pages_scanned` as it
   * was; a loaded page refreshes `pages_scanned` to the visited count.
   */
  function AppNext(c: Config, s: AppState): (t: AppState)
    requires s.frontier.queue != [] && WellFormedBrowser(c.browser)
    ensures s.frontier.queue[0] !in s.frontier.visited ==> |t.frontier.visited| == |s.frontier.visited| + 1
    ensures s.frontier.queue[0] in s.frontier.visited ==> t.frontier.visited == s.frontier.visited && |t.frontier.queue| < |s.frontier.queue|
  {
    var f := s.frontier;
    var url := f.queue[0];
    if url in f.visited then
      s.(frontier := Skip(f))
    else
      var page := c.browser(url);
      assert WellFormedPage(page);
      if page.NavigationFailed? then
        s.(frontier := Visit(f, [], c.netloc, c.host))
      else
        var g := Visit(f, LinksOf(page), c.netloc, c.host);
        AppState(g, s.violations + PageRecords(url, RawViolationsOf(page)), |g.visited|)
  }

  /** The whole `while` loop, from state `s` until the queue is empty or the ceiling is reached. */
  function AppCrawl(c: Config, s: AppState): (t: AppState)
    requires WellFormedBrowser(c.browser)
    ensures !Running(c, t)
    decreases c.maxPages - |s.frontier.visited|, |s.frontier.queue|
  {
    if !Running(c, s) then s else AppCrawl(c, AppNext(c, s))
  }

  /** The report `scan_site` returns for a crawl that ended in state `s`. */
  function ReportOf(c: Config, today: string, s: AppState): ScanReport<Violation> {
    ScanReport(today, c.start, s.pagesScanned, "2.2", s.violations)
  }

  /** The state invariant: the frontier invariant, `pages_scanned` never ahead of the visited count, and every record's page visited. */
  ghost predicate AppInv(c: Config, s: AppState) {
    && Inv(s.frontier, c.start, c.netloc, c.host, c.maxPages)
    && s.pagesScanned <= |s.frontier.visited|
    && (forall i :: 0 <= i < |s.violations| ==> s.violations[i].page in s.frontier.visited)
  }

  lemma AppInitInv(c: Config)
    requires c.netloc(c.start) == Some(c.host)
    ensures AppInv(c, AppInit(c.start))
  {
    SeedInv(c.start, c.netloc, c.host, c.maxPages);
  }

  /**
   * One iteration keeps the invariant; it never takes the `url in visited`
   * branch; it visits the front URL; it appends the page's records only when
   * the page loaded; and `pages_scanned` equals the visited count right after
   * a page that loaded.
   */
  lemma {:induction false} AppNextInv(c: Config, s: AppState)
    requires WellFormedBrowser(c.browser) && AppInv(c, s) && Running(c, s)
    ensures s.frontier.queue[0] !in s.frontier.visited
    ensures var t := AppNext(c, s);
      && AppInv(c, t)
      && t.frontier.trail == s.frontier.trail + [s.frontier.queue[0]]
      && s.frontier.trail + s.frontier.queue <= t.frontier.trail + t.frontier.queue
      && var page := c.browser(s.frontier.queue[0]);
      && (page.NavigationFailed? ==> t.violations == s.violations && t.pagesScanned == s.pagesScanned)
      && (page.Loaded? ==> t.pagesScanned == |t.frontier.visited|
                           && t.violations == s.violations + PageRecords(s.frontier.queue[0], RawViolationsOf(page)))
  {
    var f := s.frontier;
    var url := f.queue[0];
    InvFacts(f, c.start, c.netloc, c.host, c.maxPages);
    var page := c.browser(url);
    assert WellFormedPage(page);
    var links := if page.Loaded? then LinksOf(page) else [];
    VisitInv(f, links, c.start, c.netloc, c.host, c.maxPages);
    var t := AppNext(c, s);
    assert t.frontier == Visit(f, links, c.netloc, c.host);
    var recs := if page.Loaded? then PageRecords(url, RawViolationsOf(page)) else [];
    assert t.violations == s.violations + recs;
    PagesVisited(s.violations, recs, url, f.visited, t.frontier.visited);
  }

  /** Records kept from visited pages, followed by records of the page just visited, all name visited pages. */
  lemma PagesVisited(vs: seq<Violation>, recs: seq<Violation>, url: string, before: set<string>, after: set<string>)
    requires forall i :: 0 <= i < |vs| ==> vs[i].page in before
    requires forall i :: 0 <= i < |recs| ==> recs[i].page == url
    requires before <= after && url in after
    ensures forall i :: 0 <= i < |vs + recs| ==> (vs + recs)[i].page in after
  {
    forall i | 0 <= i < |vs + recs| ensures (vs + recs)[i].page in after {
      if i < |vs| {
        assert (vs + recs)[i] == vs[i];
      } else {
        assert (vs + recs)[i] == recs[i - |vs|];
      }
    }
  }

  /**
   * The whole loop keeps the invariant: at the end no URL was visited twice,
   * at most `maxPages` URLs were visited, all of them on the start host, in
   * the order they were discovered, `pages_scanned` does not exceed the
   * visited count, and the records found earlier are kept in order.
   */
  lemma {:induction false} AppCrawlInv(c: Config, s: AppState)
    requires WellFormedBrowser(c.browser) && AppInv(c, s)
    ensures var t := AppCrawl(c, s);
      && AppInv(c, t)
      && s.frontier.trail + s.frontier.queue <= t.frontier.trail + t.frontier.queue
      && s.frontier.trail <= t.frontier.trail
      && s.violations <= t.violations
    decreases c.maxPages - |s.frontier.visited|, |s.frontier.queue|
  {
    if Running(c, s) {
      AppNextInv(c, s);
      var n := AppNext(c, s);
      AppCrawlInv(c, n);
      var t := AppCrawl(c, s);
      assert s.frontier.trail <= n.frontier.trail;
    }
  }

  /** With a ceiling of one page and a start page that loads, exactly the start page is scanned and only its records are kept. */
  lemma CeilingOne(c: Config)
    requires WellFormedBrowser(c.browser) && c.maxPages == 1 && c.browser(c.start).Loaded?
    ensures var t := AppCrawl(c, AppInit(c.start));
      && t.frontier.trail == [c.start]
      && t.pagesScanned == 1
      && t.violations == PageRecords(c.start, RawViolationsOf(c.browser(c.start)))
  {
    var s1 := AppNext(c, AppInit(c.start));
    assert s1.frontier.visited == {c.start};
    assert AppCrawl(c, s1) == s1;
  }

  /**
   * A start page that fails to load ends the scan with the start URL marked
   * visited but `pages_scanned` still 0 and no records: the counter only
   * moves after a successful navigation.
   */
  lemma FailedStartPage(c: Config)
    requires WellFormedBrowser(c.browser) && c.maxPages >= 1 && c.browser(c.start).NavigationFailed?
    ensures var t := AppCrawl(c, AppInit(c.start));
      && t.frontier.visited == {c.start}
      && t.pagesScanned == 0
      && t.violations == []
  {
    var s1 := AppNext(c, AppInit(c.start));
    assert s1.frontier.queue == [];
    assert AppCrawl(c, s1) == s1;
  }

  const PageA := "https://a.test/"
  const PageB := "https://a.test/b"
  const Offsite := "https://other.test/"

  function DemoNetloc(u: string): Option<string> {
    if u == PageA || u == PageB then Some("a.test") else Some("other.test")
  }

  /** A site whose two pages link to each other; the first also links off-site. */
  function DemoBrowser(u: string): PageLoad {
    if u == PageA then Loaded(Some([PageB, PageA, Offsite]), Some([]))
    else if u == PageB then Loaded(Some([PageA]), Some([]))
    else NavigationFailed
  }

  function DemoConfig(): Config {
    Config(PageA, "a.test", 50, DemoNetloc, DemoBrowser)
  }

  lemma DemoWellFormed()
    ensures WellFormedBrowser(DemoBrowser)
  {
    forall u ensures WellFormedPage(DemoBrowser(u)) {}
  }

  lemma DemoFirstLinks()
    ensures Admit([], {PageA}, [PageB, PageA, Offsite], DemoNetloc, "a.test") == [PageB]
  {
    assert |PageA| == 15 && |PageB| == 16 && |Offsite| == 19;
    assert [PageB, PageA, Offsite][1..] == [PageA, Offsite] && [PageA, Offsite][1..] == [Offsite] && [Offsite][1..] == [];
    assert PageB !in {PageA} && [] + [PageB] == [PageB];
    assert Admit([], {PageA}, [PageB, PageA, Offsite], DemoNetloc, "a.test") == Admit([PageB], {PageA}, [PageA, Offsite], DemoNetloc, "a.test");
    assert Admit([PageB], {PageA}, [PageA, Offsite], DemoNetloc, "a.test") == Admit([PageB], {PageA}, [Offsite], DemoNetloc, "a.test");
  }

  lemma DemoSecondLinks()
    ensures Admit([], {PageA, PageB}, [PageA], DemoNetloc, "a.test") == []
  {
    assert [PageA][1..] == [];
  }

  lemma DemoSteps()
    requires WellFormedBrowser(DemoBrowser)
    ensures AppNext(DemoConfig(), AppInit(PageA)) == AppState(Frontier([PageB], {PageA}, [PageA]), [], 1)
    ensures AppNext(DemoConfig(), AppState(Frontier([PageB], {PageA}, [PageA]), [], 1))
              == AppState(Frontier([], {PageA, PageB}, [PageA, PageB]), [], 2)
  {
    assert |PageA| == 15 && |PageB| == 16;
    DemoFirstLinks();
    DemoSecondLinks();
    assert {PageA} + {PageB} == {PageA, PageB};
  }

  /**
   * Two same-site pages linking to each other, plus a link off-site: each
   * page is visited once, in discovery order, the off-site link is never
   * queued, and both pages count as scanned.
   */
  lemma MutualLinks()
    ensures WellFormedBrowser(DemoBrowser)
    ensures var t := AppCrawl(DemoConfig(), AppInit(PageA));
      t.frontier.trail == [PageA, PageB] && t.frontier.queue == [] && t.pagesScanned == 2
  {
    DemoWellFormed();
    DemoSteps();
    var c := DemoConfig();
    var s1 := AppState(Frontier([PageB], {PageA}, [PageA]), [], 1);
    var s2 := AppState(Frontier([], {PageA, PageB}, [PageA, PageB]), [], 2);
    assert AppCrawl(c, s2) == s2;
    assert AppCrawl(c, s1) == s2;
  }

  /** The scanner object: the loop's mutable variables as fields. */
  class AppScanner {
    const start: string
    const host: string
    const maxPages: int
    const netloc: Netloc
    const browser: Browser
    var queue: seq<string>
    var visited: set<string>
    ghost var trail: seq<string>
    var violations: seq<Violation>
    var pagesScanned: nat

    function Cfg(): Config {
      Config(start, host, maxPages, netloc, browser)
    }

    ghost function State(): AppState
      reads this
    {
      AppState(Frontier(queue, visited, trail), violations, pagesScanned)
    }

    /** The state before the loop: `host` as parsed from the start URL, `visited, queue = set(), [start_url]`. */
    constructor(startUrl: string, host: string, maxPages: int, netloc: Netloc, browser: Browser)
      ensures Cfg() == Config(startUrl, host, maxPages, netloc, browser)
      ensures State() == AppInit(startUrl)
    {
      this.start := startUrl;
      this.host := host;
      this.maxPages := maxPages;
      this.netloc := netloc;
      this.browser := browser;
      queue := [startUrl];
      visited := {};
      trail := [];
      violations := [];
      pagesScanned := 0;
    }

    /** The link loop: append each same-site link that is neither visited nor queued. */
    method EnqueueLinks(links: seq<string>)
      modifies this`queue
      ensures queue == Admit(old(queue), visited, links, netloc, host)
    {
      var i := 0;
      while i < |links|
        invariant 0 <= i <= |links|
        invariant Admit(queue, visited, links[i..], netloc, host) == Admit(old(queue), visited, links, netloc, host)
      {
        var href := links[i];
        assert links[i..][1..] == links[i + 1..];
        if SameSite(netloc, href, host) && href !in visited && href !in queue {
          queue := queue + [href];
        }
        i := i + 1;
      }
    }

    /** The mapping loop: one record per raw violation of the page at `url`. */
    method RecordViolations(url: string, raws: seq<RawViolation>)
      requires forall i :: 0 <= i < |raws| ==> HasSelector(raws[i])
      modifies this`violations
      ensures violations == old(violations) + PageRecords(url, raws)
    {
      var i := 0;
      while i < |raws|
        invariant 0 <= i <= |raws|
        invariant violations == old(violations) + PageRecords(url, raws[..i])
      {
        var v := raws[i];
        var selector := FirstSelector(v).value;
        violations := violations + [Violation(url, Criterion(v), v.id, v.impact, [Element(Some(selector), None)], v.helpUrl)];
        TakeSnoc(raws, i);
        PageRecordsSnoc(url, raws[..i], v);
        i := i + 1;
      }
      assert raws[..|raws|] == raws;
    }

    /** The crawl loop of `scan_site`. */
    method Crawl()
      requires WellFormedBrowser(browser)
      modifies this
      ensures State() == AppCrawl(Cfg(), old(State()))
    {
      while queue != [] && |visited| < maxPages
        invariant AppCrawl(Cfg(), State()) == AppCrawl(Cfg(), old(State()))
        decreases maxPages - |visited|, |queue|
      {
        Step();
      }
    }

    /** One pass of the loop body. */
    method Step()
      requires WellFormedBrowser(browser) && queue != [] && |visited| < maxPages
      modifies this
      ensures State() == AppNext(Cfg(), old(State()))
    {
      var url := queue[0];
      queue := queue[1..];
      if url in visited {
        return;
      }
      visited := visited + {url};
      trail := trail + [url];
      var page := browser(url);
      assert WellFormedPage(page);
      if page.NavigationFailed? {
        return;
      }
      EnqueueLinks(LinksOf(page));
      RecordViolations(url, RawViolationsOf(page));
      pagesScanned := |visited|;
    }
  }

  /**
   * `scan_site`: parse the start URL's host, set up the browser, crawl and
   * assemble the report. `launched` says whether launching the browser and
   * opening its context and page succeeded; `today` stands for the clock.
   * Neither the host parse nor the browser set-up is guarded, so a failure
   * of either escapes the call.
   */
  method ScanSite(startUrl: string, maxPages: int, netloc: Netloc, browser: Browser, launched: bool, today: string)
    returns (outcome: ScanOutcome<Violation>)
    requires WellFormedBrowser(browser)
    ensures netloc(startUrl).None? || !launched ==> outcome == Raised
    ensures netloc(startUrl).Some? && launched ==>
      var c := Config(startUrl, netloc(startUrl).value, maxPages, netloc, browser);
      outcome == Returned(ReportOf(c, today, AppCrawl(c, AppInit(startUrl))))
    ensures outcome.Returned? ==>
      && netloc(startUrl).Some?
      && outcome.report.site == startUrl && outcome.report.wcagVersion == "2.2"
      && outcome.report.pagesScanned <= (if maxPages < 0 then 0 else maxPages)
      && forall i :: 0 <= i < |outcome.report.violations| ==>
           SameSite(netloc, outcome.report.violations[i].page, netloc(startUrl).value)
  {
    var host := netloc(startUrl);
    if host.None? || !launched {
      return Raised;
    }
    var scanner := new AppScanner(startUrl, host.value, maxPages, netloc, browser);
    scanner.Crawl();
    outcome := Returned(ScanReport(today, startUrl, scanner.pagesScanned, "2.2", scanner.violations));
    ghost var c := scanner.Cfg();
    AppInitInv(c);
    AppCrawlInv(c, AppInit(startUrl));
    ghost var t := AppCrawl(c, AppInit(startUrl));
    InvFacts(t.frontier, c.start, c.netloc, c.host, c.maxPages);
  }
}
