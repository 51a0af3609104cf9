/**
 * The crawler of the client-files app (`streamlit_app_client.py`). It walks
 * the site like the auditor app, with three differences in error handling:
 * a link whose URL the parser rejects ends the link loop for that page; a
 * violation whose node or target list is empty aborts the whole scan and
 * returns what was collected so far; and a browser that cannot be launched
 * returns the initial, empty report.
 */
module ClientScan {
  import opened Wrappers
  import opened Seqs
  import opened Axe
  import opened Frontier
  import AppScan

  /** A violation record of the client-files app's report. */
  datatype ClientViolation = ClientViolation(
    page: string,
    criterion: string,
    axeId: Option<string>,
    severity: Option<string>,
    selector: string,
    description: Option<string>)

  function ClientRecordOf(url: string, v: RawViolation): ClientViolation
    requires HasSelector(v)
  {
    ClientViolation(url, Criterion(v), v.id, v.impact, FirstSelector(v).value, v.description)
  }

  function ClientPageRecords(url: string, raws: seq<RawViolation>): (r: seq<ClientViolation>)
    requires forall i :: 0 <= i < |raws| ==> HasSelector(raws[i])
    ensures |r| == |raws|
    ensures forall i :: 0 <= i < |raws| ==> r[i] == ClientRecordOf(url, raws[i])
  {
    if raws == [] then [] else [ClientRecordOf(url, raws[0])] + ClientPageRecords(url, raws[1..])
  }

  /**
   * The mapping loop of one page: the records of the raw violations before
   * the first malformed one, and whether the loop ran to the end (`false`
   * when it raised).
   */
  function ClientRecords(url: string, raws: seq<RawViolation>): (r: (seq<ClientViolation>, bool))
    ensures r.1 <==> forall i :: 0 <= i < |raws| ==> HasSelector(raws[i])
    ensures |r.0| <= |raws| && (r.1 <==> |r.0| == |raws|)
    ensures |r.0| < |raws| ==> !HasSelector(raws[|r.0|])
    ensures forall i :: 0 <= i < |r.0| ==> HasSelector(raws[i]) && r.0[i] == ClientRecordOf(url, raws[i])
  {
    var k := FirstFailing(HasSelector, raws);
    (ClientPageRecords(url, raws[..k]), k == |raws|)
  }

  lemma ClientPageRecordsSnoc(url: string, raws: seq<RawViolation>, i: nat)
    requires i < |raws| && forall j :: 0 <= j <= i ==> HasSelector(raws[j])
    ensures ClientPageRecords(url, raws[..i + 1]) == ClientPageRecords(url, raws[..i]) + [ClientRecordOf(url, raws[i])]
  {
    TakeSnoc(raws, i);
    ClientPageRecordsAppend(url, raws[..i], raws[i]);
  }

  lemma ClientPageRecordsAppend(url: string, raws: seq<RawViolation>, v: RawViolation)
    requires forall i :: 0 <= i < |raws| ==> HasSelector(raws[i])
    requires HasSelector(v)
    ensures ClientPageRecords(url, raws + [v]) == ClientPageRecords(url, raws) + [ClientRecordOf(url, v)]
  {
    assert forall i :: 0 <= i < |raws + [v]| ==> HasSelector((raws + [v])[i]);
  }

  /** Where the loop raises at `i`, the result is the records of the first `i` entries. */
  lemma ClientRecordsStop(url: string, raws: seq<RawViolation>, i: nat)
    requires i < |raws| && !HasSelector(raws[i]) && forall j :: 0 <= j < i ==> HasSelector(raws[j])
    ensures ClientRecords(url, raws) == (ClientPageRecords(url, raws[..i]), false)
  {
    var k := FirstFailing(HasSelector, raws);
    assert k == i;
  }

  /**
   * The links the link loop gets through: those before the first one the
   * URL parser rejects (the exception leaves the loop).
   */
  function ParsedPrefix(links: seq<string>, netloc: Netloc): (r: seq<string>)
    ensures r <= links
    ensures forall i :: 0 <= i < |r| ==> netloc(r[i]).Some?
    ensures |r| < |links| ==> netloc(links[|r|]).None?
  {
    links[..FirstFailing(u => netloc(u).Some?, links)]
  }

  /** The crawl state; `aborted` records that an exception escaped the loop. */
  datatype ClientState = ClientState(frontier: Frontier, violations: seq<ClientViolation>, pagesScanned: nat, aborted: bool)

  function ClientInit(start: string): ClientState {
    ClientState(Seed(start), [], 0, false)
  }

  predicate ClientRunning(c: Config, s: ClientState) {
    !s.aborted && s.frontier.queue != [] && |s.frontier.visited| < c.maxPages
  }

  /**
   * One loop iteration. On a loaded page the records before a malformed
   * violation are kept, and the scan stops without refreshing
   * `pages_scanned`.
   */
  function ClientNext(c: Config, s: ClientState): (t: ClientState)
    requires s.frontier.queue != []
    ensures s.frontier.queue[0] !in s.frontier.visited ==> |t.frontier.visited| == |s.frontier.visited| + 1
    ensures s.frontier.queue[0] in s.frontier.visited ==> t.frontier.visited == s.frontier.visited && |t.frontier.queue| < |s.frontier.queue|
  {
    var f := s.frontier;
    var url := f.queue[0];
    if url in f.visited then
      s.(frontier := Skip(f))
    else
      var page := c.browser(url);
      if page.NavigationFailed? then
        s.(frontier := Visit(f, [], c.netloc, c.host))
      else
        var g := Visit(f, ParsedPrefix(LinksOf(page), c.netloc), c.netloc, c.host);
        var mapped := ClientRecords(url, RawViolationsOf(page));
        ClientState(g, s.violations + mapped.0, if mapped.1 then |g.visited| else s.pagesScanned, !mapped.1)
  }

  /** The step on a page that loaded, field by field. */
  lemma ClientNextLoaded(c: Config, s: ClientState, page: PageLoad) returns (t: ClientState)
    requires s.frontier.queue != [] && s.frontier.queue[0] !in s.frontier.visited
    requires page == c.browser(s.frontier.queue[0]) && page.Loaded?
    ensures t == ClientNext(c, s)
    ensures var mapped := ClientRecords(s.frontier.queue[0], RawViolationsOf(page));
      && t.frontier == Visit(s.frontier, ParsedPrefix(LinksOf(page), c.netloc), c.netloc, c.host)
      && t.violations == s.violations + mapped.0
      && t.pagesScanned == (if mapped.1 then |t.frontier.visited| else s.pagesScanned)
      && t.aborted == !mapped.1
  {
    t := ClientNext(c, s);
  }

  function ClientCrawl(c: Config, s: ClientState): (t: ClientState)
    ensures !ClientRunning(c, t)
    decreases c.maxPages - |s.frontier.visited|, |s.frontier.queue|
  {
    if !ClientRunning(c, s) then s else ClientCrawl(c, ClientNext(c, s))
  }

  function ClientReportOf(c: Config, today: string, s: ClientState): ScanReport<ClientViolation> {
    ScanReport(today, c.start, s.pagesScanned, "2.2", s.violations)
  }

  ghost predicate ClientInv(c: Config, s: ClientState) {
    && Inv(s.frontier, c.start, c.netloc, c.host, c.maxPages)
    && s.pagesScanned <= |s.frontier.visited|
    && (forall i :: 0 <= i < |s.violations| ==> s.violations[i].page in s.frontier.visited)
  }

  lemma {:induction false} ClientNextInv(c: Config, s: ClientState)
    requires ClientInv(c, s) && ClientRunning(c, s)
    ensures s.frontier.queue[0] !in s.frontier.visited
    ensures var t := ClientNext(c, s);
      && ClientInv(c, t)
      && t.frontier.trail == s.frontier.trail + [s.frontier.queue[0]]
      && s.frontier.trail + s.frontier.queue <= t.frontier.trail + t.frontier.queue
      && s.violations <= t.violations
  {
    var f := s.frontier;
    var url := f.queue[0];
    InvFacts(f, c.start, c.netloc, c.host, c.maxPages);
    var page := c.browser(url);
    var t := ClientNext(c, s);
    var links := if page.Loaded? then ParsedPrefix(LinksOf(page), c.netloc) else [];
    VisitInv(f, links, c.start, c.netloc, c.host, c.maxPages);
    assert t.frontier == Visit(f, links, c.netloc, c.host);
    var recs := if page.Loaded? then ClientRecords(url, RawViolationsOf(page)).0 else [];
    assert t.violations == s.violations + recs;
    ClientPagesVisited(s.violations, recs, url, f.visited, t.frontier.visited);
  }

  /** Records kept from visited pages, followed by records of the page just visited, all name visited pages. */
  lemma ClientPagesVisited(vs: seq<ClientViolation>, recs: seq<ClientViolation>, url: string, before: set<string>, after: set<string>)
    requires forall i :: 0 <= i < |vs| ==> vs[i].page in before
    requires forall i :: 0 <= i < |recs| ==> recs[i].page == url
    requires before <= after && url in after
    ensures forall i :: 0 <= i < |vs + recs| ==> (vs + recs)[i].page in after
  {
    forall i | 0 <= i < |vs + recs| ensures (vs + recs)[i].page in after {
      if i < |vs| {
        assert (vs + recs)[i] == vs[i];
      } else {
        assert (vs + recs)[i] == recs[i - |vs|];
      }
    }
  }

  /**
   * The whole crawl keeps the invariant (no URL visited twice, the ceiling,
   * same host only, discovery order, `pages_scanned` not ahead of the visited
   * count), and it ends either aborted or with the loop condition false.
   */
  lemma {:induction false} ClientCrawlInv(c: Config, s: ClientState)
    requires ClientInv(c, s)
    ensures var t := ClientCrawl(c, s);
      && ClientInv(c, t)
      && s.frontier.trail + s.frontier.queue <= t.frontier.trail + t.frontier.queue
      && s.violations <= t.violations
    decreases c.maxPages - |s.frontier.visited|, |s.frontier.queue|
  {
    if ClientRunning(c, s) {
      ClientNextInv(c, s);
      ClientCrawlInv(c, ClientNext(c, s));
    }
  }

  /**
   * A start page whose violation list holds a malformed entry ends the scan
   * at once: the records of the entries before it survive, yet
   * `pages_scanned` stays 0.
   */
  lemma MalformedStartPage(c: Config)
    requires c.maxPages >= 1 && c.browser(c.start).Loaded?
    requires !ClientRecords(c.start, RawViolationsOf(c.browser(c.start))).1
    ensures var t := ClientCrawl(c, ClientInit(c.start));
      && t.aborted
      && t.pagesScanned == 0
      && t.frontier.trail == [c.start]
      && t.violations == ClientRecords(c.start, RawViolationsOf(c.browser(c.start))).0
  {
    var s1 := ClientNext(c, ClientInit(c.start));
    assert s1.aborted;
    assert ClientCrawl(c, s1) == s1;
  }

  /** A ceiling of zero or less scans nothing: the report equals the one a failed browser launch returns. */
  lemma ZeroCeiling(c: Config, today: string)
    requires c.maxPages <= 0
    ensures ClientReportOf(c, today, ClientCrawl(c, ClientInit(c.start))) == EmptyReport(c.start, today)
  {
  }

  /** A client record carries the same data as the auditor app's record of the same raw violation. */
  ghost predicate Corresponds(a: AppScan.Violation, v: ClientViolation) {
    && a.page == v.page
    && a.criterion == v.criterion
    && a.axeId == v.axeId
    && a.severity == v.severity
    && a.elements == [AppScan.Element(Some(v.selector), None)]
  }

  ghost predicate AllCorrespond(avs: seq<AppScan.Violation>, cvs: seq<ClientViolation>) {
    |avs| == |cvs| && forall i :: 0 <= i < |avs| ==> Corresponds(avs[i], cvs[i])
  }

  /** The two apps' records of one page correspond when no violation is malformed. */
  lemma RecordsCorrespond(url: string, raws: seq<RawViolation>)
    requires forall i :: 0 <= i < |raws| ==> HasSelector(raws[i])
    ensures AllCorrespond(AppScan.PageRecords(url, raws), ClientRecords(url, raws).0)
  {
  }

  lemma CorrespondAppend(av: seq<AppScan.Violation>, cv: seq<ClientViolation>, ar: seq<AppScan.Violation>, cr: seq<ClientViolation>)
    requires AllCorrespond(av, cv) && AllCorrespond(ar, cr)
    ensures AllCorrespond(av + ar, cv + cr)
  {
    forall i | 0 <= i < |av + ar| ensures Corresponds((av + ar)[i], (cv + cr)[i]) {
      if i < |av| {
        assert (av + ar)[i] == av[i] && (cv + cr)[i] == cv[i];
      } else {
        assert (av + ar)[i] == ar[i - |av|] && (cv + cr)[i] == cr[i - |av|];
      }
    }
  }

  /** Every link on every page parses. */
  ghost predicate LinksParse(browser: Browser, netloc: Netloc) {
    forall u :: browser(u).Loaded? ==> forall i :: 0 <= i < |LinksOf(browser(u))| ==> netloc(LinksOf(browser(u))[i]).Some?
  }

  /**
   * Where no error path is taken (every link parses and every violation has
   * a selector) the two crawlers agree: the same pages in the same order, the
   * same `pages_scanned`, and records that correspond one to one.
   */
  lemma {:induction false} ClientAgreesWithApp(c: Config, a: AppScan.AppState, s: ClientState)
    requires AppScan.WellFormedBrowser(c.browser) && LinksParse(c.browser, c.netloc)
    requires a.frontier == s.frontier && a.pagesScanned == s.pagesScanned && !s.aborted
    requires AllCorrespond(a.violations, s.violations)
    ensures var ta := AppScan.AppCrawl(c, a);
      var ts := ClientCrawl(c, s);
      && ta.frontier == ts.frontier && ta.pagesScanned == ts.pagesScanned && !ts.aborted
      && AllCorrespond(ta.violations, ts.violations)
    decreases c.maxPages - |s.frontier.visited|, |s.frontier.queue|
  {
    if ClientRunning(c, s) {
      var url := s.frontier.queue[0];
      var page := c.browser(url);
      var a1 := AppScan.AppNext(c, a);
      var s1 := ClientNext(c, s);
      if url !in s.frontier.visited && page.Loaded? {
        var links := LinksOf(page);
        assert ParsedPrefix(links, c.netloc) == links;
        assert AppScan.WellFormedPage(page);
        var raws := RawViolationsOf(page);
        var ar := AppScan.PageRecords(url, raws);
        var cr := ClientRecords(url, raws).0;
        assert a1.violations == a.violations + ar && s1.violations == s.violations + cr;
        RecordsCorrespond(url, raws);
        CorrespondAppend(a.violations, s.violations, ar, cr);
      }
      ClientAgreesWithApp(c, a1, s1);
    }
  }

  class ClientScanner {
    const start: string
    const host: string
    const maxPages: int
    const netloc: Netloc
    const browser: Browser
    var queue: seq<string>
    var visited: set<string>
    ghost var trail: seq<string>
    var violations: seq<ClientViolation>
    var pagesScanned: nat
    ghost var aborted: bool

    function Cfg(): Config {
      Config(start, host, maxPages, netloc, browser)
    }

    ghost function State(): ClientState
      reads this
    {
      ClientState(Frontier(queue, visited, trail), violations, pagesScanned, aborted)
    }

    /** The state before the loop: `host` as parsed from the start URL, `visited, queue = set(), [start_url]`. */
    constructor(startUrl: string, host: string, maxPages: int, netloc: Netloc, browser: Browser)
      ensures Cfg() == Config(startUrl, host, maxPages, netloc, browser)
      ensures State() == ClientInit(startUrl)
    {
      this.start := startUrl;
      this.host := host;
      this.maxPages := maxPages;
      this.netloc := netloc;
      this.browser := browser;
      queue := [startUrl];
      visited := {};
      trail := [];
      violations := [];
      pagesScanned := 0;
      aborted := false;
    }

    /** The link loop; a link the parser rejects raises and ends it. */
    method EnqueueLinks(links: seq<string>)
      modifies this`queue
      ensures queue == Admit(old(queue), visited, ParsedPrefix(links, netloc), netloc, host)
    {
      ghost var k := |ParsedPrefix(links, netloc)|;
      var i := 0;
      while i < |links|
        invariant 0 <= i <= k
        invariant Admit(queue, visited, links[i..k], netloc, host) == Admit(old(queue), visited, links[..k], netloc, host)
      {
        var href := links[i];
        var parsed := netloc(href);
        if parsed.None? {
          break;
        }
        assert links[i..k][1..] == links[i + 1..k];
        if parsed == Some(host) && href !in visited && href !in queue {
          queue := queue + [href];
        }
        i := i + 1;
      }
      assert links[i..k] == [];
    }

    /** The mapping loop; returns `false` where a malformed violation raised. */
    method RecordViolations(url: string, raws: seq<RawViolation>) returns (ok: bool)
      modifies this`violations
      ensures violations == old(violations) + ClientRecords(url, raws).0
      ensures ok == ClientRecords(url, raws).1
    {
      var i := 0;
      while i < |raws|
        invariant 0 <= i <= |raws|
        invariant forall j :: 0 <= j < i ==> HasSelector(raws[j])
        invariant violations == old(violations) + ClientPageRecords(url, raws[..i])
      {
        var v := raws[i];
        var selector := FirstSelector(v);
        if selector.None? {
          ClientRecordsStop(url, raws, i);
          return false;
        }
        violations := violations + [ClientViolation(url, Criterion(v), v.id, v.impact, selector.value, v.description)];
        ClientPageRecordsSnoc(url, raws, i);
        i := i + 1;
      }
      assert raws[..|raws|] == raws;
      return true;
    }

    /** The crawl loop; an exception from the mapping loop leaves it for good. */
    method Crawl()
      requires !aborted
      modifies this
      ensures State() == ClientCrawl(Cfg(), old(State()))
    {
      while queue != [] && |visited| < maxPages
        invariant !aborted
        invariant ClientCrawl(Cfg(), State()) == ClientCrawl(Cfg(), old(State()))
        decreases maxPages - |visited|, |queue|
      {
        var stop := Step();
        if stop {
          return;
        }
      }
    }

    /** One pass of the loop body; `stop` says that the mapping loop raised. */
    method Step() returns (stop: bool)
      requires !aborted && queue != [] && |visited| < maxPages
      modifies this
      ensures State() == ClientNext(Cfg(), old(State()))
      ensures stop == aborted
    {
      ghost var before := State();
      var url := queue[0];
      queue := queue[1..];
      if url in visited {
        return false;
      }
      visited := visited + {url};
      trail := trail + [url];
      var page := browser(url);
      if page.NavigationFailed? {
        return false;
      }
      ghost var next := ClientNextLoaded(Cfg(), before, page);
      EnqueueLinks(LinksOf(page));
      var ok := RecordViolations(url, RawViolationsOf(page));
      if !ok {
        aborted := true;
        return true;
      }
      pagesScanned := |visited|;
      return false;
    }
  }

  /**
   * `scan_site` of the client-files app. The host parse comes before any
   * handler, so an unparseable start URL escapes the call. `launched` says
   * whether launching the browser and opening its context and page
   * succeeded; a failure there is caught and returns the initial report.
   * `today` stands for the clock.
   */
  method ClientScanSite(startUrl: string, maxPages: int, netloc: Netloc, browser: Browser, launched: bool, today: string)
    returns (outcome: ScanOutcome<ClientViolation>)
    ensures netloc(startUrl).None? ==> outcome == Raised
    ensures netloc(startUrl).Some? && !launched ==> outcome == Returned(EmptyReport(startUrl, today))
    ensures netloc(startUrl).Some? && launched ==>
      var c := Config(startUrl, netloc(startUrl).value, maxPages, netloc, browser);
      outcome == Returned(ClientReportOf(c, today, ClientCrawl(c, ClientInit(startUrl))))
    ensures outcome.Returned? ==>
      && netloc(startUrl).Some?
      && outcome.report.pagesScanned <= (if maxPages < 0 then 0 else maxPages)
      && forall i :: 0 <= i < |outcome.report.violations| ==>
           SameSite(netloc, outcome.report.violations[i].page, netloc(startUrl).value)
  {
    var host := netloc(startUrl);
    if host.None? {
      return Raised;
    }
    if !launched {
      return Returned(EmptyReport(startUrl, today));
    }
    var scanner := new ClientScanner(startUrl, host.value, maxPages, netloc, browser);
    scanner.Crawl();
    outcome := Returned(ScanReport(today, startUrl, scanner.pagesScanned, "2.2", scanner.violations));
    ghost var c := scanner.Cfg();
    SeedInv(c.start, c.netloc, c.host, c.maxPages);
    ClientCrawlInv(c, ClientInit(startUrl));
    ghost var t := ClientCrawl(c, ClientInit(startUrl));
    InvFacts(t.frontier, c.start, c.netloc, c.host, c.maxPages);
  }
}
