/**
 * The URL frontier both scanner variants share: a FIFO queue of pending URLs,
 * the set of visited URLs, and the rule that admits a discovered link. The
 * ghost `trail` records the order in which URLs were visited.
 *
 * The central fact is `Inv`: the discovery sequence `trail + queue` never
 * holds a URL twice, starts with the start URL, holds only same-host URLs,
 * and its visited prefix is exactly the visited set, which never outgrows the
 * page ceiling.
 */
module Frontier {
  import opened Wrappers
  import opened Seqs
  import opened Axe

  /** `same_site(url, host)`: the URL's network location equals `host`; a URL the parser rejects is never same-site. */
  predicate SameSite(netloc: Netloc, url: string, host: string) {
    netloc(url) == Some(host)
  }

  /**
   * The queue after the link loop: each link in turn joins the back of the
   * queue when it is same-site, not visited and not already queued.
   */
  function Admit(queue: seq<string>, visited: set<string>, links: seq<string>, netloc: Netloc, host: string): seq<string>
    decreases |links|
  {
    if links == [] then queue
    else
      var href := links[0];
      var queue' := if SameSite(netloc, href, host) && href !in visited && href !in queue then queue + [href] else queue;
      Admit(queue', visited, links[1..], netloc, host)
  }

  /**
   * What the link loop promises: it only appends; what it appends is
   * same-site, unvisited and taken from `links`; it creates no duplicate; and
   * it misses no eligible link.
   */
  lemma {:induction false} AdmitSpec(queue: seq<string>, visited: set<string>, links: seq<string>, netloc: Netloc, host: string)
    ensures var r := Admit(queue, visited, links, netloc, host);
      && queue <= r
      && (forall i :: |queue| <= i < |r| ==> r[i] in links && SameSite(netloc, r[i], host) && r[i] !in visited)
      && (NoDup(queue) ==> NoDup(r))
      && (forall u :: u in links && SameSite(netloc, u, host) && u !in visited ==> u in r)
    decreases |links|
  {
    if links != [] {
      var href := links[0];
      var queue' := if SameSite(netloc, href, host) && href !in visited && href !in queue then queue + [href] else queue;
      AdmitSpec(queue', visited, links[1..], netloc, host);
      var r := Admit(queue, visited, links, netloc, host);
      assert r == Admit(queue', visited, links[1..], netloc, host);
      forall i | |queue| <= i < |r| ensures r[i] in links {
        if i >= |queue'| {
          assert r[i] in links[1..];
        } else {
          assert r[i] == queue'[i] == href;
        }
      }
      if NoDup(queue) && queue' != queue {
        assert NoDup(queue') by {
          forall i, j | 0 <= i < j < |queue'| ensures queue'[i] != queue'[j] {
            if j == |queue| {
              assert queue'[i] == queue[i];
            }
          }
        }
      }
      forall u | u in links && SameSite(netloc, u, host) && u !in visited ensures u in r {
        if u == href {
          assert href in queue';
          var k :| 0 <= k < |queue'| && queue'[k] == href;
          assert r[k] == href;
        } else {
          assert u in links[1..];
        }
      }
    }
  }

  datatype Frontier = Frontier(queue: seq<string>, visited: set<string>, trail: seq<string>)

  /** `visited, queue = set(), [start_url]`. */
  function Seed(start: string): Frontier {
    Frontier([start], {}, [])
  }

  /** The `url in visited: continue` branch: the front URL is dropped unvisited. */
  function Skip(f: Frontier): Frontier
    requires f.queue != []
  {
    f.(queue := f.queue[1..])
  }

  /** One visit: pop the front URL, mark it visited, then offer the page's links. */
  function Visit(f: Frontier, links: seq<string>, netloc: Netloc, host: string): Frontier
    requires f.queue != []
  {
    var url := f.queue[0];
    var visited := f.visited + {url};
    Frontier(Admit(f.queue[1..], visited, links, netloc, host), visited, f.trail + [url])
  }

  /** The frontier invariant of the crawl loop. */
  ghost predicate Inv(f: Frontier, start: string, netloc: Netloc, host: string, maxPages: int) {
    var discovered := f.trail + f.queue;
    && NoDup(discovered)
    && (forall u :: u in f.visited <==> u in f.trail)
    && |f.visited| == |f.trail|
    && (f.trail == [] || |f.trail| <= maxPages)
    && (discovered != [] ==> discovered[0] == start)
    && (forall i :: 0 <= i < |discovered| ==> SameSite(netloc, discovered[i], host))
  }

  lemma SeedInv(start: string, netloc: Netloc, host: string, maxPages: int)
    requires netloc(start) == Some(host)
    ensures Inv(Seed(start), start, netloc, host, maxPages)
  {
    assert [] + [start] == [start];
  }

  /**
   * The facts the crawl relies on, derived from the invariant: the queue has
   * no duplicates and shares nothing with the visited set (so the front URL is
   * never already visited and the `continue` branch cannot fire), every
   * visited URL has the start host, and the ceiling holds.
   */
  lemma {:induction false} InvFacts(f: Frontier, start: string, netloc: Netloc, host: string, maxPages: int)
    requires Inv(f, start, netloc, host, maxPages)
    ensures NoDup(f.queue)
    ensures forall u :: u in f.queue ==> u !in f.visited
    ensures f.queue != [] ==> f.queue[0] !in f.visited
    ensures forall u :: u in f.visited ==> SameSite(netloc, u, host)
    ensures |f.visited| <= if maxPages < 0 then 0 else maxPages
  {
    var d := f.trail + f.queue;
    forall i, j | 0 <= i < j < |f.queue| ensures f.queue[i] != f.queue[j] {
      assert d[|f.trail| + i] == f.queue[i] && d[|f.trail| + j] == f.queue[j];
    }
    forall u | u in f.queue ensures u !in f.visited {
      var j :| 0 <= j < |f.queue| && f.queue[j] == u;
      assert d[|f.trail| + j] == u;
      forall i | 0 <= i < |f.trail| ensures f.trail[i] != u {
        assert d[i] == f.trail[i];
      }
    }
    forall u | u in f.visited ensures SameSite(netloc, u, host) {
      var i :| 0 <= i < |f.trail| && f.trail[i] == u;
      assert d[i] == u;
    }
  }

  /**
   * A visit keeps the invariant while the ceiling has not been reached. It
   * visits exactly the front URL, grows the visited set by one, and only
   * appends to the discovery sequence, so URLs are visited in the order they
   * were enqueued.
   */
  lemma {:induction false} VisitInv(f: Frontier, links: seq<string>, start: string, netloc: Netloc, host: string, maxPages: int)
    requires Inv(f, start, netloc, host, maxPages)
    requires f.queue != [] && |f.visited| < maxPages
    ensures var g := Visit(f, links, netloc, host);
      && Inv(g, start, netloc, host, maxPages)
      && g.trail == f.trail + [f.queue[0]]
      && g.visited == f.visited + {f.queue[0]}
      && |g.visited| == |f.visited| + 1
      && f.trail + f.queue <= g.trail + g.queue
  {
    InvFacts(f, start, netloc, host, maxPages);
    var url := f.queue[0];
    var visited := f.visited + {url};
    var rest := f.queue[1..];
    var q := Admit(rest, visited, links, netloc, host);
    AdmitSpec(rest, visited, links, netloc, host);
    var g := Visit(f, links, netloc, host);
    assert g.queue == q && g.trail == f.trail + [url];
    var prefix := f.trail + [url];
    assert f.trail + f.queue == prefix + rest;
    assert g.trail + g.queue == prefix + q;
    forall u | u in prefix ensures u in visited {
      if u != url {
        assert u in f.trail;
      }
    }
    DiscoveryNoDup(prefix, rest, q, visited);
    DiscoverySameSite(prefix, rest, q, netloc, host);
  }

  /** The discovery sequence stays free of duplicates when only unvisited URLs join the queue. */
  lemma DiscoveryNoDup(prefix: seq<string>, rest: seq<string>, q: seq<string>, visited: set<string>)
    requires NoDup(prefix + rest) && NoDup(q) && rest <= q
    requires forall u :: u in prefix ==> u in visited
    requires forall i :: |rest| <= i < |q| ==> q[i] !in visited
    ensures NoDup(prefix + q)
  {
    var d, e := prefix + rest, prefix + q;
    forall i, j | 0 <= i < j < |e| ensures e[i] != e[j] {
      if j < |d| {
        assert e[i] == d[i] && e[j] == d[j];
      } else if i < |prefix| {
        assert e[i] == prefix[i] && e[j] == q[j - |prefix|];
      } else {
        assert e[i] == q[i - |prefix|] && e[j] == q[j - |prefix|];
      }
    }
  }

  /** The discovery sequence stays on the start host when only same-site URLs join the queue. */
  lemma DiscoverySameSite(prefix: seq<string>, rest: seq<string>, q: seq<string>, netloc: Netloc, host: string)
    requires forall i :: 0 <= i < |prefix + rest| ==> SameSite(netloc, (prefix + rest)[i], host)
    requires rest <= q && forall i :: |rest| <= i < |q| ==> SameSite(netloc, q[i], host)
    ensures forall i :: 0 <= i < |prefix + q| ==> SameSite(netloc, (prefix + q)[i], host)
  {
    forall i | 0 <= i < |prefix + q| ensures SameSite(netloc, (prefix + q)[i], host) {
      if i < |prefix + rest| {
        assert (prefix + q)[i] == (prefix + rest)[i];
      } else {
        assert (prefix + q)[i] == q[i - |prefix|];
      }
    }
  }

  /** The fixed inputs of one scan: start URL, its host, the page ceiling, the URL parser and the browser. */
  datatype Config = Config(start: string, host: string, maxPages: int, netloc: Netloc, browser: Browser)

  /** The report object `scan_site` returns. */
  datatype ScanReport<V> = ScanReport(
    scannedAt: string,
    site: string,
    pagesScanned: nat,
    wcagVersion: string,
    violations: seq<V>)

  /** How a call of `scan_site` ends: an exception escapes it, or it returns a report. */
  datatype ScanOutcome<V> = Raised | Returned(report: ScanReport<V>)

  /** The report before any page is scanned. */
  function EmptyReport<V>(site: string, today: string): (r: ScanReport<V>)
    ensures r.pagesScanned == 0 && r.violations == [] && r.site == site
  {
    ScanReport(today, site, 0, "2.2", [])
  }

  /** The form check before a scan: `url and url.startswith("http")`, a bare prefix test. */
  function AcceptsStartUrl(url: string): (ok: bool)
    ensures ok <==> |url| >= 4 && url[..4] == "http"
  {
    |url| > 0 && "http" <= url
  }

  /** The check is a prefix test only: scheme-less text that starts with "http" passes, other schemes fail. */
  lemma AcceptsStartUrlExamples()
    ensures AcceptsStartUrl("httpfoo")
    ensures AcceptsStartUrl("https://example.com")
    ensures !AcceptsStartUrl("ftp://example.com")
    ensures !AcceptsStartUrl("")
  {
    assert "ftp://example.com"[0] != "http"[0];
  }
}
