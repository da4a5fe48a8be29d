/**
 * `Frontier`: the crawler's global scheduler. It deduplicates URLs in a fixed-capacity
 * open-addressing table, routes each fresh URL to its domain's `Website`, keeps the sites
 * ready to crawl (`mainQueue`) apart from the sites in use (`waitQueue`), and records the
 * growth curve of links seen against documents processed. The Java class keeps all of
 * this in static fields; here they are the fields of one object.
 */
module Frontier {
  import opened Text
  import opened Robots
  import opened Site
  import opened Dedup

  /** `maxLinks`: past this many unique links the crawl stops. */
  const MaxLinks := 1000

  /** What `new URI(url)` gives: a host, or a `URISyntaxException`. */
  datatype UriParse = Parsed(host: string) | SyntaxError

  /** What `done()` does: exit after printing the report, or return true or false. */
  datatype Status = Halted(report: seq<(int, int)>) | Drained | Running

  /**
   * `cleanURL`: drops everything up to the first "//" when the URL mentions "http", then
   * everything up to the first "www." after that; the result is always a suffix of the input.
   * A URL that mentions "http" without "//" loses its first character (indexOf gives -1).
   */
  function CleanURL(url: string): (r: string)
    ensures !Contains(url, "http") && !Contains(url, "www.") ==> r == url
  {
    var u := if Contains(url, "http") then url[IndexOf(url, "//") + 2..] else url;
    if Contains(u, "www.") then u[IndexOf(u, "www.") + 4..] else u
  }

  /** Cleaning only ever cuts a prefix off. */
  lemma CleanURLIsSuffix(url: string)
    ensures exists k :: 0 <= k <= |url| && CleanURL(url) == url[k..]
  {
    var a := if Contains(url, "http") then IndexOf(url, "//") + 2 else 0;
    var u := url[a..];
    var b := if Contains(u, "www.") then IndexOf(u, "www.") + 4 else 0;
    assert CleanURL(url) == u[b..];
    assert u[b..] == url[a + b..];
  }

  /** The index of the first site of `queue` for `domain`, or -1: the for-each search of `addURL`. */
  function DomainIndex(queue: seq<Website>, domain: string): (i: int)
    ensures -1 <= i < |queue|
    ensures i >= 0 ==> queue[i].domainName == domain
    ensures forall k :: 0 <= k < |queue| && (i == -1 || k < i) ==> queue[k].domainName != domain
  {
    if queue == [] then -1
    else if queue[0].domainName == domain then 0
    else
      var i := DomainIndex(queue[1..], domain);
      if i == -1 then -1 else i + 1
  }

  /** The position of the first occurrence of `site` in `queue`, or -1. */
  function FirstIndex(queue: seq<Website>, site: Website): (i: int)
    ensures -1 <= i < |queue|
    ensures i == -1 <==> site !in queue
    ensures i >= 0 ==> queue[i] == site && site !in queue[..i]
  {
    if queue == [] then -1
    else if queue[0] == site then 0
    else
      var i := FirstIndex(queue[1..], site);
      if i == -1 then -1
      else
        assert queue[..i + 1] == [queue[0]] + queue[1..][..i];
        i + 1
  }

  /**
   * `queue.remove(site)` on a `LinkedBlockingQueue`: drops the first occurrence, if any,
   * and keeps the others in order.
   */
  function RemoveFirst(queue: seq<Website>, site: Website): (r: seq<Website>)
    ensures site !in queue ==> r == queue
    ensures site in queue ==> multiset(r) == multiset(queue) - multiset{site}
  {
    var i := FirstIndex(queue, site);
    if i == -1 then queue
    else
      assert queue == queue[..i] + [site] + queue[i + 1..];
      queue[..i] + queue[i + 1..]
  }

  /** The site `addURL` gives a URL of `domain`: the first of `main` for it, else the first of `wait`, else null. */
  function SiteFor(main: seq<Website>, wait: seq<Website>, domain: string): (site: Website?)
    ensures site == null <==> DomainIndex(main, domain) == -1 && DomainIndex(wait, domain) == -1
    ensures site != null ==> site.domainName == domain && (site in main || site in wait)
  {
    var i := DomainIndex(main, domain);
    if i != -1 then main[i]
    else
      var j := DomainIndex(wait, domain);
      if j != -1 then wait[j] else null
  }

  /** `t'` is `t` with `url` written into the first free slot of its probe sequence. */
  ghost predicate Recorded(t: Table, t': Table, hash: string -> nat, url: string) {
    |t| == Capacity && exists r :: FirstFree(t, Home(hash, url), r) && t' == t[r := Some(url)]
  }

  /** A site `addURL` creates: its domain, the one cleaned URL, and the rules of its robots read. */
  ghost predicate OpenedFor(site: Website, domain: string, url: string, robots: RobotsResponse)
    reads site
  {
    && site.domainName == domain && site.urls == [url]
    && site.allowed == Scan(robots.lines).allowed && site.disallowed == Scan(robots.lines).disallowed
  }

  /** No two queued sites share a domain, so no site is queued twice either. */
  ghost predicate Partition(sites: seq<Website>) {
    forall i, j :: 0 <= i < |sites| && 0 <= j < |sites| && i != j ==> sites[i].domainName != sites[j].domainName
  }

  /** `nextSite` moves the head of the queued sites to their tail. */
  lemma RotateKeepsPartition(site: Website, rest: seq<Website>)
    requires Partition([site] + rest)
    ensures Partition(rest + [site])
  {
    var sites, sites' := [site] + rest, rest + [site];
    forall i, j | 0 <= i < |sites'| && 0 <= j < |sites'| && i != j
      ensures sites'[i].domainName != sites'[j].domainName
    {
      var p, q := if i < |rest| then i + 1 else 0, if j < |rest| then j + 1 else 0;
      assert sites'[i] == sites[p] && sites'[j] == sites[q];
    }
  }

  /** Dropping the site at `k` keeps the partition, and leaves no other site of its domain. */
  lemma DropKeepsPartition(sites: seq<Website>, k: int, rest: seq<Website>)
    requires Partition(sites) && 0 <= k < |sites| && rest == sites[..k] + sites[k + 1..]
    ensures Partition(rest)
    ensures forall i :: 0 <= i < |rest| ==> rest[i].domainName != sites[k].domainName
  {
    forall i | 0 <= i < |rest|
      ensures rest[i] == sites[if i < k then i else i + 1]
    {
    }
  }

  /** `releaseSite` drops the first occurrence of a waiting site and may queue it again for crawling. */
  lemma ReleaseKeepsPartition(main: seq<Website>, wait: seq<Website>, site: Website, requeue: bool)
    requires Partition(main + wait) && site in wait
    ensures Partition(main + (if requeue then [site] else []) + RemoveFirst(wait, site))
  {
    var k := FirstIndex(wait, site);
    var rest := wait[..k] + wait[k + 1..];
    DropFromWait(main, wait, k, rest);
    if requeue {
      FreshSiteKeepsPartition(main, rest, site);
    } else {
      assert main + [] + rest == main + rest;
    }
  }

  /** Dropping position `k` of `wait` keeps the partition and leaves no other site of that domain. */
  lemma DropFromWait(main: seq<Website>, wait: seq<Website>, k: int, rest: seq<Website>)
    requires Partition(main + wait) && 0 <= k < |wait| && rest == wait[..k] + wait[k + 1..]
    ensures Partition(main + rest)
    ensures forall i :: 0 <= i < |main + rest| ==> (main + rest)[i].domainName != wait[k].domainName
  {
    var sites, m := main + wait, |main|;
    assert sites[..m + k] == main + wait[..k];
    assert sites[m + k + 1..] == wait[k + 1..];
    assert sites[..m + k] + sites[m + k + 1..] == main + rest;
    DropKeepsPartition(sites, m + k, main + rest);
  }

  /** `addURL` appends a site whose domain no queued site has. */
  lemma FreshSiteKeepsPartition(main: seq<Website>, wait: seq<Website>, site: Website)
    requires Partition(main + wait)
    requires forall k :: 0 <= k < |main + wait| ==> (main + wait)[k].domainName != site.domainName
    ensures Partition(main + [site] + wait)
  {
    var sites, sites' := main + wait, main + [site] + wait;
    forall i, j | 0 <= i < |sites'| && 0 <= j < |sites'| && i != j
      ensures sites'[i].domainName != sites'[j].domainName
    {
      var p, q := if i < |main| then i else i - 1, if j < |main| then j else j - 1;
      if i != |main| {
        assert sites'[i] == sites[p];
      }
      if j != |main| {
        assert sites'[j] == sites[q];
      }
    }
  }

  /** The statistics after `n` documents: keys exactly 1..n, values strictly increasing and bounded. */
  ghost predicate StatsOk(stats: map<int, int>, n: nat, count: int) {
    && |stats| == n
    && (forall i :: i in stats <==> 1 <= i <= n)
    && (forall i, j :: i in stats && j in stats && i < j ==> stats[i] < stats[j])
    && (forall i :: i in stats ==> i <= stats[i] <= count + i)
  }

  /** `setLinkAsVisited` extends a valid growth curve by one point, whatever links were found since. */
  lemma RecordVisitKeepsStats(stats: map<int, int>, n: nat, count: int, count': int)
    requires StatsOk(stats, n, count) && 0 <= count <= count'
    ensures StatsOk(stats[n + 1 := count' + n + 1], n + 1, count')
  {
  }

  class Frontier {
    /** Websites that can be crawled at the moment, oldest first. */
    var mainQueue: seq<Website>
    /** Websites that are in use and must not be crawled at the moment. */
    var waitQueue: seq<Website>
    const uniqueLinks: array<Option<string>>
    var uniqueCount: int
    var visitedLinks: seq<string>
    /** Documents processed so far, mapped to unique links plus documents processed at that point. */
    var processedVsFrontier: map<int, int>
    /** The rolling hash `checkDuplicates` computes over the cleaned URL, before reduction modulo the capacity. */
    const hash: string -> nat
    /** `new URI(url)`, of which `getDomain` uses the host. */
    const parseUri: string -> UriParse

    /** The table and statistics invariants. */
    ghost predicate Valid()
      reads this`uniqueCount, this`visitedLinks, this`processedVsFrontier, uniqueLinks
    {
      TableValid() && StatsOk(processedVsFrontier, |visitedLinks|, uniqueCount)
    }

    /** The probe chains are intact, no link is held twice, and `uniqueCount` counts the occupied slots. */
    ghost predicate TableValid()
      reads this`uniqueCount, uniqueLinks
    {
      && uniqueLinks.Length == Capacity
      && NoDuplicates(uniqueLinks[..])
      && ChainsIntact(uniqueLinks[..], hash)
      && uniqueCount == Occupied(uniqueLinks[..])
    }

    /** Each site sits in at most one queue, once, and no two queued sites share a domain. */
    ghost predicate Partitioned()
      reads this`mainQueue, this`waitQueue
    {
      Partition(mainQueue + waitQueue)
    }

    constructor (hash: string -> nat, parseUri: string -> UriParse)
      ensures Valid() && Partitioned() && fresh(uniqueLinks)
      ensures this.hash == hash && this.parseUri == parseUri
      ensures forall j :: 0 <= j < Capacity ==> uniqueLinks[j].None?
      ensures mainQueue == [] && waitQueue == [] && uniqueCount == 0
      ensures visitedLinks == [] && processedVsFrontier == map[]
    {
      this.hash := hash;
      this.parseUri := parseUri;
      mainQueue, waitQueue := [], [];
      uniqueLinks := new Option<string>[Capacity](_ => None);
      uniqueCount := 0;
      visitedLinks, processedVsFrontier := [], map[];
      new;
      EmptyTable(uniqueLinks[..]);
    }

    /** `getDomain(url)`: the host of the URL, or the URL itself when it does not parse. */
    function GetDomain(url: string): string {
      match parseUri(url)
      case Parsed(host) => host
      case SyntaxError => url
    }

    /**
     * `checkDuplicates`: probes from the cleaned URL's home slot. Returns -1 exactly when the
     * cleaned URL is already in the table, and otherwise the first free slot of its probe
     * sequence. The probe only ends when a slot is free or the URL is present.
     */
    method CheckDuplicates(url: string) returns (index: int)
      requires Valid()
      requires uniqueCount < Capacity || Some(CleanURL(url)) in uniqueLinks[..]
      ensures index == -1 <==> Some(CleanURL(url)) in uniqueLinks[..]
      ensures index != -1 ==> FirstFree(uniqueLinks[..], Home(hash, CleanURL(url)), index)
      ensures unchanged(this, uniqueLinks) && Valid()
    {
      index := ProbeFor(CleanURL(url));
    }

    /** The probe loop of `checkDuplicates` for an already cleaned URL. */
    method ProbeFor(cleaned: string) returns (index: int)
      requires uniqueLinks.Length == Capacity && ChainsIntact(uniqueLinks[..], hash)
      requires Occupied(uniqueLinks[..]) < Capacity || Some(cleaned) in uniqueLinks[..]
      ensures index == -1 <==> Some(cleaned) in uniqueLinks[..]
      ensures index != -1 ==> FirstFree(uniqueLinks[..], Home(hash, cleaned), index)
    {
      ghost var t := uniqueLinks[..];
      ghost var home := Home(hash, cleaned);
      ghost var steps := 0;
      index := Home(hash, cleaned);
      while uniqueLinks[index] != None
        invariant 0 <= steps < Capacity
        invariant index == Probe(home, steps)
        invariant ProbedFull(t, home, steps)
        invariant forall k :: 0 <= k < steps ==> t[Probe(home, k)] != Some(cleaned)
        decreases Capacity - steps
      {
        assert t[index] == uniqueLinks[index];
        if uniqueLinks[index] == Some(cleaned) {
          return -1;
        }
        ProbeNext(home, steps);
        index := index + 1;
        if index >= uniqueLinks.Length {
          index := 0;
        }
        steps := steps + 1;
        ProbeStopsEarly(t, home, cleaned, steps);
      }
      AbsentWhenProbeMeetsFree(t, hash, cleaned, steps);
      DistOfProbe(home, steps);
    }

    /** Fills the slot the probe returned and counts the new link, as each branch of `addURL` that keeps the URL does. */
    method RecordUnique(slot: int, cleaned: string)
      requires Valid()
      requires Some(cleaned) !in uniqueLinks[..]
      requires FirstFree(uniqueLinks[..], Home(hash, cleaned), slot)
      modifies uniqueLinks, this`uniqueCount
      ensures Valid()
      ensures uniqueLinks[..] == old(uniqueLinks[..])[slot := Some(cleaned)]
      ensures uniqueCount == old(uniqueCount) + 1
    {
      ghost var t := uniqueLinks[..];
      InsertKeepsChains(t, hash, cleaned, slot);
      InsertKeepsDistinct(t, cleaned, slot);
      InsertCounts(t, slot, cleaned);
      uniqueLinks[slot] := Some(cleaned);
      uniqueCount := uniqueCount + 1;
      assert uniqueLinks[..] == t[slot := Some(cleaned)];
    }

    /** The for-each search of `addURL` over one queue for a site of `domain`. */
    method FindSite(queue: seq<Website>, domain: string) returns (index: int)
      ensures index == DomainIndex(queue, domain)
    {
      for i := 0 to |queue|
        invariant forall k :: 0 <= k < i ==> queue[k].domainName != domain
      {
        if queue[i].domainName == domain {
          return i;
        }
      }
      return -1;
    }

    /**
     * `addURL(url)`, with `robots` standing for what reading the `robots.txt` of the URL's
     * domain yields. A duplicate changes nothing. A fresh URL goes, cleaned, to the tail of the
     * first site of its domain in `mainQueue`, else in `waitQueue`; a fresh URL of an unseen
     * domain makes a new site that joins the tail of `mainQueue` only if its robots read
     * admits it. The URL is recorded in the table exactly when it is queued.
     */
    method AddURL(url: string, robots: RobotsResponse)
      requires Valid()
      requires uniqueCount < Capacity || Some(CleanURL(url)) in uniqueLinks[..]
      modifies this`mainQueue, this`uniqueCount, uniqueLinks, {SiteFor(mainQueue, waitQueue, GetDomain(url))}`urls
      ensures Valid()
      ensures old(Partitioned()) ==> Partitioned()
      ensures var c := CleanURL(url);
        var target := SiteFor(old(mainQueue), waitQueue, GetDomain(url));
        var queued := Some(c) !in old(uniqueLinks[..]) && (target != null || Admits(robots));
        && (queued ==> Recorded(old(uniqueLinks[..]), uniqueLinks[..], hash, c) && uniqueCount == old(uniqueCount) + 1)
        && (!queued ==> uniqueLinks[..] == old(uniqueLinks[..]) && uniqueCount == old(uniqueCount))
        && (target != null ==> target.urls == old(target.urls) + if queued then [c] else [])
        && (queued && target == null ==> |mainQueue| == |old(mainQueue)| + 1 && mainQueue[..|old(mainQueue)|] == old(mainQueue))
        && (!queued || target != null ==> mainQueue == old(mainQueue))
      ensures var c, d := CleanURL(url), GetDomain(url);
        Some(c) !in old(uniqueLinks[..]) && SiteFor(old(mainQueue), waitQueue, d) == null && Admits(robots) ==>
          |mainQueue| == |old(mainQueue)| + 1 && fresh(mainQueue[|old(mainQueue)|])
          && OpenedFor(mainQueue[|old(mainQueue)|], d, c, robots)
    {
      ghost var target := SiteFor(mainQueue, waitQueue, GetDomain(url));
      var slot := CheckDuplicates(url);
      assert uniqueLinks[..] == old(uniqueLinks[..]);
      assert target != null ==> target.urls == old(target.urls);
      if slot != -1 {
        RouteFresh(url, slot, robots);
      }
    }

    /** What `addURL` does with a URL the table does not hold, whose free slot the probe found, as the rest of `addURL` does. */
    method RouteFresh(url: string, slot: int, robots: RobotsResponse)
      requires Valid()
      requires Some(CleanURL(url)) !in uniqueLinks[..] && FirstFree(uniqueLinks[..], Home(hash, CleanURL(url)), slot)
      modifies this`mainQueue, this`uniqueCount, uniqueLinks, {SiteFor(mainQueue, waitQueue, GetDomain(url))}`urls
      ensures Valid()
      ensures old(Partitioned()) ==> Partitioned()
      ensures var c := CleanURL(url);
        var target := SiteFor(old(mainQueue), waitQueue, GetDomain(url));
        var queued := target != null || Admits(robots);
        && (queued ==> Recorded(old(uniqueLinks[..]), uniqueLinks[..], hash, c) && uniqueCount == old(uniqueCount) + 1)
        && (!queued ==> uniqueLinks[..] == old(uniqueLinks[..]) && uniqueCount == old(uniqueCount))
        && (target != null ==> target.urls == old(target.urls) + [c])
        && (queued && target == null ==> |mainQueue| == |old(mainQueue)| + 1 && mainQueue[..|old(mainQueue)|] == old(mainQueue))
        && (!queued || target != null ==> mainQueue == old(mainQueue))
      ensures SiteFor(old(mainQueue), waitQueue, GetDomain(url)) == null && Admits(robots) ==>
        |mainQueue| == |old(mainQueue)| + 1 && fresh(mainQueue[|old(mainQueue)|])
        && OpenedFor(mainQueue[|old(mainQueue)|], GetDomain(url), CleanURL(url), robots)
    {
      ghost var t := uniqueLinks[..];
      assert FirstFree(t, Home(hash, CleanURL(url)), slot);
      var urlDomain := GetDomain(url);
      var i := FindSite(mainQueue, urlDomain);
      var j := FindSite(waitQueue, urlDomain);
      if i != -1 || j != -1 {
        JoinSite(url, slot);
      } else {
        OpenSite(url, slot, robots);
      }
    }

    /** A fresh URL of a queued domain goes to the first site of that domain in `mainQueue`, else in `waitQueue`, as the two for-each searches of `addURL` do. */
    method JoinSite(url: string, slot: int)
      requires Valid()
      requires Some(CleanURL(url)) !in uniqueLinks[..] && FirstFree(uniqueLinks[..], Home(hash, CleanURL(url)), slot)
      requires SiteFor(mainQueue, waitQueue, GetDomain(url)) != null
      modifies this`uniqueCount, uniqueLinks, SiteFor(mainQueue, waitQueue, GetDomain(url))`urls
      ensures Valid()
      ensures SiteFor(mainQueue, waitQueue, GetDomain(url)).urls == old(SiteFor(mainQueue, waitQueue, GetDomain(url)).urls) + [CleanURL(url)]
      ensures uniqueLinks[..] == old(uniqueLinks[..])[slot := Some(CleanURL(url))]
      ensures uniqueCount == old(uniqueCount) + 1
    {
      var urlDomain := GetDomain(url);
      var cleaned := CleanURL(url);
      var i := FindSite(mainQueue, urlDomain);
      if i != -1 {
        QueueOnSite(mainQueue[i], slot, cleaned);
      } else {
        var j := FindSite(waitQueue, urlDomain);
        QueueOnSite(waitQueue[j], slot, cleaned);
      }
    }

    /** A fresh URL of a domain no queued site has: a new site, kept only if its robots read admits it, as the last part of `addURL` does. */
    method OpenSite(url: string, slot: int, robots: RobotsResponse)
      requires Valid()
      requires Some(CleanURL(url)) !in uniqueLinks[..] && FirstFree(uniqueLinks[..], Home(hash, CleanURL(url)), slot)
      requires SiteFor(mainQueue, waitQueue, GetDomain(url)) == null
      modifies this`mainQueue, this`uniqueCount, uniqueLinks
      ensures Valid()
      ensures old(Partitioned()) ==> Partitioned()
      ensures !Admits(robots) ==>
        uniqueLinks[..] == old(uniqueLinks[..]) && uniqueCount == old(uniqueCount) && mainQueue == old(mainQueue)
      ensures Admits(robots) ==>
        && |mainQueue| == |old(mainQueue)| + 1 && mainQueue[..|old(mainQueue)|] == old(mainQueue)
        && fresh(mainQueue[|old(mainQueue)|]) && OpenedFor(mainQueue[|old(mainQueue)|], GetDomain(url), CleanURL(url), robots)
        && uniqueCount == old(uniqueCount) + 1
        && uniqueLinks[..] == old(uniqueLinks[..])[slot := Some(CleanURL(url))]
    {
      var cleaned := CleanURL(url);
      var website := new Website(GetDomain(url));
      website.AddURL(cleaned);
      var admitted := website.AddCrawlRules(robots);
      assert [] + Scan(robots.lines).allowed == Scan(robots.lines).allowed;
      assert [] + Scan(robots.lines).disallowed == Scan(robots.lines).disallowed;
      if admitted {
        AdmitSite(website, slot, cleaned);
        assert mainQueue[..|old(mainQueue)|] == old(mainQueue);
      }
    }

    /** A fresh URL joins the tail of a queued site and is recorded, as the bodies of the two for-each searches of `addURL` do. */
    method QueueOnSite(site: Website, slot: int, cleaned: string)
      requires Valid()
      requires Some(cleaned) !in uniqueLinks[..] && FirstFree(uniqueLinks[..], Home(hash, cleaned), slot)
      modifies site`urls, uniqueLinks, this`uniqueCount
      ensures Valid()
      ensures site.urls == old(site.urls) + [cleaned]
      ensures uniqueLinks[..] == old(uniqueLinks[..])[slot := Some(cleaned)]
      ensures uniqueCount == old(uniqueCount) + 1
    {
      site.AddURL(cleaned);
      RecordUnique(slot, cleaned);
    }

    /** A new site admitted by its robots.txt joins the tail of `mainQueue`, and its URL is recorded, as the admitted branch of `addURL` does. */
    method AdmitSite(site: Website, slot: int, cleaned: string)
      requires Valid()
      requires Some(cleaned) !in uniqueLinks[..] && FirstFree(uniqueLinks[..], Home(hash, cleaned), slot)
      requires site !in mainQueue + waitQueue
      requires forall w :: w in mainQueue + waitQueue ==> w.domainName != site.domainName
      modifies this`mainQueue, uniqueLinks, this`uniqueCount
      ensures Valid()
      ensures mainQueue == old(mainQueue) + [site]
      ensures uniqueLinks[..] == old(uniqueLinks[..])[slot := Some(cleaned)]
      ensures uniqueCount == old(uniqueCount) + 1
      ensures old(Partitioned()) ==> Partitioned()
    {
      if Partitioned() {
        FreshSiteKeepsPartition(mainQueue, waitQueue, site);
      }
      mainQueue := mainQueue + [site];
      RecordUnique(slot, cleaned);
    }

    /**
     * `nextSite()`: null and no change when `mainQueue` is empty; otherwise its head moves to
     * the tail of `waitQueue` and is returned.
     */
    method NextSite() returns (site: Website?)
      modifies this`mainQueue, this`waitQueue
      ensures old(mainQueue) == [] ==> site == null && mainQueue == old(mainQueue) && waitQueue == old(waitQueue)
      ensures old(mainQueue) != [] ==>
        site == old(mainQueue)[0] && mainQueue == old(mainQueue)[1..] && waitQueue == old(waitQueue) + [old(mainQueue)[0]]
      ensures old(Partitioned()) ==> Partitioned()
    {
      if mainQueue == [] {
        return null;
      }
      var poll := mainQueue[0];
      assert mainQueue == [poll] + mainQueue[1..];
      if Partitioned() {
        assert mainQueue + waitQueue == [poll] + (mainQueue[1..] + waitQueue);
        RotateKeepsPartition(poll, mainQueue[1..] + waitQueue);
        assert mainQueue[1..] + waitQueue + [poll] == mainQueue[1..] + (waitQueue + [poll]);
      }
      mainQueue := mainQueue[1..];
      waitQueue := waitQueue + [poll];
      return poll;
    }

    /**
     * `releaseSite(website)`: the site rejoins the tail of `mainQueue` if it still has URLs,
     * and its first occurrence leaves `waitQueue`.
     */
    method ReleaseSite(website: Website)
      modifies this`mainQueue, this`waitQueue
      ensures mainQueue == old(mainQueue) + (if website.HasNext() then [website] else [])
      ensures waitQueue == RemoveFirst(old(waitQueue), website)
      ensures old(Partitioned()) && website in old(waitQueue) ==> Partitioned()
    {
      var main := mainQueue + (if website.HasNext() then [website] else []);
      var wait := RemoveFirst(waitQueue, website);
      if Partitioned() && website in waitQueue {
        ReleaseKeepsPartition(mainQueue, waitQueue, website, website.HasNext());
        assert main + wait == mainQueue + (if website.HasNext() then [website] else []) + RemoveFirst(waitQueue, website);
      }
      mainQueue, waitQueue := main, wait;
    }

    /**
     * `setLinkAsVisited(url)`: appends the URL and records, under the number of documents now
     * processed, the unique links plus that number.
     */
    method SetLinkAsVisited(url: string)
      requires Valid()
      modifies this`visitedLinks, this`processedVsFrontier
      ensures Valid()
      ensures visitedLinks == old(visitedLinks) + [url]
      ensures processedVsFrontier == old(processedVsFrontier)[|visitedLinks| := uniqueCount + |visitedLinks|]
    {
      var n := |visitedLinks| + 1;
      RecordVisitKeepsStats(processedVsFrontier, n - 1, uniqueCount, uniqueCount);
      visitedLinks := visitedLinks + [url];
      processedVsFrontier := processedVsFrontier[n := uniqueCount + n];
    }

    /**
     * `printStrings()`: one row per processed document, in order, with the links seen at
     * that point; both columns strictly increase.
     */
    method PrintStrings() returns (rows: seq<(int, int)>)
      requires Valid()
      ensures |rows| == |visitedLinks|
      ensures forall i :: 0 <= i < |rows| ==>
        rows[i].0 == i + 1 && i + 1 in processedVsFrontier && rows[i].1 == processedVsFrontier[i + 1]
      ensures forall i, j :: 0 <= i < j < |rows| ==> rows[i].1 < rows[j].1
    {
      rows := [];
      for i := 1 to |processedVsFrontier| + 1
        invariant |rows| == i - 1
        invariant forall k :: 0 <= k < |rows| ==>
          rows[k].0 == k + 1 && k + 1 in processedVsFrontier && rows[k].1 == processedVsFrontier[k + 1]
      {
        rows := rows + [(i, processedVsFrontier[i])];
      }
    }

    /**
     * `done()`: past `MaxLinks` unique links the crawl halts with the report; otherwise it is
     * finished exactly when both queues are empty.
     */
    method Done() returns (status: Status)
      requires Valid()
      ensures status.Halted? <==> uniqueCount > MaxLinks
      ensures status == Drained <==> uniqueCount <= MaxLinks && mainQueue == [] && waitQueue == []
      ensures status.Halted? ==> |status.report| == |visitedLinks|
      ensures status.Halted? ==>
        forall i :: 0 <= i < |status.report| ==> status.report[i] == (i + 1, processedVsFrontier[i + 1])
    {
      if uniqueCount > MaxLinks {
        var rows := PrintStrings();
        return Halted(rows);
      }
      if mainQueue == [] && waitQueue == [] {
        return Drained;
      }
      return Running;
    }
  }
}
