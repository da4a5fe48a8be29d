# Web crawler frontier and per-site rules, in Dafny

This project models the scheduling core of a small multi-threaded Java web crawler.
The model has two classes.

`Frontier` is the global scheduler:
- a 2000-slot open-addressing table `uniqueLinks` deduplicates cleaned URLs by linear probing;
- `uniqueCount` counts the recorded links;
- `mainQueue` holds the sites ready to crawl, and `waitQueue` the sites in use;
- `visitedLinks` and `processedVsFrontier` record the growth curve of links seen against documents processed.

`Website` is the state of one domain:
- a FIFO of pending URLs;
- the `Allow:` and `Disallow:` rules collected from the `User-agent: *` blocks of its `robots.txt`;
- the permission check that applies those rules to a URL.

The Java class keeps the frontier in static fields. Here they are the fields of one
`Frontier` object. The two queues are `seq`s of `Website` references. The table is an
`array<Option<string>>`, with `None` for a null slot.

Modules:
- `Text`: the `java.lang.String` operations the code relies on (`startsWith`, `indexOf`, `contains`, `replace`, and `replaceFirst` with its regular-expression pattern).
- `Dedup`: the probe table as a value. It defines the probe sequence, the chain invariant that insertions without deletions keep, and the occupied-slot count.
- `Robots`: the `robots.txt` scan as a fold over the lines read, the permission predicate, and the path extraction of `permitsCrawl`.
- `Site`: the `Website` class.
- `Frontier`: the `Frontier` class and the queue lemmas.

Methods that change state are proved against specification functions and predicates.
- `CheckDuplicates` is proved against `FirstFree`, the first free slot of the probe sequence.
- `AddURL` is proved against `SiteFor`, the site a URL is routed to, and `Recorded`, the slot write.
- `AddCrawlRules` is proved against `Scan`, the rule fold.
- `PermitsCrawl` is proved against `Permits` and `PathAfter`.
- `ReleaseSite` is proved against `RemoveFirst`.

`modifies` clauses carry the "nothing else changes" half of each contract. For example,
`AddURL` may change only the `urls` of the one site `SiteFor` picks, and never `waitQueue`.

Two invariants are kept:
- `Valid`, made of `TableValid` (intact probe chains, no link held twice, `uniqueCount` equal to the occupied slots) and `StatsOk` (the statistics map has keys exactly 1..N with strictly increasing values). Every operation that changes the table or the statistics preserves it.
- `Partitioned`: no two queued sites share a domain. It is preserved by `AddURL`, `NextSite`,
  and by `ReleaseSite` on a site that is in `waitQueue`.

## Model

| member | source | states |
|---|---|---|
| Text.IndexOf | src/Frontier.java:151-153 | `indexOf` gives -1 exactly when the pattern occurs nowhere; otherwise it gives an occurrence with none before it |
| Text.IndexOfFirst | src/Website.java:75 | an occurrence with no earlier one is the index `indexOf` returns |
| Text.ContainsEmpty | src/Website.java:79-80 | every string contains the empty string, so an empty rule matches every path |
| Text.RemoveAll | src/Website.java:74 | `replace("www.", "")` never lengthens the domain |
| Text.RemoveFirstWwwAny | src/Website.java:75 | the regex `replaceFirst("www.", "")` removes at most one match: the result is the input or exactly four characters shorter |
| Text.RemoveFirstWwwAnyMatch | src/Website.java:75 | the regex `replaceFirst("www.", "")` removes nothing without a match, and otherwise exactly the four characters of the first match, whose dot matches any character but a line terminator |
| Dedup.ProbeNext | src/Frontier.java:118-120 | one more probe step is the next slot, wrapping to 0 at the end of the table |
| Dedup.ProbeStopsEarly | src/Frontier.java:113-121 | while a slot is free or the URL is present, the probe meets a free slot or the URL within one pass of the table |
| Dedup.AbsentWhenProbeMeetsFree | src/Frontier.java:113-123 | under the chain invariant, a probe that reaches a free slot without meeting the URL proves the URL is in no slot |
| Dedup.FreeSlotExists | src/Frontier.java:113 | fewer occupied slots than slots means some slot is null |
| Dedup.InsertKeepsChains | src/Frontier.java:95 | writing a URL into the first free slot of its probe sequence keeps every entry reachable from its home slot |
| Dedup.InsertKeepsDistinct | src/Frontier.java:82 | writing a URL the table does not hold keeps every string in at most one slot |
| Dedup.InsertCounts | src/Frontier.java:72-73 | filling a null slot adds exactly one to the number of occupied slots |
| Dedup.EmptyTable | src/Frontier.java:16-17 | the all-null initial table has no occupied slot, matching `uniqueCount = 0` |
| Robots.Admits | src/Website.java:58-65 | the read is refused only when it failed with a message containing "403"; a read that reached the end is always admitted |
| Robots.Step | src/Website.java:33-57 | one pass of the loop body: a `User-agent:` line sets the wildcard flag to whether it contains `*`, any other line keeps it; both rule lists only grow, by at most one rule in all |
| Robots.Scan | src/Website.java:33-57 | the loop run over the lines read, in file order from the initial state with the flag off and both lists empty; it collects at most one rule per line |
| Robots.Permits | src/Website.java:79-90 | the nested loops: a path is refused exactly when some disallow rule matches it and no allow rule does; so with no disallow rules, or with an empty allow rule, every path is permitted |
| Robots.TruncatedDomain | src/Website.java:74-75 | the domain with every literal "www." removed, then the first regex match of `www.`; never longer than the domain |
| Robots.LastAgentLine | src/Website.java:35-41 | the last `User-agent:` line at or before a line, with no such line after it |
| Robots.PathAfter | src/Website.java:73-75 | when the truncated domain occurs in the URL, the substring is always defined and no longer than the URL |
| Robots.PathIsSuffix | src/Website.java:75 | the path is the URL with a prefix cut off |
| Robots.PathFollowsDomain | src/Website.java:75 | the path is what follows the first occurrence of the truncated domain |
| Robots.PathWhenDomainAbsent | src/Website.java:75 | when the domain does not occur, `indexOf` gives -1: the path starts at the domain's length minus one, and the call throws when that is past the end |
| Robots.ScanGeneric | src/Website.java:32-45 | after any prefix of the file, collection is on exactly when the last `User-agent:` line so far contains `*`; before any such line it is off |
| Robots.ScanLastLine | src/Website.java:47-56 | a line adds at most one rule, an `Allow: ` fragment or a `Disallow: ` fragment, and only while collection is on; the `"Disallow :"` branch never fires |
| Robots.ScanCollectsAllowed | src/Website.java:33-49 | a string is among the allow rules exactly when some `Allow: ` line inside a wildcard block carries it |
| Robots.ScanCollectsDisallowed | src/Website.java:33-56 | a string is among the disallow rules exactly when some `Disallow: ` line inside a wildcard block carries it |
| Robots.ScanAppends | src/Website.java:47-56 | reading more lines only appends, so both rule lists keep file order |
| Robots.ScanIgnoresPreamble | src/Website.java:32-45 | lines before the first `User-agent:` line change nothing |
| Robots.EmptyDisallowMatchesAll | src/Website.java:79-90 | with an empty disallow rule, a path is permitted exactly when some allow rule matches it |
| Robots.PrivatePublicRules | src/Website.java:33-56 | `User-agent: *`, `Disallow: /priv`, `Allow: /priv/public` yields one rule of each kind, with collection left on |
| Robots.PrivatePublicVerdicts | src/Website.java:79-90 | under those rules `/priv/x` is refused, while `/priv/public/y` and `/other` are permitted |
| Site.Website.constructor | src/Website.java:15-20 | a new site has its domain and three empty lists |
| Site.Website.HasNext | src/Website.java:93-95 | true exactly when some URL is pending; `NextURL` and `ReleaseSite` are specified through it |
| Site.Website.AddURL | src/Website.java:22-24 | the URL is appended at the tail |
| Site.Website.NextURL | src/Website.java:93-102 | returns and removes the head; on an empty list returns "" and changes nothing; afterwards `hasNext` holds exactly when more than one URL was pending |
| Site.Website.AddCrawlRules | src/Website.java:27-66 | appends to both lists exactly the rules the scan collects, in file order, whether or not the read failed part way; returns false exactly when the failure message contains "403" |
| Site.Website.PermitsCrawl | src/Website.java:69-91 | false for ""; otherwise, with the path after the truncated domain, true exactly when no disallow rule matches the path or some allow rule does; an undefined substring is reported as the exception |
| Site.FifoOrder | src/Website.java:97-102 | URLs added as a, b, c come out as a, then b, then c, and then "" |
| Frontier.CleanURL | src/Frontier.java:148-155 | a URL that mentions neither "http" nor "www." comes back unchanged |
| Frontier.CleanURLIsSuffix | src/Frontier.java:148-155 | the cleaned URL is always a suffix of the input |
| Frontier.DomainIndex | src/Frontier.java:69-76 | the for-each search finds the first site of the domain, or reports that none has it |
| Frontier.FirstIndex | src/Frontier.java:133 | the position of the first occurrence of a site, or -1 exactly when it is absent |
| Frontier.RemoveFirst | src/Frontier.java:133 | `remove` leaves a queue without the site unchanged, and otherwise removes exactly one occurrence |
| Frontier.SiteFor | src/Frontier.java:68-86 | the routing target is null exactly when no queued site has the domain; otherwise it is a queued site of that domain, taken from `mainQueue` before `waitQueue` |
| Frontier.RotateKeepsPartition | src/Frontier.java:44-47 | moving the head of the queued sites to their tail keeps domains distinct |
| Frontier.DropKeepsPartition | src/Frontier.java:133 | dropping a queued site keeps domains distinct and leaves no site of its domain |
| Frontier.DropFromWait | src/Frontier.java:133 | the same, for a site dropped from `waitQueue` |
| Frontier.ReleaseKeepsPartition | src/Frontier.java:127-137 | releasing a waiting site keeps domains distinct whether or not it is queued again |
| Frontier.FreshSiteKeepsPartition | src/Frontier.java:88-97 | a new site of a domain no queued site has keeps domains distinct |
| Frontier.RecordVisitKeepsStats | src/Frontier.java:157-161 | one more visit extends the statistics: keys stay exactly 1..N, values stay strictly increasing and within bounds, however many links were found meanwhile |
| Frontier.Frontier.constructor | src/Frontier.java:11-22 | empty queues, an all-null table, a zero count and empty statistics, with every invariant established |
| Frontier.Frontier.GetDomain | src/Frontier.java:140-146 | the host `parseUri` extracts, or the URL itself when it does not parse as a URI |
| Frontier.Frontier.CheckDuplicates | src/Frontier.java:101-124 | -1 exactly when the cleaned URL already occupies a slot; otherwise the first null slot of its probe sequence; nothing changes |
| Frontier.Frontier.ProbeFor | src/Frontier.java:111-123 | the probe loop: -1 exactly when the URL is present, otherwise the first free slot from its home slot |
| Frontier.Frontier.RecordUnique | src/Frontier.java:72-73 | fills exactly the probed slot, adds one to the count, and keeps the table invariants |
| Frontier.Frontier.FindSite | src/Frontier.java:69-76 | the loop finds the index `DomainIndex` specifies |
| Frontier.Frontier.AddURL | src/Frontier.java:56-98 | a duplicate, or a URL of an unseen domain whose robots read is forbidden, changes nothing; otherwise the cleaned URL goes to the tail of the routed site, or of a new site appended to `mainQueue`, and it is written into its probed slot with the count increased by one; `waitQueue` and every other site are untouched |
| Frontier.Frontier.RouteFresh | src/Frontier.java:64-98 | the same routing for a URL already known to be fresh |
| Frontier.Frontier.JoinSite | src/Frontier.java:68-86 | a URL of a queued domain is appended to the first site of that domain, from `mainQueue` before `waitQueue`, and recorded |
| Frontier.Frontier.OpenSite | src/Frontier.java:88-97 | a new site holding the cleaned URL and the scanned rules joins the tail of `mainQueue`, and the URL is recorded, exactly when the robots read admits it; otherwise nothing changes |
| Frontier.Frontier.QueueOnSite | src/Frontier.java:70-74 | appends the URL to the site, fills the slot and counts it |
| Frontier.Frontier.AdmitSite | src/Frontier.java:93-97 | appends the site to `mainQueue`, fills the slot and counts it |
| Frontier.Frontier.NextSite | src/Frontier.java:38-54 | null with no change on an empty `mainQueue`; otherwise the head moves to the tail of `waitQueue` and is returned |
| Frontier.Frontier.ReleaseSite | src/Frontier.java:127-137 | the site rejoins the tail of `mainQueue` exactly when it still has URLs, and its first occurrence leaves `waitQueue` |
| Frontier.Frontier.SetLinkAsVisited | src/Frontier.java:158-161 | appends the URL and maps the new number of visits to the unique count plus that number, keeping the statistics invariant |
| Frontier.Frontier.PrintStrings | src/Frontier.java:164-169 | one row per processed document, in key order, with both columns strictly increasing |
| Frontier.Frontier.Done | src/Frontier.java:25-35 | past 1000 unique links it halts with the report; otherwise it is finished exactly when both queues are empty |

## Left out

- `src/Crawler.java` is not part of this model. It holds the fetching with jsoup, the link extraction, the content-type probe and the document store.
- The hash of `checkDuplicates` is not modelled. It is computed with `Math.pow` in floating point. It is an abstract `hash: string -> nat`; the home slot is that hash modulo the capacity.
- `URI.getHost` is a parameter `parseUri` of the frontier. A null host is not modelled. Java would store a site whose domain is null. Every later `addURL` whose search reached that site would then throw `NullPointerException` at `w.getDomain().equals(...)`, and so would `permitsCrawl` on that site at `domainName.replace`.
- Frontier.Frontier.CheckDuplicates: requires a free slot or the URL to be present. With a full table and a fresh URL, the Java loop never ends.
- Frontier.Frontier.AddURL: requires the same, because it calls the probe first.
- The `robots.txt` read is an input: the lines read before the stream ended or failed, and the message of the `IOException` if one was thrown. A null exception message, which would throw in Java, is not modelled.
- Strings are sequences of Unicode scalar values, while Java's `String` indexes UTF-16 code units. The two differ on characters outside the Basic Multilingual Plane, which Java stores as two units. There, `cleanURL`'s cut at `indexOf("//") + 2` when "//" is absent (one unit, possibly half a pair) and the offset `t.length() - 1` of `permitsCrawl` when the domain is absent count units, and the model counts characters.
- Site.Website.PermitsCrawl: `matches(".*" + Pattern.quote(rule) + ".*")` is modelled as substring containment. The two differ only when the path holds a line terminator.
- Frontier.Frontier.NextSite: `poll(1, SECONDS)` is a plain dequeue. Without other threads a non-empty queue never times out. The `InterruptedException` path is not modelled.
- Frontier.Frontier.ReleaseSite: the five-second sleep and its `InterruptedException` path are not modelled.
- Threads and the blocking queues' thread safety are not modelled. Every operation runs on its own.
- Frontier.Frontier.Done: `System.exit` after `printStrings` is the terminal status `Halted`, which carries the printed rows instead of writing them.
- `Website.getDomain` reads `domainName`, which is a `const` here. `setDomain` is not modelled: nothing in the modelled code calls it.
