/**
 * `Website`: the state of one domain — its FIFO of pending URLs, the rules read from
 * its `robots.txt`, and the permission check that applies them.
 */
module Site {
  import opened Text
  import opened Robots

  class Website {
    /** Pending URLs, oldest first. */
    var urls: seq<string>
    var disallowed: seq<string>
    var allowed: seq<string>
    /** The host this site stands for; `getDomain()` returns it. */
    const domainName: string

    constructor (domainName: string)
      ensures this.domainName == domainName
      ensures urls == [] && disallowed == [] && allowed == []
    {
      this.domainName := domainName;
      urls, disallowed, allowed := [], [], [];
    }

    /** `hasNext()` */
    predicate HasNext()
      reads this
    {
      urls != []
    }

    /** Appends to the tail of the queue. */
    method AddURL(url: string)
      modifies this`urls
      ensures urls == old(urls) + [url]
    {
      urls := urls + [url];
    }

    /** Removes and returns the oldest URL, or returns "" and changes nothing when there is none. */
    method NextURL() returns (url: string)
      modifies this`urls
      ensures old(urls) == [] ==> url == "" && urls == old(urls)
      ensures old(urls) != [] ==> url == old(urls)[0] && urls == old(urls)[1..]
      ensures HasNext() <==> |old(urls)| > 1
    {
      if urls == [] {
        return "";
      }
      url := urls[0];
      urls := urls[1..];
    }

    /**
     * The line loop of `addCrawlRules` over what the `robots.txt` read produced: rules are
     * appended in file order, whether or not the read failed part way, and the site is
     * refused only when the failure mentions 403.
     */
    method AddCrawlRules(response: RobotsResponse) returns (admitted: bool)
      modifies this`allowed, this`disallowed
      ensures admitted <==> !(response.failure.Some? && Contains(response.failure.value, "403"))
      ensures allowed == old(allowed) + Scan(response.lines).allowed
      ensures disallowed == old(disallowed) + Scan(response.lines).disallowed
    {
      var lines := response.lines;
      var isGenericAgent := false;
      for i := 0 to |lines|
        invariant isGenericAgent == Scan(lines[..i]).generic
        invariant allowed == old(allowed) + Scan(lines[..i]).allowed
        invariant disallowed == old(disallowed) + Scan(lines[..i]).disallowed
      {
        var line := lines[i];
        assert lines[..i + 1][..i] == lines[..i];
        if StartsWith(line, "User-agent:") {
          if Contains(line, "*") {
            isGenericAgent := true;
          } else {
            isGenericAgent := false;
          }
        }
        if !isGenericAgent {
          continue;
        }
        if StartsWith(line, "Allow: ") {
          allowed := allowed + [line[7..]];
        } else if StartsWith(line, "Disallow: ") {
          if line == "Disallow :" {
            disallowed := disallowed + [""];
          } else {
            disallowed := disallowed + [line[10..]];
          }
        }
      }
      assert lines[..|lines|] == lines;
      if response.failure.Some? && Contains(response.failure.value, "403") {
        return false;
      }
      return true;
    }

    /**
     * `permitsCrawl(url)`: false for the empty URL; otherwise the path after the domain is
     * refused when some disallow rule matches it and no allow rule does. None stands for the
     * `StringIndexOutOfBoundsException` the path extraction throws when the domain is absent
     * and longer than the URL plus one.
     */
    method PermitsCrawl(url: string) returns (r: Option<bool>)
      ensures url == "" ==> r == Some(false)
      ensures url != "" && PathAfter(TruncatedDomain(domainName), url).None? ==> r == None
      ensures url != "" && PathAfter(TruncatedDomain(domainName), url).Some? ==>
        r == Some(Permits(allowed, disallowed, PathAfter(TruncatedDomain(domainName), url).value))
    {
      if url == "" {
        return Some(false);
      }
      var truncated := TruncatedDomain(domainName);
      var from := IndexOf(url, truncated) + |truncated|;
      if !(0 <= from <= |url|) {
        assert PathAfter(truncated, url).None?;
        return None;
      }
      var path := url[from..];
      assert PathAfter(truncated, url) == Some(path);
      for i := 0 to |disallowed|
        invariant forall k :: 0 <= k < i ==> !Matches(path, disallowed[k])
      {
        if Matches(path, disallowed[i]) {
          for j := 0 to |allowed|
            invariant forall k :: 0 <= k < j ==> !Matches(path, allowed[k])
          {
            if Matches(path, allowed[j]) {
              return Some(true);
            }
          }
          return Some(false);
        }
      }
      return Some(true);
    }
  }

  /** URLs added in the order a, b, c come out as a, then b, then c, and then "". */
  method FifoOrder(domain: string, a: string, b: string, c: string) returns (first: string, second: string, third: string, after: string)
    ensures first == a && second == b && third == c && after == ""
  {
    var site := new Website(domain);
    site.AddURL(a);
    site.AddURL(b);
    site.AddURL(c);
    first := site.NextURL();
    second := site.NextURL();
    third := site.NextURL();
    after := site.NextURL();
  }
}
