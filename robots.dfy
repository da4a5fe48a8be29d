/**
 * The per-site permission engine of `Website`: the `robots.txt` line scan that collects
 * `Allow:` and `Disallow:` fragments inside `User-agent: *` blocks, and the substring
 * rule match behind `permitsCrawl`.
 */
module Robots {
  import opened Text

  /**
   * What reading `http://<domain>/robots.txt` produced: the lines read before the
   * stream ended or failed, and the message of the `IOException` if one was thrown.
   */
  datatype RobotsResponse = RobotsResponse(lines: seq<string>, failure: Option<string>)

  /** `addCrawlRules` returns false only for a failure whose message mentions 403. */
  predicate Admits(response: RobotsResponse): (ok: bool)
    ensures response.failure.None? ==> ok
  {
    !(response.failure.Some? && Contains(response.failure.value, "403"))
  }

  /** The scanner's variables after some lines: `isGenericAgent` and the two rule lists. */
  datatype ScanState = ScanState(generic: bool, allowed: seq<string>, disallowed: seq<string>)

  const Initial := ScanState(false, [], [])

  predicate IsAgentLine(line: string) {
    StartsWith(line, "User-agent:")
  }

  /** One pass of the loop body of `addCrawlRules` on one line. */
  function Step(st: ScanState, line: string): (r: ScanState)
    ensures r.generic == if IsAgentLine(line) then Contains(line, "*") else st.generic
    ensures st.allowed <= r.allowed && st.disallowed <= r.disallowed
    ensures |r.allowed| + |r.disallowed| <= |st.allowed| + |st.disallowed| + 1
  {
    var generic := if IsAgentLine(line) then Contains(line, "*") else st.generic;
    if !generic then st.(generic := generic)
    else if StartsWith(line, "Allow: ") then ScanState(generic, st.allowed + [line[7..]], st.disallowed)
    else if StartsWith(line, "Disallow: ") then
      ScanState(generic, st.allowed, st.disallowed + [if line == "Disallow :" then "" else line[10..]])
    else st.(generic := generic)
  }

  /** The scanner's state after reading all of `lines`, in file order. */
  function Scan(lines: seq<string>): (r: ScanState)
    ensures |r.allowed| + |r.disallowed| <= |lines|
  {
    if lines == [] then Initial else Step(Scan(lines[..|lines| - 1]), lines[|lines| - 1])
  }

  /**
   * The index of the last `User-agent:` line at or before line `k`, or -1 when there is none.
   */
  function LastAgentLine(lines: seq<string>, k: int): (j: int)
    requires -1 <= k < |lines|
    ensures -1 <= j <= k
    ensures j >= 0 ==> IsAgentLine(lines[j])
    ensures forall m :: j < m <= k && 0 <= m ==> !IsAgentLine(lines[m])
    decreases k + 1
  {
    if k < 0 then -1
    else if IsAgentLine(lines[k]) then k
    else LastAgentLine(lines, k - 1)
  }

  /** Line `k` lies in a wildcard block: the last `User-agent:` line at or before it contains `*`. */
  predicate InWildcardBlock(lines: seq<string>, k: int)
    requires -1 <= k < |lines|
  {
    var j := LastAgentLine(lines, k);
    j >= 0 && Contains(lines[j], "*")
  }

  /** The rule a collected `Allow: ` line contributes. */
  predicate AllowsAt(lines: seq<string>, k: int, x: string) {
    0 <= k < |lines| && InWildcardBlock(lines, k) && StartsWith(lines[k], "Allow: ") && lines[k][7..] == x
  }

  /** The rule a collected `Disallow: ` line contributes. */
  predicate DisallowsAt(lines: seq<string>, k: int, x: string) {
    0 <= k < |lines| && InWildcardBlock(lines, k) && StartsWith(lines[k], "Disallow: ") && lines[k][10..] == x
  }

  /** `path.matches(".*" + Pattern.quote(rule) + ".*")`, read as substring containment. */
  predicate Matches(path: string, rule: string) {
    Contains(path, rule)
  }

  /** Any matching allow rule rescues any matching disallow rule. */
  predicate Permits(allowed: seq<string>, disallowed: seq<string>, path: string): (ok: bool)
    ensures disallowed == [] ==> ok
    ensures "" in allowed ==> ok
  {
    ContainsEmpty(path);
    (forall k :: 0 <= k < |disallowed| ==> !Matches(path, disallowed[k]))
    || (exists k :: 0 <= k < |allowed| && Matches(path, allowed[k]))
  }

  /** The domain as `permitsCrawl` searches for it: `replace("www.", "")`, then the regex `replaceFirst("www.", "")`. */
  function TruncatedDomain(domain: string): (t: string)
    ensures |t| <= |domain|
  {
    RemoveFirstWwwAny(RemoveAll(domain, "www."))
  }

  /**
   * `url.substring(url.indexOf(t) + t.length())` for the truncated domain `t`;
   * None where Java throws `StringIndexOutOfBoundsException`.
   */
  function PathAfter(t: string, url: string): (r: Option<string>)
    ensures Contains(url, t) ==> r.Some?
    ensures r.Some? ==> |r.value| <= |url|
  {
    var from := IndexOf(url, t) + |t|;
    if 0 <= from <= |url| then Some(url[from..]) else None
  }

  /** The path is what remains of the URL once a prefix is cut off. */
  lemma PathIsSuffix(t: string, url: string)
    requires PathAfter(t, url).Some?
    ensures exists k :: 0 <= k <= |url| && PathAfter(t, url).value == url[k..]
  {
    var from := IndexOf(url, t) + |t|;
    assert PathAfter(t, url).value == url[from..];
  }

  /** After the first occurrence of the truncated domain comes the path. */
  lemma PathFollowsDomain(t: string, url: string, i: int)
    requires OccursAt(url, t, i)
    requires forall j :: 0 <= j < i ==> !OccursAt(url, t, j)
    ensures PathAfter(t, url) == Some(url[i + |t|..])
  {
    IndexOfFirst(url, t, i);
  }

  /** A domain that is not in the URL is skipped over as if it were found at -1. */
  lemma PathWhenDomainAbsent(t: string, url: string)
    requires !Contains(url, t)
    ensures |t| <= |url| + 1 ==> PathAfter(t, url) == Some(url[|t| - 1..])
    ensures |t| > |url| + 1 ==> PathAfter(t, url) == None
  {
    ContainsEmpty(url);
  }

  /** Which `User-agent:` line governs line `k` depends only on the lines up to `k`. */
  lemma {:induction false} LastAgentLinePrefix(lines: seq<string>, n: int, k: int)
    requires -1 <= k < n <= |lines|
    ensures LastAgentLine(lines, k) == LastAgentLine(lines[..n], k)
    decreases k + 1
  {
    if k >= 0 {
      assert lines[..n][k] == lines[k];
      LastAgentLinePrefix(lines, n, k - 1);
    }
  }

  /** Whether line `k` contributes a rule does not depend on the lines after it. */
  lemma RuleAtPrefix(lines: seq<string>, k: int, x: string)
    requires 0 <= k < |lines| - 1
    ensures AllowsAt(lines, k, x) <==> AllowsAt(lines[..|lines| - 1], k, x)
    ensures DisallowsAt(lines, k, x) <==> DisallowsAt(lines[..|lines| - 1], k, x)
  {
    LastAgentLinePrefix(lines, |lines| - 1, k);
    assert lines[..|lines| - 1][k] == lines[k];
  }

  /**
   * Collection is on after a line exactly when the last `User-agent:` line so far
   * contains `*`: off before any such line, on after `User-agent: *`, off after any other.
   */
  lemma {:induction false} ScanGeneric(lines: seq<string>)
    ensures Scan(lines).generic <==> (|lines| > 0 && InWildcardBlock(lines, |lines| - 1))
  {
    if lines != [] {
      var n := |lines|;
      var p := lines[..n - 1];
      ScanGeneric(p);
      if !IsAgentLine(lines[n - 1]) && n > 1 {
        LastAgentLinePrefix(lines, n - 1, n - 2);
      }
    }
  }

  /** What the last line adds to the two lists: a rule exactly when collection is on after it. */
  lemma ScanLastLine(lines: seq<string>)
    requires lines != []
    ensures var p, l := lines[..|lines| - 1], lines[|lines| - 1];
      && Scan(lines).allowed == Scan(p).allowed
           + (if Scan(lines).generic && StartsWith(l, "Allow: ") then [l[7..]] else [])
      && Scan(lines).disallowed == Scan(p).disallowed
           + (if Scan(lines).generic && StartsWith(l, "Disallow: ") then [l[10..]] else [])
  {
    var l := lines[|lines| - 1];
    if StartsWith(l, "Disallow: ") {
      assert l[..10] == "Disallow: ";
      assert l[0] == 'D';
      assert !StartsWith(l, "Allow: ");
      assert "Disallow :"[8] != "Disallow: "[8];
      assert l != "Disallow :";
    }
  }

  /**
   * The allow rules the scan collects are exactly those of the `Allow: ` lines inside
   * wildcard blocks.
   */
  lemma {:induction false} ScanCollectsAllowed(lines: seq<string>, x: string)
    ensures x in Scan(lines).allowed <==> exists k :: AllowsAt(lines, k, x)
  {
    if lines != [] {
      var n := |lines|;
      var p := lines[..n - 1];
      ScanCollectsAllowed(p, x);
      ScanGeneric(lines);
      ScanLastLine(lines);
      assert x in Scan(lines).allowed <==> x in Scan(p).allowed || AllowsAt(lines, n - 1, x);
      if exists k :: AllowsAt(lines, k, x) {
        var k :| AllowsAt(lines, k, x);
        if k < n - 1 {
          RuleAtPrefix(lines, k, x);
        }
      }
      if exists k :: AllowsAt(p, k, x) {
        var k :| AllowsAt(p, k, x);
        RuleAtPrefix(lines, k, x);
        assert AllowsAt(lines, k, x);
      }
    }
  }

  /**
   * The disallow rules the scan collects are exactly those of the `Disallow: ` lines
   * inside wildcard blocks; the `"Disallow :"` branch never contributes.
   */
  lemma {:induction false} ScanCollectsDisallowed(lines: seq<string>, x: string)
    ensures x in Scan(lines).disallowed <==> exists k :: DisallowsAt(lines, k, x)
  {
    if lines != [] {
      var n := |lines|;
      var p := lines[..n - 1];
      ScanCollectsDisallowed(p, x);
      ScanGeneric(lines);
      ScanLastLine(lines);
      assert x in Scan(lines).disallowed <==> x in Scan(p).disallowed || DisallowsAt(lines, n - 1, x);
      if exists k :: DisallowsAt(lines, k, x) {
        var k :| DisallowsAt(lines, k, x);
        if k < n - 1 {
          RuleAtPrefix(lines, k, x);
        }
      }
      if exists k :: DisallowsAt(p, k, x) {
        var k :| DisallowsAt(p, k, x);
        RuleAtPrefix(lines, k, x);
        assert DisallowsAt(lines, k, x);
      }
    }
  }

  /** Reading more lines only appends rules: both lists keep file order. */
  lemma {:induction false} ScanAppends(p: seq<string>, q: seq<string>)
    ensures Scan(p).allowed <= Scan(p + q).allowed
    ensures Scan(p).disallowed <= Scan(p + q).disallowed
  {
    if q != [] {
      var q' := q[..|q| - 1];
      assert (p + q)[..|p + q| - 1] == p + q';
      ScanAppends(p, q');
    } else {
      assert p + q == p;
    }
  }

  /** Lines before the first `User-agent:` line are ignored. */
  lemma {:induction false} ScanIgnoresPreamble(p: seq<string>, q: seq<string>)
    requires forall k :: 0 <= k < |p| ==> !IsAgentLine(p[k])
    ensures Scan(p + q) == Scan(q)
  {
    if q == [] {
      assert p + q == p;
      PreambleCollectsNothing(p);
    } else {
      var q' := q[..|q| - 1];
      assert (p + q)[..|p + q| - 1] == p + q';
      ScanIgnoresPreamble(p, q');
    }
  }

  lemma {:induction false} PreambleCollectsNothing(p: seq<string>)
    requires forall k :: 0 <= k < |p| ==> !IsAgentLine(p[k])
    ensures Scan(p) == Initial
  {
    if p != [] {
      PreambleCollectsNothing(p[..|p| - 1]);
    }
  }

  /** An empty disallow rule matches every path, so only an allow rule can rescue it. */
  lemma EmptyDisallowMatchesAll(allowed: seq<string>, disallowed: seq<string>, path: string)
    requires "" in disallowed
    ensures Permits(allowed, disallowed, path) <==> exists k :: 0 <= k < |allowed| && Matches(path, allowed[k])
  {
    ContainsEmpty(path);
    var k :| 0 <= k < |disallowed| && disallowed[k] == "";
    assert Matches(path, disallowed[k]);
  }

  /** Scanning `User-agent: *`, `Disallow: /priv`, `Allow: /priv/public` collects one rule of each kind. */
  lemma PrivatePublicRules()
    ensures Scan(["User-agent: *", "Disallow: /priv", "Allow: /priv/public"])
      == ScanState(true, ["/priv/public"], ["/priv"])
  {
    var l0, l1, l2 := "User-agent: *", "Disallow: /priv", "Allow: /priv/public";
    WildcardAgentOpens(l0);
    DisallowLineCollects(l1);
    AllowLineCollects(l2);
    var lines := [l0, l1, l2];
    assert lines[..2] == [l0, l1] && [l0, l1][..1] == [l0] && [l0][..0] == [];
    assert Scan([l0]) == ScanState(true, [], []);
    assert Scan([l0, l1]) == ScanState(true, [], ["/priv"]);
  }

  /** `User-agent: *` switches collection on. */
  lemma WildcardAgentOpens(l: string)
    requires l == "User-agent: *"
    ensures Step(Initial, l) == ScanState(true, [], [])
  {
    assert l[..11] == "User-agent:" && l[0] != "Allow: "[0] && l[0] != "Disallow: "[0];
    ContainsAt(l, "*", 12);
  }

  /** Inside a wildcard block, `Disallow: /priv` adds `/priv` to the disallow rules. */
  lemma DisallowLineCollects(l: string)
    requires l == "Disallow: /priv"
    ensures Step(ScanState(true, [], []), l) == ScanState(true, [], ["/priv"])
  {
    assert l[0] != "User-agent:"[0] && l[0] != "Allow: "[0];
    assert l[..10] == "Disallow: " && l[10..] == "/priv" && |l| != |"Disallow :"|;
  }

  /** Inside a wildcard block, `Allow: /priv/public` adds `/priv/public` to the allow rules. */
  lemma AllowLineCollects(l: string)
    requires l == "Allow: /priv/public"
    ensures Step(ScanState(true, [], ["/priv"]), l) == ScanState(true, ["/priv/public"], ["/priv"])
  {
    assert l[0] != "User-agent:"[0];
    assert l[..7] == "Allow: " && l[7..] == "/priv/public";
  }

  /** Under those rules `/priv/x` is refused while `/priv/public/y` and `/other` are permitted. */
  lemma PrivatePublicVerdicts()
    ensures !Permits(["/priv/public"], ["/priv"], "/priv/x")
    ensures Permits(["/priv/public"], ["/priv"], "/priv/public/y")
    ensures Permits(["/priv/public"], ["/priv"], "/other")
  {
    var allowed, disallowed := ["/priv/public"], ["/priv"];
    ContainsAt("/priv/x", "/priv", 0);
    assert Matches("/priv/x", disallowed[0]);
    assert !Contains("/priv/x", "/priv/public");
    assert !Matches("/priv/x", allowed[0]);
    ContainsAt("/priv/public/y", "/priv/public", 0);
    assert Matches("/priv/public/y", allowed[0]);
    assert "/other"[0..5][1] != "/priv"[1] && "/other"[1..6][0] != "/priv"[0];
    assert !Contains("/other", "/priv");
  }
}
