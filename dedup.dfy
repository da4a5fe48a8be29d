/**
 * The fixed-capacity open-addressing table `uniqueLinks` of `Frontier`, as a sequence of
 * slots: what linear probing from a home slot visits, the invariant that insertions without
 * deletions keep, and how many slots are occupied.
 */
module Dedup {
  import opened Text

  /** `uniqueLinks.length` */
  const Capacity := 2000

  type Table = seq<Option<string>>

  /** The home slot of `url`: the hash `checkDuplicates` computes, reduced modulo the capacity as it then does. */
  function Home(hash: string -> nat, url: string): int {
    hash(url) % Capacity
  }

  /** The slot visited after `k` steps from `home`, wrapping to 0 at the end of the table. */
  function Probe(home: int, k: int): int {
    (home + k) % Capacity
  }

  /** How many steps probing from `home` takes to reach slot `j`. */
  function Dist(home: int, j: int): int {
    (j - home) % Capacity
  }

  /** The first `n` slots probed from `home` are all occupied. */
  ghost predicate ProbedFull(t: Table, home: int, n: int)
    requires |t| == Capacity
  {
    forall k :: 0 <= k < n ==> t[Probe(home, k)].Some?
  }

  /** Slot `r` is the first free slot probing from `home` reaches. */
  ghost predicate FirstFree(t: Table, home: int, r: int)
    requires |t| == Capacity
  {
    0 <= r < Capacity && t[r].None? && ProbedFull(t, home, Dist(home, r))
  }

  /** The probe-chain invariant: every entry is reachable from its home slot without crossing a free slot. */
  ghost predicate ChainsIntact(t: Table, hash: string -> nat)
    requires |t| == Capacity
  {
    forall j {:trigger Home(hash, t[j].value)} ::
      0 <= j < Capacity && t[j].Some? ==> ProbedFull(t, Home(hash, t[j].value), Dist(Home(hash, t[j].value), j))
  }

  /** No string is held by two slots. */
  ghost predicate NoDuplicates(t: Table) {
    forall i, j :: 0 <= i < j < |t| && t[i].Some? ==> t[i] != t[j]
  }

  /** The number of occupied slots. */
  function Occupied(t: Table): nat {
    if t == [] then 0 else Occupied(t[..|t| - 1]) + (if t[|t| - 1].Some? then 1 else 0)
  }

  /** Probing from a home slot reaches every slot, after exactly `Dist` steps. */
  lemma ProbeReaches(home: int, j: int)
    requires 0 <= home < Capacity && 0 <= j < Capacity
    ensures 0 <= Dist(home, j) < Capacity && Probe(home, Dist(home, j)) == j
  {
    if j >= home {
      assert Dist(home, j) == j - home;
    } else {
      assert Dist(home, j) == j - home + Capacity;
    }
  }

  /** Fewer than `Capacity` steps never come back to the home slot. */
  lemma DistOfProbe(home: int, k: int)
    requires 0 <= home < Capacity && 0 <= k < Capacity
    ensures 0 <= Probe(home, k) < Capacity && Dist(home, Probe(home, k)) == k
  {
    if home + k < Capacity {
      assert Probe(home, k) == home + k;
    } else {
      assert Probe(home, k) == home + k - Capacity;
    }
  }

  /** One more step advances the slot by one and wraps to 0, as the probe loop of `checkDuplicates` does. */
  lemma ProbeNext(home: int, k: int)
    requires 0 <= home < Capacity && 0 <= k
    ensures Probe(home, k + 1) == if Probe(home, k) + 1 >= Capacity then 0 else Probe(home, k) + 1
  {
    var q := (home + k) / Capacity;
    assert home + k == q * Capacity + Probe(home, k);
    if Probe(home, k) + 1 >= Capacity {
      assert home + k + 1 == (q + 1) * Capacity;
    } else {
      assert home + k + 1 == q * Capacity + Probe(home, k) + 1;
    }
  }

  /** A table with fewer occupied slots than its length has a free slot. */
  lemma {:induction false} FreeSlotExists(t: Table)
    requires Occupied(t) < |t|
    ensures exists j :: 0 <= j < |t| && t[j].None?
  {
    var n := |t|;
    if t[n - 1].Some? {
      FreeSlotExists(t[..n - 1]);
      var j :| 0 <= j < n - 1 && t[..n - 1][j].None?;
      assert t[j].None?;
    }
  }

  /**
   * A probe sequence of `n` occupied slots none of which holds `url` reaches a free slot
   * before `n` covers the whole table, provided a slot is free or `url` is present.
   */
  lemma ProbeStopsEarly(t: Table, home: int, url: string, n: int)
    requires |t| == Capacity && 0 <= home < Capacity && 0 <= n
    requires ProbedFull(t, home, n)
    requires forall k :: 0 <= k < n ==> t[Probe(home, k)] != Some(url)
    requires Occupied(t) < Capacity || Some(url) in t
    ensures n < Capacity
  {
    var j: int;
    if Occupied(t) < Capacity {
      FreeSlotExists(t);
      j :| 0 <= j < |t| && t[j].None?;
    } else {
      j :| 0 <= j < |t| && t[j] == Some(url);
    }
    ProbeReaches(home, j);
    // slot j is free or holds url, so none of the first n probes reached it
    assert n <= Dist(home, j);
  }

  /**
   * Under the chain invariant, a probe for `url` that passes `n` slots not holding it and
   * then meets a free slot proves that `url` is absent.
   */
  lemma AbsentWhenProbeMeetsFree(t: Table, hash: string -> nat, url: string, n: int)
    requires |t| == Capacity && ChainsIntact(t, hash) && 0 <= n
    requires forall k :: 0 <= k < n ==> t[Probe(Home(hash, url), k)] != Some(url)
    requires t[Probe(Home(hash, url), n)].None?
    ensures Some(url) !in t
  {
    var home := Home(hash, url);
    forall j | 0 <= j < |t|
      ensures t[j] != Some(url)
    {
      ProbeReaches(home, j);
      var d := Dist(home, j);
      if d < n {
        assert t[Probe(home, d)] != Some(url);
      } else if d > n {
        assert !ProbedFull(t, home, d);
      }
    }
  }

  /** Writing `url` into the first free slot of its probe sequence keeps every chain intact. */
  lemma InsertKeepsChains(t: Table, hash: string -> nat, url: string, r: int)
    requires |t| == Capacity && ChainsIntact(t, hash)
    requires FirstFree(t, Home(hash, url), r)
    ensures ChainsIntact(t[r := Some(url)], hash)
  {
    var t' := t[r := Some(url)];
    forall j | 0 <= j < Capacity && t'[j].Some?
      ensures ProbedFull(t', Home(hash, t'[j].value), Dist(Home(hash, t'[j].value), j))
    {
      var home := Home(hash, t'[j].value);
      forall k | 0 <= k < Dist(home, j)
        ensures t'[Probe(home, k)].Some?
      {
        if j != r {
          assert t[j] == t'[j];
          assert t[Probe(home, k)].Some?;
        } else {
          assert t[Probe(home, k)].Some?;
        }
      }
    }
  }

  /** Writing a string the table does not hold keeps it free of duplicates. */
  lemma InsertKeepsDistinct(t: Table, url: string, r: int)
    requires NoDuplicates(t) && Some(url) !in t && 0 <= r < |t| && t[r].None?
    ensures NoDuplicates(t[r := Some(url)])
  {
    var t' := t[r := Some(url)];
    forall i, j | 0 <= i < j < |t'| && t'[i].Some?
      ensures t'[i] != t'[j]
    {
      if i == r {
        assert t[j] != Some(url);
      } else if j == r {
        assert t[i] != Some(url);
      } else {
        assert t[i] != t[j];
      }
    }
  }

  /** Filling a free slot adds one to the occupied count. */
  lemma {:induction false} InsertCounts(t: Table, r: int, url: string)
    requires 0 <= r < |t| && t[r].None?
    ensures Occupied(t[r := Some(url)]) == Occupied(t) + 1
  {
    var n := |t|;
    var t' := t[r := Some(url)];
    assert t'[..n - 1] == if r == n - 1 then t[..n - 1] else t[..n - 1][r := Some(url)];
    if r < n - 1 {
      InsertCounts(t[..n - 1], r, url);
    }
  }

  /** An empty table holds nothing. */
  lemma {:induction false} EmptyTable(t: Table)
    requires forall j :: 0 <= j < |t| ==> t[j].None?
    ensures Occupied(t) == 0
  {
    if t != [] {
      EmptyTable(t[..|t| - 1]);
    }
  }
}
