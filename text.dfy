/** The few `java.lang.String` operations the crawler relies on, over `seq<char>`. */
module Text {

  datatype Option<+T> = None | Some(value: T)

  /** `s.startsWith(p)` */
  predicate StartsWith(s: string, p: string) {
    |p| <= |s| && s[..|p|] == p
  }

  /** `p` occurs in `s` starting at index `i`. */
  predicate OccursAt(s: string, p: string, i: int) {
    0 <= i && i + |p| <= |s| && s[i..i + |p|] == p
  }

  /** `s.indexOf(p, from)`: the first occurrence of `p` at or after `from`, or -1. */
  function IndexFrom(s: string, p: string, from: nat): (r: int)
    ensures r == -1 || (from <= r && OccursAt(s, p, r))
    ensures r == -1 ==> forall i :: from <= i ==> !OccursAt(s, p, i)
    ensures r != -1 ==> forall i :: from <= i < r ==> !OccursAt(s, p, i)
    decreases |s| - from
  {
    if |s| < from + |p| then -1
    else if s[from..from + |p|] == p then from
    else IndexFrom(s, p, from + 1)
  }

  /** `s.indexOf(p)` */
  function IndexOf(s: string, p: string): (r: int)
    ensures r == -1 <==> forall i :: !OccursAt(s, p, i)
    ensures r != -1 ==> OccursAt(s, p, r) && forall i :: 0 <= i < r ==> !OccursAt(s, p, i)
  {
    IndexFrom(s, p, 0)
  }

  /** An occurrence with none before it is the one `indexOf` finds. */
  lemma IndexOfFirst(s: string, p: string, i: int)
    requires OccursAt(s, p, i) && forall j :: 0 <= j < i ==> !OccursAt(s, p, j)
    ensures IndexOf(s, p) == i
  {
    var r := IndexOf(s, p);
    assert r != -1;
    assert !(r < i) && !(i < r);
  }

  /** `s.contains(p)` */
  predicate Contains(s: string, p: string) {
    IndexOf(s, p) != -1
  }

  lemma ContainsAt(s: string, p: string, i: int)
    requires OccursAt(s, p, i)
    ensures Contains(s, p)
  {
  }

  /** The empty string is contained in every string, as in Java. */
  lemma ContainsEmpty(s: string)
    ensures Contains(s, "")
  {
    assert OccursAt(s, "", 0);
  }

  /** `s.replace(t, "")` for a non-empty `t`: every non-overlapping occurrence, scanned left to right, is removed. */
  function RemoveAll(s: string, t: string): (r: string)
    requires t != ""
    ensures |r| <= |s|
  {
    if s == [] then []
    else if StartsWith(s, t) then RemoveAll(s[|t|..], t)
    else [s[0]] + RemoveAll(s[1..], t)
  }

  /** A character that `.` in a `java.util.regex` pattern does not match. */
  predicate IsLineTerminator(c: char) {
    c == '\n' || c == '\r' || c == '\U{0085}' || c == '\U{2028}' || c == '\U{2029}'
  }

  /** The regular expression `www.` matches at index `i`: three `w` and any character but a line terminator. */
  predicate WwwAnyAt(s: string, i: int) {
    0 <= i && i + 4 <= |s| && s[i..i + 3] == "www" && !IsLineTerminator(s[i + 3])
  }

  /** `s.replaceFirst("www.", "")`: the pattern is a regular expression, so the dot matches any character. */
  function RemoveFirstWwwAny(s: string): (r: string)
    ensures r == s || |r| == |s| - 4
  {
    RemoveFirstFrom(s, 0)
  }

  function RemoveFirstFrom(s: string, from: nat): (r: string)
    ensures r == s || |r| == |s| - 4
    decreases |s| - from
  {
    if |s| < from + 4 then s
    else if WwwAnyAt(s, from) then s[..from] + s[from + 4..]
    else RemoveFirstFrom(s, from + 1)
  }

  /** Without a match nothing is removed; otherwise exactly the first match is. */
  lemma RemoveFirstWwwAnyMatch(s: string)
    ensures (forall i :: !WwwAnyAt(s, i)) ==> RemoveFirstWwwAny(s) == s
    ensures forall i :: WwwAnyAt(s, i) && (forall j :: 0 <= j < i ==> !WwwAnyAt(s, j)) ==> RemoveFirstWwwAny(s) == s[..i] + s[i + 4..]
  {
    RemoveFirstFromMatch(s, 0);
  }

  lemma {:induction false} RemoveFirstFromMatch(s: string, from: nat)
    requires forall j :: 0 <= j < from ==> !WwwAnyAt(s, j)
    ensures (forall i :: from <= i ==> !WwwAnyAt(s, i)) ==> RemoveFirstFrom(s, from) == s
    ensures forall i :: from <= i && WwwAnyAt(s, i) && (forall j :: from <= j < i ==> !WwwAnyAt(s, j)) ==> RemoveFirstFrom(s, from) == s[..i] + s[i + 4..]
    decreases |s| - from
  {
    if |s| >= from + 4 && !WwwAnyAt(s, from) {
      RemoveFirstFromMatch(s, from + 1);
    }
  }
}
