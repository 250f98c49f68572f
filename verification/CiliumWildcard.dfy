/** ciliumWildcardHostMatches: a greedy leftmost matcher for patterns with several `*`, against the
    glob language.  Greedy search never misses; what it may accept too much is characterized. */
module CiliumWildcard {
  import opened Text

  // ----- The glob language -----------------------------------------------------------------

  /** `*` stands for any text, every other character for itself. */
  ghost predicate Glob(pattern: string, host: string)
    decreases |pattern|
  {
    if pattern == "" then host == ""
    else
      var n := |pattern| - 1;
      if pattern[n] == '*' then exists m :: 0 <= m <= |host| && Glob(pattern[..n], host[..m])
      else host != "" && host[|host| - 1] == pattern[n] && Glob(pattern[..n], host[..|host| - 1])
  }

  /** `part` stands in `s` at position `k`. */
  predicate At(s: string, part: string, k: int) {
    0 <= k && k + |part| <= |s| && s[k..k + |part|] == part
  }

  /** The parts, with any text between neighbours, cover exactly the first `n` characters. */
  ghost predicate EndsAt(parts: seq<string>, host: string, n: nat)
    requires |parts| >= 1 && n <= |host|
    decreases |parts|, 0
  {
    var k := |parts| - 1;
    if k == 0 then host[..n] == parts[k]
    else At(host, parts[k], n - |parts[k]|) && EndsBy(parts[..k], host, n - |parts[k]|)
  }

  /** The parts end somewhere in the first `n` characters. */
  ghost predicate EndsBy(parts: seq<string>, host: string, n: nat)
    requires |parts| >= 1 && n <= |host|
    decreases |parts|, 1
  {
    exists m :: 0 <= m <= n && EndsAt(parts, host, m)
  }

  lemma EndWithin(parts: seq<string>, host: string, n: nat) returns (m: nat)
    requires |parts| >= 1 && n <= |host| && EndsBy(parts, host, n)
    ensures m <= n && EndsAt(parts, host, m)
  {
    m :| 0 <= m <= n && EndsAt(parts, host, m);
  }

  lemma EndsAtSnoc(front: seq<string>, last: string, host: string, n: nat)
    requires |front| >= 1 && n <= |host|
    ensures EndsAt(front + [last], host, n) <==>
            At(host, last, n - |last|) && EndsBy(front, host, n - |last|)
  {
    var parts := front + [last];
    assert parts[..|parts| - 1] == front && parts[|parts| - 1] == last;
  }

  lemma {:induction false} EndsAtPrefix(parts: seq<string>, host: string, n: nat, cut: nat)
    requires |parts| >= 1 && n <= cut <= |host|
    ensures EndsAt(parts, host, n) <==> EndsAt(parts, host[..cut], n)
    decreases |parts|
  {
    var k := |parts| - 1;
    var last := parts[k];
    assert host[..cut][..n] == host[..n];
    if k > 0 && |last| <= n {
      var start := n - |last|;
      assert host[..cut][start..start + |last|] == host[start..start + |last|];
      forall m | 0 <= m <= start ensures EndsAt(parts[..k], host, m) <==> EndsAt(parts[..k], host[..cut], m) {
        EndsAtPrefix(parts[..k], host, m, cut);
      }
      assert EndsBy(parts[..k], host, start) <==> EndsBy(parts[..k], host[..cut], start);
    }
  }

  lemma EndsAtStar(parts: seq<string>, host: string, n: nat)
    requires |parts| >= 1 && n <= |host|
    ensures EndsAt(parts + [""], host, n) <==> EndsBy(parts, host, n)
  {
    EndsAtSnoc(parts, "", host, n);
    assert At(host, "", n);
  }

  /** A longer last part: one more character at the end. */
  lemma EndsAtChar(front: seq<string>, last: string, c: char, host: string, n: nat)
    requires n <= |host|
    ensures EndsAt(front + [last + [c]], host, n) <==>
            n >= 1 && host[n - 1] == c && EndsAt(front + [last], host, n - 1)
  {
    var longer := last + [c];
    if front == [] {
      assert front + [longer] == [longer] && front + [last] == [last];
      if n >= 1 {
        assert host[..n] == host[..n - 1] + [host[n - 1]];
      }
    } else {
      EndsAtSnoc(front, longer, host, n);
      if n >= 1 {
        EndsAtSnoc(front, last, host, n - 1);
        AtChar(host, last, c, n - |longer|);
      }
    }
  }

  lemma AtChar(host: string, last: string, c: char, k: int)
    ensures At(host, last + [c], k) <==> At(host, last, k) && k + |last| < |host| && host[k + |last|] == c
  {
    if 0 <= k && k + |last| < |host| {
      var grown := host[k..k + |last|] + [host[k + |last|]];
      assert host[k..k + |last + [c]|] == grown;
      assert grown[..|last|] == host[k..k + |last|] && (last + [c])[..|last|] == last;
    }
  }

  /** The language of a pattern, by its parts between stars. */
  lemma {:induction false} GlobIsParts(pattern: string, host: string)
    ensures Glob(pattern, host) <==> EndsAt(Split(pattern, '*'), host, |host|)
    decreases |pattern|
  {
    assert host[..|host|] == host;
    if pattern != "" {
      var n := |pattern| - 1;
      var c := pattern[n];
      var pieces := Split(pattern[..n], '*');
      if c == '*' {
        EndsAtStar(pieces, host, |host|);
        forall m | 0 <= m <= |host| ensures Glob(pattern[..n], host[..m]) <==> EndsAt(pieces, host, m) {
          GlobIsParts(pattern[..n], host[..m]);
          EndsAtPrefix(pieces, host, m, m);
        }
      } else {
        var front, last := pieces[..|pieces| - 1], pieces[|pieces| - 1];
        assert pieces == front + [last];
        EndsAtChar(front, last, c, host, |host|);
        if host != "" {
          GlobIsParts(pattern[..n], host[..|host| - 1]);
          EndsAtPrefix(pieces, host, |host| - 1, |host| - 1);
        }
      }
    }
  }

  // ----- Leftmost search -------------------------------------------------------------------

  /** strings.Index. */
  function Index(s: string, part: string): int {
    if part <= s then 0
    else if s == "" then -1
    else
      var i := Index(s[1..], part);
      if i < 0 then -1 else i + 1
  }

  lemma AtStart(s: string, part: string)
    ensures At(s, part, 0) <==> part <= s
  {
    if |part| <= |s| {
      assert s[0..0 + |part|] == s[..|part|];
    }
  }

  /** The leftmost occurrence, or none at all. */
  lemma {:induction false} IndexIsLeftmost(s: string, part: string)
    ensures Index(s, part) >= 0 ==> At(s, part, Index(s, part))
    ensures forall k :: At(s, part, k) ==> 0 <= Index(s, part) <= k
  {
    if part <= s {
      assert s[0..|part|] == part;
    } else if s != "" {
      IndexIsLeftmost(s[1..], part);
      forall k | At(s, part, k) ensures k >= 1 && At(s[1..], part, k - 1) {
        AtStart(s, part);
        AtInRest(s, 1, part, k - 1);
      }
      if Index(s, part) >= 0 {
        AtInRest(s, 1, part, Index(s, part) - 1);
      }
    }
  }

  /** `n` is the smallest end of the parts. */
  ghost predicate LeastEnd(parts: seq<string>, host: string, n: nat)
    requires |parts| >= 1
  {
    n <= |host| && EndsAt(parts, host, n) && forall m :: 0 <= m < n ==> !EndsAt(parts, host, m)
  }

  ghost predicate NoEnd(parts: seq<string>, host: string)
    requires |parts| >= 1
  {
    forall m :: 0 <= m <= |host| ==> !EndsAt(parts, host, m)
  }

  /** An empty part moves nothing. */
  lemma EmptyPart(parts: seq<string>, host: string, pos: nat)
    requires |parts| >= 1 && LeastEnd(parts, host, pos)
    ensures LeastEnd(parts + [""], host, pos)
  {
    forall n | 0 <= n <= pos ensures EndsAt(parts + [""], host, n) <==> n == pos {
      EndsAtStar(parts, host, n);
    }
  }

  /** The exchange step: from the least end, the leftmost occurrence gives the least next end. */
  lemma NextEnd(parts: seq<string>, part: string, host: string, pos: nat, end: nat)
    requires |parts| >= 1 && LeastEnd(parts, host, pos)
    requires Index(host[pos..], part) >= 0 && end == pos + Index(host[pos..], part) + |part|
    ensures LeastEnd(parts + [part], host, end)
  {
    FirstEnd(parts, part, host, pos);
    forall n: nat | n < end ensures !EndsAt(parts + [part], host, n) {
      if EndsAt(parts + [part], host, n) {
        EndIsBehind(parts, part, host, pos, n);
      }
    }
  }

  /** And when there is no occurrence, no other choice of ends helps. */
  lemma NoNextPart(parts: seq<string>, part: string, host: string, pos: nat)
    requires |parts| >= 1 && LeastEnd(parts, host, pos) && Index(host[pos..], part) < 0
    ensures NoEnd(parts + [part], host)
  {
    forall n: nat | n <= |host| ensures !EndsAt(parts + [part], host, n) {
      if EndsAt(parts + [part], host, n) {
        EndIsBehind(parts, part, host, pos, n);
      }
    }
  }

  lemma FirstEnd(parts: seq<string>, part: string, host: string, pos: nat)
    requires |parts| >= 1 && pos <= |host| && EndsAt(parts, host, pos) && Index(host[pos..], part) >= 0
    ensures pos + Index(host[pos..], part) + |part| <= |host|
    ensures EndsAt(parts + [part], host, pos + Index(host[pos..], part) + |part|)
  {
    var at := pos + Index(host[pos..], part);
    assert At(host, part, at) by {
      IndexIsLeftmost(host[pos..], part);
      AtInRest(host, pos, part, at - pos);
    }
    assert EndsBy(parts, host, at);
    EndsAtSnoc(parts, part, host, at + |part|);
  }

  lemma EndIsBehind(parts: seq<string>, part: string, host: string, pos: nat, n: nat)
    requires |parts| >= 1 && LeastEnd(parts, host, pos)
    requires n <= |host| && EndsAt(parts + [part], host, n)
    ensures Index(host[pos..], part) >= 0 && n >= pos + Index(host[pos..], part) + |part|
  {
    EndsAtSnoc(parts, part, host, n);
    IndexIsLeftmost(host[pos..], part);
    AtInRest(host, pos, part, n - |part| - pos);
  }

  lemma AtInRest(host: string, pos: nat, part: string, k: int)
    requires pos <= |host| && k >= 0
    ensures At(host[pos..], part, k) <==> At(host, part, pos + k)
  {
    if pos + k + |part| <= |host| {
      assert host[pos..][k..k + |part|] == host[pos + k..pos + k + |part|];
    }
  }

  lemma NoEndAtAll(parts: seq<string>, host: string)
    requires |parts| >= 1 && NoEnd(parts, host)
    ensures !EndsBy(parts, host, |host|)
  {
    if EndsBy(parts, host, |host|) {
      var m := EndWithin(parts, host, |host|);
    }
  }

  lemma {:induction false} NoEndStays(parts: seq<string>, more: seq<string>, host: string)
    requires |parts| >= 1 && NoEnd(parts, host)
    ensures NoEnd(parts + more, host)
    decreases |more|
  {
    if more == [] {
      assert parts + more == parts;
    } else {
      var k := |more| - 1;
      NoEndStays(parts, more[..k], host);
      assert parts + more == (parts + more[..k]) + [more[k]];
      forall m | 0 <= m <= |host| ensures !EndsAt(parts + more, host, m) {
        EndsAtSnoc(parts + more[..k], more[k], host, m);
      }
    }
  }

  // ----- The program -----------------------------------------------------------------------

  /** All parts but the last: what the search has consumed when only the suffix is left to test. */
  function FrontParts(pattern: string): seq<string> {
    var parts := Split(pattern, '*');
    parts[..|parts| - 1]
  }

  function LastPart(pattern: string): string {
    var parts := Split(pattern, '*');
    parts[|parts| - 1]
  }

  /** What the code accepts: the front parts fit somewhere and the last part is a suffix, with no
      demand that the two stay apart. */
  ghost predicate CodeAccepts(pattern: string, host: string) {
    if pattern == "*" then host != ""
    else if FrontParts(pattern) == [] then host == pattern
    else HasSuffix(host, LastPart(pattern)) && EndsBy(FrontParts(pattern), host, |host|)
  }

  lemma SearchFailed(front: seq<string>, i: nat, host: string)
    requires 1 <= i <= |front| && NoEnd(front[..i], host)
    ensures !EndsBy(front, host, |host|)
  {
    NoEndStays(front[..i], front[i..], host);
    assert front[..i] + front[i..] == front;
    NoEndAtAll(front, host);
  }

  lemma FirstPart(front: seq<string>, host: string)
    requires front != []
    ensures if HasPrefix(host, front[0]) then LeastEnd(front[..1], host, |front[0]|) else NoEnd(front[..1], host)
  {
    assert front[..1] == [front[0]];
    forall m | 0 <= m <= |host| ensures EndsAt(front[..1], host, m) ==> HasPrefix(host, front[0]) && m == |front[0]| {
      assert host[..m] <= host;
    }
  }

  /** The body of the search loop. */
  method SearchPart(ghost front: seq<string>, ghost i: nat, part: string, host: string, pos: nat)
    returns (found: bool, next: nat)
    requires 1 <= i < |front| && part == front[i] && LeastEnd(front[..i], host, pos)
    ensures if found then LeastEnd(front[..i + 1], host, next) else !EndsBy(front, host, |host|)
  {
    assert front[..i + 1] == front[..i] + [part];
    if part == "" {
      EmptyPart(front[..i], host, pos);
      return true, pos;
    }
    var idx := Index(host[pos..], part);
    if idx < 0 {
      NoNextPart(front[..i], part, host, pos);
      SearchFailed(front, i + 1, host);
      return false, 0;
    }
    NextEnd(front[..i], part, host, pos, pos + idx + |part|);
    return true, pos + idx + |part|;
  }

  /** ciliumWildcardHostMatches; `end` is the final value of `pos`. */
  method WildcardHostMatches(pattern: string, host: string) returns (ok: bool, ghost end: nat)
    ensures ok <==> CodeAccepts(pattern, host)
    ensures ok && pattern != "*" && FrontParts(pattern) != [] ==> LeastEnd(FrontParts(pattern), host, end)
  {
    end := 0;
    if pattern == "*" {
      return host != "", 0;
    }
    var parts := Split(pattern, '*');
    if |parts| == 1 {
      return host == pattern, 0;
    }
    ghost var front := FrontParts(pattern);
    FirstPart(front, host);
    if !HasPrefix(host, parts[0]) {
      SearchFailed(front, 1, host);
      return false, 0;
    }
    var pos: nat := |parts[0]|;
    for i := 1 to |parts| - 1
      invariant LeastEnd(front[..i], host, pos)
    {
      var found;
      found, pos := SearchPart(front, i, parts[i], host, pos);
      if !found {
        return false, 0;
      }
    }
    assert front[..|front|] == front;
    var last := parts[|parts| - 1];
    end := pos;
    ok := last == "" || HasSuffix(host, last);
  }

  // ----- Main results ----------------------------------------------------------------------

  /** Membership in the language, by the least end of the front parts. */
  lemma GlobByLeastEnd(pattern: string, host: string, end: nat)
    requires FrontParts(pattern) != [] && LeastEnd(FrontParts(pattern), host, end)
    ensures Glob(pattern, host) <==> HasSuffix(host, LastPart(pattern)) && end + |LastPart(pattern)| <= |host|
  {
    GlobByParts(pattern, host);
  }

  lemma SuffixIsAt(host: string, last: string)
    ensures HasSuffix(host, last) <==> At(host, last, |host| - |last|)
  {
    if |last| <= |host| {
      assert host[|host| - |last|..] == host[|host| - |last|..|host| - |last| + |last|];
    }
  }

  lemma GlobByParts(pattern: string, host: string)
    requires FrontParts(pattern) != []
    ensures Glob(pattern, host) <==>
            HasSuffix(host, LastPart(pattern)) && EndsBy(FrontParts(pattern), host, |host| - |LastPart(pattern)|)
  {
    GlobIsParts(pattern, host);
    SuffixIsAt(host, LastPart(pattern));
    assert Split(pattern, '*') == FrontParts(pattern) + [LastPart(pattern)];
    EndsAtSnoc(FrontParts(pattern), LastPart(pattern), host, |host|);
  }

  /** The greedy search never misses: every host in the pattern's language is accepted, except the
      empty host by the lone star. */
  lemma NeverMisses(pattern: string, host: string)
    requires Glob(pattern, host)
    ensures CodeAccepts(pattern, host) || (pattern == "*" && host == "")
  {
    if FrontParts(pattern) == [] {
      LanguageOfPlainPatterns(pattern, host);
    } else {
      GlobByParts(pattern, host);
    }
  }

  /** Main result: a host is in the language exactly when the code accepts it and the suffix does not
      overlap what the search consumed. */
  lemma LanguageIsAcceptWithoutOverlap(pattern: string, host: string, end: nat)
    requires pattern != "*" && FrontParts(pattern) != [] && LeastEnd(FrontParts(pattern), host, end)
    ensures Glob(pattern, host) <==> CodeAccepts(pattern, host) && end + |LastPart(pattern)| <= |host|
  {
    GlobByLeastEnd(pattern, host, end);
  }

  /** Without a star there is no overlap to speak of. */
  lemma LanguageOfPlainPatterns(pattern: string, host: string)
    requires FrontParts(pattern) == []
    ensures Glob(pattern, host) <==> CodeAccepts(pattern, host)
  {
    GlobIsParts(pattern, host);
    JoinSplit(pattern, '*');
    assert host[..|host|] == host;
  }

  /** The lone star stands for every host; the code accepts all of them but the empty one. */
  lemma LoneStar(host: string)
    ensures Glob("*", host)
    ensures CodeAccepts("*", host) <==> host != ""
  {
    assert "*"[..0] == "" && host[..0] == "";
    assert Glob("", host[..0]);
  }

  /** One star: the wrongly accepted hosts are those shorter than the two literal parts. */
  lemma OneStarOverlap(left: string, right: string, host: string)
    requires '*' !in left && '*' !in right && left + "*" + right != "*"
    ensures CodeAccepts(left + "*" + right, host) <==> HasPrefix(host, left) && HasSuffix(host, right)
    ensures Glob(left + "*" + right, host) <==>
            CodeAccepts(left + "*" + right, host) && |left| + |right| <= |host|
  {
    OneStarParts(left, right);
    OneStarEnds(left, host, |host|);
    OneStarEnds(left, host, |host| - |right|);
    GlobByParts(left + "*" + right, host);
  }

  lemma OneStarParts(left: string, right: string)
    requires '*' !in left && '*' !in right
    ensures FrontParts(left + "*" + right) == [left] && LastPart(left + "*" + right) == right
  {
    SplitAcross(left, right, '*');
    SplitOfPlain(left, '*');
    SplitOfPlain(right, '*');
    assert Split(left + ['*'] + right, '*') == [left] + [right];
  }

  lemma OneStarEnds(left: string, host: string, n: int)
    ensures 0 <= n <= |host| ==> (EndsBy([left], host, n) <==> HasPrefix(host, left) && |left| <= n)
  {
    if 0 <= n <= |host| {
      if HasPrefix(host, left) && |left| <= n {
        assert EndsAt([left], host, |left|);
      }
      if EndsBy([left], host, n) {
        var m := EndWithin([left], host, n);
        assert host[..m] <= host;
      }
    }
  }

  /** `a*a` accepts `a`, which is not in its language. */
  lemma OverlapExample()
    ensures CodeAccepts("a*a", "a") && !Glob("a*a", "a")
  {
    assert "a" + "*" + "a" == "a*a";
    OneStarOverlap("a", "a", "a");
  }
}
