/** Hostname matching and the "closest hostname" suggestion of internal/check/gateway.go. */
module Hostnames {
  import opened Text
  import EditDistance

  /** gatewayNormalizeHostname. */
  function Normalize(value: string): string {
    TrimSuffix(ToLower(TrimSpace(value)), ".")
  }

  /** gatewayHostnameMatches. */
  predicate Matches(pattern: string, host: string) {
    NormalMatch(Normalize(pattern), Normalize(host))
  }

  /** The match of normalized names; an empty name matches everything. */
  predicate NormalMatch(p: string, h: string) {
    if p == "" || h == "" then true
    else if !HasPrefix(p, "*.") then p == h
    else
      HasSuffix(h, p[1..]) &&
      var prefix := TrimSuffix(h, p[1..]);
      prefix != "" && '.' !in prefix
  }

  /** Two strings with the same pieces are the same string. */
  lemma SplitInjective(a: string, b: string, sep: char)
    requires Split(a, sep) == Split(b, sep)
    ensures a == b
  {
    JoinSplit(a, sep);
    JoinSplit(b, sep);
  }

  /** A `*.` pattern stands for exactly one more label: the host's labels are one non-empty label
      followed by the labels of the rest of the pattern. */
  lemma WildcardIsOneLabel(p: string, h: string)
    requires HasPrefix(p, "*.") && h != ""
    ensures NormalMatch(p, h) <==> OneMoreLabel(Split(h, '.'), Split(p[2..], '.'))
  {
    if NormalMatch(p, h) {
      MatchSplits(p, h);
    }
    if OneMoreLabel(Split(h, '.'), Split(p[2..], '.')) {
      SplitsMatch(p, h);
    }
  }

  predicate OneMoreLabel(labels: seq<string>, rest: seq<string>) {
    |labels| >= 1 && labels[0] != "" && labels[1..] == rest
  }

  lemma MatchSplits(p: string, h: string)
    requires HasPrefix(p, "*.") && h != "" && NormalMatch(p, h)
    ensures OneMoreLabel(Split(h, '.'), Split(p[2..], '.'))
  {
    var first := TrimSuffix(h, p[1..]);
    assert p[1..] == ['.'] + p[2..];
    assert h == first + ['.'] + p[2..];
    OneLabelSplits(first, p[2..]);
  }

  lemma SplitsMatch(p: string, h: string)
    requires HasPrefix(p, "*.") && h != "" && OneMoreLabel(Split(h, '.'), Split(p[2..], '.'))
    ensures NormalMatch(p, h)
  {
    var first := Split(h, '.')[0];
    FirstLabel(h, p[2..]);
    assert h == first + p[1..] by {
      assert p[1..] == ['.'] + p[2..];
      assert first + ['.'] + p[2..] == first + (['.'] + p[2..]);
    }
    OneLabelMatches(first, p);
  }

  lemma FirstLabel(h: string, rest: string)
    requires Split(h, '.')[1..] == Split(rest, '.')
    ensures '.' !in Split(h, '.')[0] && h == Split(h, '.')[0] + ['.'] + rest
  {
    var first := Split(h, '.')[0];
    JoinSplit(h, '.');
    OneLabelSplits(first, rest);
    assert Split(h, '.') == [first] + Split(h, '.')[1..];
    SplitInjective(h, first + ['.'] + rest, '.');
  }

  lemma OneLabelMatches(first: string, p: string)
    requires HasPrefix(p, "*.") && first != "" && '.' !in first
    ensures NormalMatch(p, first + p[1..])
  {
    var h := first + p[1..];
    assert HasSuffix(h, p[1..]) && TrimSuffix(h, p[1..]) == first;
  }

  lemma OneLabelSplits(first: string, rest: string)
    requires '.' !in first
    ensures Split(first + ['.'] + rest, '.') == [first] + Split(rest, '.')
  {
    SplitAcross(first, rest, '.');
    SplitOfPlain(first, '.');
  }

  /** The Gateway API's reading of a wildcard hostname: a suffix match with something before it. */
  predicate SuffixMatch(p: string, h: string)
    requires HasPrefix(p, "*.")
  {
    HasSuffix(h, p[1..]) && |h| > |p| - 1
  }

  /** What stands for the wildcard label. */
  function WildcardPart(p: string, h: string): string
    requires HasPrefix(p, "*.") && SuffixMatch(p, h)
  {
    h[..|h| - (|p| - 1)]
  }

  /** The code matches a part of the hosts that the Gateway API matches, and misses exactly those for
      which the wildcard stands for more than one label. */
  lemma WildcardMissesDeepHosts(p: string, h: string)
    requires HasPrefix(p, "*.") && h != ""
    ensures NormalMatch(p, h) <==> SuffixMatch(p, h) && '.' !in WildcardPart(p, h)
    ensures NormalMatch(p, h) != SuffixMatch(p, h) <==> SuffixMatch(p, h) && '.' in WildcardPart(p, h)
  {
  }

  /** `*.example.com` covers `a.b.example.com` in the Gateway API, and does not match it here. */
  lemma DeepHostExample()
    ensures Normalize("*.example.com") == "*.example.com" && Normalize("a.b.example.com") == "a.b.example.com"
    ensures SuffixMatch("*.example.com", "a.b.example.com") && !Matches("*.example.com", "a.b.example.com")
  {
    PlainIsNormal("*.example.com");
    PlainIsNormal("a.b.example.com");
    assert "a.b.example.com" == "a.b" + ".example.com" && "*.example.com"[1..] == ".example.com";
    assert WildcardPart("*.example.com", "a.b.example.com") == "a.b";
    assert "a.b"[1] == '.';
    WildcardMissesDeepHosts("*.example.com", "a.b.example.com");
  }

  /** Normalizing changes nothing of a lower-case name without outer spaces or a final dot. */
  lemma PlainIsNormal(s: string)
    requires s != "" && !IsSpace(s[0]) && !IsSpace(s[|s| - 1]) && s[|s| - 1] != '.'
    requires forall c :: c in s ==> LowerChar(c) == c
    ensures Normalize(s) == s
  {
    assert TrimSpace(s) == s;
    assert ToLower(s) == s;
  }

  /** Without a wildcard label the match is equality of the labels. */
  lemma ExactIsEquality(p: string, h: string)
    requires !HasPrefix(p, "*.") && p != "" && h != ""
    ensures NormalMatch(p, h) <==> Split(p, '.') == Split(h, '.')
  {
    if Split(p, '.') == Split(h, '.') {
      SplitInjective(p, h, '.');
    }
  }

  // ----- The closest hostname --------------------------------------------------------------

  /** strings.Index for a one-character needle; -1 when it is absent. */
  function IndexOf(s: string, c: char): (i: int)
    ensures -1 <= i < |s|
    ensures i >= 0 ==> s[i] == c && c !in s[..i]
    ensures i < 0 ==> c !in s
  {
    if s == "" then -1
    else if s[0] == c then 0
    else
      var i := IndexOf(s[1..], c);
      if i < 0 then -1 else assert s[..i + 1] == [s[0]] + s[1..][..i]; i + 1
  }

  /** gatewayHostnameComparisonValue: a wildcard candidate borrows the host's first label. */
  function ComparisonValue(host: string, candidate: string): string {
    if !HasPrefix(candidate, "*.") then candidate
    else
      var index := IndexOf(host, '.');
      var firstLabel := if index > 0 then host[..index] else host;
      if firstLabel == "" || '.' in firstLabel then "" else firstLabel + candidate[1..]
  }

  /** gatewayHostnameSuggestionThreshold. */
  function Threshold(host: string, candidate: string): nat {
    var longest := if |candidate| > |host| then |candidate| else |host|;
    if longest <= 12 then 1 else if longest <= 24 then 2 else 3
  }

  /** The number of edits that separate a candidate from the host, when it may be suggested. */
  function Gap(host: string, candidate: string): (gap: Option<nat>)
    ensures gap.Some? ==> candidate != ""
  {
    var normalized := Normalize(candidate);
    var compare := ComparisonValue(host, normalized);
    var distance := EditDistance.Distance(host, compare);
    if normalized != "" && compare != "" && distance <= Threshold(host, compare) then Some(distance) else None
  }

  function Gaps(host: string, candidates: seq<string>): (gaps: seq<Option<nat>>)
    ensures |gaps| == |candidates|
  {
    if candidates == [] then []
    else
      var n := |candidates| - 1;
      Gaps(host, candidates[..n]) + [Gap(host, candidates[n])]
  }

  lemma {:induction false} GapsAt(host: string, candidates: seq<string>, k: nat)
    requires k < |candidates|
    ensures Gaps(host, candidates)[k] == Gap(host, candidates[k])
  {
    if k < |candidates| - 1 {
      GapsAt(host, candidates[..|candidates| - 1], k);
    }
  }

  /** Fewer edits first, then the shorter text. */
  predicate Closer(candidates: seq<string>, gaps: seq<Option<nat>>, i: nat, j: nat)
    requires i < |candidates| == |gaps| && j < |gaps| && gaps[i].Some? && gaps[j].Some?
  {
    gaps[i].value < gaps[j].value ||
    (gaps[i].value == gaps[j].value && |candidates[i]| < |candidates[j]|)
  }

  /** `candidates[i]` is the earliest of the first `n` candidates that none of them beats. */
  ghost predicate Closest(candidates: seq<string>, gaps: seq<Option<nat>>, n: nat, i: nat)
    requires n <= |candidates| == |gaps|
  {
    && i < n && gaps[i].Some?
    && (forall j :: 0 <= j < n && gaps[j].Some? ==> !Closer(candidates, gaps, j, i))
    && (forall j :: 0 <= j < i && gaps[j].Some? ==> Closer(candidates, gaps, i, j))
  }

  /** One more candidate: it takes over exactly when it beats the best so far. */
  lemma ClosestStep(candidates: seq<string>, gaps: seq<Option<nat>>, n: nat, i: nat)
    requires n < |candidates| == |gaps| && Closest(candidates, gaps, n, i)
    ensures gaps[n].Some? && Closer(candidates, gaps, n, i) ==> Closest(candidates, gaps, n + 1, n)
    ensures gaps[n].None? || !Closer(candidates, gaps, n, i) ==> Closest(candidates, gaps, n + 1, i)
  {
  }

  lemma FirstClosest(candidates: seq<string>, gaps: seq<Option<nat>>, n: nat)
    requires n < |candidates| == |gaps| && gaps[n].Some? && forall j :: 0 <= j < n ==> gaps[j].None?
    ensures Closest(candidates, gaps, n + 1, n)
  {
  }

  /** The part of the loop that weighs one candidate. */
  method MeasureGap(host: string, candidates: seq<string>, k: nat) returns (gap: Option<nat>)
    requires k < |candidates|
    ensures gap == Gaps(host, candidates)[k]
    ensures gap.Some? ==> candidates[k] != ""
  {
    GapsAt(host, candidates, k);
    var candidate := candidates[k];
    var normalized := Normalize(candidate);
    if normalized == "" {
      return None;
    }
    var compare := ComparisonValue(host, normalized);
    if compare == "" {
      return None;
    }
    var distance := EditDistance.EditDistance(host, compare);
    var threshold := Threshold(host, compare);
    if distance > threshold {
      return None;
    }
    return Some(distance);
  }

  /** `best` is the closest of the first `n` candidates; "" while none may be suggested. */
  ghost predicate BestSoFar(candidates: seq<string>, gaps: seq<Option<nat>>, n: nat, best: string, distance: nat, at: nat)
    requires n <= |candidates| == |gaps|
  {
    if best == "" then forall j :: 0 <= j < n ==> gaps[j].None?
    else Closest(candidates, gaps, n, at) && best == candidates[at] && gaps[at] == Some(distance)
  }

  /** The body of the loop once the gap is known. */
  method Improve(ghost candidates: seq<string>, ghost gaps: seq<Option<nat>>, ghost k: nat, candidate: string,
                 gap: Option<nat>, best: string, bestDistance: nat, ghost at: nat)
    returns (newBest: string, newDistance: nat, ghost newAt: nat)
    requires k < |candidates| == |gaps| && candidate == candidates[k] && gap == gaps[k]
    requires gap.Some? ==> candidate != ""
    requires BestSoFar(candidates, gaps, k, best, bestDistance, at)
    ensures BestSoFar(candidates, gaps, k + 1, newBest, newDistance, newAt)
  {
    if best != "" {
      ClosestStep(candidates, gaps, k, at);
    } else if gap.Some? {
      FirstClosest(candidates, gaps, k);
    }
    newBest, newDistance, newAt := best, bestDistance, at;
    if gap.None? {
      return;
    }
    var distance := gap.value;
    if best == "" || distance < bestDistance || (distance == bestDistance && |candidate| < |best|) {
      newBest, newDistance, newAt := candidate, distance, k;
    }
  }

  /** gatewayClosestHostname. */
  method ClosestHostname(rawHost: string, candidates: seq<string>)
    returns (closest: Option<string>, ghost at: nat)
    ensures Normalize(rawHost) == "" ==> closest == None
    ensures Normalize(rawHost) != "" && closest.None? ==>
              forall gap :: gap in Gaps(Normalize(rawHost), candidates) ==> gap.None?
    ensures closest.Some? ==>
              && Closest(candidates, Gaps(Normalize(rawHost), candidates), |candidates|, at)
              && candidates[at] == closest.value
  {
    at := 0;
    var host := Normalize(rawHost);
    if host == "" {
      return None, 0;
    }
    ghost var gaps := Gaps(host, candidates);
    var best, bestDistance := "", 0;
    for k := 0 to |candidates|
      invariant BestSoFar(candidates, gaps, k, best, bestDistance, at)
    {
      var gap := MeasureGap(host, candidates, k);
      best, bestDistance, at := Improve(candidates, gaps, k, candidates[k], gap, best, bestDistance, at);
    }
    closest := if best == "" then None else Some(best);
  }

  // ----- Reading the suggestion ------------------------------------------------------------

  /** The suggested candidate has the fewest edits of all; among those the shortest text; among those it comes first. */
  lemma ClosestReads(candidates: seq<string>, gaps: seq<Option<nat>>, at: nat, j: nat)
    requires |candidates| == |gaps| && Closest(candidates, gaps, |candidates|, at)
    requires j < |gaps| && gaps[j].Some?
    ensures gaps[at].value <= gaps[j].value
    ensures gaps[at].value == gaps[j].value ==> |candidates[at]| <= |candidates[j]|
    ensures gaps[at].value == gaps[j].value && |candidates[at]| == |candidates[j]| ==> at <= j
  {
    assert !Closer(candidates, gaps, j, at);
    assert j < at ==> Closer(candidates, gaps, at, j);
  }

  predicate Near(edits: nat, host: nat, candidate: nat) {
    || edits <= 1
    || (edits == 2 && (host > 12 || candidate > 12))
    || (edits == 3 && (host > 24 || candidate > 24))
  }

  lemma NearIsThreshold(edits: nat, host: string, candidate: string)
    ensures edits <= Threshold(host, candidate) <==> Near(edits, |host|, |candidate|)
  {
  }

  /** A candidate may be suggested when it is one edit away, two if a name is longer than 12 characters, and three if
      one is longer than 24. */
  lemma GapReads(host: string, candidate: string)
    requires Normalize(candidate) != "" && ComparisonValue(host, Normalize(candidate)) != ""
    ensures var compare := ComparisonValue(host, Normalize(candidate));
            var edits := EditDistance.Distance(host, compare);
            Gap(host, candidate) == if Near(edits, |host|, |compare|) then Some(edits) else None
  {
    var compare := ComparisonValue(host, Normalize(candidate));
    NearIsThreshold(EditDistance.Distance(host, compare), host, compare);
  }

  /** A wildcard candidate is compared with the host's own first label in place of the star. */
  lemma WildcardCompares(first: string, domain: string, rest: string)
    requires first != "" && '.' !in first
    ensures ComparisonValue(first + ['.'] + domain, "*." + rest) == first + "." + rest
    ensures ComparisonValue(first, "*." + rest) == first + "." + rest
  {
    var candidate := "*." + rest;
    FirstDot(first, domain);
    assert candidate[1..] == "." + rest;
    assert first + ("." + rest) == first + "." + rest;
  }

  lemma OtherComparisons(host: string, candidate: string)
    ensures !HasPrefix(candidate, "*.") ==> ComparisonValue(host, candidate) == candidate
    ensures HasPrefix(candidate, "*.") && HasPrefix(host, ".") ==> ComparisonValue(host, candidate) == ""
  {
    if HasPrefix(host, ".") {
      assert host[0] == '.';
    }
  }

  lemma FirstDot(left: string, right: string)
    requires '.' !in left
    ensures IndexOf(left + ['.'] + right, '.') == |left| && (left + ['.'] + right)[..|left|] == left
  {
    var s := left + ['.'] + right;
    var i := IndexOf(s, '.');
    assert s[|left|] == '.';
  }

  /** Case, outer space and a final dot do not matter; a missing name matches everything. */
  lemma NormalExamples()
    ensures Normalize(" Shop.Example.COM. ") == "shop.example.com"
    ensures Matches("", "shop.example.com") && Matches("shop.example.com", "")
  {
    assert ToLower("Shop.Example.COM.") == "shop.example.com.";
    assert TrimSpace(" Shop.Example.COM. ") == "Shop.Example.COM." by {
      assert " Shop.Example.COM. "[1..] == "Shop.Example.COM. ";
      assert "Shop.Example.COM. "[..17] == "Shop.Example.COM.";
    }
    assert "shop.example.com."[16..] == "." && "shop.example.com."[..16] == "shop.example.com";
    assert ToLower("") == "" && TrimSpace("") == "";
  }
}
