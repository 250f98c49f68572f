/** gatewayEditDistance: a two-row dynamic program that swaps its rows.  The reference is a chain
    of strings in which each neighbour differs by one insertion, deletion or substitution; the
    program returns the length of a shortest such chain. */
module EditDistance {

  // ----- The reference: chains of single edits --------------------------------------------

  /** `a` becomes `b` when the part `cut` between `left` and `right` turns into a different `put`: at most
      one character on each side, so one insertion, deletion or substitution. */
  ghost predicate EditAt(a: string, b: string, left: string, cut: string, put: string, right: string) {
    |cut| <= 1 && |put| <= 1 && cut != put && a == left + cut + right && b == left + put + right
  }

  ghost predicate OneEdit(a: string, b: string) {
    exists left, cut, put, right :: EditAt(a, b, left, cut, put, right)
  }

  ghost predicate Chain(path: seq<string>, a: string, b: string) {
    && |path| >= 1 && path[0] == a && path[|path| - 1] == b
    && forall i :: 0 <= i < |path| - 1 ==> OneEdit(path[i], path[i + 1])
  }

  /** `n` edits lead from `a` to `b`, and no fewer do. */
  ghost predicate ShortestChain(a: string, b: string, n: nat) {
    && (exists path :: Chain(path, a, b) && |path| - 1 == n)
    && forall path :: Chain(path, a, b) ==> |path| - 1 >= n
  }

  // ----- The recurrence the rows hold ------------------------------------------------------

  function Min3(x: nat, y: nat, z: nat): (m: nat) {
    var xy := if y < x then y else x;
    if z < xy then z else xy
  }

  function Init(s: string): string
    requires s != ""
  {
    s[..|s| - 1]
  }

  function Last(s: string): char
    requires s != ""
  {
    s[|s| - 1]
  }

  function Distance(a: string, b: string): nat
    decreases |a| + |b|
  {
    if a == "" then |b|
    else if b == "" then |a|
    else Min3(Distance(Init(a), b) + 1, Distance(a, Init(b)) + 1,
              Distance(Init(a), Init(b)) + (if Last(a) != Last(b) then 1 else 0))
  }

  // ----- No chain is shorter ---------------------------------------------------------------

  /** Dropping the last character moves the distance by at most one. */
  lemma {:induction false} DropLast(p: string, c: char, b: string)
    ensures Distance(p, b) <= Distance(p + [c], b) + 1
    ensures Distance(p + [c], b) <= Distance(p, b) + 1
    decreases |b|
  {
    assert Init(p + [c]) == p;
    if b != "" {
      DropLast(p, c, Init(b));
    }
  }

  lemma {:induction false} ChangeLast(p: string, c: char, d: char, b: string)
    ensures Distance(p + [c], b) <= Distance(p + [d], b) + 1
    decreases |b|
  {
    assert Init(p + [c]) == p && Init(p + [d]) == p;
    if b != "" {
      ChangeLast(p, c, d, Init(b));
    }
  }

  lemma {:induction false} EditLast(left: string, cut: string, put: string, b: string)
    requires |cut| <= 1 && |put| <= 1
    ensures Distance(left + cut, b) <= Distance(left + put, b) + 1
  {
    assert left + [] == left;
    if |cut| == 1 {
      assert cut == [cut[0]];
      DropLast(left, cut[0], b);
    }
    if |put| == 1 {
      assert put == [put[0]];
      DropLast(left, put[0], b);
      if |cut| == 1 {
        ChangeLast(left, cut[0], put[0], b);
      }
    }
  }

  /** One edit anywhere moves the distance by at most one. */
  lemma {:induction false} EditMoves(left: string, cut: string, put: string, right: string, b: string)
    requires |cut| <= 1 && |put| <= 1
    ensures Distance(left + cut + right, b) <= Distance(left + put + right, b) + 1
    decreases |right| + |b|
  {
    if right == "" {
      assert left + cut + right == left + cut && left + put + right == left + put;
      EditLast(left, cut, put, b);
    } else {
      var shorter := Init(right);
      assert Init(left + cut + right) == left + cut + shorter;
      assert Init(left + put + right) == left + put + shorter;
      if b != "" {
        EditMoves(left, cut, put, shorter, b);
        EditMoves(left, cut, put, right, Init(b));
        EditMoves(left, cut, put, shorter, Init(b));
      }
    }
  }

  /** A chain from `a` to `b` is at least as long as the distances it bridges. */
  lemma {:induction false} ChainBridges(path: seq<string>, a: string, b: string, c: string)
    requires Chain(path, a, b)
    ensures Distance(a, c) <= |path| - 1 + Distance(b, c)
    decreases |path|
  {
    if |path| > 1 {
      var left, cut, put, right :| EditAt(path[0], path[1], left, cut, put, right);
      EditMoves(left, cut, put, right, c);
      ChainBridges(path[1..], path[1], b, c);
    }
  }

  // ----- Some chain is that short ----------------------------------------------------------

  lemma {:induction false} Prepend(first: string, path: seq<string>, a: string, b: string)
    requires OneEdit(first, a) && Chain(path, a, b)
    ensures Chain([first] + path, first, b)
  {
  }

  lemma {:induction false} Append(path: seq<string>, last: string, a: string, b: string)
    requires Chain(path, a, b) && OneEdit(b, last)
    ensures Chain(path + [last], a, last)
  {
  }

  function Extended(path: seq<string>, c: char): seq<string> {
    seq(|path|, i requires 0 <= i < |path| => path[i] + [c])
  }

  /** A chain stays a chain under a common last character. */
  lemma {:induction false} UnderSuffix(path: seq<string>, c: char, a: string, b: string)
    requires Chain(path, a, b)
    ensures Chain(Extended(path, c), a + [c], b + [c])
  {
    forall i | 0 <= i < |path| - 1
      ensures OneEdit(Extended(path, c)[i], Extended(path, c)[i + 1])
    {
      var left, cut, put, right :| EditAt(path[i], path[i + 1], left, cut, put, right);
      assert EditAt(path[i] + [c], path[i + 1] + [c], left, cut, put, right + [c]);
    }
  }

  lemma LastEdits(p: string, c: char, d: char)
    ensures OneEdit(p + [c], p) && OneEdit(p, p + [c])
    ensures c != d ==> OneEdit(p + [c], p + [d])
  {
    assert EditAt(p + [c], p, p, [c], [], []);
    assert EditAt(p, p + [c], p, [], [c], []);
    if c != d {
      assert EditAt(p + [c], p + [d], p, [c], [d], []);
    }
  }

  lemma EndEdits(s: string)
    requires s != ""
    ensures OneEdit(s, Init(s)) && OneEdit(Init(s), s)
  {
    assert s == Init(s) + [Last(s)];
    LastEdits(Init(s), Last(s), Last(s));
  }

  lemma {:induction false} ShortChain(a: string, b: string) returns (path: seq<string>)
    ensures Chain(path, a, b) && |path| == Distance(a, b) + 1
    decreases |a| + |b|
  {
    if a == "" && b == "" {
      path := [a];
    } else if a == "" || (b != "" && Distance(a, b) == Distance(a, Init(b)) + 1) {
      path := ShortChain(a, Init(b));
      EndEdits(b);
      Append(path, b, a, Init(b));
      path := path + [b];
    } else if b == "" || Distance(a, b) == Distance(Init(a), b) + 1 {
      path := ShortChain(Init(a), b);
      EndEdits(a);
      Prepend(a, path, Init(a), b);
      path := [a] + path;
    } else {
      path := ShortChain(Init(a), Init(b));
      assert a == Init(a) + [Last(a)] && b == Init(b) + [Last(b)];
      UnderSuffix(path, Last(b), Init(a), Init(b));
      path := Extended(path, Last(b));
      if Last(a) != Last(b) {
        LastEdits(Init(a), Last(a), Last(b));
        Prepend(a, path, Init(a) + [Last(b)], b);
        path := [a] + path;
      }
    }
  }

  /** Main result: the recurrence is the length of a shortest chain of single edits. */
  lemma {:induction false} DistanceIsShortestChain(a: string, b: string)
    ensures ShortestChain(a, b, Distance(a, b))
  {
    var path := ShortChain(a, b);
    SelfDistance(b);
    forall path | Chain(path, a, b) ensures |path| - 1 >= Distance(a, b) {
      ChainBridges(path, a, b, b);
    }
  }

  // ----- Metric laws -----------------------------------------------------------------------

  lemma {:induction false} SelfDistance(a: string)
    ensures Distance(a, a) == 0
  {
    if a != "" {
      SelfDistance(Init(a));
    }
  }

  lemma {:induction false} ZeroOnlyOnEqual(a: string, b: string)
    ensures Distance(a, b) == 0 <==> a == b
  {
    SelfDistance(a);
    var path := ShortChain(a, b);
  }

  lemma {:induction false} Symmetric(a: string, b: string)
    ensures Distance(a, b) == Distance(b, a)
    decreases |a| + |b|
  {
    if a != "" && b != "" {
      Symmetric(Init(a), b);
      Symmetric(a, Init(b));
      Symmetric(Init(a), Init(b));
    }
  }

  lemma {:induction false} Triangle(a: string, b: string, c: string)
    ensures Distance(a, c) <= Distance(a, b) + Distance(b, c)
  {
    var path := ShortChain(a, b);
    ChainBridges(path, a, b, c);
  }

  lemma {:induction false} LengthBounds(a: string, b: string)
    ensures |a| - |b| <= Distance(a, b) && |b| - |a| <= Distance(a, b)
    ensures Distance(a, b) <= |a| || Distance(a, b) <= |b|
    decreases |a| + |b|
  {
    if a != "" && b != "" {
      LengthBounds(Init(a), b);
      LengthBounds(a, Init(b));
      LengthBounds(Init(a), Init(b));
    }
  }

  // ----- The program -----------------------------------------------------------------------

  /** Entry (i, j) of the table: the distance between prefixes. */
  ghost function Entry(a: string, b: string, i: nat, j: nat): nat
    requires i <= |a| && j <= |b|
  {
    Distance(a[..i], b[..j])
  }

  lemma Borders(a: string, b: string, i: nat, j: nat)
    requires i <= |a| && j <= |b|
    ensures Entry(a, b, 0, j) == j && Entry(a, b, i, 0) == i
    ensures Entry(a, b, |a|, |b|) == Distance(a, b)
  {
    assert a[..|a|] == a && b[..|b|] == b;
  }

  /** One cell of the table from its three neighbours. */
  lemma Cell(a: string, b: string, i: nat, j: nat)
    requires 1 <= i <= |a| && 1 <= j <= |b|
    ensures Entry(a, b, i, j) ==
            Min3(Entry(a, b, i - 1, j) + 1, Entry(a, b, i, j - 1) + 1,
                 Entry(a, b, i - 1, j - 1) + (if a[i - 1] != b[j - 1] then 1 else 0))
  {
    assert Init(a[..i]) == a[..i - 1] && Init(b[..j]) == b[..j - 1];
  }

  ghost predicate HoldsRow(row: seq<nat>, a: string, b: string, i: nat, upto: nat)
    requires i <= |a| && upto <= |b| + 1 == |row|
  {
    forall k :: 0 <= k < upto ==> row[k] == Entry(a, b, i, k)
  }

  /** The inner loop: fills row `i` of the table from row `i - 1`. */
  method FillRow(a: string, b: string, i: nat, prev: array<nat>, curr: array<nat>)
    requires 1 <= i <= |a| && prev != curr && prev.Length == curr.Length == |b| + 1
    requires HoldsRow(prev[..], a, b, i - 1, |b| + 1)
    modifies curr
    ensures HoldsRow(curr[..], a, b, i, |b| + 1)
  {
    curr[0] := i;
    Borders(a, b, i, 0);
    for j := 1 to |b| + 1
      invariant HoldsRow(curr[..], a, b, i, j)
    {
      var cost := 0;
      if a[i - 1] != b[j - 1] {
        cost := 1;
      }
      Cell(a, b, i, j);
      assert prev[..][j] == prev[j] && prev[..][j - 1] == prev[j - 1] && curr[..][j - 1] == curr[j - 1];
      curr[j] := Min3(prev[j] + 1, curr[j - 1] + 1, prev[j - 1] + cost);
    }
  }

  method EditDistance(a: string, b: string) returns (distance: nat)
    ensures distance == Distance(a, b)
    ensures ShortestChain(a, b, distance)
  {
    DistanceIsShortestChain(a, b);
    if a == b {
      SelfDistance(a);
      return 0;
    }
    if a == "" {
      return |b|;
    }
    if b == "" {
      return |a|;
    }
    var prev := new nat[|b| + 1];
    var curr := new nat[|b| + 1];
    for j := 0 to |b| + 1
      invariant HoldsRow(prev[..], a, b, 0, j)
    {
      prev[j] := j;
      Borders(a, b, 0, j);
    }
    for i := 1 to |a| + 1
      invariant prev.Length == curr.Length == |b| + 1 && prev != curr
      invariant fresh(prev) && fresh(curr)
      invariant HoldsRow(prev[..], a, b, i - 1, |b| + 1)
    {
      FillRow(a, b, i, prev, curr);
      prev, curr := curr, prev;
    }
    Borders(a, b, 0, 0);
    assert prev[..][|b|] == prev[|b|];
    distance := prev[|b|];
  }
}
