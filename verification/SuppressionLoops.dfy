/** When suppression keeps its promises: for a given stock of messages, every report drawn from it explains what
    it suppresses, and none is emptied, exactly when suppression does not run in circles there. */
module SuppressionLoops {
  import opened Text
  import opened Diagnoses

  // ----- Reports, chains and loops ---------------------------------------------------------

  /** A report of at least two messages, all different, from the stock. */
  ghost predicate ReportFrom(list: seq<string>, stock: set<string>) {
    |list| >= 2 && Distinct(list) && forall m :: m in list ==> m in stock
  }

  ghost predicate Linked(read: Reader, path: seq<string>) {
    forall i :: 0 <= i < |path| - 1 ==> Suppresses(read, path[i + 1], path[i])
  }

  /** Each message of the path is suppressed by the next one. */
  ghost predicate Chain(read: Reader, within: set<string>, path: seq<string>) {
    |path| >= 1 && Linked(read, path) && forall m :: m in path ==> m in within
  }

  ghost predicate Loop(read: Reader, within: set<string>, path: seq<string>) {
    Chain(read, within, path) && |path| >= 2 && path[0] == path[|path| - 1]
  }

  /** A loop through at least two different messages. */
  ghost predicate WideLoop(read: Reader, within: set<string>, path: seq<string>) {
    Loop(read, within, path) && exists i :: 0 <= i < |path| && path[i] != path[0]
  }

  function Members(list: seq<string>): set<string> {
    set m | m in list
  }

  /** A chain of suppressions leads from the message to one that is left. */
  ghost predicate Explained(read: Reader, list: seq<string>, m: string) {
    exists path ::
      Chain(read, Members(list), path) && path[0] == m && path[|path| - 1] in Dedupe(read, list)
  }

  ghost predicate ExplainsAll(read: Reader, list: seq<string>) {
    forall m :: m in list ==> Explained(read, list, m)
  }

  // ----- Following the suppressors ---------------------------------------------------------

  lemma BackEdge(read: Reader, within: set<string>, path: seq<string>, i: nat)
    requires Chain(read, within, path) && i < |path| - 1
    requires Suppresses(read, path[i], path[|path| - 1]) && path[i] != path[|path| - 1]
    ensures WideLoop(read, within, path[i..] + [path[i]])
  {
    var back := path[i..] + [path[i]];
    forall k | 0 <= k < |back| - 1 ensures Suppresses(read, back[k + 1], back[k]) {
      assert back[k] == path[i + k];
    }
    assert back[|path| - 1 - i] == path[|path| - 1];
  }

  lemma {:induction false} DistinctFits(path: seq<string>, within: set<string>)
    requires Distinct(path) && forall m :: m in path ==> m in within
    ensures |path| <= |within|
  {
    if path != [] {
      var n := |path| - 1;
      DistinctFits(path[..n], within - {path[n]});
    }
  }

  lemma Extend(read: Reader, within: set<string>, path: seq<string>, cause: string)
    requires Chain(read, within, path) && Distinct(path)
    requires cause in within && cause !in path && Suppresses(read, cause, path[|path| - 1])
    ensures Chain(read, within, path + [cause]) && Distinct(path + [cause])
  {
  }

  /** Nothing in the list suppresses the message but the message itself. */
  ghost predicate OnlyItself(read: Reader, list: seq<string>, m: string) {
    Suppresses(read, m, m) && forall cause :: cause in list && Suppresses(read, cause, m) ==> cause == m
  }

  /** Without a wide loop, following suppressors ends at a message that is left or at one that nothing but
      itself suppresses. */
  lemma {:induction false} Follow(read: Reader, list: seq<string>, path: seq<string>) returns (full: seq<string>)
    requires Chain(read, Members(list), path) && Distinct(path)
    requires forall p :: !WideLoop(read, Members(list), p)
    ensures Chain(read, Members(list), full) && Distinct(full) && full[0] == path[0]
    ensures full[|full| - 1] in Dedupe(read, list) || OnlyItself(read, list, full[|full| - 1])
    decreases |Members(list)| - |path|
  {
    full := path;
    var last := path[|path| - 1];
    assert last in path;
    InDedupe(read, list, last);
    if last !in Dedupe(read, list) && !OnlyItself(read, list, last) {
      var cause := OtherSuppressor(read, list, last);
      if cause in path {
        var i :| 0 <= i < |path| && path[i] == cause;
        BackEdge(read, Members(list), path, i);
        assert false;
      }
      Extend(read, Members(list), path, cause);
      DistinctFits(path + [cause], Members(list));
      full := Follow(read, list, path + [cause]);
    }
  }

  lemma OtherSuppressor(read: Reader, list: seq<string>, m: string) returns (cause: string)
    requires Suppressed(read, list, m) && !OnlyItself(read, list, m)
    ensures cause in list && cause != m && Suppresses(read, cause, m)
  {
    if Suppresses(read, m, m) {
      cause :| cause in list && Suppresses(read, cause, m) && cause != m;
    } else {
      cause :| cause in list && Suppresses(read, cause, m);
    }
  }

  lemma LoopsGrow(read: Reader, within: set<string>, more: set<string>, path: seq<string>)
    requires WideLoop(read, within, path) && within <= more
    ensures WideLoop(read, more, path)
  {
  }

  lemma NoLoopsIn(read: Reader, list: seq<string>, stock: set<string>)
    requires ReportFrom(list, stock) && forall p :: !WideLoop(read, stock, p)
    ensures forall p :: !WideLoop(read, Members(list), p)
  {
    forall p ensures !WideLoop(read, Members(list), p) {
      if WideLoop(read, Members(list), p) {
        LoopsGrow(read, Members(list), stock, p);
      }
    }
  }

  // ----- A report that a loop empties ------------------------------------------------------

  /** The messages of a path, each once. */
  function Once(path: seq<string>): seq<string> {
    if path == [] then []
    else
      var front, last := Once(path[..|path| - 1]), path[|path| - 1];
      if last in front then front else front + [last]
  }

  lemma {:induction false} OnceIsDistinct(path: seq<string>)
    ensures Distinct(Once(path)) && forall m :: m in Once(path) <==> m in path
  {
    if path != [] {
      var n := |path| - 1;
      OnceIsDistinct(path[..n]);
      assert path == path[..n] + [path[n]];
    }
  }

  lemma TwoDifferent(list: seq<string>, a: string, b: string)
    requires a in list && b in list && a != b
    ensures |list| >= 2
  {
  }

  lemma AllSuppressed(read: Reader, list: seq<string>)
    requires |list| >= 2 && forall m :: m in list ==> Suppressed(read, list, m)
    ensures Dedupe(read, list) == []
  {
    if Dedupe(read, list) != [] {
      var m := SomeMember(Dedupe(read, list));
      InDedupe(read, list, m);
      assert false;
    }
  }

  lemma SomeMember(list: seq<string>) returns (m: string)
    requires list != []
    ensures m in list
  {
    m := list[0];
  }

  lemma OnLoopIsSuppressed(read: Reader, within: set<string>, path: seq<string>, m: string) returns (cause: string)
    requires Loop(read, within, path) && m in path
    ensures cause in path && cause in within && Suppresses(read, cause, m)
  {
    var i :| 0 <= i < |path| && path[i] == m;
    cause := if i < |path| - 1 then path[i + 1] else path[0 + 1];
  }

  lemma LoopEmpties(read: Reader, stock: set<string>, path: seq<string>)
    requires WideLoop(read, stock, path)
    ensures ReportFrom(Once(path), stock) && Dedupe(read, Once(path)) == []
  {
    var list := Once(path);
    OnceIsDistinct(path);
    var k :| 0 <= k < |path| && path[k] != path[0];
    assert path[k] in path && path[0] in path;
    TwoDifferent(list, path[k], path[0]);
    forall m | m in list ensures Suppressed(read, list, m) {
      var cause := OnLoopIsSuppressed(read, stock, path, m);
    }
    AllSuppressed(read, list);
  }

  lemma NothingExplained(read: Reader, list: seq<string>)
    requires |list| >= 1 && Dedupe(read, list) == []
    ensures !ExplainsAll(read, list)
  {
    assert list[0] in list && !Explained(read, list, list[0]);
  }

  // ----- When every suppression is explained -----------------------------------------------

  /** Suppression runs in no circle of two or more messages, and a message that suppresses itself is suppressed
      by every other one as well. */
  ghost predicate Orderly(read: Reader, stock: set<string>) {
    && (forall path :: !WideLoop(read, stock, path))
    && (forall m, x :: m in stock && x in stock && x != m && Suppresses(read, m, m) ==> Suppresses(read, x, m))
  }

  lemma {:induction false} StuckAt(read: Reader, list: seq<string>, m: string, path: seq<string>)
    requires Chain(read, Members(list), path) && path[0] == m && OnlyItself(read, list, m)
    ensures path[|path| - 1] == m
  {
    if |path| > 1 {
      var n := |path| - 1;
      StuckAt(read, list, m, path[..n]);
      assert path[n] in path && Suppresses(read, path[n - 1 + 1], path[n - 1]);
    }
  }

  lemma SelfSuppressionUnexplained(read: Reader, stock: set<string>, m: string, x: string)
    requires m in stock && x in stock && x != m && Suppresses(read, m, m) && !Suppresses(read, x, m)
    ensures ReportFrom([m, x], stock) && !ExplainsAll(read, [m, x])
  {
    var list := [m, x];
    InDedupe(read, list, m);
    if Explained(read, list, m) {
      var path :| Chain(read, Members(list), path) && path[0] == m && path[|path| - 1] in Dedupe(read, list);
      StuckAt(read, list, m, path);
      assert false;
    }
    assert m in list;
  }

  lemma OrderlyExplains(read: Reader, stock: set<string>, list: seq<string>, m: string)
    requires Orderly(read, stock) && ReportFrom(list, stock) && m in list
    ensures Explained(read, list, m)
  {
    NoLoopsIn(read, list, stock);
    assert Chain(read, Members(list), [m]);
    var full := Follow(read, list, [m]);
    var last := full[|full| - 1];
    var x := if list[0] == last then list[1] else list[0];
    assert last in full && x in list && x != last;
  }

  /** Main result: every report from the stock explains each suppressed message by one that is left if and only if
      the stock is orderly. */
  lemma ExplainedExactly(read: Reader, stock: set<string>)
    ensures (forall list :: ReportFrom(list, stock) ==> ExplainsAll(read, list)) <==> Orderly(read, stock)
  {
    if Orderly(read, stock) {
      forall list, m | ReportFrom(list, stock) && m in list ensures Explained(read, list, m) {
        OrderlyExplains(read, stock, list, m);
      }
    } else if path :| WideLoop(read, stock, path) {
      LoopEmpties(read, stock, path);
      NothingExplained(read, Once(path));
    } else {
      var m, x :| m in stock && x in stock && x != m && Suppresses(read, m, m) && !Suppresses(read, x, m);
      SelfSuppressionUnexplained(read, stock, m, x);
    }
  }

  /** Among messages that do not suppress themselves: if and only if there is no loop. */
  lemma ExplainedWithoutLoops(read: Reader, stock: set<string>)
    requires forall m :: m in stock ==> !Suppresses(read, m, m)
    ensures (forall list :: ReportFrom(list, stock) ==> ExplainsAll(read, list)) <==>
            forall path :: !Loop(read, stock, path)
  {
    ExplainedExactly(read, stock);
    forall path ensures Loop(read, stock, path) ==> WideLoop(read, stock, path) {
      if Loop(read, stock, path) {
        assert path[0] in path && Suppresses(read, path[0 + 1], path[0]);
      }
    }
  }

  /** A message that suppresses itself may still be explained, by another one that suppresses it. */
  lemma SelfSuppressionExplained(read: Reader, m: string, x: string)
    requires x != m && Suppresses(read, m, m) && Suppresses(read, x, m)
    requires !Suppresses(read, x, x) && !Suppresses(read, m, x)
    ensures Loop(read, {m, x}, [m, m]) && forall list :: ReportFrom(list, {m, x}) ==> ExplainsAll(read, list)
  {
    forall path ensures !WideLoop(read, {m, x}, path) {
      if WideLoop(read, {m, x}, path) {
        assert x in path by {
          var k :| 0 <= k < |path| && path[k] != path[0];
          assert path[k] in path && path[0] in path;
        }
        var cause := OnLoopIsSuppressed(read, {m, x}, path, x);
      }
    }
    ExplainedExactly(read, {m, x});
  }

  // ----- When no report is emptied ---------------------------------------------------------

  /** Suppression runs in no circle of two or more messages, and a message that suppresses itself suppresses no
      other one and stands beside no other of its kind. */
  ghost predicate Trapless(read: Reader, stock: set<string>) {
    && (forall path :: !WideLoop(read, stock, path))
    && (forall m, x :: m in stock && x in stock && x != m && Suppresses(read, m, m) ==>
          !Suppresses(read, m, x) && !Suppresses(read, x, x))
  }

  lemma PairEmptied(read: Reader, stock: set<string>, m: string, x: string)
    requires m in stock && x in stock && x != m && Suppresses(read, m, m)
    requires Suppresses(read, m, x) || Suppresses(read, x, x)
    ensures ReportFrom([m, x], stock) && Dedupe(read, [m, x]) == []
  {
    var list := [m, x];
    assert list[0] == m && list[1] == x;
    assert Suppressed(read, list, m) && Suppressed(read, list, x);
    AllSuppressed(read, list);
  }

  /** In an emptied report without a wide loop, a message suppresses itself. */
  lemma EndsAtItself(read: Reader, stock: set<string>, list: seq<string>, m: string)
    requires Trapless(read, stock) && ReportFrom(list, stock) && m in list && Dedupe(read, list) == []
    ensures Suppresses(read, m, m)
  {
    NoLoopsIn(read, list, stock);
    var full := Follow(read, list, [m]);
    if |full| > 1 {
      LastStep(read, Members(list), full);
    }
  }

  lemma LastStep(read: Reader, within: set<string>, path: seq<string>)
    requires Chain(read, within, path) && |path| > 1
    ensures var n := |path| - 1;
            path[n - 1] in within && path[n] in within && Suppresses(read, path[n], path[n - 1])
  {
    var n := |path| - 1;
    assert path[n - 1] in path && path[n] in path && Suppresses(read, path[n - 1 + 1], path[n - 1]);
  }

  /** Main result: no report from the stock is emptied if and only if the stock is trapless. */
  lemma NeverEmptiedExactly(read: Reader, stock: set<string>)
    ensures (forall list :: ReportFrom(list, stock) ==> Dedupe(read, list) != []) <==> Trapless(read, stock)
  {
    if Trapless(read, stock) {
      forall list | ReportFrom(list, stock) ensures Dedupe(read, list) != [] {
        if Dedupe(read, list) == [] {
          EndsAtItself(read, stock, list, list[0]);
          EndsAtItself(read, stock, list, list[1]);
          assert false;
        }
      }
    } else if path :| WideLoop(read, stock, path) {
      LoopEmpties(read, stock, path);
    } else {
      var m, x :| m in stock && x in stock && x != m && Suppresses(read, m, m) &&
        (Suppresses(read, m, x) || Suppresses(read, x, x));
      PairEmptied(read, stock, m, x);
    }
  }

  // ----- Messages of one level -------------------------------------------------------------

  ghost function LevelOf(read: Reader, m: string): int {
    if exists c: Class :: read(c, m).Some? then (var c: Class :| read(c, m).Some?; Level(c)) else -1
  }

  lemma LevelRises(read: Reader, cause: string, m: string)
    requires OneLevel(read, cause) && OneLevel(read, m) && Suppresses(read, cause, m)
    ensures LevelOf(read, cause) > LevelOf(read, m)
  {
    var c :| SuppressesAs(read, c, cause, m);
    SuppressorIsHigher(c);
    assert read(Suppressor(c).value, cause).Some?;
  }

  lemma {:induction false} ChainRises(read: Reader, within: set<string>, path: seq<string>)
    requires Chain(read, within, path) && forall m :: m in within ==> OneLevel(read, m)
    ensures LevelOf(read, path[|path| - 1]) >= LevelOf(read, path[0]) + |path| - 1
  {
    if |path| > 1 {
      var n := |path| - 1;
      ChainRises(read, within, path[..n]);
      assert path[n] in path && path[n - 1] in path && Suppresses(read, path[n - 1 + 1], path[n - 1]);
      LevelRises(read, path[n], path[n - 1]);
    }
  }

  /** Messages of one level each, in particular of one class each, are orderly and trapless. */
  lemma OneLevelIsOrderly(read: Reader, stock: set<string>)
    requires forall m :: m in stock ==> OneLevel(read, m)
    ensures Orderly(read, stock) && Trapless(read, stock)
  {
    forall path ensures !WideLoop(read, stock, path) {
      if WideLoop(read, stock, path) {
        ChainRises(read, stock, path);
        assert false;
      }
    }
    forall m | m in stock ensures !Suppresses(read, m, m) {
      if Suppresses(read, m, m) {
        LevelRises(read, m, m);
        assert false;
      }
    }
  }
}
