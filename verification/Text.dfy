/** String helpers shared by the models of KubeNetMods' decision engines.  A Go string is a
    byte string; it is modelled as `seq<char>` holding one byte per character. */
module Text {

  datatype Option<+T> = None | Some(value: T)

  predicate HasPrefix(s: string, prefix: string) {
    prefix <= s
  }

  predicate HasSuffix(s: string, suffix: string) {
    |suffix| <= |s| && s[|s| - |suffix|..] == suffix
  }

  function DefaultString(value: string, fallback: string): string {
    if value != "" then value else fallback
  }

  function LowerChar(c: char): char {
    if 'A' <= c <= 'Z' then c - 'A' + 'a' else c
  }

  function ToLower(s: string): string {
    seq(|s|, i requires 0 <= i < |s| => LowerChar(s[i]))
  }

  function ToUpper(s: string): string {
    seq(|s|, i requires 0 <= i < |s| => if 'a' <= s[i] <= 'z' then s[i] - 'a' + 'A' else s[i])
  }

  predicate IsSpace(c: char) {
    c == ' ' || c == '\t' || c == '\n' || c == '\r' || c as int == 11 || c as int == 12
  }

  function TrimLeft(s: string): string {
    if s != "" && IsSpace(s[0]) then TrimLeft(s[1..]) else s
  }

  function TrimRight(s: string): string {
    if s != "" && IsSpace(s[|s| - 1]) then TrimRight(s[..|s| - 1]) else s
  }

  function TrimSpace(s: string): string {
    TrimRight(TrimLeft(s))
  }

  function TrimSuffix(s: string, suffix: string): string {
    if HasSuffix(s, suffix) then s[..|s| - |suffix|] else s
  }

  /** One more character: a separator opens an empty piece, any other one lengthens the last. */
  function Grow(pieces: seq<string>, c: char, sep: char): (grown: seq<string>)
    requires |pieces| >= 1
    ensures |grown| >= 1
  {
    if c == sep then pieces + [""]
    else pieces[..|pieces| - 1] + [pieces[|pieces| - 1] + [c]]
  }

  /** The pieces between separators, as strings.Split returns them; "" gives one empty piece. */
  function Split(s: string, sep: char): (pieces: seq<string>)
    ensures |pieces| >= 1
  {
    if s == "" then [""] else Grow(Split(s[..|s| - 1], sep), s[|s| - 1], sep)
  }

  /** The inverse of Split, as strings.Join computes it. */
  function Join(pieces: seq<string>, sep: string): string {
    if |pieces| == 0 then ""
    else if |pieces| == 1 then pieces[0]
    else Join(pieces[..|pieces| - 1], sep) + sep + pieces[|pieces| - 1]
  }

  lemma {:induction false} SplitOfPlain(s: string, sep: char)
    requires sep !in s
    ensures Split(s, sep) == [s]
  {
    if s != "" {
      SplitOfPlain(s[..|s| - 1], sep);
      assert s == s[..|s| - 1] + [s[|s| - 1]];
    }
  }

  lemma GrowRight(a: seq<string>, b: seq<string>, c: char, sep: char)
    requires |b| >= 1
    ensures Grow(a + b, c, sep) == a + Grow(b, c, sep)
  {
    if c != sep {
      assert (a + b)[..|a + b| - 1] == a + b[..|b| - 1];
    }
  }

  lemma SplitGrows(s: string, c: char, sep: char)
    ensures Split(s + [c], sep) == Grow(Split(s, sep), c, sep)
  {
    assert (s + [c])[..|s|] == s;
  }

  /** Splitting distributes over a separator. */
  lemma {:induction false} SplitAcross(left: string, right: string, sep: char)
    ensures Split(left + [sep] + right, sep) == Split(left, sep) + Split(right, sep)
  {
    if right == "" {
      SplitGrows(left, sep, sep);
      assert left + [sep] + right == left + [sep];
    } else {
      var n := |right| - 1;
      SplitAcross(left, right[..n], sep);
      SplitAcrossStep(left, right[..n], right[n], sep);
      assert right == right[..n] + [right[n]];
    }
  }

  lemma Regroup(a: string, b: string, c: string, d: string)
    ensures a + b + (c + d) == a + b + c + d
  {
  }

  lemma SplitAcrossStep(left: string, right: string, c: char, sep: char)
    requires Split(left + [sep] + right, sep) == Split(left, sep) + Split(right, sep)
    ensures Split(left + [sep] + (right + [c]), sep) == Split(left, sep) + Split(right + [c], sep)
  {
    var whole := left + [sep] + right;
    SplitGrows(whole, c, sep);
    SplitGrows(right, c, sep);
    Regroup(left, [sep], right, [c]);
    GrowRight(Split(left, sep), Split(right, sep), c, sep);
  }

  /** Joining pieces that hold no separator loses nothing. */
  lemma {:induction false} SplitJoin(pieces: seq<string>, sep: char)
    requires |pieces| >= 1
    requires forall p :: p in pieces ==> sep !in p
    ensures Split(Join(pieces, [sep]), sep) == pieces
  {
    if |pieces| == 1 {
      SplitOfPlain(pieces[0], sep);
    } else {
      var n := |pieces| - 1;
      var front := pieces[..n];
      SplitJoin(front, sep);
      SplitOfPlain(pieces[n], sep);
      SplitAcross(Join(front, [sep]), pieces[n], sep);
      assert pieces == front + [pieces[n]];
    }
  }

  lemma JoinSnoc(front: seq<string>, last: string, sep: string)
    requires front != []
    ensures Join(front + [last], sep) == Join(front, sep) + sep + last
  {
    assert (front + [last])[..|front|] == front;
  }

  lemma JoinGrown(pieces: seq<string>, c: char, sep: char)
    requires pieces != []
    ensures Join(Grow(pieces, c, sep), [sep]) == Join(pieces, [sep]) + [c]
  {
    if c == sep {
      JoinSnoc(pieces, "", [sep]);
    } else {
      var k := |pieces| - 1;
      var front, last := pieces[..k], pieces[k];
      assert pieces == front + [last];
      if k == 0 {
        assert Grow(pieces, c, sep) == [last + [c]];
      } else {
        JoinSnoc(front, last, [sep]);
        JoinSnoc(front, last + [c], [sep]);
        assert Join(front, [sep]) + [sep] + (last + [c]) == Join(front, [sep]) + [sep] + last + [c];
      }
    }
  }

  /** Splitting loses nothing, and no piece holds the separator. */
  lemma {:induction false} JoinSplit(s: string, sep: char)
    ensures Join(Split(s, sep), [sep]) == s
    ensures forall p :: p in Split(s, sep) ==> sep !in p
  {
    if s != "" {
      var n, c := |s| - 1, s[|s| - 1];
      JoinSplit(s[..n], sep);
      var pieces := Split(s[..n], sep);
      JoinGrown(pieces, c, sep);
      GrownPieces(pieces, c, sep);
      assert s == s[..n] + [c];
    }
  }

  lemma GrownPieces(pieces: seq<string>, c: char, sep: char)
    requires pieces != [] && forall p :: p in pieces ==> sep !in p
    ensures forall p :: p in Grow(pieces, c, sep) ==> sep !in p
  {
  }

  /** Go compares strings byte by byte. */
  predicate LexLess(a: string, b: string) {
    if b == "" then false
    else if a == "" then true
    else if a[0] != b[0] then a[0] < b[0]
    else LexLess(a[1..], b[1..])
  }

  lemma {:induction false} LexLessTotal(a: string, b: string)
    ensures a == b || LexLess(a, b) || LexLess(b, a)
    ensures !(LexLess(a, b) && LexLess(b, a))
    ensures LexLess(a, b) ==> a != b
  {
    if a != "" && b != "" && a[0] == b[0] {
      LexLessTotal(a[1..], b[1..]);
      assert a == [a[0]] + a[1..] && b == [b[0]] + b[1..];
    }
  }

  /** The strings agree before position `k` and differ there, with the smaller character on the left. */
  ghost predicate SmallerAt(a: string, b: string, k: int) {
    0 <= k < |a| && k < |b| && a[..k] == b[..k] && a[k] < b[k]
  }

  lemma SharedStart(a: string, b: string, k: int)
    requires SmallerAt(a, b, k) && k > 0
    ensures a[0] == b[0]
  {
    assert a[..k][0] == b[..k][0];
  }

  /** A string precedes another one when it is a proper prefix of it or smaller at the first difference. */
  lemma {:induction false} LexLessReads(a: string, b: string)
    ensures LexLess(a, b) <==> (a <= b && a != b) || exists k :: SmallerAt(a, b, k)
  {
    if a != "" && b != "" {
      if a[0] == b[0] {
        LexLessReads(a[1..], b[1..]);
        assert a == [a[0]] + a[1..] && b == [b[0]] + b[1..];
        if k :| SmallerAt(a[1..], b[1..], k) {
          assert a[..k + 1] == [a[0]] + a[1..][..k] && b[..k + 1] == [b[0]] + b[1..][..k];
          assert SmallerAt(a, b, k + 1);
        }
        if k :| SmallerAt(a, b, k) {
          assert k > 0 && a[1..][..k - 1] == a[..k][1..] && b[1..][..k - 1] == b[..k][1..];
          assert SmallerAt(a[1..], b[1..], k - 1);
        }
      } else if a[0] < b[0] {
        assert SmallerAt(a, b, 0);
      } else {
        forall k ensures !SmallerAt(a, b, k) {
          if SmallerAt(a, b, k) && k > 0 {
            SharedStart(a, b, k);
          }
        }
      }
    }
  }

  lemma {:induction false} LexLessTransitive(a: string, b: string, c: string)
    requires LexLess(a, b) && LexLess(b, c)
    ensures LexLess(a, c)
  {
    if a != "" && a[0] == b[0] == c[0] {
      LexLessTransitive(a[1..], b[1..], c[1..]);
    }
  }

  /** Go's %d for a number that is not negative. */
  function Decimal(n: nat): string {
    if n < 10 then [Digit(n)] else Decimal(n / 10) + [Digit(n % 10)]
  }

  function Digit(d: nat): char
    requires d < 10
  {
    d as char + '0'
  }

  lemma {:induction false} DecimalDigits(n: nat)
    ensures Decimal(n) != "" && forall i :: 0 <= i < |Decimal(n)| ==> '0' <= Decimal(n)[i] <= '9'
  {
    if n >= 10 {
      DecimalDigits(n / 10);
    }
  }

  lemma {:induction false} DecimalInjective(m: nat, n: nat)
    requires Decimal(m) == Decimal(n)
    ensures m == n
  {
    DecimalDigits(m / 10);
    DecimalDigits(n / 10);
    var a, b := Decimal(m), Decimal(n);
    assert a[|a| - 1] == Digit(m % 10) && b[|b| - 1] == Digit(n % 10);
    if m >= 10 && n >= 10 {
      assert a[..|a| - 1] == Decimal(m / 10) && b[..|b| - 1] == Decimal(n / 10);
      DecimalInjective(m / 10, n / 10);
    }
  }
}
