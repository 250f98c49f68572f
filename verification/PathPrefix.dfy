/** gatewayPathPrefixMatches against the element-wise reading of a Gateway API PathPrefix. */
module PathPrefix {
  import opened Text

  function TrimSlashes(s: string): string {
    if s != "" && s[|s| - 1] == '/' then TrimSlashes(s[..|s| - 1]) else s
  }

  predicate Matches(prefix: string, path: string) {
    if prefix == "" || prefix == "/" then HasPrefix(path, "/")
    else if path == prefix then true
    else HasPrefix(path, TrimSlashes(prefix) + "/")
  }

  predicate TrailingSlash(s: string) {
    s != "" && s[|s| - 1] == '/'
  }

  function Elements(s: string): seq<string> {
    Split(s, '/')
  }

  /** The elements of the prefix are the first elements of the path. */
  predicate ElementPrefix(prefix: string, path: string) {
    Elements(prefix) <= Elements(path)
  }

  lemma {:induction false} TrimSlashesShape(s: string)
    ensures !TrailingSlash(TrimSlashes(s)) && TrimSlashes(s) <= s
    ensures !TrailingSlash(s) ==> TrimSlashes(s) == s
    ensures forall i :: |TrimSlashes(s)| <= i < |s| ==> s[i] == '/'
  {
    if TrailingSlash(s) {
      TrimSlashesShape(s[..|s| - 1]);
    }
  }

  /** Joining in two parts. */
  lemma {:induction false} JoinAcross(a: seq<string>, b: seq<string>)
    requires |a| >= 1 && |b| >= 1
    ensures Join(a + b, "/") == Join(a, "/") + "/" + Join(b, "/")
  {
    var n := |b| - 1;
    assert (a + b)[..|a + b| - 1] == a + b[..n];
    if n > 0 {
      JoinAcross(a, b[..n]);
    } else {
      assert a + b[..n] == a;
    }
  }

  /** Element prefixes are string prefixes that stop at a separator or at the end. */
  lemma ElementPrefixIsStringPrefix(prefix: string, path: string)
    ensures ElementPrefix(prefix, path) <==> path == prefix || HasPrefix(path, prefix + "/")
  {
    if HasPrefix(path, prefix + "/") {
      var rest := path[|prefix| + 1..];
      assert path == prefix + ['/'] + rest;
      SplitAcross(prefix, rest, '/');
    }
    if ElementPrefix(prefix, path) {
      ElementsToString(prefix, path);
    }
  }

  lemma ElementsToString(prefix: string, path: string)
    requires ElementPrefix(prefix, path)
    ensures path == prefix || HasPrefix(path, prefix + "/")
  {
    var a := Elements(prefix);
    var b := Elements(path)[|a|..];
    JoinSplit(prefix, '/');
    JoinSplit(path, '/');
    assert Elements(path) == a + b;
    if b == [] {
      assert Elements(path) == a;
    } else {
      JoinAcross(a, b);
    }
  }

  /** For every prefix and path: the test is the element-wise match of the prefix without its
      trailing slashes, except that a prefix written with a trailing slash rejects the very path
      that lacks it. */
  lemma MatchesIsElementPrefix(prefix: string, path: string)
    ensures Matches(prefix, path) <==>
            ElementPrefix(TrimSlashes(prefix), path) &&
            !((prefix == "" || TrailingSlash(prefix)) && path == TrimSlashes(prefix))
  {
    var trimmed := TrimSlashes(prefix);
    TrimSlashesShape(prefix);
    ElementPrefixIsStringPrefix(trimmed, path);
    if prefix == "" || prefix == "/" {
      assert trimmed == "" && trimmed + "/" == "/";
    } else if TrailingSlash(prefix) {
      assert prefix[|trimmed|] == '/';
      assert prefix[..|trimmed| + 1] == trimmed + "/";
    }
  }

  /** The case the Gateway API reference describes: no trailing slash. */
  lemma PlainPrefixIsElementPrefix(prefix: string, path: string)
    requires prefix != "" && !TrailingSlash(prefix)
    ensures Matches(prefix, path) <==> ElementPrefix(prefix, path)
  {
    MatchesIsElementPrefix(prefix, path);
    TrimSlashesShape(prefix);
  }

  /** `/foo/` does not match `/foo`, although trailing slashes are meant to be ignored. */
  lemma TrailingSlashMisses()
    ensures !Matches("/foo/", "/foo") && ElementPrefix(TrimSlashes("/foo/"), "/foo")
  {
    MatchesIsElementPrefix("/foo/", "/foo");
    assert TrimSlashes("/foo/") == TrimSlashes("/foo") == "/foo";
  }

  /** A path below a path below a prefix is below the prefix, for all prefixes. */
  lemma Transitive(prefix: string, path: string, deeper: string)
    requires Matches(prefix, path) && Matches(path, deeper)
    ensures Matches(prefix, deeper)
  {
    var p, q := TrimSlashes(prefix), TrimSlashes(path);
    TrimSlashesShape(prefix);
    TrimSlashesShape(path);
    if prefix == "" || prefix == "/" {
      assert p == "";
    }
    if path != prefix && deeper != path {
      assert HasPrefix(path, p + "/");
      assert path[..|p| + 1] == p + "/";
      assert path != "" && HasPrefix(deeper, q + "/");
      assert deeper[..|q| + 1] == q + "/";
      assert p != "" ==> path[|p| - 1] == p[|p| - 1] != '/';
      if |q| == |p| {
        assert q == p;
      } else {
        assert deeper[..|p| + 1] == q[..|p| + 1] == path[..|p| + 1];
      }
      assert HasPrefix(deeper, p + "/");
    }
  }
}
