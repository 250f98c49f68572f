/** calicoEntityPortsMatch: include and exclude loops over port candidates. */
module CalicoPorts {

  datatype Candidate = Candidate(number: int, name: string)

  /** The value under a `ports` or `notPorts` key. */
  datatype TokenList<T> = Absent | NotAList | Items(items: seq<T>)

  datatype Criteria<T> = NoEntity | Entity(ports: TokenList<T>, notPorts: TokenList<T>)

  /** Some token of the list matches the candidate. */
  ghost predicate Named<T>(list: TokenList<T>, c: Candidate, matches: (T, Candidate) -> bool) {
    list.Items? && exists k :: 0 <= k < |list.items| && matches(list.items[k], c)
  }

  /** The key is there but names no token. */
  predicate NamesNothing<T>(list: TokenList<T>) {
    list.NotAList? || (list.Items? && list.items == [])
  }

  /** One candidate is included and not excluded. */
  ghost predicate Admits<T>(entity: Criteria<T>, c: Candidate, matches: (T, Candidate) -> bool)
    requires entity.Entity?
  {
    (entity.ports.Absent? || Named(entity.ports, c, matches)) && !Named(entity.notPorts, c, matches)
  }

  /** The code's answer on every input. */
  ghost predicate Accepts<T>(entity: Criteria<T>, candidates: seq<Candidate>, matches: (T, Candidate) -> bool) {
    || entity.NoEntity?
    || candidates == []
    || NamesNothing(entity.ports)
    || exists c :: c in candidates && Admits(entity, c, matches)
  }

  /** The include loops: what some token names, each candidate once. */
  method Include<T>(items: seq<T>, candidates: seq<Candidate>, matches: (T, Candidate) -> bool)
    returns (included: seq<Candidate>)
    ensures forall c :: c in included <==> c in candidates && Named(Items(items), c, matches)
    ensures forall i, j :: 0 <= i < j < |included| ==> included[i] != included[j]
  {
    included := [];
    for i := 0 to |items|
      invariant forall c :: c in included <==> c in candidates && Named(Items(items[..i]), c, matches)
      invariant forall k, l :: 0 <= k < l < |included| ==> included[k] != included[l]
    {
      ghost var before := included;
      for j := 0 to |candidates|
        invariant forall c :: c in included <==> c in before || (c in candidates[..j] && matches(items[i], c))
        invariant forall k, l :: 0 <= k < l < |included| ==> included[k] != included[l]
      {
        var port := candidates[j];
        if matches(items[i], port) && port !in included {
          included := included + [port];
        }
      }
      assert candidates[..|candidates|] == candidates;
      forall c ensures Named(Items(items[..i + 1]), c, matches) <==> Named(Items(items[..i]), c, matches) || matches(items[i], c) {
        NamedGrows(items, i, c, matches);
      }
    }
    assert items[..|items|] == items;
  }

  lemma NamedGrows<T>(items: seq<T>, i: nat, c: Candidate, matches: (T, Candidate) -> bool)
    requires i < |items|
    ensures Named(Items(items[..i + 1]), c, matches) <==> Named(Items(items[..i]), c, matches) || matches(items[i], c)
  {
    var longer, shorter := items[..i + 1], items[..i];
    assert longer[i] == items[i];
    if k :| 0 <= k < |shorter| && matches(shorter[k], c) {
      assert longer[k] == shorter[k];
    }
    if k :| 0 <= k < |longer| && matches(longer[k], c) {
      assert k < i ==> shorter[k] == longer[k];
    }
  }

  /** The exclude loops: what no token names. */
  method Exclude<T>(items: seq<T>, candidates: seq<Candidate>, matches: (T, Candidate) -> bool)
    returns (remaining: seq<Candidate>)
    ensures forall c :: c in remaining <==> c in candidates && !Named(Items(items), c, matches)
  {
    remaining := [];
    for j := 0 to |candidates|
      invariant forall c :: c in remaining <==> c in candidates[..j] && !Named(Items(items), c, matches)
    {
      var port := candidates[j];
      var excluded := false;
      for i := 0 to |items|
        invariant !excluded
        invariant forall k :: 0 <= k < i ==> !matches(items[k], port)
      {
        if matches(items[i], port) {
          excluded := true;
          break;
        }
      }
      if !excluded {
        remaining := remaining + [port];
      }
    }
    assert candidates[..|candidates|] == candidates;
  }

  /** calicoEntityPortsMatch. */
  method EntityPortsMatch<T>(entity: Criteria<T>, ports: seq<Candidate>, matches: (T, Candidate) -> bool)
    returns (ok: bool)
    ensures ok <==> Accepts(entity, ports, matches)
  {
    if entity.NoEntity? {
      return true;
    }
    if |ports| == 0 {
      return true;
    }
    var candidates := ports;
    assert ports[0] in ports;
    if !entity.ports.Absent? {
      if entity.ports.NotAList? || |entity.ports.items| == 0 {
        return |candidates| > 0;
      }
      var included := Include(entity.ports.items, candidates, matches);
      if |included| == 0 {
        return false;
      }
      candidates := included;
    }
    assert forall c :: c in candidates <==> c in ports && (entity.ports.Absent? || Named(entity.ports, c, matches));
    if entity.notPorts.Items? {
      var remaining := Exclude(entity.notPorts.items, candidates, matches);
      candidates := remaining;
      if |candidates| == 0 {
        return false;
      }
    }
    assert candidates[0] in candidates;
    return |candidates| > 0;
  }

  /** With candidates, and `ports` absent or naming something, the answer is: some one candidate is
      named by `ports` (or `ports` is absent) and by no token of `notPorts`. */
  lemma AcceptsIsOneCandidate<T>(entity: Criteria<T>, candidates: seq<Candidate>, matches: (T, Candidate) -> bool)
    requires entity.Entity? && candidates != [] && !NamesNothing(entity.ports)
    ensures Accepts(entity, candidates, matches) <==> exists c :: c in candidates && Admits(entity, c, matches)
  {
  }

  /** A `ports` key that names nothing switches `notPorts` off: the answer differs from the
      one-candidate reading exactly when every candidate is excluded. */
  lemma EmptyPortsIgnoresNotPorts<T>(entity: Criteria<T>, candidates: seq<Candidate>, matches: (T, Candidate) -> bool)
    requires entity.Entity? && candidates != [] && NamesNothing(entity.ports)
    ensures (Accepts(entity, candidates, matches) <==>
             exists c :: c in candidates && Admits(entity.(ports := Absent), c, matches)) <==>
            !(forall c :: c in candidates ==> Named(entity.notPorts, c, matches))
  {
    if c :| c in candidates && !Named(entity.notPorts, c, matches) {
      assert Admits(entity.(ports := Absent), c, matches);
    }
  }

  /** An empty `ports` list next to a `notPorts` token that excludes the only candidate: accepted. */
  lemma EmptyPortsExample(c: Candidate)
    ensures var excluding := Entity(Items([]), Items([c.number]));
            var matches := (token: int, candidate: Candidate) => token == candidate.number;
            && Accepts(excluding, [c], matches)
            && !Accepts(excluding.(ports := Absent), [c], matches)
  {
    assert [c.number][0] == c.number;
  }

  /** More candidates never turn accept into reject. */
  lemma MoreCandidates<T>(entity: Criteria<T>, few: seq<Candidate>, many: seq<Candidate>, matches: (T, Candidate) -> bool)
    requires few != [] && forall c :: c in few ==> c in many
    requires Accepts(entity, few, matches)
    ensures Accepts(entity, many, matches)
  {
  }

  /** Without candidates, and without an entity, there is nothing to exclude: accepted. */
  lemma NothingToCheck<T>(entity: Criteria<T>, candidates: seq<Candidate>, matches: (T, Candidate) -> bool)
    ensures candidates == [] ==> Accepts(entity, candidates, matches)
    ensures entity == NoEntity ==> Accepts(entity, candidates, matches)
  {
  }
}
