/** The deny-overrides verdicts of internal/policy/cilium/analyze.go, computed from accumulators over
    nested loops, and how they react to adding, removing and reordering rules. */
module CiliumPolicy {
  import opened Text

  // ----- Ports -----------------------------------------------------------------------------

  /** The text of a port field: empty, a number (with an optional end port), or a name. */
  datatype Port = AnyPort | Number(start: int, end: int) | Name(name: string)

  datatype PortProtocol = PortProtocol(protocol: string, port: Port)

  /** One toPorts entry; `l7` says that it carries HTTP, Kafka, DNS, SNI, TLS or listener rules. */
  datatype PortRule = PortRule(ports: seq<PortProtocol>, l7: bool)

  datatype Candidate = Candidate(number: int, name: string, protocol: string)

  /** ciliumCandidateProtocolMatches. */
  predicate ProtocolMatches(ruleProtocol: string, c: Candidate) {
    ruleProtocol == "" || ruleProtocol == "ANY" ||
    ruleProtocol == DefaultString(ToUpper(c.protocol), "TCP")
  }

  predicate CandidateMatches(p: PortProtocol, c: Candidate) {
    ProtocolMatches(ToUpper(p.protocol), c) &&
    match p.port
    case AnyPort => true
    case Number(start, end) =>
      0 < start <= 65535 && (start == c.number || (end > 0 && start <= c.number <= end))
    case Name(name) => c.name != "" && c.name == name
  }

  /** One port entry against the tested ports; an empty port matches whatever the protocol says. */
  ghost predicate PortMatches(p: PortProtocol, ports: seq<Candidate>) {
    p.port.AnyPort? || exists c :: c in ports && CandidateMatches(p, c)
  }

  ghost predicate RuleAdmits(rule: PortRule, ports: seq<Candidate>) {
    rule.ports == [] || exists p :: p in rule.ports && PortMatches(p, ports)
  }

  ghost predicate PortsMatch(rules: seq<PortRule>, ports: seq<Candidate>) {
    rules == [] || ports == [] || exists rule :: rule in rules && RuleAdmits(rule, ports)
  }

  /** ciliumPortProtocolMatches. */
  method CheckPort(p: PortProtocol, ports: seq<Candidate>) returns (ok: bool)
    ensures ok <==> PortMatches(p, ports)
  {
    if p.port.AnyPort? {
      return true;
    }
    if p.port.Number? && !(0 < p.port.start <= 65535) {
      return false;
    }
    for k := 0 to |ports|
      invariant forall j :: 0 <= j < k ==> !CandidateMatches(p, ports[j])
    {
      if CandidateMatches(p, ports[k]) {
        return true;
      }
    }
    return false;
  }

  /** ciliumPortsMatch and ciliumDenyPortsMatch, which differ in the type of their rules only. */
  method CheckPorts(rules: seq<PortRule>, ports: seq<Candidate>) returns (ok: bool)
    ensures ok <==> PortsMatch(rules, ports)
  {
    if |rules| == 0 || |ports| == 0 {
      return true;
    }
    for i := 0 to |rules|
      invariant forall k :: 0 <= k < i ==> !RuleAdmits(rules[k], ports)
    {
      var rule := rules[i];
      if |rule.ports| == 0 {
        assert RuleAdmits(rule, ports);
        return true;
      }
      for j := 0 to |rule.ports|
        invariant forall k :: 0 <= k < j ==> !PortMatches(rule.ports[k], ports)
      {
        var ok' := CheckPort(rule.ports[j], ports);
        if ok' {
          assert RuleAdmits(rule, ports);
          return true;
        }
      }
    }
    return false;
  }

  predicate HasL7(rules: seq<PortRule>) {
    exists rule :: rule in rules && rule.l7
  }

  predicate UsesNamedPorts(rules: seq<PortRule>) {
    exists rule :: rule in rules && exists p :: p in rule.ports && p.port.Name?
  }

  // ----- Rules and what their entries amount to --------------------------------------------

  /** The outcome of the peer criteria of an entry; for ingress only Matched and Missed occur. */
  datatype Peer = Matched | MatchedByCIDR | MissedServiceSelector | Missed

  predicate PeerOK(peer: Peer) {
    peer == Matched || peer == MatchedByCIDR
  }

  datatype Entry = Entry(peer: Peer, toPorts: seq<PortRule>)

  /** `selects`: the endpoint selector selects the pod on this side of the path. */
  datatype Rule = NoRule | Rule(name: string, selects: bool, denies: seq<Entry>, allows: seq<Entry>)

  datatype Direction = Egress | Ingress

  datatype DenyKind = Blocks | MayBlock | NoDeny
  datatype AllowKind = Plain | L7Limited | Unclear | NoAllow

  ghost function KindOfDeny(dir: Direction, e: Entry, ports: seq<Candidate>): DenyKind {
    if !PeerOK(e.peer) || !PortsMatch(e.toPorts, ports) then NoDeny
    else if dir == Egress && e.peer == MatchedByCIDR then MayBlock
    else Blocks
  }

  ghost function KindOfAllow(dir: Direction, e: Entry, ports: seq<Candidate>): AllowKind {
    if !PortsMatch(e.toPorts, ports) then NoAllow
    else if PeerOK(e.peer) then
      if dir == Egress && e.peer == MatchedByCIDR then Unclear
      else if HasL7(e.toPorts) then L7Limited
      else if UsesNamedPorts(e.toPorts) then (if dir == Egress then Unclear else NoAllow)
      else Plain
    else if dir == Egress && e.peer == MissedServiceSelector then Unclear
    else NoAllow
  }

  datatype Status = PASS | WARN | FAIL

  function Rank(s: Status): int {
    match s
    case FAIL => 0
    case WARN => 1
    case PASS => 2
  }

  /** The verdict, from the kinds of entries present in the selecting rules. */
  function StatusOf(denies: set<DenyKind>, allows: set<AllowKind>): Status {
    if Blocks in denies then FAIL
    else if denies == {} && allows == {} then PASS
    else if MayBlock in denies then WARN
    else if Plain in allows then PASS
    else if L7Limited in allows || Unclear in allows then WARN
    else FAIL
  }

  ghost predicate AnyDeny(dir: Direction, entries: seq<Entry>, ports: seq<Candidate>, k: DenyKind) {
    exists e :: e in entries && KindOfDeny(dir, e, ports) == k
  }

  ghost predicate AnyAllow(dir: Direction, entries: seq<Entry>, ports: seq<Candidate>, k: AllowKind) {
    exists e :: e in entries && KindOfAllow(dir, e, ports) == k
  }

  function DeniesOf(r: Rule): seq<Entry> {
    if r.Rule? && r.selects then r.denies else []
  }

  function AllowsOf(r: Rule): seq<Entry> {
    if r.Rule? && r.selects then r.allows else []
  }

  /** Some entry of kind `k` in a selecting rule. */
  ghost predicate HasDeny(dir: Direction, rules: seq<Rule>, ports: seq<Candidate>, k: DenyKind) {
    exists r :: r in rules && AnyDeny(dir, DeniesOf(r), ports, k)
  }

  ghost predicate HasAllow(dir: Direction, rules: seq<Rule>, ports: seq<Candidate>, k: AllowKind) {
    exists r :: r in rules && AnyAllow(dir, AllowsOf(r), ports, k)
  }

  ghost function DenyKinds(dir: Direction, rules: seq<Rule>, ports: seq<Candidate>): set<DenyKind> {
    set k: DenyKind | HasDeny(dir, rules, ports, k)
  }

  ghost function AllowKinds(dir: Direction, rules: seq<Rule>, ports: seq<Candidate>): set<AllowKind> {
    set k: AllowKind | HasAllow(dir, rules, ports, k)
  }

  ghost function Verdict(dir: Direction, rules: seq<Rule>, ports: seq<Candidate>): Status {
    StatusOf(DenyKinds(dir, rules, ports), AllowKinds(dir, rules, ports))
  }

  ghost predicate SomeEntrySelects(rules: seq<Rule>) {
    exists r :: r in rules && (DeniesOf(r) != [] || AllowsOf(r) != [])
  }

  lemma OneMoreEntry(dir: Direction, entries: seq<Entry>, e: Entry, ports: seq<Candidate>)
    ensures forall k :: AnyDeny(dir, entries + [e], ports, k) <==> AnyDeny(dir, entries, ports, k) || KindOfDeny(dir, e, ports) == k
    ensures forall k :: AnyAllow(dir, entries + [e], ports, k) <==> AnyAllow(dir, entries, ports, k) || KindOfAllow(dir, e, ports) == k
  {
    assert forall x :: x in entries + [e] <==> x in entries || x == e;
  }

  lemma OneMoreRule(dir: Direction, rules: seq<Rule>, r: Rule, ports: seq<Candidate>)
    ensures forall k :: HasDeny(dir, rules + [r], ports, k) <==> HasDeny(dir, rules, ports, k) || AnyDeny(dir, DeniesOf(r), ports, k)
    ensures forall k :: HasAllow(dir, rules + [r], ports, k) <==> HasAllow(dir, rules, ports, k) || AnyAllow(dir, AllowsOf(r), ports, k)
    ensures SomeEntrySelects(rules + [r]) <==> SomeEntrySelects(rules) || DeniesOf(r) != [] || AllowsOf(r) != []
  {
    assert forall x :: x in rules + [r] <==> x in rules || x == r;
  }

  // ----- The programs ----------------------------------------------------------------------

  datatype Ref = Ref(policy: string, number: nat)

  /** The accumulators of the decision functions. */
  datatype Findings = Findings(selecting: seq<string>, denies: seq<Ref>, ambiguousDenies: seq<Ref>,
                               allows: seq<Ref>, l7Allows: seq<Ref>, ambiguousAllows: seq<Ref>)

  /** What the accumulators say about the rules seen so far. */
  ghost predicate Reflects(f: Findings, dir: Direction, rules: seq<Rule>, ports: seq<Candidate>) {
    && (f.selecting != [] <==> SomeEntrySelects(rules))
    && (f.denies != [] <==> HasDeny(dir, rules, ports, Blocks))
    && (f.ambiguousDenies != [] <==> HasDeny(dir, rules, ports, MayBlock))
    && (f.allows != [] <==> HasAllow(dir, rules, ports, Plain))
    && (f.l7Allows != [] <==> HasAllow(dir, rules, ports, L7Limited))
    && (f.ambiguousAllows != [] <==> HasAllow(dir, rules, ports, Unclear))
  }

  /** The loop over the deny entries of a selecting rule. */
  method ScanDenies(dir: Direction, name: string, entries: seq<Entry>, ports: seq<Candidate>, start: Findings)
    returns (f: Findings)
    ensures f == start.(denies := f.denies, ambiguousDenies := f.ambiguousDenies)
    ensures f.denies != [] <==> start.denies != [] || AnyDeny(dir, entries, ports, Blocks)
    ensures f.ambiguousDenies != [] <==> start.ambiguousDenies != [] || AnyDeny(dir, entries, ports, MayBlock)
  {
    f := start;
    for index := 0 to |entries|
      invariant f == start.(denies := f.denies, ambiguousDenies := f.ambiguousDenies)
      invariant f.denies != [] <==> start.denies != [] || AnyDeny(dir, entries[..index], ports, Blocks)
      invariant f.ambiguousDenies != [] <==> start.ambiguousDenies != [] || AnyDeny(dir, entries[..index], ports, MayBlock)
    {
      var deny := entries[index];
      assert entries[..index + 1] == entries[..index] + [deny];
      OneMoreEntry(dir, entries[..index], deny, ports);
      if PeerOK(deny.peer) {
        var portOK := CheckPorts(deny.toPorts, ports);
        if portOK {
          if dir == Egress && deny.peer == MatchedByCIDR {
            f := f.(ambiguousDenies := f.ambiguousDenies + [Ref(name, index + 1)]);
          } else {
            f := f.(denies := f.denies + [Ref(name, index + 1)]);
          }
        }
      }
    }
    assert entries[..|entries|] == entries;
  }

  /** The loop over the allow entries of a selecting rule. */
  method ScanAllows(dir: Direction, name: string, entries: seq<Entry>, ports: seq<Candidate>, start: Findings)
    returns (f: Findings)
    ensures f == start.(allows := f.allows, l7Allows := f.l7Allows, ambiguousAllows := f.ambiguousAllows)
    ensures f.allows != [] <==> start.allows != [] || AnyAllow(dir, entries, ports, Plain)
    ensures f.l7Allows != [] <==> start.l7Allows != [] || AnyAllow(dir, entries, ports, L7Limited)
    ensures f.ambiguousAllows != [] <==> start.ambiguousAllows != [] || AnyAllow(dir, entries, ports, Unclear)
  {
    f := start;
    for index := 0 to |entries|
      invariant f == start.(allows := f.allows, l7Allows := f.l7Allows, ambiguousAllows := f.ambiguousAllows)
      invariant f.allows != [] <==> start.allows != [] || AnyAllow(dir, entries[..index], ports, Plain)
      invariant f.l7Allows != [] <==> start.l7Allows != [] || AnyAllow(dir, entries[..index], ports, L7Limited)
      invariant f.ambiguousAllows != [] <==> start.ambiguousAllows != [] || AnyAllow(dir, entries[..index], ports, Unclear)
    {
      var allow := entries[index];
      assert entries[..index + 1] == entries[..index] + [allow];
      OneMoreEntry(dir, entries[..index], allow, ports);
      var here := Ref(name, index + 1);
      var peerOK := PeerOK(allow.peer);
      var portOK := CheckPorts(allow.toPorts, ports);
      if peerOK && portOK {
        if dir == Egress && allow.peer == MatchedByCIDR {
          f := f.(ambiguousAllows := f.ambiguousAllows + [here]);
        } else if HasL7(allow.toPorts) {
          f := f.(l7Allows := f.l7Allows + [here]);
        } else if UsesNamedPorts(allow.toPorts) {
          if dir == Egress {
            f := f.(ambiguousAllows := f.ambiguousAllows + [here]);
          }
        } else {
          f := f.(allows := f.allows + [here]);
        }
      } else if dir == Egress && !peerOK && portOK && allow.peer == MissedServiceSelector {
        f := f.(ambiguousAllows := f.ambiguousAllows + [here]);
      }
    }
    assert entries[..|entries|] == entries;
  }

  /** What one rule adds to the accumulators. */
  ghost predicate Adds(start: Findings, f: Findings, dir: Direction, r: Rule, ports: seq<Candidate>) {
    && (f.selecting != [] <==> start.selecting != [] || DeniesOf(r) != [] || AllowsOf(r) != [])
    && (f.denies != [] <==> start.denies != [] || AnyDeny(dir, DeniesOf(r), ports, Blocks))
    && (f.ambiguousDenies != [] <==> start.ambiguousDenies != [] || AnyDeny(dir, DeniesOf(r), ports, MayBlock))
    && (f.allows != [] <==> start.allows != [] || AnyAllow(dir, AllowsOf(r), ports, Plain))
    && (f.l7Allows != [] <==> start.l7Allows != [] || AnyAllow(dir, AllowsOf(r), ports, L7Limited))
    && (f.ambiguousAllows != [] <==> start.ambiguousAllows != [] || AnyAllow(dir, AllowsOf(r), ports, Unclear))
  }

  lemma ReflectsOneMore(start: Findings, f: Findings, dir: Direction, seen: seq<Rule>, r: Rule, ports: seq<Candidate>)
    requires Reflects(start, dir, seen, ports) && Adds(start, f, dir, r, ports)
    ensures Reflects(f, dir, seen + [r], ports)
  {
    OneMoreRule(dir, seen, r, ports);
  }

  /** One pass of the outer loop. */
  method ScanRule(dir: Direction, rule: Rule, ports: seq<Candidate>, start: Findings) returns (f: Findings)
    ensures Adds(start, f, dir, rule, ports)
  {
    f := start;
    if rule.NoRule? || !rule.selects {
      return;
    }
    if |rule.denies| > 0 {
      f := f.(selecting := f.selecting + [rule.name]);
      f := ScanDenies(dir, rule.name, rule.denies, ports, f);
    }
    if |rule.allows| > 0 {
      f := f.(selecting := f.selecting + [rule.name]);
      f := ScanAllows(dir, rule.name, rule.allows, ports, f);
    }
  }

  /** ciliumEgressDecision and ciliumIngressDecision. */
  method Decision(dir: Direction, rules: seq<Rule>, ports: seq<Candidate>) returns (status: Status)
    ensures status == Verdict(dir, rules, ports)
  {
    var f := Findings([], [], [], [], [], []);
    for i := 0 to |rules|
      invariant Reflects(f, dir, rules[..i], ports)
    {
      assert rules[..i + 1] == rules[..i] + [rules[i]];
      var f' := ScanRule(dir, rules[i], ports, f);
      ReflectsOneMore(f, f', dir, rules[..i], rules[i], ports);
      f := f';
    }
    assert rules[..|rules|] == rules;
    EveryEntryHasAKind(dir, rules, ports);
    if |f.denies| > 0 {
      return FAIL;
    }
    if |f.selecting| == 0 {
      return PASS;
    }
    if |f.ambiguousDenies| > 0 {
      return WARN;
    }
    if |f.allows| > 0 {
      return PASS;
    }
    if |f.l7Allows| > 0 {
      return WARN;
    }
    if |f.ambiguousAllows| > 0 {
      return WARN;
    }
    return FAIL;
  }

  lemma EveryEntryHasAKind(dir: Direction, rules: seq<Rule>, ports: seq<Candidate>)
    ensures DenyKinds(dir, rules, ports) == {} && AllowKinds(dir, rules, ports) == {} <==>
            !SomeEntrySelects(rules)
  {
    forall r | r in rules && DeniesOf(r) != []
      ensures DenyKinds(dir, rules, ports) != {}
    {
      assert DeniesOf(r)[0] in DeniesOf(r);
      assert KindOfDeny(dir, DeniesOf(r)[0], ports) in DenyKinds(dir, rules, ports);
    }
    forall r | r in rules && AllowsOf(r) != []
      ensures AllowKinds(dir, rules, ports) != {}
    {
      assert AllowsOf(r)[0] in AllowsOf(r);
      assert KindOfAllow(dir, AllowsOf(r)[0], ports) in AllowKinds(dir, rules, ports);
    }
    if k :| k in DenyKinds(dir, rules, ports) {
      var r :| r in rules && AnyDeny(dir, DeniesOf(r), ports, k);
      assert DeniesOf(r) != [];
    }
    if k :| k in AllowKinds(dir, rules, ports) {
      var r :| r in rules && AnyAllow(dir, AllowsOf(r), ports, k);
      assert AllowsOf(r) != [];
    }
  }

  // ----- Order is irrelevant ---------------------------------------------------------------

  /** Same rule, with its entries in another order. */
  ghost predicate Reordered(a: Rule, b: Rule) {
    multiset(DeniesOf(a)) == multiset(DeniesOf(b)) && multiset(AllowsOf(a)) == multiset(AllowsOf(b))
  }

  lemma SameMembers<T>(a: seq<T>, b: seq<T>)
    requires multiset(a) == multiset(b)
    ensures forall x :: x in a <==> x in b
  {
    forall x ensures x in a <==> x in b {
      assert x in a <==> x in multiset(a);
      assert x in b <==> x in multiset(b);
    }
  }

  /** Main result: the verdict does not depend on the order of the rules, nor on the order of the
      entries inside them. */
  lemma VerdictIgnoresOrder(dir: Direction, a: seq<Rule>, b: seq<Rule>, c: seq<Rule>, ports: seq<Candidate>)
    requires multiset(a) == multiset(b)
    requires |b| == |c| && forall i :: 0 <= i < |b| ==> Reordered(b[i], c[i])
    ensures Verdict(dir, a, ports) == Verdict(dir, c, ports)
  {
    SameMembers(a, b);
    forall k: DenyKind ensures HasDeny(dir, b, ports, k) <==> HasDeny(dir, c, ports, k) {
      ReorderedDenies(dir, b, c, ports, k);
      ReorderedDenies(dir, c, b, ports, k);
    }
    forall k: AllowKind ensures HasAllow(dir, b, ports, k) <==> HasAllow(dir, c, ports, k) {
      ReorderedAllows(dir, b, c, ports, k);
      ReorderedAllows(dir, c, b, ports, k);
    }
    assert DenyKinds(dir, a, ports) == DenyKinds(dir, b, ports) == DenyKinds(dir, c, ports);
    assert AllowKinds(dir, a, ports) == AllowKinds(dir, b, ports) == AllowKinds(dir, c, ports);
  }

  lemma ReorderedDenies(dir: Direction, b: seq<Rule>, c: seq<Rule>, ports: seq<Candidate>, k: DenyKind)
    requires |b| == |c| && forall i :: 0 <= i < |b| ==> Reordered(b[i], c[i])
    ensures HasDeny(dir, b, ports, k) ==> HasDeny(dir, c, ports, k)
  {
    if HasDeny(dir, b, ports, k) {
      var i :| 0 <= i < |b| && AnyDeny(dir, DeniesOf(b[i]), ports, k);
      SameMembers(DeniesOf(b[i]), DeniesOf(c[i]));
      assert AnyDeny(dir, DeniesOf(c[i]), ports, k);
    }
  }

  lemma ReorderedAllows(dir: Direction, b: seq<Rule>, c: seq<Rule>, ports: seq<Candidate>, k: AllowKind)
    requires |b| == |c| && forall i :: 0 <= i < |b| ==> Reordered(b[i], c[i])
    ensures HasAllow(dir, b, ports, k) ==> HasAllow(dir, c, ports, k)
  {
    if HasAllow(dir, b, ports, k) {
      var i :| 0 <= i < |b| && AnyAllow(dir, AllowsOf(b[i]), ports, k);
      SameMembers(AllowsOf(b[i]), AllowsOf(c[i]));
      assert AnyAllow(dir, AllowsOf(c[i]), ports, k);
    }
  }

  // ----- Adding entries --------------------------------------------------------------------

  /** `more` is `rules` with the deny entry `e` inserted into the selecting rule `i` at position `at`. */
  ghost predicate DenyAdded(rules: seq<Rule>, more: seq<Rule>, i: nat, at: nat, e: Entry) {
    && i < |rules| && rules[i].Rule? && rules[i].selects && at <= |rules[i].denies|
    && more == rules[i := rules[i].(denies := rules[i].denies[..at] + [e] + rules[i].denies[at..])]
  }

  ghost predicate AllowAdded(rules: seq<Rule>, more: seq<Rule>, i: nat, at: nat, e: Entry) {
    && i < |rules| && rules[i].Rule? && rules[i].selects && at <= |rules[i].allows|
    && more == rules[i := rules[i].(allows := rules[i].allows[..at] + [e] + rules[i].allows[at..])]
  }

  lemma InsertMembers<T>(s: seq<T>, at: nat, x: T)
    requires at <= |s|
    ensures forall y :: y in s[..at] + [x] + s[at..] <==> y in s || y == x
  {
    assert s == s[..at] + s[at..];
  }

  lemma DenyAddedKinds(dir: Direction, rules: seq<Rule>, more: seq<Rule>, i: nat, at: nat, e: Entry, ports: seq<Candidate>)
    requires DenyAdded(rules, more, i, at, e)
    ensures DenyKinds(dir, more, ports) == DenyKinds(dir, rules, ports) + {KindOfDeny(dir, e, ports)}
    ensures AllowKinds(dir, more, ports) == AllowKinds(dir, rules, ports)
  {
    InsertMembers(rules[i].denies, at, e);
    forall k: DenyKind ensures HasDeny(dir, more, ports, k) <==> HasDeny(dir, rules, ports, k) || k == KindOfDeny(dir, e, ports) {
      if j :| 0 <= j < |rules| && AnyDeny(dir, DeniesOf(rules[j]), ports, k) {
        assert more[j] in more && AnyDeny(dir, DeniesOf(more[j]), ports, k);
      }
      if k == KindOfDeny(dir, e, ports) {
        assert more[i] in more && e in DeniesOf(more[i]);
      }
      if j :| 0 <= j < |more| && AnyDeny(dir, DeniesOf(more[j]), ports, k) {
        assert rules[j] in rules;
        var x :| x in DeniesOf(more[j]) && KindOfDeny(dir, x, ports) == k;
        assert x in DeniesOf(rules[j]) || x == e;
      }
    }
    forall k: AllowKind ensures HasAllow(dir, more, ports, k) <==> HasAllow(dir, rules, ports, k) {
      assert forall j :: 0 <= j < |rules| ==> AllowsOf(more[j]) == AllowsOf(rules[j]);
      if j :| 0 <= j < |rules| && AnyAllow(dir, AllowsOf(rules[j]), ports, k) {
        assert more[j] in more;
      }
      if j :| 0 <= j < |more| && AnyAllow(dir, AllowsOf(more[j]), ports, k) {
        assert rules[j] in rules;
      }
    }
  }

  lemma AllowAddedKinds(dir: Direction, rules: seq<Rule>, more: seq<Rule>, i: nat, at: nat, e: Entry, ports: seq<Candidate>)
    requires AllowAdded(rules, more, i, at, e)
    ensures AllowKinds(dir, more, ports) == AllowKinds(dir, rules, ports) + {KindOfAllow(dir, e, ports)}
    ensures DenyKinds(dir, more, ports) == DenyKinds(dir, rules, ports)
  {
    InsertMembers(rules[i].allows, at, e);
    forall k: AllowKind ensures HasAllow(dir, more, ports, k) <==> HasAllow(dir, rules, ports, k) || k == KindOfAllow(dir, e, ports) {
      if j :| 0 <= j < |rules| && AnyAllow(dir, AllowsOf(rules[j]), ports, k) {
        assert more[j] in more && AnyAllow(dir, AllowsOf(more[j]), ports, k);
      }
      if k == KindOfAllow(dir, e, ports) {
        assert more[i] in more && e in AllowsOf(more[i]);
      }
      if j :| 0 <= j < |more| && AnyAllow(dir, AllowsOf(more[j]), ports, k) {
        assert rules[j] in rules;
        var x :| x in AllowsOf(more[j]) && KindOfAllow(dir, x, ports) == k;
        assert x in AllowsOf(rules[j]) || x == e;
      }
    }
    forall k: DenyKind ensures HasDeny(dir, more, ports, k) <==> HasDeny(dir, rules, ports, k) {
      assert forall j :: 0 <= j < |rules| ==> DeniesOf(more[j]) == DeniesOf(rules[j]);
      if j :| 0 <= j < |rules| && AnyDeny(dir, DeniesOf(rules[j]), ports, k) {
        assert more[j] in more;
      }
      if j :| 0 <= j < |more| && AnyDeny(dir, DeniesOf(more[j]), ports, k) {
        assert rules[j] in rules;
      }
    }
  }

  /** Main result: a matching deny that is not by CIDR only forces FAIL, whatever else there is. */
  lemma DenyOverrides(dir: Direction, rules: seq<Rule>, ports: seq<Candidate>, r: Rule, e: Entry)
    requires r in rules && e in DeniesOf(r)
    requires e.peer == Matched || (dir == Ingress && PeerOK(e.peer))
    requires PortsMatch(e.toPorts, ports)
    ensures Verdict(dir, rules, ports) == FAIL
  {
    assert AnyDeny(dir, DeniesOf(r), ports, Blocks);
  }

  /** Main result: adding an allow lowers the verdict exactly when nothing selected the pod before and
      the new entry does not plainly allow the path. */
  lemma AddingAllow(dir: Direction, rules: seq<Rule>, more: seq<Rule>, i: nat, at: nat, e: Entry, ports: seq<Candidate>)
    requires AllowAdded(rules, more, i, at, e)
    ensures Rank(Verdict(dir, more, ports)) < Rank(Verdict(dir, rules, ports)) <==>
            !SomeEntrySelects(rules) && KindOfAllow(dir, e, ports) != Plain
  {
    AllowAddedKinds(dir, rules, more, i, at, e, ports);
    EveryEntryHasAKind(dir, rules, ports);
    AllowKindAdded(DenyKinds(dir, rules, ports), AllowKinds(dir, rules, ports), KindOfAllow(dir, e, ports));
  }

  lemma AllowKindAdded(denies: set<DenyKind>, allows: set<AllowKind>, k: AllowKind)
    ensures Rank(StatusOf(denies, allows + {k})) < Rank(StatusOf(denies, allows)) <==>
            denies == {} && allows == {} && k != Plain
  {
  }

  /** Some entry selects the pod, and none of them denies or allows anything, not even by CIDR or behind
      further conditions: only the default deny is left. */
  ghost predicate OnlyDefaultDeny(dir: Direction, rules: seq<Rule>, ports: seq<Candidate>) {
    && SomeEntrySelects(rules)
    && (forall k :: HasDeny(dir, rules, ports, k) ==> k == NoDeny)
    && (forall k :: HasAllow(dir, rules, ports, k) ==> k == NoAllow)
  }

  /** Main result: adding a deny raises the verdict exactly when the deny matches by CIDR only (egress)
      and the path was blocked by the default deny alone, which turns into a warning. */
  lemma AddingDeny(dir: Direction, rules: seq<Rule>, more: seq<Rule>, i: nat, at: nat, e: Entry, ports: seq<Candidate>)
    requires DenyAdded(rules, more, i, at, e)
    ensures Rank(Verdict(dir, more, ports)) > Rank(Verdict(dir, rules, ports)) <==>
            KindOfDeny(dir, e, ports) == MayBlock && OnlyDefaultDeny(dir, rules, ports)
  {
    DenyAddedKinds(dir, rules, more, i, at, e, ports);
    EveryEntryHasAKind(dir, rules, ports);
    var denies, allows := DenyKinds(dir, rules, ports), AllowKinds(dir, rules, ports);
    DenyKindAdded(denies, allows, KindOfDeny(dir, e, ports));
    assert forall k: DenyKind :: k in denies <==> HasDeny(dir, rules, ports, k);
    assert forall k: AllowKind :: k in allows <==> HasAllow(dir, rules, ports, k);
  }

  lemma DenyKindAdded(denies: set<DenyKind>, allows: set<AllowKind>, k: DenyKind)
    ensures Rank(StatusOf(denies + {k}, allows)) > Rank(StatusOf(denies, allows)) <==>
            && k == MayBlock && !(denies == {} && allows == {})
            && (forall d :: d in denies ==> d == NoDeny) && (forall a :: a in allows ==> a == NoAllow)
  {
    assert forall d :: d in denies ==> d == Blocks || d == MayBlock || d == NoDeny;
    assert forall a :: a in allows ==> a == Plain || a == L7Limited || a == Unclear || a == NoAllow;
  }

  /** An egress rule allows another peer; adding a deny whose CIDR covers the target turns FAIL into WARN. */
  lemma CIDRDenyExample(allow: Entry, deny: Entry)
    requires allow == Entry(Missed, []) && deny == Entry(MatchedByCIDR, [])
    ensures var before, after := [Rule("p", true, [], [allow])], [Rule("p", true, [deny], [allow])];
            && DenyAdded(before, after, 0, 0, deny)
            && Verdict(Egress, before, []) == FAIL && Verdict(Egress, after, []) == WARN
  {
    var r, s := Rule("p", true, [], [allow]), Rule("p", true, [deny], [allow]);
    OneRule(r);
    OneRule(s);
    assert AnyAllow(Egress, AllowsOf(r), [], NoAllow) by {
      assert allow in AllowsOf(r);
    }
    assert AnyDeny(Egress, DeniesOf(s), [], MayBlock) by {
      assert deny in DeniesOf(s);
    }
    assert NoAllow in AllowKinds(Egress, [r], []) && MayBlock in DenyKinds(Egress, [s], []);
    assert [] + [deny] + [] == [deny];
  }

  lemma OneRule(r: Rule)
    ensures forall dir, ports, k :: HasDeny(dir, [r], ports, k) <==> AnyDeny(dir, DeniesOf(r), ports, k)
    ensures forall dir, ports, k :: HasAllow(dir, [r], ports, k) <==> AnyAllow(dir, AllowsOf(r), ports, k)
  {
    assert r in [r];
  }

  /** So for ingress, and for egress peers not matched only by CIDR, a deny never raises it. */
  lemma AddingPlainDenyNeverRaises(dir: Direction, rules: seq<Rule>, more: seq<Rule>, i: nat, at: nat, e: Entry, ports: seq<Candidate>)
    requires DenyAdded(rules, more, i, at, e)
    requires dir == Ingress || e.peer != MatchedByCIDR
    ensures Rank(Verdict(dir, more, ports)) <= Rank(Verdict(dir, rules, ports))
  {
    AddingDeny(dir, rules, more, i, at, e, ports);
  }
}
