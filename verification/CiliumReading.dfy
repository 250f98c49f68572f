/** What the verdicts of ciliumEgressDecision and ciliumIngressDecision mean, read off the entries of the
    selecting rules. */
module CiliumReading {
  import opened Text
  import opened CiliumPolicy

  // ----- Entries ---------------------------------------------------------------------------

  ghost predicate Denies(e: Entry, ports: seq<Candidate>) {
    (e.peer == Matched || e.peer == MatchedByCIDR) && PortsMatch(e.toPorts, ports)
  }

  /** Peer and ports match, and for egress the peer does not match by CIDR only. */
  ghost predicate DeniesSurely(dir: Direction, e: Entry, ports: seq<Candidate>) {
    Denies(e, ports) && (dir == Ingress || e.peer == Matched)
  }

  /** Egress only: the peer matches by CIDR. */
  ghost predicate MayDeny(dir: Direction, e: Entry, ports: seq<Candidate>) {
    Denies(e, ports) && dir == Egress && e.peer == MatchedByCIDR
  }

  /** Peer and ports match, without L7 rules, named ports or (for egress) a CIDR. */
  ghost predicate AllowsPlainly(dir: Direction, e: Entry, ports: seq<Candidate>) {
    && PortsMatch(e.toPorts, ports)
    && (e.peer == Matched || (dir == Ingress && e.peer == MatchedByCIDR))
    && (forall rule :: rule in e.toPorts ==> !rule.l7)
    && (forall rule, p :: rule in e.toPorts && p in rule.ports ==> !p.port.Name?)
  }

  /** The ports match; peer and ports leave a doubt: L7 rules, or for egress named ports, a CIDR or a Service
      selector that does not match. */
  ghost predicate AllowsPerhaps(dir: Direction, e: Entry, ports: seq<Candidate>) {
    && PortsMatch(e.toPorts, ports)
    && (|| (dir == Egress && (e.peer == MatchedByCIDR || e.peer == MissedServiceSelector))
        || ((e.peer == Matched || e.peer == MatchedByCIDR) && exists rule :: rule in e.toPorts && rule.l7)
        || (dir == Egress && e.peer == Matched && exists rule, p :: rule in e.toPorts && p in rule.ports && p.port.Name?))
  }

  // ----- Rules -----------------------------------------------------------------------------

  ghost predicate SomeDeny(rules: seq<Rule>, test: Entry -> bool) {
    exists r, e :: r in rules && r.Rule? && r.selects && e in r.denies && test(e)
  }

  ghost predicate SomeAllow(rules: seq<Rule>, test: Entry -> bool) {
    exists r, e :: r in rules && r.Rule? && r.selects && e in r.allows && test(e)
  }

  ghost predicate Selected(rules: seq<Rule>) {
    exists r :: r in rules && r.Rule? && r.selects && (r.denies != [] || r.allows != [])
  }

  ghost function Sure(dir: Direction, ports: seq<Candidate>): Entry -> bool {
    e => DeniesSurely(dir, e, ports)
  }

  ghost function Maybe(dir: Direction, ports: seq<Candidate>): Entry -> bool {
    e => MayDeny(dir, e, ports)
  }

  ghost function Plainly(dir: Direction, ports: seq<Candidate>): Entry -> bool {
    e => AllowsPlainly(dir, e, ports)
  }

  ghost function Perhaps(dir: Direction, ports: seq<Candidate>): Entry -> bool {
    e => AllowsPerhaps(dir, e, ports)
  }

  lemma DenyKindsRead(dir: Direction, rules: seq<Rule>, ports: seq<Candidate>)
    ensures HasDeny(dir, rules, ports, Blocks) <==> SomeDeny(rules, Sure(dir, ports))
    ensures HasDeny(dir, rules, ports, MayBlock) <==> SomeDeny(rules, Maybe(dir, ports))
  {
    if r, e :| r in rules && r.Rule? && r.selects && e in r.denies && DeniesSurely(dir, e, ports) {
      assert AnyDeny(dir, DeniesOf(r), ports, Blocks);
    }
    if r, e :| r in rules && r.Rule? && r.selects && e in r.denies && MayDeny(dir, e, ports) {
      assert AnyDeny(dir, DeniesOf(r), ports, MayBlock);
    }
    if r :| r in rules && AnyDeny(dir, DeniesOf(r), ports, Blocks) {
      var e :| e in DeniesOf(r) && KindOfDeny(dir, e, ports) == Blocks;
      assert Sure(dir, ports)(e);
    }
    if r :| r in rules && AnyDeny(dir, DeniesOf(r), ports, MayBlock) {
      var e :| e in DeniesOf(r) && KindOfDeny(dir, e, ports) == MayBlock;
      assert Maybe(dir, ports)(e);
    }
  }

  lemma AllowKindReads(dir: Direction, e: Entry, ports: seq<Candidate>)
    ensures AllowsPlainly(dir, e, ports) <==> KindOfAllow(dir, e, ports) == Plain
    ensures AllowsPerhaps(dir, e, ports) <==> KindOfAllow(dir, e, ports) in {L7Limited, Unclear}
  {
  }

  lemma AllowKindsRead(dir: Direction, rules: seq<Rule>, ports: seq<Candidate>)
    ensures HasAllow(dir, rules, ports, Plain) <==> SomeAllow(rules, Plainly(dir, ports))
    ensures HasAllow(dir, rules, ports, L7Limited) || HasAllow(dir, rules, ports, Unclear) <==>
            SomeAllow(rules, Perhaps(dir, ports))
  {
    forall e ensures AllowsPlainly(dir, e, ports) <==> KindOfAllow(dir, e, ports) == Plain
             ensures AllowsPerhaps(dir, e, ports) <==> KindOfAllow(dir, e, ports) in {L7Limited, Unclear} {
      AllowKindReads(dir, e, ports);
    }
    if r, e :| r in rules && r.Rule? && r.selects && e in r.allows && AllowsPlainly(dir, e, ports) {
      assert AnyAllow(dir, AllowsOf(r), ports, Plain);
    }
    if r, e :| r in rules && r.Rule? && r.selects && e in r.allows && AllowsPerhaps(dir, e, ports) {
      assert AnyAllow(dir, AllowsOf(r), ports, KindOfAllow(dir, e, ports));
    }
    forall k: AllowKind | HasAllow(dir, rules, ports, k) && k != NoAllow
      ensures if k == Plain then SomeAllow(rules, Plainly(dir, ports)) else SomeAllow(rules, Perhaps(dir, ports))
    {
      var r :| r in rules && AnyAllow(dir, AllowsOf(r), ports, k);
      var e :| e in AllowsOf(r) && KindOfAllow(dir, e, ports) == k;
      assert if k == Plain then Plainly(dir, ports)(e) else Perhaps(dir, ports)(e);
    }
  }

  lemma SelectedReads(rules: seq<Rule>)
    ensures SomeEntrySelects(rules) <==> Selected(rules)
  {
  }

  /** Main result, over the entries: FAIL for a sure deny, or when entries select the pod and none denies or allows;
      WARN for a doubtful deny, or a doubtful allow without a plain one; PASS for a plain allow, or when nothing
      selects the pod. */
  lemma VerdictReads(dir: Direction, rules: seq<Rule>, ports: seq<Candidate>)
    ensures var sure, maybe := SomeDeny(rules, Sure(dir, ports)), SomeDeny(rules, Maybe(dir, ports));
            var plain, perhaps := SomeAllow(rules, Plainly(dir, ports)), SomeAllow(rules, Perhaps(dir, ports));
            var status := Verdict(dir, rules, ports);
            && (status == FAIL <==> sure || (Selected(rules) && !maybe && !plain && !perhaps))
            && (status == WARN <==> !sure && (maybe || (!plain && perhaps)))
            && (status == PASS <==> !sure && (!Selected(rules) || (!maybe && plain)))
  {
    DenyKindsRead(dir, rules, ports);
    AllowKindsRead(dir, rules, ports);
    SelectedReads(rules);
    EveryEntryHasAKind(dir, rules, ports);
    StatusByKinds(DenyKinds(dir, rules, ports), AllowKinds(dir, rules, ports));
    if SomeDeny(rules, Maybe(dir, ports)) {
      var r, e :| r in rules && r.Rule? && r.selects && e in r.denies && Maybe(dir, ports)(e);
      assert r.denies != [];
    }
    assert forall k: DenyKind :: k in DenyKinds(dir, rules, ports) <==> HasDeny(dir, rules, ports, k);
    assert forall k: AllowKind :: k in AllowKinds(dir, rules, ports) <==> HasAllow(dir, rules, ports, k);
  }

  lemma StatusByKinds(denies: set<DenyKind>, allows: set<AllowKind>)
    ensures var some := denies != {} || allows != {};
            var perhaps := L7Limited in allows || Unclear in allows;
            var status := StatusOf(denies, allows);
            && (status == FAIL <==>
                  Blocks in denies || (some && MayBlock !in denies && Plain !in allows && !perhaps))
            && (status == WARN <==>
                  Blocks !in denies && (MayBlock in denies || (Plain !in allows && perhaps)))
            && (status == PASS <==> Blocks !in denies && (!some || (MayBlock !in denies && Plain in allows)))
  {
  }

  // ----- Entries that miss -----------------------------------------------------------------

  /** Main result: once some entry selects the pod, adding a deny whose peer or ports do not match leaves the
      verdict as it is. */
  lemma MissingDenyIsHarmless(dir: Direction, rules: seq<Rule>, more: seq<Rule>, i: nat, at: nat, e: Entry,
                              ports: seq<Candidate>)
    requires DenyAdded(rules, more, i, at, e) && Selected(rules) && !Denies(e, ports)
    ensures Verdict(dir, more, ports) == Verdict(dir, rules, ports)
  {
    DenyAddedKinds(dir, rules, more, i, at, e, ports);
    SelectedReads(rules);
    EveryEntryHasAKind(dir, rules, ports);
    NoDenyChangesNothing(DenyKinds(dir, rules, ports), AllowKinds(dir, rules, ports));
  }

  lemma NoDenyChangesNothing(denies: set<DenyKind>, allows: set<AllowKind>)
    requires denies != {} || allows != {}
    ensures StatusOf(denies + {NoDeny}, allows) == StatusOf(denies, allows)
  {
  }

  /** And so does an allow that does not match. */
  lemma MissingAllowIsHarmless(dir: Direction, rules: seq<Rule>, more: seq<Rule>, i: nat, at: nat, e: Entry,
                               ports: seq<Candidate>)
    requires AllowAdded(rules, more, i, at, e) && Selected(rules)
    requires !AllowsPlainly(dir, e, ports) && !AllowsPerhaps(dir, e, ports)
    ensures Verdict(dir, more, ports) == Verdict(dir, rules, ports)
  {
    AllowAddedKinds(dir, rules, more, i, at, e, ports);
    AllowKindReads(dir, e, ports);
    SelectedReads(rules);
    EveryEntryHasAKind(dir, rules, ports);
    NoAllowChangesNothing(DenyKinds(dir, rules, ports), AllowKinds(dir, rules, ports));
  }

  lemma NoAllowChangesNothing(denies: set<DenyKind>, allows: set<AllowKind>)
    requires denies != {} || allows != {}
    ensures StatusOf(denies, allows + {NoAllow}) == StatusOf(denies, allows)
  {
  }

  // ----- Literal ports ---------------------------------------------------------------------

  function TCP(port: int): Candidate {
    Candidate(port, "", "TCP")
  }

  function Single(protocol: string, port: Port): seq<PortRule> {
    [PortRule([PortProtocol(protocol, port)], false)]
  }

  lemma SinglePort(protocol: string, port: Port, c: Candidate)
    ensures PortsMatch(Single(protocol, port), [c]) <==> port.AnyPort? || CandidateMatches(PortProtocol(protocol, port), c)
  {
    var p := PortProtocol(protocol, port);
    assert c in [c] && p in [p] && PortRule([p], false) in Single(protocol, port);
  }

  /** Numbers, inclusive ranges, names and protocols. */
  lemma PortExamples()
    ensures PortsMatch(Single("TCP", Number(80, 0)), [TCP(80)]) && !PortsMatch(Single("TCP", Number(443, 0)), [TCP(80)])
    ensures !PortsMatch(Single("UDP", Number(80, 0)), [TCP(80)]) && PortsMatch(Single("any", Number(80, 0)), [TCP(80)])
    ensures PortsMatch(Single("", Number(80, 0)), [TCP(80)])
    ensures PortsMatch(Single("TCP", Number(8000, 8080)), [TCP(8080)])
    ensures PortsMatch(Single("TCP", Number(8000, 8080)), [TCP(8000)])
    ensures !PortsMatch(Single("TCP", Number(8000, 8080)), [TCP(8081)])
    ensures !PortsMatch(Single("TCP", Number(8000, 8080)), [TCP(7999)])
    ensures PortsMatch(Single("UDP", AnyPort), [TCP(80)])
  {
    UpperWords();
    SinglePort("TCP", Number(80, 0), TCP(80));
    SinglePort("TCP", Number(443, 0), TCP(80));
    SinglePort("UDP", Number(80, 0), TCP(80));
    SinglePort("any", Number(80, 0), TCP(80));
    SinglePort("", Number(80, 0), TCP(80));
    SinglePort("TCP", Number(8000, 8080), TCP(8080));
    SinglePort("TCP", Number(8000, 8080), TCP(8000));
    SinglePort("TCP", Number(8000, 8080), TCP(8081));
    SinglePort("TCP", Number(8000, 8080), TCP(7999));
    SinglePort("UDP", AnyPort, TCP(80));
  }

  lemma UpperWords()
    ensures ToUpper("TCP") == "TCP" && ToUpper("UDP") == "UDP" && ToUpper("any") == "ANY" && ToUpper("") == ""
    ensures ToUpper("udp") == "UDP"
  {
  }

  lemma NamedPortExamples()
    ensures PortsMatch(Single("TCP", Name("web")), [Candidate(80, "web", "TCP")])
    ensures !PortsMatch(Single("TCP", Name("web")), [Candidate(80, "api", "TCP")])
    ensures !PortsMatch(Single("TCP", Name("")), [TCP(80)])
    ensures PortsMatch(Single("TCP", Number(80, 0)), [Candidate(80, "", "")])
    ensures !PortsMatch(Single("TCP", Number(80, 0)), [Candidate(80, "", "udp")])
    ensures PortsMatch([], [TCP(80)]) && PortsMatch(Single("TCP", Number(443, 0)), [])
  {
    UpperWords();
    SinglePort("TCP", Name("web"), Candidate(80, "web", "TCP"));
    SinglePort("TCP", Name("web"), Candidate(80, "api", "TCP"));
    SinglePort("TCP", Name(""), TCP(80));
    SinglePort("TCP", Number(80, 0), Candidate(80, "", ""));
    SinglePort("TCP", Number(80, 0), Candidate(80, "", "udp"));
  }

  /** Under one rule, an allow without ports stands beside a deny for other ports. */
  lemma OtherPortsPass(name: string, toPorts: seq<PortRule>, ports: seq<Candidate>)
    requires !PortsMatch(toPorts, ports)
    ensures Verdict(Egress, [Rule(name, true, [Entry(Matched, toPorts)], [Entry(Matched, [])])], ports) == PASS
  {
    var allow := Entry(Matched, []);
    var r := Rule(name, true, [Entry(Matched, toPorts)], [allow]);
    VerdictReads(Egress, [r], ports);
    assert r in [r] && allow in r.allows && Plainly(Egress, ports)(allow);
  }

  /** A deny for port 443 does not block port 80. */
  lemma OtherPortExample()
    ensures Verdict(Egress, [Rule("p", true, [Entry(Matched, Single("TCP", Number(443, 0)))], [Entry(Matched, [])])],
                    [TCP(80)]) == PASS
  {
    PortExamples();
    OtherPortsPass("p", Single("TCP", Number(443, 0)), [TCP(80)]);
  }
}
