/** Backend references of internal/check/gateway.go: two evaluators that share positive and negative
    caches over an API whose answers may change from one call to the next. */
module BackendRefs {
  import opened Text
  import opened Gateway

  // ----- The API: an arbitrary oracle over time --------------------------------------------

  /** `externalName` marks a Service of type ExternalName. */
  datatype Service = Service(ports: seq<int>, externalName: bool)

  /** An endpoint with its ready condition (None when unset) and its addresses. */
  datatype Endpoint = Endpoint(ready: Option<bool>, addresses: seq<string>)

  datatype Answer<T> = Found(value: T) | Failed(error: string)

  /** The answers are arbitrary functions of the time of the call. */
  class Api {
    const services: (nat, string) -> Answer<Service>
    const slices: (nat, string) -> Answer<seq<seq<Endpoint>>>
    var clock: nat
    ghost var serviceCalls: seq<string>
    ghost var sliceCalls: seq<string>

    constructor (services: (nat, string) -> Answer<Service>, slices: (nat, string) -> Answer<seq<seq<Endpoint>>>)
      ensures clock == 0 && serviceCalls == [] && sliceCalls == []
    {
      this.services, this.slices := services, slices;
      clock, serviceCalls, sliceCalls := 0, [], [];
    }

    method GetService(key: string) returns (answer: Answer<Service>)
      modifies this
      ensures serviceCalls == old(serviceCalls) + [key] && sliceCalls == old(sliceCalls)
    {
      answer := services(clock, key);
      clock := clock + 1;
      serviceCalls := serviceCalls + [key];
    }

    method ListSlices(key: string) returns (answer: Answer<seq<seq<Endpoint>>>)
      modifies this
      ensures sliceCalls == old(sliceCalls) + [key] && serviceCalls == old(serviceCalls)
    {
      answer := slices(clock, key);
      clock := clock + 1;
      sliceCalls := sliceCalls + [key];
    }
  }

  // ----- Ready endpoints -------------------------------------------------------------------

  predicate IsReady(e: Endpoint) {
    e.ready != Some(false)
  }

  function ReadyInSlice(slice: seq<Endpoint>): nat {
    if slice == [] then 0
    else ReadyInSlice(slice[..|slice| - 1]) + (if IsReady(slice[|slice| - 1]) then |slice[|slice| - 1].addresses| else 0)
  }

  function ReadyAddresses(slices: seq<seq<Endpoint>>): nat {
    if slices == [] then 0 else ReadyAddresses(slices[..|slices| - 1]) + ReadyInSlice(slices[|slices| - 1])
  }

  method CountReady(slices: seq<seq<Endpoint>>) returns (count: nat)
    ensures count == ReadyAddresses(slices)
  {
    count := 0;
    for i := 0 to |slices|
      invariant count == ReadyAddresses(slices[..i])
    {
      assert slices[..i + 1][..i] == slices[..i];
      var slice := slices[i];
      ghost var before := count;
      for j := 0 to |slice|
        invariant count == before + ReadyInSlice(slice[..j])
      {
        assert slice[..j + 1][..j] == slice[..j];
        if slice[j].ready.Some? && !slice[j].ready.value {
          continue;
        }
        count := count + |slice[j].addresses|;
      }
      assert slice[..|slice|] == slice;
    }
    assert slices[..|slices|] == slices;
  }

  /** No address is ready exactly when every ready endpoint is without addresses. */
  lemma {:induction false} NoneReady(slices: seq<seq<Endpoint>>)
    ensures ReadyAddresses(slices) == 0 <==>
            forall i, j :: 0 <= i < |slices| && 0 <= j < |slices[i]| && IsReady(slices[i][j]) ==> slices[i][j].addresses == []
  {
    if slices != [] {
      var n := |slices| - 1;
      NoneReady(slices[..n]);
      NoneReadyInSlice(slices[n]);
      assert forall i :: 0 <= i < n ==> slices[..n][i] == slices[i];
    }
  }

  lemma {:induction false} NoneReadyInSlice(slice: seq<Endpoint>)
    ensures ReadyInSlice(slice) == 0 <==>
            forall j :: 0 <= j < |slice| && IsReady(slice[j]) ==> slice[j].addresses == []
  {
    if slice != [] {
      var n := |slice| - 1;
      NoneReadyInSlice(slice[..n]);
      assert forall j :: 0 <= j < n ==> slice[..n][j] == slice[j];
    }
  }

  // ----- The caches ------------------------------------------------------------------------

  /** What the four maps hold. */
  datatype View = View(services: map<string, Service>, serviceErrors: map<string, string>,
                       ready: map<string, nat>, readyErrors: map<string, string>)

  /** What the caches answer for a Service; the positive map is asked first. */
  function ServiceAnswer(view: View, key: string): Option<Answer<Service>> {
    if key in view.services then Some(Found(view.services[key]))
    else if key in view.serviceErrors then Some(Failed(view.serviceErrors[key]))
    else None
  }

  function ReadyAnswer(view: View, key: string): Option<Answer<nat>> {
    if key in view.ready then Some(Found(view.ready[key]))
    else if key in view.readyErrors then Some(Failed(view.readyErrors[key]))
    else None
  }

  /** Every answer already pinned stays pinned. */
  ghost predicate Pins(before: View, after: View) {
    && (forall key :: ServiceAnswer(before, key).Some? ==> ServiceAnswer(after, key) == ServiceAnswer(before, key))
    && (forall key :: ReadyAnswer(before, key).Some? ==> ReadyAnswer(after, key) == ReadyAnswer(before, key))
  }

  class Caches {
    var services: map<string, Service>
    var serviceErrors: map<string, string>
    var ready: map<string, nat>
    var readyErrors: map<string, string>

    constructor ()
      ensures Held() == View(map[], map[], map[], map[])
    {
      services, serviceErrors, ready, readyErrors := map[], map[], map[], map[];
    }

    ghost function Held(): View
      reads this
    {
      View(services, serviceErrors, ready, readyErrors)
    }

    /** Each key was fetched at most once, and every fetched key is answered. */
    ghost predicate FetchedOnce(api: Api)
      reads this, api
    {
      && (forall i, j :: 0 <= i < j < |api.serviceCalls| ==> api.serviceCalls[i] != api.serviceCalls[j])
      && (forall i, j :: 0 <= i < j < |api.sliceCalls| ==> api.sliceCalls[i] != api.sliceCalls[j])
      && (forall key :: key in api.serviceCalls ==> ServiceAnswer(Held(), key).Some?)
      && (forall key :: key in api.sliceCalls ==> ReadyAnswer(Held(), key).Some?)
    }

    /** cachedService. */
    method CachedService(api: Api, namespace: string, name: string) returns (answer: Answer<Service>)
      requires FetchedOnce(api)
      modifies this, api
      ensures FetchedOnce(api) && Pins(old(Held()), Held())
      ensures ServiceAnswer(Held(), namespace + "/" + name) == Some(answer)
      ensures ServiceAnswer(old(Held()), namespace + "/" + name).Some? ==> unchanged(this) && unchanged(api)
    {
      var key := namespace + "/" + name;
      if key in services {
        return Found(services[key]);
      }
      if key in serviceErrors {
        return Failed(serviceErrors[key]);
      }
      assert key !in api.serviceCalls by {
        assert ServiceAnswer(Held(), key).None?;
      }
      answer := api.GetService(key);
      if answer.Failed? {
        serviceErrors := serviceErrors[key := answer.error];
        return;
      }
      services := services[key := answer.value];
    }

    /** cachedReadyEndpointCount. */
    method CachedReadyCount(api: Api, namespace: string, service: string) returns (answer: Answer<nat>)
      requires FetchedOnce(api)
      modifies this, api
      ensures FetchedOnce(api) && Pins(old(Held()), Held())
      ensures ReadyAnswer(Held(), namespace + "/" + service) == Some(answer)
      ensures ReadyAnswer(old(Held()), namespace + "/" + service).Some? ==> unchanged(this) && unchanged(api)
    {
      var key := namespace + "/" + service;
      if key in ready {
        return Found(ready[key]);
      }
      if key in readyErrors {
        return Failed(readyErrors[key]);
      }
      assert key !in api.sliceCalls by {
        assert ReadyAnswer(Held(), key).None?;
      }
      var slices := api.ListSlices(key);
      if slices.Failed? {
        readyErrors := readyErrors[key := slices.error];
        return Failed(slices.error);
      }
      var count := CountReady(slices.value);
      ready := ready[key := count];
      answer := Found(count);
    }
  }

  // ----- What a backendRef amounts to ------------------------------------------------------

  /** Where a backendRef goes wrong, in the order of the checks. */
  datatype Fault = NoName | UnsupportedKind | NoGrant | NoPort | MissingService | PortNotExposed | NoReadyEndpoints

  /** `grants(namespace, name)`: a ReferenceGrant lets this route reach that Service. */
  datatype Target = Target(routeNamespace: string, backend: BackendRef, grants: (string, string) -> bool)

  function Namespace(t: Target): string {
    DefaultString(t.backend.namespace, t.routeNamespace)
  }

  function Key(t: Target): string {
    Namespace(t) + "/" + t.backend.name
  }

  /** The checks that need no API, up to the first fault. */
  function StaticFault(t: Target): Option<Fault> {
    if t.backend.name == "" then Some(NoName)
    else if t.backend.group != "" || DefaultString(t.backend.kind, "Service") != "Service" then Some(UnsupportedKind)
    else if Namespace(t) != t.routeNamespace && !t.grants(Namespace(t), t.backend.name) then Some(NoGrant)
    else if t.backend.port.None? then Some(NoPort)
    else None
  }

  /** The outcome of all checks on pinned answers: a fault, unreadable endpoints, or nothing wrong. */
  datatype Outcome = Faulty(fault: Fault) | Unreadable | Healthy

  /** The Service checks; None when the endpoints have to be looked at. */
  function ServiceOutcome(t: Target, service: Answer<Service>): Option<Outcome>
    requires t.backend.port.Some?
  {
    if service.Failed? then Some(Faulty(MissingService))
    else if t.backend.port.value !in service.value.ports then Some(Faulty(PortNotExposed))
    else if service.value.externalName then Some(Healthy)
    else None
  }

  function EndpointOutcome(ready: Answer<nat>): Outcome {
    if ready.Failed? then Unreadable else if ready.value == 0 then Faulty(NoReadyEndpoints) else Healthy
  }

  /** The outcome under the pinned answers; None while an answer that is needed is not pinned yet. */
  function OutcomeFor(view: View, t: Target): Option<Outcome> {
    if StaticFault(t).Some? then Some(Faulty(StaticFault(t).value))
    else
      var service := ServiceAnswer(view, Key(t));
      if service.None? then None
      else if ServiceOutcome(t, service.value).Some? then ServiceOutcome(t, service.value)
      else
        var ready := ReadyAnswer(view, Key(t));
        if ready.None? then None else Some(EndpointOutcome(ready.value))
  }

  /** Once an outcome is pinned, no later call changes it. */
  lemma OutcomeStays(before: View, after: View, t: Target)
    requires Pins(before, after) && OutcomeFor(before, t).Some?
    ensures OutcomeFor(after, t) == OutcomeFor(before, t)
  {
  }

  lemma PinsTransitive(a: View, b: View, c: View)
    requires Pins(a, b) && Pins(b, c)
    ensures Pins(a, c)
  {
  }

  // ----- The two evaluators ----------------------------------------------------------------

  /** gatewayAnalyzeBackendRef; the reason stands for `Broken`. */
  method AnalyzeBackendRef(api: Api, caches: Caches, t: Target) returns (reason: Option<Fault>)
    requires caches.FetchedOnce(api)
    modifies api, caches
    ensures caches.FetchedOnce(api) && Pins(old(caches.Held()), caches.Held())
    ensures OutcomeFor(caches.Held(), t).Some?
    ensures reason == ReasonOf(OutcomeFor(caches.Held(), t).value)
  {
    var name := t.backend.name;
    var namespace := DefaultString(t.backend.namespace, t.routeNamespace);
    if name == "" {
      return Some(NoName);
    }
    if t.backend.group != "" || DefaultString(t.backend.kind, "Service") != "Service" {
      return Some(UnsupportedKind);
    }
    if namespace != t.routeNamespace && !t.grants(namespace, name) {
      return Some(NoGrant);
    }
    if t.backend.port.None? {
      return Some(NoPort);
    }
    var service := caches.CachedService(api, namespace, name);
    if service.Failed? {
      return Some(MissingService);
    }
    if t.backend.port.value !in service.value.ports {
      return Some(PortNotExposed);
    }
    if service.value.externalName {
      return None;
    }
    var ready := caches.CachedReadyCount(api, namespace, name);
    if ready.Failed? {
      return None;
    }
    if ready.value == 0 {
      return Some(NoReadyEndpoints);
    }
    return None;
  }

  /** What the scan raises for a backendRef under the pinned answers; nothing for one without traffic. */
  function PinnedProblems(view: View, t: Target): seq<Problem> {
    if !Weighted(t.backend) || OutcomeFor(view, t).None? then [] else ProblemsOf(OutcomeFor(view, t).value)
  }

  /** A problem the scanner raises: a fault, or an API inspection warning. */
  datatype Problem = Raised(fault: Fault) | ApiInspection

  /** gatewayScanner: the counter, and the problems that made it into the report. */
  class Scanner {
    var limit: int
    var problemCount: nat
    var truncated: bool
    var report: seq<Problem>
    ghost var raised: seq<Problem>

    /** The report is the first `limit` of the raised problems. */
    ghost predicate Valid()
      reads this
    {
      && problemCount == |raised|
      && (limit <= 0 ==> raised == [])
      && report == (if |raised| <= Effective() then raised else raised[..Effective()])
      && (truncated <==> |raised| > Effective())
    }

    ghost function Effective(): nat
      reads this
    {
      if limit <= 0 then 50 else limit
    }

    constructor (limit: int)
      ensures Valid() && raised == [] && this.limit == limit
    {
      this.limit, problemCount, truncated, report, raised := limit, 0, false, [], [];
    }

    /** addProblemCategorized. */
    method AddProblem(p: Problem)
      requires Valid()
      modifies this
      ensures Valid() && raised == old(raised) + [p]
      ensures Effective() == old(Effective())
    {
      if limit <= 0 {
        limit := 50;
      }
      raised := raised + [p];
      problemCount := problemCount + 1;
      if problemCount <= limit {
        report := report + [p];
        return;
      }
      truncated := true;
    }

    /** The part of scanRouteBackendRefWithDiagnosis that needs no API; `sound` when it finds no fault. */
    method ScanReference(t: Target) returns (sound: bool)
      requires Valid()
      modifies this
      ensures Valid() && (sound <==> StaticFault(t).None?)
      ensures raised == old(raised) + (if sound then [] else [Raised(StaticFault(t).value)])
    {
      var name := t.backend.name;
      if name == "" {
        AddProblem(Raised(NoName));
        return false;
      }
      var namespace := DefaultString(t.backend.namespace, t.routeNamespace);
      if t.backend.group != "" || DefaultString(t.backend.kind, "Service") != "Service" {
        AddProblem(Raised(UnsupportedKind));
        return false;
      }
      if namespace != t.routeNamespace && !t.grants(namespace, name) {
        AddProblem(Raised(NoGrant));
        return false;
      }
      if t.backend.port.None? {
        AddProblem(Raised(NoPort));
        return false;
      }
      return true;
    }

    /** The part that looks at the Service and then at its endpoints. */
    method ScanService(api: Api, caches: Caches, t: Target)
      requires Valid() && caches.FetchedOnce(api) && StaticFault(t).None?
      modifies this, api, caches
      ensures Valid() && caches.FetchedOnce(api) && Pins(old(caches.Held()), caches.Held())
      ensures OutcomeFor(caches.Held(), t).Some?
      ensures raised == old(raised) + ProblemsOf(OutcomeFor(caches.Held(), t).value)
      ensures OutcomeFor(old(caches.Held()), t).Some? ==> unchanged(caches) && unchanged(api)
    {
      var service := caches.CachedService(api, Namespace(t), t.backend.name);
      if service.Failed? {
        AddProblem(Raised(MissingService));
        return;
      }
      if t.backend.port.value !in service.value.ports {
        AddProblem(Raised(PortNotExposed));
        return;
      }
      if service.value.externalName {
        return;
      }
      ScanEndpoints(api, caches, t);
    }

    /** The part that looks at the endpoints. */
    method ScanEndpoints(api: Api, caches: Caches, t: Target)
      requires Valid() && caches.FetchedOnce(api)
      modifies this, api, caches
      ensures Valid() && caches.FetchedOnce(api) && Pins(old(caches.Held()), caches.Held())
      ensures ReadyAnswer(caches.Held(), Key(t)).Some?
      ensures raised == old(raised) + ProblemsOf(EndpointOutcome(ReadyAnswer(caches.Held(), Key(t)).value))
      ensures ReadyAnswer(old(caches.Held()), Key(t)).Some? ==> unchanged(caches) && unchanged(api)
    {
      var ready := caches.CachedReadyCount(api, Namespace(t), t.backend.name);
      if ready.Failed? {
        AddProblem(ApiInspection);
        return;
      }
      if ready.value == 0 {
        AddProblem(Raised(NoReadyEndpoints));
      }
    }

    /** scanRouteBackendRefWithDiagnosis; it touches neither the API nor the caches when the outcome is already pinned. */
    method ScanBackendRef(api: Api, caches: Caches, t: Target)
      requires Valid() && caches.FetchedOnce(api)
      modifies this, api, caches
      ensures Valid() && caches.FetchedOnce(api) && Pins(old(caches.Held()), caches.Held())
      ensures Weighted(t.backend) ==> OutcomeFor(caches.Held(), t).Some?
      ensures raised == old(raised) + PinnedProblems(caches.Held(), t)
      ensures OutcomeFor(old(caches.Held()), t).Some? ==> unchanged(caches) && unchanged(api)
    {
      if Weight(t.backend) == 0 {
        return;
      }
      var sound := ScanReference(t);
      if sound {
        ScanService(api, caches, t);
      }
    }
  }

  /** What the scanner raises for an outcome. */
  function ProblemsOf(o: Outcome): seq<Problem> {
    match o
    case Faulty(f) => [Raised(f)]
    case Unreadable => [ApiInspection]
    case Healthy => []
  }

  // ----- A whole trace ---------------------------------------------------------------------

  /** What the analysis reports for an outcome. */
  function ReasonOf(o: Outcome): Option<Fault> {
    match o
    case Faulty(f) => Some(f)
    case _ => None
  }

  /** The faults among the raised problems, leaving out API inspection warnings. */
  function FaultsIn(problems: seq<Problem>): seq<Fault> {
    if problems == [] then []
    else
      FaultsIn(problems[..|problems| - 1]) +
      (match problems[|problems| - 1] case Raised(f) => [f] case ApiInspection => [])
  }

  /** The weight is absent or not zero. */
  predicate Weighted(b: BackendRef) {
    b.weight.None? || b.weight.value != 0
  }

  /** The reasons of the backendRefs that carry traffic and are broken. */
  function BrokenReasons(targets: seq<Target>, reasons: seq<Option<Fault>>): seq<Fault>
    requires |targets| == |reasons|
  {
    if targets == [] then []
    else
      var n := |targets| - 1;
      BrokenReasons(targets[..n], reasons[..n]) +
      (if Weighted(targets[n].backend) && reasons[n].Some? then [reasons[n].value] else [])
  }

  lemma {:induction false} FaultsInAppend(a: seq<Problem>, b: seq<Problem>)
    ensures FaultsIn(a + b) == FaultsIn(a) + FaultsIn(b)
  {
    if b == [] {
      assert a + b == a;
    } else {
      var n := |b| - 1;
      FaultsInAppend(a, b[..n]);
      assert (a + b)[..|a + b| - 1] == a + b[..n];
    }
  }

  lemma FaultsOfOutcome(o: Outcome)
    ensures FaultsIn(ProblemsOf(o)) == (if ReasonOf(o).Some? then [ReasonOf(o).value] else [])
  {
    var p := ProblemsOf(o);
    if p != [] {
      assert p[..0] == [];
    }
  }

  /** The two passes of scanGatewayTrafficIntent over the distinct backendRefs of a trace: all are analyzed, then
      all are scanned. Whatever the API answers and when, the faults raised by the scan are the reasons given by the
      analysis, the scan costs no API call, and no key is fetched twice. */
  method TraceBackends(api: Api, caches: Caches, scanner: Scanner, targets: seq<Target>)
    returns (reasons: seq<Option<Fault>>)
    requires scanner.Valid() && caches.FetchedOnce(api)
    modifies api, caches, scanner
    ensures scanner.Valid() && caches.FetchedOnce(api) && Pins(old(caches.Held()), caches.Held())
    ensures |reasons| == |targets|
    ensures old(scanner.raised) <= scanner.raised
    ensures FaultsIn(scanner.raised[|old(scanner.raised)|..]) == BrokenReasons(targets, reasons)
    ensures forall i :: 0 <= i < |targets| && reasons[i].Some? ==> (
      (targets[i].backend.weight.None? || targets[i].backend.weight.value != 0) ==>
        Raised(reasons[i].value) in scanner.raised[|old(scanner.raised)|..])
    ensures forall i :: 0 <= i < |targets| ==> (
      && OutcomeFor(caches.Held(), targets[i]).Some?
      && reasons[i] == ReasonOf(OutcomeFor(caches.Held(), targets[i]).value))
  {
    reasons := AnalyzeAll(api, caches, targets);
    ScanAll(api, caches, scanner, targets, reasons);
    forall i | 0 <= i < |targets| && reasons[i].Some? && Weighted(targets[i].backend)
      ensures Raised(reasons[i].value) in scanner.raised[|old(scanner.raised)|..]
    {
      BrokenIsListed(targets, reasons, i);
      FaultIsRaised(scanner.raised[|old(scanner.raised)|..], reasons[i].value);
    }
  }

  lemma {:induction false} BrokenIsListed(targets: seq<Target>, reasons: seq<Option<Fault>>, i: nat)
    requires i < |targets| == |reasons| && reasons[i].Some? && Weighted(targets[i].backend)
    ensures reasons[i].value in BrokenReasons(targets, reasons)
  {
    var n := |targets| - 1;
    if i < n {
      BrokenIsListed(targets[..n], reasons[..n], i);
    }
  }

  lemma {:induction false} FaultIsRaised(problems: seq<Problem>, f: Fault)
    ensures f in FaultsIn(problems) <==> Raised(f) in problems
  {
    if problems != [] {
      var n := |problems| - 1;
      FaultIsRaised(problems[..n], f);
      assert problems == problems[..n] + [problems[n]];
    }
  }

  /** One scan after the analysis: the API is not asked again. */
  method ScanPinned(api: Api, caches: Caches, scanner: Scanner, t: Target, ghost view: View)
    requires scanner.Valid() && caches.FetchedOnce(api) && caches.Held() == view && OutcomeFor(view, t).Some?
    modifies api, caches, scanner
    ensures scanner.Valid() && caches.FetchedOnce(api) && caches.Held() == view
    ensures api.serviceCalls == old(api.serviceCalls) && api.sliceCalls == old(api.sliceCalls)
    ensures scanner.raised == old(scanner.raised) + PinnedProblems(view, t)
  {
    scanner.ScanBackendRef(api, caches, t);
  }

  /** The scan pass; everything it needs is pinned already. */
  method ScanAll(api: Api, caches: Caches, scanner: Scanner, targets: seq<Target>, ghost reasons: seq<Option<Fault>>)
    requires scanner.Valid() && caches.FetchedOnce(api) && |reasons| == |targets|
    requires forall i :: 0 <= i < |targets| ==> (
      && OutcomeFor(caches.Held(), targets[i]).Some?
      && reasons[i] == ReasonOf(OutcomeFor(caches.Held(), targets[i]).value))
    modifies api, caches, scanner
    ensures scanner.Valid() && caches.FetchedOnce(api) && caches.Held() == old(caches.Held())
    ensures api.serviceCalls == old(api.serviceCalls) && api.sliceCalls == old(api.sliceCalls)
    ensures old(scanner.raised) <= scanner.raised
    ensures FaultsIn(scanner.raised[|old(scanner.raised)|..]) == BrokenReasons(targets, reasons)
  {
    ghost var view := caches.Held();
    ghost var start := scanner.raised;
    ghost var added: seq<Problem> := [];
    for i := 0 to |targets|
      invariant scanner.Valid() && caches.FetchedOnce(api) && caches.Held() == view
      invariant api.serviceCalls == old(api.serviceCalls) && api.sliceCalls == old(api.sliceCalls)
      invariant scanner.raised == start + added
      invariant FaultsIn(added) == BrokenReasons(targets[..i], reasons[..i])
    {
      ScanPinned(api, caches, scanner, targets[i], view);
      StepOfTrace(view, targets, reasons, added, i);
      added := added + PinnedProblems(view, targets[i]);
    }
    assert targets[..|targets|] == targets && reasons[..|targets|] == reasons;
    assert scanner.raised[|start|..] == added;
  }

  lemma StepOfTrace(view: View, targets: seq<Target>, reasons: seq<Option<Fault>>, added: seq<Problem>, i: nat)
    requires i < |targets| == |reasons| && OutcomeFor(view, targets[i]).Some?
    requires reasons[i] == ReasonOf(OutcomeFor(view, targets[i]).value)
    requires FaultsIn(added) == BrokenReasons(targets[..i], reasons[..i])
    ensures FaultsIn(added + PinnedProblems(view, targets[i])) == BrokenReasons(targets[..i + 1], reasons[..i + 1])
  {
    FaultsInAppend(added, PinnedProblems(view, targets[i]));
    FaultsOfOutcome(OutcomeFor(view, targets[i]).value);
    BrokenReasonsStep(targets, reasons, i);
  }

  lemma BrokenReasonsStep(targets: seq<Target>, reasons: seq<Option<Fault>>, i: nat)
    requires i < |targets| == |reasons|
    ensures BrokenReasons(targets[..i + 1], reasons[..i + 1]) ==
            BrokenReasons(targets[..i], reasons[..i]) +
            (if Weighted(targets[i].backend) && reasons[i].Some? then [reasons[i].value] else [])
  {
    assert targets[..i + 1][..i] == targets[..i] && reasons[..i + 1][..i] == reasons[..i];
  }

  /** The analysis pass. */
  method AnalyzeAll(api: Api, caches: Caches, targets: seq<Target>) returns (reasons: seq<Option<Fault>>)
    requires caches.FetchedOnce(api)
    modifies api, caches
    ensures caches.FetchedOnce(api) && Pins(old(caches.Held()), caches.Held())
    ensures |reasons| == |targets|
    ensures forall i :: 0 <= i < |targets| ==> (
      && OutcomeFor(caches.Held(), targets[i]).Some?
      && reasons[i] == ReasonOf(OutcomeFor(caches.Held(), targets[i]).value))
  {
    reasons := [];
    for i := 0 to |targets|
      invariant caches.FetchedOnce(api) && Pins(old(caches.Held()), caches.Held())
      invariant |reasons| == i
      invariant forall j :: 0 <= j < i ==> (
        && OutcomeFor(caches.Held(), targets[j]).Some?
        && reasons[j] == ReasonOf(OutcomeFor(caches.Held(), targets[j]).value))
    {
      ghost var before := caches.Held();
      var reason := AnalyzeBackendRef(api, caches, targets[i]);
      PinsTransitive(old(caches.Held()), before, caches.Held());
      forall j | 0 <= j < i
        ensures OutcomeFor(caches.Held(), targets[j]) == OutcomeFor(before, targets[j])
      {
        OutcomeStays(before, caches.Held(), targets[j]);
      }
      reasons := reasons + [reason];
    }
  }

  // ----- Outcomes written out --------------------------------------------------------------

  /** A backendRef of port 80 on the Service `web` in the route's namespace `app`; nothing is granted across. */
  function WebTarget(backend: BackendRef): Target {
    Target("app", backend, (namespace, name) => false)
  }

  function Web(): BackendRef {
    BackendRef("", "", "", "web", Some(80), None)
  }

  function Holding(service: Answer<Service>, ready: Answer<nat>): View {
    View(if service.Found? then map["app/web" := service.value] else map[],
         if service.Failed? then map["app/web" := service.error] else map[],
         if ready.Found? then map["app/web" := ready.value] else map[],
         if ready.Failed? then map["app/web" := ready.error] else map[])
  }

  lemma WebKey()
    ensures Key(WebTarget(Web())) == "app/web"
  {
  }

  /** The faults that need no API: the name, the kind and group, the grant, the port, in this order. */
  lemma StaticFaultExamples(view: View)
    ensures OutcomeFor(view, WebTarget(Web().(name := "", kind := "Other"))) == Some(Faulty(NoName))
    ensures OutcomeFor(view, WebTarget(Web().(kind := "Other", namespace := "shop"))) == Some(Faulty(UnsupportedKind))
    ensures OutcomeFor(view, WebTarget(Web().(group := "g"))) == Some(Faulty(UnsupportedKind))
    ensures OutcomeFor(view, WebTarget(Web().(namespace := "shop", port := None))) == Some(Faulty(NoGrant))
    ensures OutcomeFor(view, WebTarget(Web().(port := None))) == Some(Faulty(NoPort))
    ensures StaticFault(WebTarget(Web())) == None && StaticFault(WebTarget(Web().(kind := "Service"))) == None
    ensures StaticFault(WebTarget(Web().(namespace := "app"))) == None
    ensures StaticFault(WebTarget(Web().(namespace := "shop")).(grants := (namespace, name) => true)) == None
  {
  }

  /** The Service has to be there with that port; unless it is an ExternalName it needs a ready address, and endpoints
      that cannot be read are no fault. */
  lemma ServiceExamples(error: string, ready: Answer<nat>)
    ensures OutcomeFor(Holding(Failed(error), ready), WebTarget(Web())) == Some(Faulty(MissingService))
    ensures OutcomeFor(Holding(Found(Service([8080], false)), ready), WebTarget(Web())) == Some(Faulty(PortNotExposed))
    ensures OutcomeFor(Holding(Found(Service([8080], true)), ready), WebTarget(Web())) == Some(Faulty(PortNotExposed))
    ensures OutcomeFor(Holding(Found(Service([80], true)), ready), WebTarget(Web())) == Some(Healthy)
    ensures OutcomeFor(Holding(Found(Service([80], false)), Found(0)), WebTarget(Web())) == Some(Faulty(NoReadyEndpoints))
    ensures OutcomeFor(Holding(Found(Service([80], false)), Found(1)), WebTarget(Web())) == Some(Healthy)
    ensures OutcomeFor(Holding(Found(Service([80], false)), Failed(error)), WebTarget(Web())) == Some(Unreadable)
  {
    WebKey();
  }

  /** An endpoint counts unless it says that it is not ready. */
  lemma ReadyExamples(addresses: seq<string>)
    ensures ReadyAddresses([[Endpoint(None, addresses)]]) == |addresses|
    ensures ReadyAddresses([[Endpoint(Some(true), addresses)]]) == |addresses|
    ensures ReadyAddresses([[Endpoint(Some(false), addresses)]]) == 0
  {
    OneEndpoint(Endpoint(None, addresses));
    OneEndpoint(Endpoint(Some(true), addresses));
    OneEndpoint(Endpoint(Some(false), addresses));
  }

  lemma OneEndpoint(e: Endpoint)
    ensures ReadyAddresses([[e]]) == if IsReady(e) then |e.addresses| else 0
  {
    assert [e][..0] == [] && [[e]][..0] == [];
    assert ReadyInSlice([e]) == if IsReady(e) then |e.addresses| else 0;
  }

  /** Without a positive limit the report holds 50 problems. */
  lemma DefaultLimit(s: Scanner)
    ensures s.limit <= 0 ==> s.Effective() == 50
    ensures s.limit > 0 ==> s.Effective() == s.limit
  {
  }
}
