# KubeNetMods decision engines in Dafny

KubeNetMods tells, without sending traffic, whether a request or connection gets through a Kubernetes
cluster, and why. This project models the engines that take those decisions and proves what they
promise. `dafny verify dfyconfig.toml` checks all of it.

The engines work by appending to slices, overwriting variables and filling maps; they appear here as
methods with loops, arrays, maps and, where objects carry state, classes. Each method is proved
against a specification that is written independently of its loops, and the main results are lemmas
about those specifications. The files named after an engine with `Reading` behind it say what an
answer means on the fields of the objects, without the specification's own functions; short facts there
that only fix a single-field test have no row below.

| Files | Engine |
|---|---|
| EditDistance, Hostnames | hostname similarity and the "did you mean" suggestion |
| Gateway, GatewayReading, PathPrefix, RouteSelection, RulePrecedence, RouteWinners, RouteReading, ReportOrder | which HTTPRoute, GRPCRoute or TLSRoute rule and which backends a request reaches |
| NoMatch | the staged explanation when nothing matched |
| BackendRefs | backendRef analysis and scan over shared caches of a changing API |
| RouteScope | the index from a route filter to gateways and listeners |
| Diagnoses, DiagnosisReading, SuppressionLoops, DiagnosisWording | suppression of secondary diagnoses |
| Weights | percentages of weighted backends |
| CalicoPolicy, CalicoDecision, CalicoReading, CalicoListing, CalicoDNS, CalicoBlockers, CalicoPorts | Calico tiers, listing order, DNS egress, "show blockers", port criteria |
| CiliumPolicy, CiliumReading, CiliumWildcard | Cilium deny-overrides verdicts and wildcard hosts |
| ShellWords | ShellQuote and the curl command line, read by POSIX.1-2017 Shell Command Language, section 2.2 |
| Text, Sorting | strings, stable sorting and multisets, shared by the others |

## What the proofs found

These follow the code where its promise and its behaviour differ. Each has a theorem that says exactly
when the promise is kept, and a concrete input on which it is not.

- A PathPrefix written with a trailing slash rejects the path without it (`/foo/` on `/foo`), although
  the Gateway API reference ignores the trailing slash (PathPrefix.MatchesIsElementPrefix,
  TrailingSlashMisses).
- A wildcard hostname stands for exactly one label, while the Gateway API reads it as a suffix match
  (Hostnames.WildcardMissesDeepHosts, DeepHostExample).
- Calico DNS evaluation follows a single Pass; two passing tiers in a row become a default deny
  (CalicoDNS.DNSAgreesExactly, ThreePoliciesDiffer).
- A Calico policy in a namespace called `global` shares its display name with the global policy of
  that name, and then the listing order can decide (CalicoListing.OrderMattersExactly,
  CalicoDecision.SharedNameDependsOnOrder).
- A Calico `ports` key that is empty or not a list switches `notPorts` off
  (CalicoPorts.EmptyPortsIgnoresNotPorts, EmptyPortsExample).
- The Cilium wildcard suffix may overlap text that the search has consumed: `a*a` accepts `a`
  (CiliumWildcard.LanguageIsAcceptWithoutOverlap, OverlapExample).
- Adding a Cilium egress deny whose peer matches by CIDR only can turn a default-deny FAIL into WARN
  (CiliumPolicy.AddingDeny, CIDRDenyExample).
- Diagnoses are classed by substrings, and status diagnoses quote the controller's own text, which may
  put them into a second class. A status that quotes a ` backendRef ` suppresses itself; one that quotes
  a rejection and a missing Service suppress each other and empty the report
  (SuppressionLoops.ExplainedExactly, NeverEmptiedExactly, DiagnosisWording.QuotedStatusHidesItself,
  TwoMessageLoop).

## How the model reads the cluster

- Unstructured objects are datatypes; list entries of the wrong shape, which the program skips, are
  `None` or a constructor of their own.
- Strings are sequences of bytes. Orders of Calico tiers and policies are real numbers.
- Regular expressions, Calico and Cilium selectors, CIDR containment and ReferenceGrants are
  arbitrary predicates; Calico port tokens are an arbitrary predicate on candidates.
- The API is an arbitrary function of the time of the call.
- A range loop over a Go map is an enumeration of its keys in an arbitrary order, and results are
  proved for all of them.
- Assumptions about the cluster are stated where they are used: object names hold no slash, objects
  are unique by namespace and name, and the routes searched are of the family the request asks for.

## Model

| member | source | states |
|---|---|---|
| `EditDistance.EditDistance` | internal/check/gateway.go:4793-4820 | The two-row loop with swapped arrays returns the length of a shortest chain of single insertions, deletions and substitutions: a chain of that length exists and none is shorter. |
| `EditDistance.FillRow` | internal/check/gateway.go:4803-4817 | The inner loop turns row i - 1 of the prefix-distance table into row i. |
| `EditDistance.DistanceIsShortestChain` | internal/check/gateway.go:4793-4820 | The recurrence on last characters is the length of a shortest edit chain, for all strings. |
| `EditDistance.ZeroOnlyOnEqual` | internal/check/gateway.go:4794-4796 | The distance is zero exactly on equal strings. |
| `EditDistance.Symmetric` | internal/check/gateway.go:4793-4820 | The distance does not depend on which string is edited. |
| `EditDistance.Triangle` | internal/check/gateway.go:4793-4820 | Going through a third string is never shorter. |
| `EditDistance.LengthBounds` | internal/check/gateway.go:4793-4820 | The distance lies between the length difference and the longer length. |
| `Hostnames.WildcardIsOneLabel` | internal/check/gateway.go:5671-5691 | A `*.` pattern matches a host exactly when the host's labels are one non-empty label followed by the pattern's other labels. |
| `Hostnames.WildcardMissesDeepHosts` | internal/check/gateway.go:5671-5686 | The match is the Gateway API's suffix match with a wildcard part that holds no dot; the two differ exactly when the suffix matches and that part holds a dot. |
| `Hostnames.DeepHostExample` | internal/check/gateway.go:5671-5686 | Counterexample: `*.example.com` covers `a.b.example.com` in the Gateway API and does not match it here. |
| `Hostnames.ExactIsEquality` | internal/check/gateway.go:5671-5691 | A pattern without a wildcard matches exactly the host with the same labels. |
| `Hostnames.MeasureGap` | internal/check/gateway.go:4743-4756 | Weighing one candidate gives its edit distance when that is within the threshold and nothing otherwise. |
| `Hostnames.ClosestHostname` | internal/check/gateway.go:4736-4763 | The suggestion is the earliest candidate that no other beats by edits, then by length; without a candidate within the threshold there is none. |
| `Hostnames.ClosestReads` | internal/check/gateway.go:4757-4763 | The suggested candidate has the fewest edits of all that may be suggested, among those the shortest text, and among those it comes first. |
| `Hostnames.GapReads` | internal/check/gateway.go:4743-4790 | A candidate may be suggested exactly when it is one edit away, two if a name has more than 12 characters, three if one has more than 24. |
| `Hostnames.WildcardCompares` | internal/check/gateway.go:4765-4776 | A `*.` candidate is compared with the host's first label in place of the star. |
| `Hostnames.NormalExamples` | internal/check/gateway.go:5688-5691 | Case, outer spaces and one final dot of a name do not matter. |
| `PathPrefix.MatchesIsElementPrefix` | internal/check/gateway.go:5764-5772 | For every prefix and path: the test is the element-wise prefix match of the prefix without trailing slashes, except that a prefix written with a trailing slash (or empty) rejects the very path that lacks it. |
| `PathPrefix.PlainPrefixIsElementPrefix` | internal/check/gateway.go:5764-5772 | Without a trailing slash the `/`-split elements of the prefix are an initial segment of those of the path exactly when the test accepts. |
| `PathPrefix.TrailingSlashMisses` | internal/check/gateway.go:5764-5772 | Counterexample: `/foo/` rejects `/foo`, which the Gateway API reference says it matches. |
| `PathPrefix.Transitive` | internal/check/gateway.go:5764-5772 | Prefix matching is transitive, for all prefixes. |
| `ShellWords.QuotedListReadsBack` | internal/runtime/runtime.go:388-390 | For every list of values, splitting the space-joined quoted values by POSIX rules gives back exactly that list. |
| `ShellWords.QuoteReads` | internal/runtime/runtime.go:388-390 | A quoted value adds exactly its characters to the word being read and ends outside quotes. |
| `ShellWords.CurlTextReads` | internal/runtime/runtime.go:226-236 | For any timeout, header lines and URL, the assembled command reads as the intended curl argument vector. |
| `ShellWords.CollectHeaderArgs` | internal/runtime/runtime.go:231-234 | The loop quotes one `-H` argument per header, each header once, in the map's iteration order. |
| `ShellWords.CurlCommand` | internal/runtime/runtime.go:226-236 | The command reads as the intended arguments, and is the same text for every iteration order of the header map. |
| `ShellWords.OrderIrrelevant` | internal/runtime/runtime.go:231-235 | Sorting makes the header arguments independent of the iteration order. |
| `ShellWords.ArgvExample` | internal/runtime/runtime.go:226-236 | The argument vector for one header, written out. |
| `ShellWords.SortedLinesAscend` | internal/runtime/runtime.go:231-235 | The header arguments come in ascending order. |
| `ShellWords.UnquotedMeansMore` | internal/runtime/runtime.go:388-390 | The reader used for these results refuses every character that has a meaning of its own outside quotes. |
| `CalicoPolicy.CollectMatches` | internal/policy/calico/analyze.go:1058-1102 | The collecting loops return each policy's matching rules up to and including the first allow or deny. |
| `CalicoPolicy.MatchOrder` | internal/policy/calico/analyze.go:1270-1283 | The comparison by tier order, policy order, rule index and policy name is a strict weak order. |
| `CalicoPolicy.EffectiveMatchAfterPass` | internal/policy/calico/analyze.go:1285-1304 | The loop terminates and returns the match where the chain of Pass jumps ends; it reports failure exactly when the list is empty or the chain ends in a Pass with no match in a higher tier. |
| `CalicoPolicy.JumpIsWalk` | internal/policy/calico/analyze.go:1270-1304 | Sorting the flat list and jumping over Pass gives the outcome of walking the tiers in ascending order with the first match of each. |
| `CalicoDecision.DirectionDecision` | internal/policy/calico/analyze.go:1044-1151 | The verdict computed by collecting, sorting and jumping is the verdict of the tier walk over every matching rule. |
| `CalicoDecision.EarlyStopIsHarmless` | internal/policy/calico/analyze.go:1058-1105 | Leaving a policy after any action, by any rule for stopping, does not change the tier walk: a dropped match never heads its tier. |
| `CalicoDecision.WalkStopsAt` | internal/policy/calico/analyze.go:1285-1304 | The tier walk is decided by exactly the match that heads the lowest tier whose head does not pass. |
| `CalicoDecision.VerdictIgnoresOrder` | internal/policy/calico/analyze.go:1058-1136 | With distinct display names the verdict is the same for every permutation of the policies. |
| `CalicoDecision.UniqueObjectsHaveDistinctNames` | internal/policy/calico/analyze.go:1795-1800 | Objects unique by namespace and name, none in a namespace `global`, have distinct display names. |
| `CalicoDecision.VerdictIgnoresListing` | internal/policy/calico/analyze.go:1058-1136 | So for such objects the verdict does not depend on the listing order. |
| `CalicoDecision.SharedNameDependsOnOrder` | internal/policy/calico/analyze.go:1795-1800 | Counterexample: a policy in a namespace `global` shares its display name with the global policy of that name, and the listing order decides between PASS and FAIL. |
| `CalicoReading.DecidingMatchIsFirst` | internal/policy/calico/analyze.go:1270-1304 | A verdict that rests on a rule rests on a match whose policy order is the lowest of its tier, ties going to the lower rule number and then to the policy name; every lower tier with a match starts with one that passes. Stated on the fields. |
| `CalicoReading.VerdictRestsOn` | internal/policy/calico/analyze.go:1044-1151 | With distinct display names: the verdict rests on a match if and only if that match comes first in its tier by those fields, every lower tier starts with a pass, and it allows or denies. |
| `CalicoReading.VerdictWithoutRule` | internal/policy/calico/analyze.go:1047-1151 | The verdicts that rest on no rule: no policy, no match, and tiers that all start with a pass, with and without profiles. |
| `CalicoReading.Words` | internal/policy/calico/analyze.go:1082-1088 | The spelling of the four actions; an empty action allows. |
| `CalicoReading.LowerOrderDecides` | internal/policy/calico/analyze.go:1275-1277 | Of two one-rule policies of a tier that both match, the one with the lower order decides. |
| `CalicoReading.LowerOrderExample` | internal/policy/calico/analyze.go:1275-1277 | A deny at order 10 beside an allow at order 20: FAIL. |
| `CalicoReading.MissingOrderExample` | internal/policy/calico/analyze.go:1769-1775 | A policy without an order comes after one at order 20, which stands for the order 1000000. |
| `CalicoReading.LowerTierDecides` | internal/policy/calico/analyze.go:1272-1274 | Of two one-rule policies in different tiers, neither passing, the one in the lower tier decides. |
| `CalicoReading.MissingTierExample` | internal/policy/calico/analyze.go:1761-1793 | A policy without a tier is in the default tier, which comes after a tier without an order. |
| `CalicoListing.OrderMattersExactly` | internal/policy/calico/analyze.go:1058-1136 | For any list of policy objects: the verdict is independent of the listing order for all their rules, tiers and orders, all tier objects and all paths, if and only if the display names are distinct. |
| `CalicoListing.SharedNameMatters` | internal/policy/calico/analyze.go:1270-1283 | Two objects of one display name, an allow and a deny in a default tier: swapping them turns PASS into FAIL. |
| `CalicoDNS.CollectDNSMatches` | internal/policy/calico/analyze.go:856-884 | The DNS evaluation collects every matching rule, without a break. |
| `CalicoDNS.ReplacePass` | internal/policy/calico/analyze.go:886-893 | The overwriting loop replaces a leading Pass by the first later match of a higher tier and nothing else. |
| `CalicoDNS.DNSDecision` | internal/policy/calico/analyze.go:855-942 | The DNS verdict is that of the single-jump evaluation of every matching rule. |
| `CalicoDNS.OneJumpIsWalkUnlessDoublePass` | internal/policy/calico/analyze.go:885-942 | The single jump gives the outcome of the tier walk exactly when the heads of the two lowest tiers with a match do not both pass. |
| `CalicoDNS.DNSAgreesExactly` | internal/policy/calico/analyze.go:885-942 | For every list of policies: the DNS verdict is the verdict of the tier walk exactly when those heads do not both pass or the first head that does not pass is neither allow nor deny; the statuses agree exactly when those heads do not both pass, or that head is no allow, or every head passes and the profiles fail. |
| `CalicoDNS.DoublePassDiverges` | internal/policy/calico/analyze.go:885-942 | Whenever a passing tier is followed by another passing tier, the DNS evaluation stops at that second Pass and its outcome differs from the walk. |
| `CalicoDNS.ThreePoliciesDiffer` | internal/policy/calico/analyze.go:885-942 | Counterexample: three policies with Pass, Pass and Allow in three tiers pass in the path evaluation and fail in the DNS one. |
| `CalicoDNS.DNSIgnoresOrder` | internal/policy/calico/analyze.go:855-942 | With distinct display names the DNS verdict is the same for every permutation of the policies. |
| `CalicoBlockers.CollectBlockers` | internal/policy/calico/blockers.go:80-129 | The collecting loops return the denies and the allows of each policy up to its first matching allow. |
| `CalicoBlockers.PathSpecificBlockers` | internal/policy/calico/blockers.go:79-173 | The findings are one failure per deny in sorted order, or a failure when nothing allows, or the allows. |
| `CalicoBlockers.PathInBlockers` | internal/policy/calico/blockers.go:83-129 | Every match the path evaluation collects is collected by the blockers evaluation. |
| `CalicoBlockers.WithoutDeny` | internal/policy/calico/blockers.go:83-129 | Without a collected deny the two evaluations collect the same list. |
| `CalicoBlockers.PathDenyIsReported` | internal/policy/calico/blockers.go:79-173 | For egress with numeric ports a deny that decides the path is reported as that very rule, and an evaluation without any match is reported as a missing allow. |
| `CalicoBlockers.CleanReportBoundsPath` | internal/policy/calico/blockers.go:79-173 | For egress with numeric ports a report without failures means that the path is not decided by a deny and is not the empty default deny. |
| `CalicoBlockers.ReportIsStricter` | internal/policy/calico/blockers.go:79-173 | The bound is one-sided: a deny in a tier behind an allow is reported although the path passes. |
| `CalicoBlockers.ReportReads` | internal/policy/calico/blockers.go:130-173 | A rule is reported as a deny exactly when it was collected as one, a missing allow exactly when neither a deny nor an allow was collected, and allows only when no deny was. |
| `CalicoBlockers.DenyBehindOwnAllow` | internal/policy/calico/blockers.go:83-129 | A deny behind an allow of its own policy is not reported. |
| `CalicoBlockers.DenyBeforeOwnAllow` | internal/policy/calico/blockers.go:83-129 | A deny in front of an allow of its own policy is reported. |
| `CalicoPorts.Include` | internal/policy/calico/analyze.go:1443-1460 | The include loops keep exactly the candidates that some `ports` token matches, each once. |
| `CalicoPorts.Exclude` | internal/policy/calico/analyze.go:1461-1482 | The exclude loops keep exactly the candidates that no `notPorts` token matches. |
| `CalicoPorts.EntityPortsMatch` | internal/policy/calico/analyze.go:1435-1484 | The answer for every entity, including lists that are absent, empty or of the wrong shape. |
| `CalicoPorts.AcceptsIsOneCandidate` | internal/policy/calico/analyze.go:1435-1484 | With `ports` absent or naming something, and candidates present: accepted exactly when one candidate matches a `ports` token (or the key is absent) and no `notPorts` token. |
| `CalicoPorts.EmptyPortsIgnoresNotPorts` | internal/policy/calico/analyze.go:1443-1447 | When the `ports` key names nothing, `notPorts` is ignored: the answer differs from the one-candidate reading exactly when every candidate is excluded. |
| `CalicoPorts.EmptyPortsExample` | internal/policy/calico/analyze.go:1443-1447 | Counterexample: an empty `ports` list accepts the only candidate although a `notPorts` token excludes it. |
| `CalicoPorts.MoreCandidates` | internal/policy/calico/analyze.go:1435-1484 | Adding candidates never turns accept into reject. |
| `CiliumPolicy.CheckPort` | internal/policy/cilium/analyze.go:1157-1184 | One port entry matches the tested ports when its port text is empty or one candidate agrees in protocol and in number, range or name. |
| `CiliumPolicy.CheckPorts` | internal/policy/cilium/analyze.go:1123-1155 | A toPorts list admits the tested ports when it is empty or one of its rules does. |
| `CiliumPolicy.ScanRule` | internal/policy/cilium/analyze.go:592-635 | One pass of the outer loop adds to the accumulators exactly the kinds of entries of a selecting rule. |
| `CiliumPolicy.Decision` | internal/policy/cilium/analyze.go:588-667 | The verdict depends only on which kinds of deny and allow entries the selecting rules hold; the ingress loop at lines 813-876 differs in the CIDR, named-port and Service-selector branches. |
| `CiliumPolicy.VerdictIgnoresOrder` | internal/policy/cilium/analyze.go:588-667 | Permuting the rules and the entries inside each rule leaves the verdict unchanged, for both directions. |
| `CiliumPolicy.DenyOverrides` | internal/policy/cilium/analyze.go:636-643 | A matching deny that is not by CIDR only forces FAIL, whatever else there is. |
| `CiliumPolicy.AddingAllow` | internal/policy/cilium/analyze.go:588-667 | Adding an allow entry lowers the verdict exactly when no entry selected the pod before and the new entry does not plainly allow the path. |
| `CiliumPolicy.AddingDeny` | internal/policy/cilium/analyze.go:588-667 | Adding a deny raises the verdict exactly when it matches by CIDR only and some entry selects the pod while none denies or allows anything, so that only the default deny blocked the path. |
| `CiliumPolicy.CIDRDenyExample` | internal/policy/cilium/analyze.go:598-608 | Counterexample: next to an allow for another peer, adding a deny by CIDR turns FAIL into WARN. |
| `CiliumPolicy.AddingPlainDenyNeverRaises` | internal/policy/cilium/analyze.go:813-876 | For ingress, and for egress peers not matched by CIDR only, adding a deny never raises the verdict. |
| `CiliumReading.VerdictReads` | internal/policy/cilium/analyze.go:588-667 | FAIL, WARN and PASS, each as an if-and-only-if over the entries of the selecting rules: FAIL exactly when a deny matches by peer and ports (for egress not by CIDR only), or some entry selects the pod while none denies or allows anything. |
| `CiliumReading.MissingDenyIsHarmless` | internal/policy/cilium/analyze.go:598-608 | Beside another entry, adding a deny whose peer or ports do not match leaves the verdict unchanged; so does the ingress loop at lines 823-833. |
| `CiliumReading.MissingAllowIsHarmless` | internal/policy/cilium/analyze.go:609-635 | Beside another entry, adding an allow that allows nothing leaves the verdict unchanged. |
| `CiliumReading.OtherPortsPass` | internal/policy/cilium/analyze.go:598-643 | Under one rule, a deny for other ports does not block what the allow beside it admits. |
| `CiliumReading.OtherPortExample` | internal/policy/cilium/analyze.go:598-643 | A deny for TCP 443 beside an allow does not block TCP 80: PASS. |
| `CiliumReading.PortExamples` | internal/policy/cilium/analyze.go:1157-1184 | Numbers, ranges with both ends included, and protocols, on single ports. |
| `CiliumReading.NamedPortExamples` | internal/policy/cilium/analyze.go:1123-1184 | Named ports, protocols in lower case, a candidate without a protocol, and empty lists. |
| `CiliumWildcard.WildcardHostMatches` | internal/policy/cilium/analyze.go:787-811 | The loop accepts exactly when the front parts fit in order and the last part is a suffix; the final position is the least end of the front parts. |
| `CiliumWildcard.IndexIsLeftmost` | internal/policy/cilium/analyze.go:799-808 | The search finds the leftmost occurrence, and fails only when there is none. |
| `CiliumWildcard.NextEnd` | internal/policy/cilium/analyze.go:799-808 | Exchange step: from the least end of the parts so far, the leftmost occurrence gives the least next end. |
| `CiliumWildcard.NoNextPart` | internal/policy/cilium/analyze.go:799-808 | Exchange step: when the leftmost search fails, no other placement of the earlier parts helps. |
| `CiliumWildcard.GlobIsParts` | internal/policy/cilium/analyze.go:787-811 | Membership in the glob language, by the parts between stars. |
| `CiliumWildcard.NeverMisses` | internal/policy/cilium/analyze.go:787-811 | Every host in the pattern's language is accepted, except the empty host by the lone star. |
| `CiliumWildcard.LanguageIsAcceptWithoutOverlap` | internal/policy/cilium/analyze.go:787-811 | A host is in the language exactly when the code accepts and the last part does not overlap what the search consumed. |
| `CiliumWildcard.LanguageOfPlainPatterns` | internal/policy/cilium/analyze.go:787-795 | For a pattern without a star, acceptance is membership. |
| `CiliumWildcard.LoneStar` | internal/policy/cilium/analyze.go:788-790 | The lone star stands for every host, and the code accepts all but the empty one. |
| `CiliumWildcard.OneStarOverlap` | internal/policy/cilium/analyze.go:787-811 | For one star the wrongly accepted hosts are exactly those shorter than the two literal parts together. |
| `CiliumWildcard.OverlapExample` | internal/policy/cilium/analyze.go:809-810 | Counterexample: `a*a` accepts `a`. |
| `Weights.TotalBackendWeight` | internal/check/gateway.go:4434-4442 | The total is the sum of the positive weights. |
| `Weights.TenthsIsNearest` | internal/check/gateway.go:4451-4463 | For a weight that is not negative the printed tenths are nearest, half up. |
| `Weights.NegativeTenths` | internal/check/gateway.go:4451-4463 | A negative weight is truncated toward zero; the result is nearest exactly when the cut part is at most half a tenth. |
| `Weights.TenthsMonotone` | internal/check/gateway.go:4451-4463 | A heavier backend never shows a smaller percentage, for all weights. |
| `Weights.PercentagesAddUp` | internal/check/gateway.go:4434-4463 | Without negative weights the printed percentages of n backends add up to 100 within n half-tenths. |
| `Weights.PercentagesWithNegatives` | internal/check/gateway.go:4434-4463 | For all weights the printed percentages add up to 100 plus the negative weights' share, within n half-tenths below (one less for each negative weight) and one more half-tenth above for each negative weight. |
| `RulePrecedence.CompareRuleScore` | internal/check/gateway.go:5323-5335 | The loop over the score pairs returns the sign of the first difference. |
| `RulePrecedence.ScoreOrder` | internal/check/gateway.go:5323-5335 | Score comparison is antisymmetric, transitive, and zero only on equal scores. |
| `RulePrecedence.BestMatchIsHighest` | internal/check/gateway.go:5395-5464 | A rule's score is the highest among the matches the request satisfies, and exists exactly when one is satisfied. |
| `RulePrecedence.MatchedRuleHasScore` | internal/check/gateway.go:5351-5360 | A rule that matches the request always has a score. |
| `RulePrecedence.PrecedenceAsymmetric` | internal/check/gateway.go:5300-5321 | Precedence is irreflexive and asymmetric. |
| `RulePrecedence.PrecedenceTotal` | internal/check/gateway.go:5300-5321 | Two different rules are always ordered by score, age (a missing time last), route and rule number. |
| `RulePrecedence.PrecedenceTransitive` | internal/check/gateway.go:5300-5321 | Precedence is transitive when one route has one creation time. |
| `RouteReading.CompareReads` | internal/check/gateway.go:5323-5335 | One score is greater exactly when its field is larger at the first of the seven fields where the two differ. |
| `RouteReading.ScoreIsBest` | internal/check/gateway.go:5395-5414 | An HTTP rule's score is that of one satisfied match, and no other satisfied match is ahead of it by the fields. |
| `RouteReading.PathScores` | internal/check/gateway.go:5416-5443 | An exact path is worth more than any other, a longer prefix more than a shorter one or none, a regular expression least. |
| `RouteReading.NoPathScores` | internal/check/gateway.go:5351-5464 | A match without a path condition scores as the prefix `/`, and so does an HTTP rule without matches; gRPC and TLS rules without matches score zero. |
| `RouteReading.FieldScores` | internal/check/gateway.go:5436-5443 | With equal paths: a method, then more headers, then more query parameters. |
| `RouteReading.GRPCScores` | internal/check/gateway.go:5466-5478 | For gRPC: a longer service name, then a method, then more headers. |
| `RouteReading.BestHostReads` | internal/check/gateway.go:5362-5375 | A route's host score is that of one hostname that matches, and no other matching hostname is ahead of it. |
| `RouteSelection.FindRuleMatches` | internal/check/gateway.go:5205-5253 | The nested loops report exactly the rules at the visited sites, in order, then sorted. |
| `RouteSelection.FindCandidatePaths` | internal/check/gateway.go:5480-5550 | The nested loops report exactly the live backends at the visited sites, in order, then sorted. |
| `RouteSelection.SiteMembers` | internal/check/gateway.go:5205-5253 | A site is visited exactly when listener, attachment, hostname and rule all match, stated without a traversal. |
| `RouteWinners.KeyMeansSameRule` | internal/check/gateway.go:5296-5298 | Equal rule keys mean the same gateway, listener, route and rule number. |
| `RouteWinners.GroupByListener` | internal/check/gateway.go:5259-5263 | The grouping loop splits the matches by listener and keeps their order. |
| `RouteWinners.WinnerIsUniqueLeast` | internal/check/gateway.go:5265-5270 | The winner of a listener is one of its matches and precedes every other one; no two tie. |
| `RouteReading.WinnerReads` | internal/check/gateway.go:5300-5321 | On the fields: against every other match of the listener the winner has the larger field at the first difference of the scores; with equal scores the older route, a missing time last; then the route name that sorts first, then the lower rule number. |
| `RouteReading.OutrankedLoses` | internal/check/gateway.go:5255-5277 | A match that another one of its listener is ahead of by a score field is not the winner. |
| `RouteReading.ExactPathWins` | internal/check/gateway.go:5395-5443 | From the routes: with equal host scores, a rule whose satisfied match has an exact path beats one that has none. |
| `RouteReading.LongerPrefixWins` | internal/check/gateway.go:5395-5443 | From the routes: with equal host scores, a satisfied prefix beats shorter prefixes, a missing path condition and regular expressions. |
| `RouteReading.ExactHostWins` | internal/check/gateway.go:5362-5393 | From the routes: a route that names the host beats one that only covers it by wildcards or has no hostnames. |
| `RouteWinners.WinnerIgnoresOrder` | internal/check/gateway.go:5255-5277 | The winner is the same for every order of the matches. |
| `RouteWinners.SelectPrecedenceRules` | internal/check/gateway.go:5255-5277 | The selection is the sorted list of the listeners' winners, for any iteration order of the groups map. |
| `RouteWinners.SelectionMembers` | internal/check/gateway.go:5255-5277 | The selection holds the winner of every listener with a match and nothing else. |
| `RouteWinners.SelectionIgnoresOrder` | internal/check/gateway.go:5255-5277 | Neither the order of the matches nor the iteration order of the groups map changes the selection. |
| `RouteWinners.FilterToSelected` | internal/check/gateway.go:5279-5294 | The filter keeps the paths whose rule key is selected; without a selection it keeps all. |
| `RouteWinners.FoundRulesAreConsistent` | internal/check/gateway.go:5205-5253 | What the finder reports meets the hypotheses of the winner lemmas: one entry per rule and listener, one creation time per route. |
| `RouteWinners.PathsRunThroughRules` | internal/check/gateway.go:5480-5550 | Every backend path found belongs to a reported rule. |
| `RouteWinners.RuleYieldsPathIffLive` | internal/check/gateway.go:5480-5550 | A reported rule yields a path exactly when it has a backendRef with a name and a weight other than zero. |
| `RouteReading.PathByWeight` | internal/check/gateway.go:5506-5518 | On the field: a reported rule yields a path exactly when some backendRef has a name and its weight is absent or other than zero. |
| `RouteReading.PathShows` | internal/check/gateway.go:5515-5540 | A path shows its backendRef: an absent weight is 1, an absent port 0, an absent namespace the route's. |
| `ReportOrder.RulesAscend` | internal/check/gateway.go:5247-5251 | Of one route at one listener the found rules come by rule number, up to 999. |
| `ReportOrder.PathsAscend` | internal/check/gateway.go:5544-5548 | Of one route at one listener the found paths come by rule number and then by backendRef, up to 999 of each. |
| `ReportOrder.FourDigitsSortFirst` | internal/check/gateway.go:5247-5251 | Beyond 999 they do not: rule 1000 sorts before rule 999. |
| `GatewayReading.FamilyExamples` | internal/check/gateway.go:544-613 | Which route family a request without an explicit one asks for. |
| `GatewayReading.ProtocolExamples` | internal/check/gateway.go:5562-5591 | Which listener protocols serve HTTP, gRPC and TLS requests. |
| `GatewayReading.ParentExamples` | internal/check/gateway.go:5693-5710 | A parentRef means a Gateway of the route's namespace, and all its listeners, unless it says otherwise. |
| `GatewayReading.NoPathCondition` | internal/check/gateway.go:5746-5749 | Without a path condition every absolute path matches. |
| `GatewayReading.MethodExamples` | internal/check/gateway.go:5774-5780 | Methods compare without case; a request without a method meets no method condition. |
| `GatewayReading.GRPCExamples` | internal/check/gateway.go:5643-5669 | What a gRPC match names the request has to name too. |
| `GatewayReading.RuleReads` | internal/check/gateway.go:5615-5727 | A rule without matches takes every absolute path, gRPC call or TLS connection; otherwise one of its matches has to be met. |
| `RouteWinners.TracePaths` | internal/check/gateway.go:3411-3417 | After finding, selecting and filtering, a path survives exactly when its rule is the winner of its listener, even when that winner has no backends. |
| `NoMatch.MatchingListeners` | internal/check/gateway.go:4664-4676 | The listener stage returns exactly the listeners that match the intent. |
| `NoMatch.AttachedRoutes` | internal/check/gateway.go:4835-4850 | The attachment stage returns attached routes only, and one for every attached reference. |
| `NoMatch.HostnameRoutes` | internal/check/gateway.go:4852-4860 | The hostname stage keeps exactly the routes whose hostnames match. |
| `NoMatch.RoutesMatching` | internal/check/gateway.go:4936-4966 | A match stage keeps routes with a passing match, and one for every such reference. |
| `NoMatch.SomeRouteHas` | internal/check/gateway.go:4882-4902 | A gRPC stage tells whether some route has a passing match. |
| `NoMatch.Explain` | internal/check/gateway.go:4557-4657 | Each reason as an if-and-only-if on the cluster: NoPath exactly when some route of an HTTP search stands at a matching listener with a matching hostname and none of those has a match that passes the path, and so on for the gateway, listener, attachment, hostname, method, header, query and gRPC reasons. |
| `NoMatch.NoStageIsBlamed` | internal/check/gateway.go:4557-4657 | If any rule matches the request, no stage-specific reason is returned. |
| `NoMatch.BlameMeansNoRule` | internal/check/gateway.go:4557-4657 | A stage-specific reason means that the rule finder found nothing. |
| `NoMatch.WellNamedRefsAreUnique` | internal/check/gateway.go:6229-6234 | Namespace and name make the references by which stages drop repetitions unique. |
| `RouteScope.AddParents` | internal/check/gateway.go:6054-6076 | The parentRefs loop records the gateway of every Gateway parent, under its section name or for all listeners. |
| `RouteScope.AddRoutes` | internal/check/gateway.go:6037-6078 | The routes loop adds exactly what the selected routes record. |
| `RouteScope.RouteScopeForFilter` | internal/check/gateway.go:6022-6085 | The index is active exactly with a route filter and then holds the keys of the selected routes of the five families and what they record, and nothing else. |
| `RouteScope.ScannedIffAttachedBySection` | internal/check/gateway.go:1768-1773 | For every listener, an active index admits it exactly when some selected route attaches to it; an unnamed listener needs a parentRef without a section. |
| `RouteScope.ScannedIffAttached` | internal/check/gateway.go:5693-5710 | For a named listener, index and gatewayRouteAttachedToGateway agree for the selected routes. |
| `RouteScope.InactiveScansAll` | internal/check/gateway.go:1768-1773 | Without a route filter every listener is scanned. |
| `RouteScope.QualifiedFilterReads` | internal/check/gateway.go:5126-5136 | A filter `namespace/name` selects that route. |
| `RouteScope.BareFilterReads` | internal/check/gateway.go:5174-5182 | A bare name selects it in the given namespace, or in any when none is given. |
| `BackendRefs.CountReady` | internal/check/gateway.go:6369-6377 | The loops add up the addresses of the endpoints whose ready condition is not false. |
| `BackendRefs.NoneReady` | internal/check/gateway.go:6369-6377 | The count is zero exactly when every ready endpoint is without addresses. |
| `BackendRefs.Caches.CachedService` | internal/check/gateway.go:6337-6352 | The first answer, good or bad, is pinned; a pinned key causes no API call, and no key is fetched twice. |
| `BackendRefs.Caches.CachedReadyCount` | internal/check/gateway.go:6354-6380 | The same for the ready-address counts. |
| `BackendRefs.OutcomeStays` | internal/check/gateway.go:6337-6380 | Once a backendRef's outcome is pinned no later call changes it, whatever the API answers. |
| `BackendRefs.AnalyzeBackendRef` | internal/check/gateway.go:4299-4363 | The analysis is broken exactly with the first fault found under the pinned answers. |
| `BackendRefs.Scanner.AddProblem` | internal/check/gateway.go:410-427 | The report holds the first `limit` problems raised; later ones only set the truncation mark. |
| `BackendRefs.Scanner.ScanBackendRef` | internal/check/gateway.go:3336-3391 | The scan raises the fault of the pinned outcome, a warning for unreadable endpoints, and nothing for a healthy backend or weight zero; pinned outcomes cost no API call. |
| `BackendRefs.TraceBackends` | internal/check/gateway.go:3445-3485 | Over all distinct backendRefs of a trace, the faults the scan raises are, in order, the reasons the analysis gave for those with weight other than zero, and no key is fetched twice; every such target whose weight is absent or not zero has its reason raised. |
| `BackendRefs.ScanAll` | internal/check/gateway.go:3468-3485 | The scan pass asks the API nothing. |
| `BackendRefs.StaticFaultExamples` | internal/check/gateway.go:4299-4339 | The faults of a backendRef that no API answer can change, written out. |
| `BackendRefs.ServiceExamples` | internal/check/gateway.go:4340-4363 | The faults of a Service, its port and its endpoints, and what is no fault. |
| `BackendRefs.ReadyExamples` | internal/check/gateway.go:6369-6377 | An endpoint counts unless it says that it is not ready. |
| `Diagnoses.Report.DedupeDiagnoses` | internal/check/gateway.go:651-722 | The two passes keep, in order, exactly the diagnoses that no diagnosis of the list suppresses; a list of fewer than two is left alone. |
| `Diagnoses.Report.Diagnose` | internal/model/model.go:82-89 | A message that is there already is not added again, so a report never holds one twice. |
| `Diagnoses.Mark` | internal/check/gateway.go:662-685 | One round of the first pass records the object of the message in the tables of its classes. |
| `Diagnoses.Skip` | internal/check/gateway.go:687-720 | The ten conditions of the second pass skip a message exactly when the list suppresses it. |
| `DiagnosisReading.KeptReads` | internal/check/gateway.go:687-720 | A message leaves a report of two or more exactly when one of the report hides it, with the pairs of wordings that hide each other written out. |
| `DiagnosisReading.UnattachedMessage` | internal/check/gateway.go:798-800 | A printed diagnosis of an unattached route is read as one, for that route. |
| `DiagnosisReading.NoParentMessage` | internal/check/gateway.go:802-804 | The same for a route without parent status. |
| `DiagnosisReading.RejectedMessage` | internal/check/gateway.go:806-808 | The same for a route that a Gateway rejects. |
| `DiagnosisReading.NoAcceptedMessage` | internal/check/gateway.go:810-812 | The same for a route that no parent accepts. |
| `DiagnosisReading.StatusReferenceMessage` | internal/check/gateway.go:794-796 | The same for unresolved references in the status of a route. |
| `DiagnosisReading.ConcreteBackendMessage` | internal/check/gateway.go:786-792 | The same for the faults of a backendRef. |
| `DiagnosisReading.GatewaySecretMessage` | internal/check/gateway.go:814-817 | The same for a missing TLS Secret of a Gateway. |
| `DiagnosisReading.GatewayGrantMessage` | internal/check/gateway.go:814-817 | The same for a Secret of another namespace that does not grant the reference. |
| `DiagnosisReading.ListenerStatusMessage` | internal/check/gateway.go:819-823 | A condition of a listener is read as one, for its Gateway. |
| `DiagnosisReading.ListenerSetRejectedMessage` | internal/check/gateway.go:838-840 | A rejected ListenerSet is read as one. |
| `DiagnosisReading.ListenerSetProgrammedMessage` | internal/check/gateway.go:842-844 | The same for one that is not programmed. |
| `DiagnosisReading.ListenerSetSecretMessage` | internal/check/gateway.go:846-850 | The same for a missing Secret of a ListenerSet. |
| `DiagnosisReading.PolicyMessage` | internal/check/gateway.go:852-859 | The same for the faults of a BackendTLSPolicy. |
| `DiagnosisReading.PolicyStatusMessage` | internal/check/gateway.go:861-865 | The same for its conditions. |
| `DiagnosisReading.MissingSecretMessage` | internal/check/gateway.go:825-830 | A missing Secret of the matched listener is read as the cause of the traced request's failure. |
| `DiagnosisReading.TrafficStatusMessage` | internal/check/gateway.go:832-836 | The same listener's conditions are read as its status. |
| `DiagnosisReading.TrafficUnattachedMessage` | internal/check/gateway.go:716-718 | The note that no HTTPRoute attaches to the matched listeners is read as one. |
| `Diagnoses.Idempotent` | internal/check/gateway.go:651-722 | Suppressing twice is suppressing once, for all messages. |
| `Diagnoses.DedupeKeepsOrder` | internal/check/gateway.go:686-721 | What is left is a subsequence of the report. |
| `Diagnoses.OneClassIsOneLevel` | internal/check/gateway.go:651-722 | A message of a single class meets the hypothesis of the survivor lemmas. |
| `Diagnoses.SuppressedIsExplained` | internal/check/gateway.go:651-722 | When no message mixes classes of different levels, every suppressed diagnosis has a surviving one that suppresses it directly or through one intermediate diagnosis. |
| `Diagnoses.NeverEmpties` | internal/check/gateway.go:651-722 | Under the same hypothesis a non-empty report stays non-empty. |
| `SuppressionLoops.ExplainedExactly` | internal/check/gateway.go:651-722 | For any stock of messages: every report of at least two different ones explains each suppressed message by a survivor, through a chain of suppressions, if and only if suppression runs in no circle of two or more messages and a message that suppresses itself is suppressed by every other one too. |
| `SuppressionLoops.ExplainedWithoutLoops` | internal/check/gateway.go:651-722 | Among messages that do not suppress themselves, if and only if suppression has no circle at all. |
| `SuppressionLoops.NeverEmptiedExactly` | internal/check/gateway.go:651-722 | No such report is emptied if and only if suppression runs in no circle of two or more messages, and a message that suppresses itself suppresses no other and stands beside no other that does. |
| `SuppressionLoops.OneLevelIsOrderly` | internal/check/gateway.go:651-722 | Messages of one level, in particular of one class, meet both conditions. |
| `SuppressionLoops.SelfSuppressionExplained` | internal/check/gateway.go:651-722 | A message that suppresses itself is still explained when the only other one suppresses it and stands. |
| `DiagnosisWording.KeptBesideAnother` | internal/check/gateway.go:651-722 | A message can stand in a report beside a different one if and only if it does not suppress itself. |
| `DiagnosisWording.RouteSelfSuppression` | internal/check/gateway.go:689-702 | A route message suppresses itself only when it falls into a class and into the suppressor of that class. |
| `DiagnosisWording.QuotedStatusHidesItself` | internal/check/gateway.go:3272-3274 | Counterexample: an unresolved-references diagnosis whose controller text speaks of a backendRef suppresses itself. |
| `DiagnosisWording.QuotedStatusesEmptyTheReport` | internal/check/gateway.go:3272-3274 | Counterexample: two such diagnoses of a route leave an empty report. |
| `DiagnosisWording.QuotedRejectionEmptiesTheReport` | internal/check/gateway.go:3272-3274 | Counterexample: an unresolved-references diagnosis whose controller text tells of a rejection and a concrete backend diagnosis of the route suppress each other and leave an empty report. |
| `DiagnosisWording.TwoMessageLoop` | internal/check/gateway.go:3366-3369 | Two literal messages of that kind: neither suppresses itself, and together they empty the report. |

## Left out

- API reads, pod exec, HTTP probes, timeouts, command-line flags and all output: I/O.
- Message wording beyond the class of a diagnosis, the hints that gatewayExplainNoTrafficMatch adds to a reason, and the formatted text of percentages.
- The Envoy Gateway policy scans, redirects and other rule filters: long lists of single-field checks.
- The Envoy backend, filter and Service sets that the route-scope index also collects: filled by the same loop, used by no decision modelled here.
- The `reported` and `scanned` maps of scanGatewayTrafficIntent, which make its backendRefs distinct: TraceBackends takes the distinct list; the mixed-weight groups, which only move a diagnosis, are not modelled.
- Explain: two stage routines that differ only in their field test are one method with the test as a parameter.
- Decision: the peer criteria of a Cilium entry are one value (matched, matched by CIDR only, missed); how selectors decide it is not modelled.
- Header names that differ only in case inside one intent: the intent's header map is taken to be in lower case, as option parsing makes it.
- Hostnames.WildcardIsOneLabel: stated for normalized names; lower-casing covers ASCII letters only.
- ShellWords.QuotedListReadsBack: reads the quoting and word splitting of section 2.2, not expansions; a value with a NUL byte cannot reach a process and is not excluded.
- Sorting: Go's sort.Slice and sort.SliceStable are both a stable insertion sort; for the unstable one the results rest on total orders, which are proved.
- Weights.TenthsIsNearest: integers are unbounded, so an int64 overflow of weight times 1000 is not modelled.
- CalicoPorts.EntityPortsMatch: a token's text is not parsed; Go's Sscanf accepts a numeric prefix of a longer string.
- CalicoDecision.DirectionDecision: the workload-profile fallback is an opaque result; host endpoint policies are not part of this model.
- Calico port posture and Cilium external egress: further evaluations of the same kind, whose verdicts add easy members.
- Cilium DNS evaluation: it returns at the first decisive rule and resolver, so the order results do not apply to it.
- Diagnoses.Report.DedupeDiagnoses: strings.Fields splits at ASCII white space.
- Native NetworkPolicy, Istio, MTU, events, NodePort and discovery checks: existence checks without a hard property.
