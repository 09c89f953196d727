# Chera, modelled and proved in Dafny

Chera diagnoses why a service cannot be reached: it resolves a host through several
independent paths, connects, shakes hands, fetches, and combines what it saw into one
verdict per target. This project models the parts that carry logic and proves what they
promise. `dafny verify dfyconfig.toml` checks everything.

| files | what they hold |
|---|---|
| Base, Model, NetErrors | addresses, bytes, verdicts, error kinds |
| Firsts | keeping the first element of every key, by positions |
| DnsWire, DnsWireProofs | the DNS codec: buffer-building methods and the pointer-following parser, against RFC 1035 |
| DnsSections | what a message says, read off its bytes section by section |
| Resolvers, ResolverProofs | the UDP accept loop and DNS-over-HTTPS, and a lookup end to end |
| Presets, PresetsProofs, PresetsOrder | the include graph: walk, merge, lookup, and the order of what is returned |
| DnsCheck, DnsCheckProofs, AnalysisExact | the analysis of all resolvers' answers, and exactly when each of its fields is set |
| TcpCheck, TlsCheck, Layers | the results of the other layers |
| Verdict, VerdictProofs | the rule engine, and exactly when it gives which verdict |
| Pipeline, PipelineProofs | which layers run when for one target, and what a verdict therefore guarantees |
| Scheduler, SchedulerProofs, SchedulerTheorems | a run over all targets as a state machine: semaphore, done channel, two Onces, result slots |
| OnTheWire, OnTheWireProofs, OnTheWireReasons | each decision in terms of dials, handshakes, responses and answers alone |
| RunTheorems, RunVerdicts | the scheduler running the real pipeline, and what a finished run therefore reports |
| Socks5, Socks5Proofs | the proxy dialogue over a byte stream and the hand-over to the tunnel |
| Report, ReportProofs, ReportText | grouped suggestions and the summary, down to their text |

Conventions:

- Code that changes state is a method or a class, proved against a function of its inputs;
  the `...Proofs` modules state what that function means.
- Everything the network answers is a parameter: resolver answers, dial errors, handshake
  outcomes, HTTP exchanges, datagrams, proxy bytes. Theorems hold for all of them.
- A Go string on the wire is a byte sequence. Case folding of hosts and names is a
  parameter: the theorems hold for every folding function (HonestLookup asks only that a
  name equals itself).
- In the scheduler every layer call is in progress between the step that enters its phase
  and the step that leaves it. Every theorem quantifies over all sequences of steps.

What the code does where its own documents suggest more:

- Names of 65 to 127 labels can be sent but not read, and an answer with records needs a
  name of at most 63 labels, because the hop budget counts labels, pointers and the final
  zero byte. AnswerRoundTrip and QueryRoundTrip give the exact bounds.
- The record counter of an answer wraps after 65535 records.
- Without any usable DoH answer the reference depends on the order of the public resolvers
  (PublicOrderMatters), exactly when clean public answers disagree (PublicOrderIff).
- The SOCKS5 client does not look at the version byte of the authentication and connect
  replies nor at the reserved byte: LenientGrants gives accepted replies with wrong bytes,
  SuccessIsStrictIff the exact condition.
- It follows a proxy that asks for credentials that were not offered and truncates the port to
  16 bits (IntendedIff), and sends empty credentials that RFC 1929 does not allow
  (CredentialsMeetRfcIff).
- A UDP answer beyond 1500 bytes is not reported as truncated: it is dropped and the lookup
  goes on waiting.

## Model

| member | source | states |
|---|---|---|
| DnsWire.AppendName | internal/dnswire/dnswire.go:46-59 | accepts exactly the names within the limits of RFC 1035 section 2.3.4 (1 to 253 bytes, labels of 1 to 63) and appends their length-prefixed labels |
| DnsWire.Query | internal/dnswire/dnswire.go:31-44 | the twelve-byte header with RD set, one question of class IN, or an error for exactly the invalid names |
| DnsWire.Answer | internal/dnswire/dnswire.go:168-203 | header, question and one record per matching address behind a pointer to offset 12; the 16-bit record counter wraps |
| DnsWire.AppendRecords | internal/dnswire/dnswire.go:180-201 | the record loop keeps only addresses of the question's type, in order, and counts them modulo 65536 |
| DnsWire.ReadName | internal/dnswire/dnswire.go:207-239 | the loop with its 65-iteration budget computes the recursive reading of a compressed name |
| DnsWire.ReadHop | internal/dnswire/dnswire.go:211-237 | stops exactly at a zero byte, jumps exactly at a two-byte pointer to its 14-bit target, and yields a label exactly when one of 1 to 63 bytes lies inside the message |
| DnsWire.ParseQuestions | internal/dnswire/dnswire.go:95-113 | keeps the first of all questions and ends behind the last one |
| DnsWire.ParseAnswers | internal/dnswire/dnswire.go:114-141 | the record loop computes the recursive reading; what that reading means is SectionIsRead |
| DnsWire.Parse | internal/dnswire/dnswire.go:79-143 | decodes any byte string as the recursive specification does, whose meaning is ParseIff; no index or slice leaves the message |
| DnsSections.ParseIff | internal/dnswire/dnswire.go:79-143 | a message is accepted exactly when it can be laid out as RFC 1035 section 4.1 says: response bit, then as many questions and records as the counts say, each starting where the one before it ended; the result is the ID, the code, the truncation bit, the first question and the addresses its records hold |
| DnsSections.SectionIsRead | internal/dnswire/dnswire.go:114-141 | record after record, an address is taken from exactly the records of type 1, class 1 and length 4, or type 28, class 1 and length 16, in their order |
| DnsSections.MatchingIff | internal/dnswire/dnswire.go:180-184 | an answer includes each given address, in its place, exactly when it is IPv4 for type 1 or IPv6 for type 28 |
| DnsSections.ValidNameIff | internal/dnswire/dnswire.go:46-59 | a name can be sent exactly when it has 1 to 253 bytes without its final dot and labels of 1 to 63 bytes |
| DnsSections.TrimDotIff | internal/dnswire/dnswire.go:47 | one final dot of a name is dropped, and nothing else |
| DnsSections.QuerySpelled | internal/dnswire/dnswire.go:31-44 | the query byte for byte: the ID, recursion desired, one question, the name, the type, class 1 |
| DnsSections.RecordSpelled | internal/dnswire/dnswire.go:184-199 | a record byte for byte: a pointer to offset 12, the type, class 1, 60 seconds, 4 or 16 bytes of address |
| DnsSections.AnswerSpelled | internal/dnswire/dnswire.go:168-203 | the answer byte for byte, with the code modulo 16 and the record count modulo 65536 |
| DnsWire.ParseSpec | internal/dnswire/dnswire.go:79-143 | an accepted message has at least 12 + 5*QDCOUNT + 11*ANCOUNT + 4*addresses bytes and no more addresses than records; every failure is malformed |
| DnsWireProofs.ParseQuestionIff | internal/dnswire/dnswire.go:147-164 | a question is read exactly from a message with a header, a question count and a name whose walk ends within 65 offsets and before its type and class, and is what that walk and those fields say |
| DnsWire.NameSpec | internal/dnswire/dnswire.go:207-239 | on success the returned offset is past the start and inside the message, wherever the pointers led |
| DnsWireProofs.NameReadIffWalk | internal/dnswire/dnswire.go:207-239 | a name is read exactly when following labels and pointers (RFC 1035 section 4.1.4) reaches a zero byte within 65 offsets, and the result is the labels met and the offset behind the first pointer or the zero byte |
| DnsWireProofs.LoopIsMalformed | internal/dnswire/dnswire.go:210-213 | a name whose walk visits an offset twice is malformed |
| DnsWireProofs.AnswerRoundTrip | internal/dnswire/dnswire.go:79-203 | for every name that can be encoded, every code and every address list, parsing an answer returns the ID, the code modulo 16, the trimmed name, the type and the matching addresses without zones, the first (count modulo 65536) of them; it is malformed exactly when the name has more than 64 labels, or 64 and a record |
| DnsWireProofs.QueryRoundTrip | internal/dnswire/dnswire.go:31-44 | every query that can be built is understood, exactly unless its name has more than 64 labels |
| DnsWireProofs.QueryIsNotAResponse | internal/dnswire/dnswire.go:89-91 | a query is never accepted as a response |
| DnsWireProofs.DeepNamesAreNotReadBack | internal/dnswire/dnswire.go:46-59 | concrete names of 65 to 127 labels that are accepted for sending and rejected when read |
| DnsWireProofs.EncodedLabelsRead | internal/dnswire/dnswire.go:211-237 | n encoded labels are read back exactly with a budget above n |
| DnsWireProofs.EncodedRecordsRead | internal/dnswire/dnswire.go:114-141 | records behind a compression pointer are read back in order |
| DnsWireProofs.JoinSplit | internal/dnswire/dnswire.go:51 | joining the labels of a name with dots gives the name back |
| Resolvers.UdpExchange | internal/dnscheck/resolvers.go:131-161 | fails for exactly the invalid names, sends the query for type 1, and returns the first datagram that parses with the query's ID and name |
| ResolverProofs.AcceptsIff | internal/dnscheck/resolvers.go:150-160 | a datagram is accepted exactly when it can be laid out as a response with the query's ID and a question that has the queried name up to case |
| Resolvers.Await | internal/dnscheck/resolvers.go:149-160 | the receive loop over one reused 1500-byte buffer computes the first accepted datagram |
| Resolvers.Receive | internal/dnscheck/resolvers.go:151-155 | a read leaves the datagram, cut to the buffer's size, at the start of the buffer whatever was there before |
| Resolvers.FirstAccepted | internal/dnscheck/resolvers.go:150-160 | there is a response exactly when some datagram is accepted, and it carries the query's ID and name |
| Resolvers.AddrsFrom | internal/dnscheck/resolvers.go:167-185 | NXDOMAIN, other codes, no IPv4 address, or the IPv4 addresses in order with mapped ones unwrapped |
| ResolverProofs.UdpLookupIff | internal/dnscheck/resolvers.go:114-185 | each outcome of a lookup says exactly what arrived: an invalid name, no accepted datagram, or the code and IPv4 addresses of the first accepted one |
| ResolverProofs.DohLookupIff | internal/dnscheck/resolvers.go:227-255 | addresses come only from a 200 response whose body is a readable message with code 0 and some IPv4 address, and they are its IPv4 addresses |
| ResolverProofs.HonestLookup | internal/dnscheck/resolvers.go:114-185 | behind any number of datagrams that are not accepted, an honest answer to a name of up to 63 labels gives the caller exactly its addresses, or the meaning of its code, if 18 + name + 16*addresses bytes fit the buffer, and is dropped otherwise |
| ResolverProofs.HonestDohLookup | internal/dnscheck/resolvers.go:227-255 | over HTTPS any answer about any name is taken, up to 65535 bytes |
| ResolverProofs.AnswerThrough | internal/dnscheck/resolvers.go:149-157 | an answer cut at any size limit is read completely or not at all |
| ResolverProofs.ParsePrefix | internal/dnswire/dnswire.go:79-143 | bytes behind a readable message are never looked at |
| ResolverProofs.CutIsMalformed | internal/dnswire/dnswire.go:79-143 | a message cut anywhere before its end is malformed |
| Presets.Walker.Walk | internal/presets/presets.go:113-138 | the recursive closure adds to the captured list and set what the flattening of the preset says, or reports its first error, and terminates on cyclic graphs; in which order and for which targets is LeadingIsReturned, ReturnedLeads and ReturnedInOrder |
| Presets.Walker.AppendOwn | internal/presets/presets.go:129-136 | a preset's own targets join the list unless their folded host was seen |
| Presets.PresetSet.Merge | internal/presets/presets.go:71-78 | replaces presets of the same name and the default when one is given, whatever the iteration order |
| Presets.PresetSet.Names | internal/presets/presets.go:99-106 | all names, each once, in byte order |
| Presets.PresetSet.Resolve | internal/presets/presets.go:110-143 | the depth-first walk computes the resolved preset that the lemmas below are about |
| PresetsOrder.LeadingIsReturned | internal/presets/presets.go:113-138 | over what the includes of a preset resolve to, in order, and its own targets last, the first target with a host is returned, so a host of an include is represented by the target the first such include resolves to even if the preset defines it too |
| PresetsOrder.ReturnedLeads | internal/presets/presets.go:113-138 | nothing but such first targets is returned |
| PresetsOrder.ReturnedInOrder | internal/presets/presets.go:113-138 | they stand include by include, own targets behind all includes, and inside each part in its order |
| PresetsOrder.StrLessIff | internal/presets/presets.go:99-106 | names are ordered by the first byte in which they differ, a prefix first |
| PresetsOrder.LookupIsFirst | internal/presets/presets.go:147-157 | a lookup returns the very first target of that host over the presets in name order, and nothing exactly when there is none |
| Presets.PresetSet.Lookup | internal/presets/presets.go:147-157 | the first target of that folded host in the order of the sorted preset names |
| PresetsProofs.ResolveFailsIff | internal/presets/presets.go:110-143 | resolving fails exactly when an unknown name or an include cycle is reachable |
| PresetsProofs.ResolveErrorIsEvidence | internal/presets/presets.go:115-123 | the error names an unknown preset that is reachable, or spells out a real include cycle |
| PresetsProofs.ExtendIsFirstOccurrences | internal/presets/presets.go:129-136 | the in-place deduplication is first-occurrence deduplication by folded host |
| PresetsProofs.ResolveContent | internal/presets/presets.go:110-143 | no host repeats, every target comes from a reachable preset, and every host of a reachable preset is there |
| PresetsProofs.LookupIsDetermined | internal/presets/presets.go:99-106 | there is only one sorted list of names, so a lookup has one answer |
| PresetsProofs.LookupFindsResolved | internal/presets/presets.go:147-157 | every host a resolved preset returns is found by a lookup |
| PresetsProofs.MergeFrame | internal/presets/presets.go:71-143 | a merge that defines no reachable name, present or missing, changes nothing about resolving |
| DnsCheck.Analyze | internal/dnscheck/check.go:139-209 | the loops compute the analysis, whose every field the lemmas of AnalysisExact give in terms of the answers |
| AnalysisExact.ReferenceIff | internal/dnscheck/check.go:141-158 | an address is in the reference exactly when a DoH resolver gave it, or none gave any and it is in the first answer without block-page addresses, public resolvers before the system's |
| AnalysisExact.ReferenceInOrder | internal/dnscheck/check.go:255-269 | reference addresses stand in the order in which those answers first gave them |
| AnalysisExact.ReferenceFrom | internal/dnscheck/check.go:255-269 | every reference address was first given at some place of those answers |
| AnalysisExact.BadListsIff | internal/dnscheck/check.go:161-174 | an address is listed as a block page exactly when a plain resolver gave it and it is one, and as a bogon exactly when it is one, is no block page, was given and the reference holds a public address |
| AnalysisExact.BadListsInOrder | internal/dnscheck/check.go:161-174 | both lists keep the order in which the system resolver and then the public ones first gave the addresses |
| AnalysisExact.SuspectsIff | internal/dnscheck/check.go:183-185 | the suspects are the system answer exactly when it has addresses, a reference exists, no plain answer lied and no address is shared, and else none |
| AnalysisExact.SystemFailureIff | internal/dnscheck/check.go:186-188 | each failure kind is set exactly when the system resolver is configured, gave nothing and failed that way while a DoH or a clean plain answer exists |
| AnalysisExact.InjectedIff | internal/dnscheck/check.go:175-180 | injection is noticed exactly when the reference is from DoH and a public resolver gave a block page, or a bogon beside a public reference |
| AnalysisExact.UnresolvableIff | internal/dnscheck/check.go:189-191 | unresolvable exactly when no resolver of any kind gave an address |
| AnalysisExact.DohUnavailableIff | internal/dnscheck/check.go:192-199 | set exactly when DoH resolvers are configured and each failed on the network |
| AnalysisExact.AllPlainTimeoutIff | internal/dnscheck/check.go:200-207 | set exactly when public resolvers exist and every configured plain resolver timed out |
| DnsCheck.FindReference | internal/dnscheck/check.go:141-158 | all DoH addresses, or else the first clean public answer, or else the clean system answer |
| DnsCheck.ScanPlain | internal/dnscheck/check.go:161-181 | every block-page address and bogon of every plain answer is listed once, and injection noticed |
| DnsCheck.UnionOf | internal/dnscheck/check.go:255-269 | appends what is not there yet |
| DnsCheck.IntersectsOf | internal/dnscheck/check.go:271-280 | whether the lists share an address |
| DnsCheck.HasBadOf | internal/dnscheck/check.go:237-244 | whether a block-page address is listed |
| DnsCheck.AllBogonOf | internal/dnscheck/check.go:246-253 | whether every address is a bogon |
| DnsCheck.AllTimedOut | internal/dnscheck/check.go:200-207 | whether public resolvers exist and every configured plain resolver timed out |
| DnsCheckProofs.UnresolvableIff | internal/dnscheck/check.go:189-191 | a name is unresolvable exactly when no system, public or DoH answer carried an address, although only the three derived lists are tested |
| DnsCheckProofs.AnalysisShape | internal/dnscheck/check.go:139-209 | lists are duplicate-free, bad addresses are classified once, suspects are the whole system answer, disjoint from the reference and never beside poisoning or a system failure |
| DnsCheckProofs.InjectedMeansPoisoned | internal/dnscheck/check.go:178-180 | injection is claimed only beside poisoning and a DoH reference |
| DnsCheckProofs.ReferenceMembers | internal/dnscheck/check.go:141-158 | where the reference comes from, and when there is one |
| DnsCheckProofs.DohOrderIrrelevant | internal/dnscheck/check.go:139-209 | permuting the DoH answers changes nothing but the order inside lists |
| DnsCheckProofs.PublicOrderIrrelevant | internal/dnscheck/check.go:139-209 | with a DoH address, permuting the public answers changes nothing either |
| DnsCheckProofs.PublicOrderIff | internal/dnscheck/check.go:139-209 | no permutation of the public answers matters exactly when some DoH answer carried an address or all clean public answers agree in kind and addresses; the same holds for reorderings with repetition |
| DnsCheckProofs.PublicOrderMatters | internal/dnscheck/check.go:148-158 | the witness: two disagreeing answers whose order decides the reference |
| TcpCheck.ProbeAll | internal/tcpcheck/tcpcheck.go:71-83 | one result per address in input order, in whatever order the attempts finish |
| TcpCheck.Summarize | internal/tcpcheck/tcpcheck.go:98-120 | the first success, and whether all attempts timed out or had no route or any was rejected |
| TlsCheck.Do | internal/tlscheck/tlscheck.go:81-130 | the fields of a handshake, filled step by step, for every outcome of the dial, the handshake and the validation |
| Pipeline.Runner.CheckTls | internal/tlscheck/tlscheck.go:198-214 | two more handshakes, without verification, exactly when the first one died on the network; the names they are made under are SniFilteredOnTheWire's |
| OnTheWireProofs.SniFilteredOnTheWire | internal/tlscheck/tlscheck.go:186-214 | in every finished diagnosis, SNI filtering is claimed at the working address alone, and exactly when the handshake under the target's name is reset, refused, silent or closed there while the one under the neutral name (example.com when none is set), or under none, is answered, be it with an alert |
| PipelineProofs.HandshakeReports | internal/tlscheck/tlscheck.go:81-130 | a handshake record carries the name it was made under and the version, issuer, subject and certificate problem the peer presented |
| VerdictProofs.VerdictIff | internal/verdict/verdict.go:62-262 | on every input whose layers ran in order, a verdict is given exactly when the measurements merit it |
| VerdictProofs.ConfidenceIff | internal/verdict/verdict.go:62-270 | high confidence is claimed exactly for the findings that leave no doubt; Inconclusive is always low |
| VerdictProofs.OkIff | internal/verdict/verdict.go:62-262 | OK exactly when the channel is validated, the answer normal, nothing throttled, DNS clean and the suspect cleared; it is High and alone |
| VerdictProofs.LocalDownIff | internal/verdict/verdict.go:65-73 | the local network is blamed exactly when it is down and nothing connected |
| VerdictProofs.AlsoShape | internal/verdict/verdict.go:75-102 | at most one secondary verdict, a DNS one, beside a definite path verdict |
| VerdictProofs.DnsProblemIsReported | internal/verdict/verdict.go:75-102 | a DNS problem is the verdict or stands beside it, unless the local network is down |
| VerdictProofs.InterceptionOnlyUpgrades | internal/verdict/verdict.go:106-131 | two runs: interception evidence changes the result only beside proven poisoning, and only turns DNS_POISONED into DNS_INTERCEPTED |
| VerdictProofs.PathFinds | internal/verdict/verdict.go:157-262 | the path decision is definite exactly when the path was found at fault, for every verdict |
| VerdictProofs.FallbacksUnreachable | internal/verdict/verdict.go:90-92 | the fallbacks for layers that did not run are never taken on ordered inputs |
| VerdictProofs.ReasonNamesSeenAddress | internal/verdict/verdict.go:112-131 | an address named in a reason was in an answer |
| Pipeline.FillDefaults | internal/probe/probe.go:76-107 | 8 targets, 2 addresses, port 443 and the neutral name exactly where no usable value was set; everything that was set stays |
| Pipeline.Runner.CheckTarget | internal/probe/probe.go:297-368 | fills the record stage by stage as the composition of the layers, and opens exactly the listed connections |
| Pipeline.Runner.CheckDns | internal/probe/probe.go:300-308 | the control lookup is consulted exactly when nothing resolved and every plain resolver timed out |
| Pipeline.Runner.CheckSuspect | internal/probe/probe.go:310-319 | one handshake with the first suspect address, if there is one |
| Pipeline.Runner.CheckTcp | internal/probe/probe.go:321-331 | probes at most MaxAddrs reference addresses |
| Pipeline.Runner.CheckHttp | internal/probe/probe.go:334-352 | TLS, then HTTP exactly when the handshake completed, without verification when its certificate was refused |
| Pipeline.Runner.CheckPath | internal/probe/probe.go:333-358 | TLS on the first working address, HTTP when the handshake completed, the speed test on request after a normal answer |
| Pipeline.Runner.FirstAddrs | internal/probe/probe.go:322-328 | the first MaxAddrs reference addresses with the 16-bit port |
| Pipeline.Runner.ControlOk | internal/probe/probe.go:162-167 | whether the system or a public resolver answers the control name |
| PipelineProofs.RunIsWellStaged | internal/probe/probe.go:297-368 | which layers ran, on which address and with what result, for every network |
| PipelineProofs.InputIsStaged | internal/probe/probe.go:372-385 | every input the pipeline builds satisfies the ordering the verdict theorems need |
| PipelineProofs.NeverBothOnces | internal/probe/probe.go:304-308 | a target that used the control lookup never reaches TCP, the suspect check or the speed baseline |
| PipelineProofs.OkIff | internal/probe/probe.go:297-394 | end to end: OK exactly for a validated certificate from no inspection product, a normal answer and clean DNS, always with high confidence |
| PipelineProofs.OkOnTheWire | internal/probe/probe.go:297-394 | behind an OK stands a reference address that accepted a connection, completed a handshake for the target's name with an accepted certificate, and answered normally |
| PipelineProofs.VerdictIff | internal/probe/probe.go:297-394 | each verdict exactly when the layers' results merit it, high confidence exactly when certain, and dropped queries claimed exactly when the control name resolves; down to what the network does it is VerdictOnTheWire |
| OnTheWireProofs.VerdictOnTheWire | internal/probe/probe.go:297-394 | over every network, resolver, machine and configuration, each verdict is given exactly when dial errors, handshakes, responses, resolver answers, the hijacking probe and the local check deserve it, with no layer's result in between |
| OnTheWireProofs.FaultIff | internal/probe/probe.go:333-368 | what the engine finds at fault on the path is what the network did there, verdict by verdict |
| OnTheWireProofs.DialsOnTheWire | internal/probe/probe.go:310-357 | the connections of a diagnosis, one by one: the first suspect, the first MaxAddrs reference addresses, then at the working address one handshake, two more if it died, the fetch if it completed and the measurement if asked for |
| OnTheWireReasons.DecisionOnTheWire | internal/probe/probe.go:297-394 | beside the deserved verdict, the decision has the confidence, the reason key and the reason arguments that go with what happened, and lists the DNS problem beside a path at fault and nothing else |
| PipelineProofs.ReasonsAreGrounded | internal/probe/probe.go:372-394 | the fallback reasons never appear and reasons name only addresses that were seen |
| PipelineProofs.GentlenessBound | internal/probe/probe.go:310-357 | at most MaxAddrs + 4 connections are opened to a target's addresses |
| PipelineProofs.DialsStayOnTarget | internal/probe/probe.go:310-357 | only reference addresses and the first suspect are dialed, and past TCP only the working one |
| PipelineProofs.HealthyTargetCostsThree | internal/probe/probe.go:310-357 | a healthy target with one address costs exactly three connections |
| SchedulerProofs.InvInit | internal/probe/probe.go:172-212 | the run invariant holds at the start |
| SchedulerProofs.InvNext | internal/probe/probe.go:172-236 | every step of every goroutine keeps the run invariant |
| SchedulerTheorems.EveryRunTerminates | internal/probe/probe.go:172-236 | no interleaving takes more than 28 steps a target and four more |
| SchedulerTheorems.Progress | internal/probe/probe.go:172-236 | with a positive Concurrency no reachable state before the report is stuck, even with targets blocked on a Once inside the semaphore |
| SchedulerTheorems.TargetsParkAlone | internal/probe/probe.go:208-225 | target steps alone bring every target to the done channel, leaving the run-wide checks as they were, running or not |
| SchedulerTheorems.NoSlotsNoReport | internal/probe/probe.go:80-82 | without a positive Concurrency no run over any targets ever returns |
| SchedulerTheorems.AtMostConcurrency | internal/probe/probe.go:210-222 | at most Concurrency targets are inside checkTarget at any time |
| SchedulerTheorems.SlotsWrittenOnce | internal/probe/probe.go:221-226 | every slot is written once, after done closed, and the report holds the slots |
| SchedulerTheorems.DoneFreezes | internal/probe/probe.go:186-206 | once done is closed the intercept and local results are final and never change |
| SchedulerTheorems.ControlRunsOnce | internal/probe/probe.go:157-161 | the control lookup runs at most once, and in a finished run exactly when some target needs it |
| SchedulerTheorems.BaselineRunsOnce | internal/probe/probe.go:406-410 | the speed baseline is measured at most once, and in a finished run exactly when some target's speed is tested |
| SchedulerTheorems.StuckIsReported | internal/probe/probe.go:172-236 | a run in which nothing more can happen has returned its report |
| SchedulerTheorems.ReadersAgree | internal/probe/probe.go:157-168 | every target that needs the control lookup gets the one stored result |
| SchedulerTheorems.ReportIsSequential | internal/probe/probe.go:172-236 | the report of any interleaving is the sequential one for the values the two Onces hold |
| SchedulerTheorems.ScheduleIndependence | internal/probe/probe.go:172-236 | when those values do not depend on who computes them, every schedule gives the same report |
| RunTheorems.ProgramIsCheckTarget | internal/probe/probe.go:297-368 | the calls the scheduler interleaves compose to the pipeline, although the suspect check ends last |
| RunTheorems.RunReport | internal/probe/probe.go:172-236 | slot i of every finished run is the diagnosis of target i alone, and DoHUnreachable holds exactly when there are targets and DoH was down for all of them; what that diagnosis is, RunVerdict says |
| RunVerdicts.RunVerdict | internal/probe/probe.go:172-236 | every finished run reports every target in the order given, with exactly the verdict its network and machine deserve, its confidence, its reason and what is listed beside it |
| RunVerdicts.LocalBlameIff | internal/probe/probe.go:372-385 | in every finished run a target is LOCAL_NETWORK_DOWN exactly when the local check found no interface, no default route or no reachable baseline, and no reference address that is dialed for it connects |
| RunVerdicts.RunLocal | internal/probe/probe.go:238-265 | the run-wide part of the report: up, the reason, the route, the reachable and unreachable baseline addresses, the interception and the proxy flag |
| RunVerdicts.DohNoteIff | internal/probe/probe.go:209-233 | the DoH note is set exactly when there are targets and for each of them every DoH resolver failed on the network |
| RunTheorems.FilledRunReports | internal/probe/probe.go:76-236 | with the defaults filled in, every run that can go no further has returned that report, whatever the configuration |
| Socks5.Conn.ReadFull | internal/netx/proxy.go:127-130 | however the stream is cut into reads, exactly n bytes, or an error at its end |
| Socks5.Connect | internal/netx/proxy.go:111-205 | returns, sends and consumes exactly what the dialogue specification says, for every byte stream |
| Socks5.Negotiate | internal/netx/proxy.go:120-160 | method selection and, when asked, authentication |
| Socks5.Authenticate | internal/netx/proxy.go:136-157 | one credentials message and its two-byte reply |
| Socks5.SendRequest | internal/netx/proxy.go:162-182 | one CONNECT request for an IPv4 address, an IPv6 address or a name of at most 255 bytes |
| Socks5.ReadReply | internal/netx/proxy.go:183-204 | reads the reply's head, and the bound address of its type and port |
| Socks5.BufReader.Read | internal/netx/proxy.go:77-82 | reading from the buffered connection yields every byte once and in order |
| Socks5.ReadHead | internal/netx/proxy.go:100-104 | the shortest prefix that settles the response head is consumed, all else stays readable |
| Socks5.HttpConnect | internal/netx/proxy.go:84-109 | succeeds exactly when the head is complete with status 200, and leaves what follows readable |
| Socks5.OverHttp | internal/netx/proxy.go:57-70 | the HTTP branch: the reader goes with the connection exactly when it holds bytes read ahead, so none is lost; a failure closes the connection and means no grant |
| Socks5.OverSocks | internal/netx/proxy.go:64-70 | the SOCKS5 branch: the plain connection stands at the first byte after the reply; a failure closes it and means no grant |
| Socks5.DialContext | internal/netx/proxy.go:46-73 | whoever reads the returned connection gets every byte after the proxy's reply, and what was sent is the HTTP request or the dialogue that DialogueIsUnderstood decodes; on failure the connection is closed and the proxy had not granted the tunnel |
| Socks5Proofs.TunnelDataIsKept | internal/netx/proxy.go:111-205 | after a full grant (RFC 1928 sections 3 and 6, RFC 1929 section 2) exactly its bytes are consumed, whatever follows |
| Socks5Proofs.SuccessReadsAGrant | internal/netx/proxy.go:111-205 | on success the bytes read are one full grant and nothing else |
| Socks5Proofs.GrantsArePrefixFree | internal/netx/proxy.go:183-204 | no grant is a proper prefix of another |
| Socks5Proofs.SuccessIff | internal/netx/proxy.go:111-205 | the client connects exactly when its messages fit and the stream starts with a grant |
| Socks5Proofs.SuccessIsStrictIff | internal/netx/proxy.go:147-184 | what a successful client read is a grant as RFC 1928 section 6 and RFC 1929 section 2 spell it exactly when the version and reserved bytes it skips have their values |
| Socks5Proofs.LenientGrants | internal/netx/proxy.go:147-184 | the witnesses: two replies with wrong version bytes that are accepted, without and with authentication |
| Socks5Proofs.DialogueIsUnderstood | internal/netx/proxy.go:120-182 | what a successful client sent decodes under RFC 1928 sections 3 to 5 and RFC 1929 section 2 to the endpoint, the port modulo 65536 and the credentials |
| Socks5Proofs.IntendedIff | internal/netx/proxy.go:134-179 | the port arrives unchanged exactly when it is in 0 to 65535, and the chosen method was offered unless a client without a user was asked for credentials |
| Socks5Proofs.CredentialsMeetRfcIff | internal/netx/proxy.go:142-145 | the credentials message meets RFC 1929 exactly when neither part is empty |
| Socks5Proofs.FailureIff | internal/netx/proxy.go:111-172 | each failure before the reply is reported exactly for its cause: the address, the port, the version, the method, the credentials' length, their rejection, the name's length |
| Socks5Proofs.RefusalIff | internal/netx/proxy.go:183-204 | a refusal carries the proxy's reply code, and an address type other than the three is rejected |
| Socks5Proofs.CredentialsOnlyOnRequest | internal/netx/proxy.go:134-149 | two clients with different credentials behave alike unless the proxy asks for them |
| Report.Suggestions | internal/report/text.go:184-211 | the heap-allocated groups and the string-keyed map yield one line per verdict and remedy, with its hosts |
| Report.GroupFor | internal/report/text.go:195-206 | the group of a finding, created and filed when its key is new |
| Report.GroupAll | internal/report/text.go:188-208 | after the loop the groups on the heap are exactly the groups of all failing targets, and are filed under their keys |
| Report.AddHost | internal/report/text.go:207 | a host joins its own group and no other |
| Report.FiledIsInjective | internal/report/text.go:200 | different (verdict, remedy) pairs never share a map key |
| Report.KeysAreDistinct | internal/report/text.go:192-208 | no two groups have the same verdict and remedy |
| ReportProofs.EveryFailureIsListed | internal/report/text.go:192-208 | every failing target is listed under its own verdict and remedy, at the place given by its predecessors |
| ReportProofs.EveryHostHasASource | internal/report/text.go:192-208 | every listed host comes from a failing target |
| ReportProofs.SourcesKeepOrder | internal/report/text.go:192-208 | hosts keep the input order and no target is listed twice |
| ReportProofs.GroupsInFirstOccurrenceOrder | internal/report/text.go:192-208 | groups stand in the order in which their keys first occur |
| ReportProofs.SuggestionsMatchCounts | internal/report/text.go:158-211 | the groups of a verdict list as many hosts as the summary counts for it |
| Report.CountVerdicts | internal/report/text.go:162-165 | how often each verdict occurs |
| Report.Problems | internal/report/text.go:166-171 | the non-OK verdicts that occur, in the stable order |
| Report.StableSort | internal/report/text.go:172 | descending counts, with verdicts of equal count in their former order |
| Report.Summary | internal/report/text.go:158-180 | the text of the one summary: each problem once with its count, more frequent first and ties in the stable order, then OK, joined by the catalog's separator |
| ReportProofs.SummaryAddsUp | internal/report/text.go:158-180 | the counts and the OK count add up to the number of targets |
| ReportProofs.SummaryIsDetermined | internal/report/text.go:166-172 | there is only one such summary of a report |
| ReportText.FailureIsShown | internal/report/text.go:192-210 | every failing target is shown: the line of its verdict and remedy has both and, at the place the hosts before it give, its host |
| ReportText.JoinIsJoined | internal/report/text.go:179 | a joined text is its parts, each where the ones before it and their separators end, and nothing else |
| ReportText.DecimalReads | internal/report/text.go:173-178 | a count is written in decimal digits that denote it |
| ReportText.SummarySays | internal/report/text.go:173-179 | the summary's text: one part per problem in order, then OK, each rendered from digits that read back as its count and the total |
| ReportText.CountIsCardinality | internal/report/text.go:162-165 | a count is the number of targets with that verdict |

## Left out

- Sockets, TLS, X.509 validation, HTTP transports and timing: their results are parameters; deadlines and cancellation appear only as failures.
- Error classification (`netx.Classify`, `netx.Short`, `tlscheck.CertProblem`): the kind of an error is given, and neither the error text nor the measured rates in the arguments of four reasons are modelled.
- The signature tables, the bogon prefixes and the speed thresholds are predicates and given results; redirects are never followed, so one response is one exchange.
- The concurrency inside one target (resolvers, probes, the two extra handshakes): their results are joined by index; the scheduler interleaves targets, the suspect check and the run-wide checks.
- In the scheduler layers 3 to 5 of a target are one call, and so are the speed download and its comparison; the DoH flag is written with the end of checkTarget.
- VerdictProofs.VerdictIff: speaks of inputs whose layers ran in order, which are those the pipeline builds; AlsoShape, DnsProblemIsReported, LocalDownIff and InterceptionOnlyUpgrades hold for all inputs.
- SchedulerTheorems.ScheduleIndependence: assumes that the control lookup and the baseline give the same result whoever runs them; ReportIsSequential does without that.
- TlsCheck.Do: the duration of a handshake is not modelled.
- PipelineProofs.HealthyTargetCostsThree: counts the fetch as a connection even for a URL no request can be made for.
- Presets.PresetSet.Resolve: YAML parsing and embedded files; the list of available names in the error for an unknown preset; a nil map of presets.
- Socks5.HttpConnect: how an HTTP head is recognised is a parameter that may look at every prefix; the rendering of the request is given.
- Socks5.Connect: splitting the address, parsing the port and parsing an IP literal are given; a write succeeds or fails as a whole.
- Resolvers.DohLookup: the request that is sent, beyond the name being valid.
- Report.Suggestions and Report.Summary take the catalog's phrases as parameters; colours, evidence, JSON and Markdown are not modelled.
- Report.StableSort: models the library's stable sort by insertion.
- RunTheorems.RunReport: interface names, VPN names and proxy settings of the summary; durations and the version header.
- The system resolver, interface and proxy detection, the command line and the site would only add easy members.
