# VelaDNS verification

A Dafny model of the state machines VelaDNS adds around MosDNS and Unbound, with proofs about whole
runs and interleavings rather than single calls.

| file | models |
|---|---|
| `Backoff.dfy` | capped doubling with jitter in int64 nanoseconds, written three times in the program |
| `Breaker.dfy` | the breaker protocol shared by the Mihomo circuit and the DoH providers: events over breaker, clock and permits in flight |
| `Circuit.dfy` | options, gauges, counters and methods of the Mihomo circuit |
| `CircuitExec.dfy` | one query through the circuit: retries, time-outs, cancellation |
| `ExecIsolation.dfy` | the private query contexts of its attempts, and goroutines that outlive them |
| `Requests.dfy` | overlapping queries and exchanges over one breaker |
| `Doh.dfy` | provider backoff, exchanges, ordered failover |
| `Counters.dfy` | what exchanges report: request counters and the exported retry time |
| `DialCache.dfy` | the dial-address cache, with lookup and store as separate steps |
| `RuntimeState.dfy` | the tables of components and provider counters |
| `Supervisor.dfy` | restarting one child: delays, restart counter, restart rate |
| `Text.dfy`, `Rules.dfy` | parsing and re-printing a rule file |
| `RuleLines.dfy` | which lines give which rules, in terms of their characters |
| `Reload.dfy` | the rule file that rewrites itself, and the watch loop around it |
| `Selection.dfy`, `LogStream.dfy` | reassembly of log lines from arbitrary chunks |
| `LogDedupe.dfy` | suppression of repeated deadline warnings |
| `LogLines.dfy` | which log lines are suppressed, in terms of their text |
| `LogWriter.dfy` | the writer object and its lines passing through the deduper |
| `LogPipeline.dfy` | the stdout and stderr writers sharing the deduper, with destinations that may refuse a line |
| `Options.dfy`, `Sequences.dfy` | shared small definitions |

`dafny verify dfyconfig.toml` checks everything.

## How it is modelled

Every method that runs under a mutex is one atomic event. A run is a sequence of events, so a theorem
about all valid sequences is a theorem about all interleavings. Permits carry no generation number, as
in the program, and one granted in an earlier outage may be settled in a later one. Clock readings,
random draws, upstream answers, cancellations, file contents and I/O errors are arbitrary parameters.
A method that gives up a lock midway takes a further parameter, a function or a list of events, for
what others do to the shared state meanwhile; it too is arbitrary.
Classes repeat the program's methods and are proved against the functions the theorems are about. What
those functions decide is in turn stated in terms of what they are given - characters of a line, outcomes
of an attempt, events of a run - without reference to them.

## What came out

* The circuit opens exactly when `failure_threshold` plain failures have been reported since the last
  success; a DoH provider opens after two failures of any kind, including a stale probe's.
* Probes in an outage are spaced by the sum of the shortest delays, whatever stale permits do.
* README.md line 107 of the program says that a half-open probe restores forwarding automatically. This
  holds if and only if no request has left through the cancellation return (circuit.go lines 283-286)
  while holding the last probe since the last success. That return settles nothing, so afterwards, with
  nothing else in flight, every query is refused for ever.
  The DoH provider has no such return and always recovers.
* "At most one probe in flight" is not an invariant. It holds throughout a run if and only if no probe is
  granted while a probe that an earlier success left behind is still unsettled. The stronger form, in which
  the only probe in flight is the one the breaker waits for, holds if and only if no success is reported
  while another request holds a probe.
* Whatever a goroutine does after its attempt timed out or was cancelled, during a later attempt or after
  `Exec` returned, changes neither the caller's response nor any judgement nor the settlement.
* The comment at dohbridge.go lines 25-29 has stale dial addresses discarded as soon as an exchange fails.
  Everything served after an invalidation, up to the next one, was looked up after it if and only if no
  resolve was in flight at that moment.
* Suppression can hide a warning whose boundary line reached nobody: the boundary is recorded before it is
  written. At every moment, every suppressed warning repeats a boundary line at a destination or on its way
  there if and only if no boundary line lost to a refused write is repeated by a later warning.
* Pruning the deduper's table changes a decision exactly when the query's latest boundary, within the window
  of this reading, was outside the window of a reading in between; never when readings follow lock order.
* The retry time exported with the counters can outlast the outage: it is read in one locked section and
  published in a later one. Without further settlements the export ends up agreeing with the breaker, in
  whatever order the reports arrive, if and only if no retry time already read is out of date (and, with
  nothing left to report, it agrees already).
* A supervised child restarts m times in no less than 24 m - 95.2 seconds, over every stretch of every run,
  and a crash loop with the shortest waits attains that from five restarts on.
* Printing a rule file can lengthen it by a factor of 9/2. Files of up to 233016 bytes are always safe and
  233017 is not: a longer file can be accepted with a cleaned form above the 1 MiB cap, and the loop then
  restores that same file on every reload and never goes quiet.
* `exponentialDelay` does not overflow for maxima up to 2^62 ns, and that bound is exact. The plugin's
  defaults can leave the initial delay above the maximum (initial above five minutes, cap missing or too
  small); the jittered delay is then cut off at the maximum.

## Model

| member | source | states |
|---|---|---|
| `Backoff.ExponentialDelay` | internal/circuitplugin/circuit.go:130-139 | the doubling loop, int64 wrap-around included; up to 2^62 ns it returns min(initial*2^(step-1), maximum), or the initial delay when that is not below the maximum |
| `Backoff.DoublingClosedForm` | internal/circuitplugin/circuit.go:130-139 | closed form of the loop from any point of it |
| `Backoff.ClosedFormExactRange` | internal/circuitplugin/circuit.go:130-139 | the closed form holds for all initial delays and steps if and only if the maximum is at most 2^62 ns |
| `Backoff.NominalStep` | internal/circuitplugin/circuit.go:109-118 | each further step doubles the nominal delay up to the maximum |
| `Backoff.JitterEnvelope` | internal/circuitplugin/circuit.go:141-154 | the possible delays are exactly the integers of [n - n/5, n + n/5] cut off at the maximum |
| `Backoff.JitterEnvelopeInt64` | internal/circuitplugin/circuit.go:141-154 | in int64 the possible delays are exactly that envelope if and only if n + n/5 < 2^63 |
| `Backoff.JitterDelay` | internal/circuitplugin/circuit.go:141-154 | the computation in int64; it is the unbounded form for every draw while n + n/5 < 2^63 |
| `Backoff.JitterExactRange` | internal/circuitplugin/circuit.go:141-154 | no draw overflows if and only if n + n/5 < 2^63 |
| `Backoff.JitterGrowth` | internal/circuitplugin/circuit.go:114-154 | consecutive failed probes get strictly longer delays for all draws while 3n < 2*maximum, and not beyond that for multiples of 5 ns |
| `Backoff.JitterDoHBackoff` | cmd/veladns/dohbridge.go:423-439 | the provider copy of the computation equals the same closed form at (1 s, 5 min) |
| `Backoff.RestartDelay` | cmd/veladns/process.go:230-245 | the restart copy equals it at (1 s, 30 s), never below 800 ms nor above 30 s |
| `Breaker.OpeningByHistory` | internal/circuitplugin/circuit.go:91-115 | in every run: open if and only if `threshold` counted failures since the last success; the counter saturates there; probing implies open |
| `Breaker.OutageHolds` | internal/circuitplugin/circuit.go:59-128 | invariant of an outage: step counts granted probes, wait and clock are past the sum of shortest delays |
| `Breaker.OutageProbeSpacing` | internal/circuitplugin/circuit.go:59-154 | the k-th probe of an outage is granted no earlier than the opening plus the k shortest delays, with stale permits settling in between |
| `Breaker.StepCountsProbes` | internal/circuitplugin/circuit.go:70-114 | the backoff step is the number of probes granted since opening, plus one while waiting |
| `Breaker.DelayBounds` | internal/circuitplugin/circuit.go:118-120 | every delay is positive, at least n - n/5 or the maximum, and at most the maximum |
| `Breaker.RetryBounded` | internal/circuitplugin/circuit.go:117-120 | retryAt lies after the failure that armed it by the nominal delay of the step give or take a fifth, at most the maximum, and is the zero time while closed |
| `Breaker.OrphanSteps` | internal/circuitplugin/circuit.go:63-117 | one step orphans a breaker, dropping the last probe it waits for; only a success repairs it |
| `Breaker.OrphanedExactly` | internal/circuitplugin/circuit.go:254-295 | over runs: `probing` without a probe in flight if and only if the last probe was dropped since the last success |
| `Breaker.RecoveryExactly` | README.md:105-107 | with nothing in flight, requests from retryAt on are admitted if and only if no last probe was dropped since the last success |
| `Breaker.Recovers` | internal/circuitplugin/circuit.go:59-128 | no abandoned probe: `probing` is backed by a probe in flight, and the breaker admits from retryAt on once idle |
| `Breaker.WedgedForever` | internal/circuitplugin/circuit.go:63-69 | a wedged breaker stays wedged under every continuation and refuses every request |
| `Breaker.RecoverableIffNotWedged` | internal/circuitplugin/circuit.go:59-128 | some continuation admits a request if and only if the breaker is not wedged |
| `Breaker.WedgeReachable` | internal/circuitplugin/circuit.go:283-286 | under every policy that may abandon permits a wedged state is reachable |
| `Breaker.DroppedProbeWedges` | internal/circuitplugin/circuit.go:283-286 | cancelling the probe of any idle open breaker makes it unrecoverable |
| `Breaker.TwoProbesReachable` | internal/circuitplugin/circuit.go:37-39 | two probes can be in flight at once, under every policy |
| `Breaker.AtMostOneProbeExactly` | internal/circuitplugin/circuit.go:59-115 | at most one probe in flight throughout a run if and only if no probe is granted while one left behind by a success is unsettled |
| `Breaker.ProbeExclusiveExactly` | internal/circuitplugin/circuit.go:59-115 | no probe but the awaited one in flight throughout a run if and only if no success is reported while another request holds a probe |
| `Circuit.DefaultsUsable` | internal/circuitplugin/circuit.go:176-195 | threshold, attempts and time-out are always positive; the policy is usable if and only if both delays are at most 2^62 ns, as all options of up to 146 years make them; exactly when the initial delay exceeds the maximum |
| `Circuit.OptionsKept` | internal/circuitplugin/circuit.go:176-195 | a positive option is kept, a missing one gets its default, and the cap is the given one unless below the initial delay |
| `Circuit.GaugeRefinement` | internal/circuitplugin/circuit.go:59-128 | in every reachable state the gauges equal closed/open/half-open and the pending wait |
| `Circuit.Circuit.constructor` | internal/circuitplugin/circuit.go:232-251 | a new circuit is closed, with zero gauges and counters |
| `Circuit.Circuit.Acquire` | internal/circuitplugin/circuit.go:59-74 | refines the acquire event: permit, state, gauges, bypass counter |
| `Circuit.Circuit.Succeed` | internal/circuitplugin/circuit.go:76-89 | closes and clears everything |
| `Circuit.Circuit.Fail` | internal/circuitplugin/circuit.go:91-128 | under any options: state, gauges and failure counter with the delay int64 gives; under a valid policy it refines the fail event |
| `CircuitExec.Plugin.RunAttempts` | internal/circuitplugin/circuit.go:264-321 | every attempt but the last was lost; the last decides between success, failure and abandonment |
| `CircuitExec.Plugin.Exec` | internal/circuitplugin/circuit.go:254-295 | response, error and settlement of one query, and the breaker it leaves, whatever overlapping queries do meanwhile; nil error exactly with a response |
| `CircuitExec.Plugin.ExecRuns` | internal/circuitplugin/circuit.go:254-295 | a query is a piece of a run of the breaker: its acquire, what others do, and one settlement; the circuit it leaves is that of the run |
| `CircuitExec.RetriedExactly` | internal/circuitplugin/circuit.go:268-291 | an attempt is followed by another if and only if it brought no reply, the context was not over and attempts are left |
| `CircuitExec.LastAttemptDecides` | internal/circuitplugin/circuit.go:272-294 | an acceptable reply is the answer, a failing rcode a failure of that rcode; without a reply the query is abandoned if the context was over and else fails with the last error, out of attempts |
| `CircuitExec.ElapsedIsEarliest` | internal/circuitplugin/circuit.go:310-320 | an attempt takes as long as the first of upstream call, time-out and context |
| `CircuitExec.OutcomeUnique` | internal/circuitplugin/circuit.go:268-294 | that promise determines response, settlement, calls and time completely |
| `CircuitExec.SettlesOnce` | internal/circuitplugin/circuit.go:272-294 | a response exactly on success, never with a failing rcode; early failure only for an rcode; abandonment only after the context ended |
| `CircuitExec.ExecBounded` | internal/circuitplugin/circuit.go:264-321 | time is at most calls times the attempt time-out |
| `CircuitExec.StandbyNeverPreempts` | config/foreign-mihomo.yaml.tmpl:47-48 | with the shipped options Exec ends before the 2000 ms stand-by threshold |
| `ExecIsolation.CallerIsolated` | internal/circuitplugin/circuit.go:254-321 | in every interleaving with its goroutines, the caller's context is untouched until Exec returns, and afterwards holds for ever what the attempts decided |
| `ExecIsolation.GoroutinesPrivate` | internal/circuitplugin/circuit.go:304-308 | a goroutine changes its own cell only; a launch copies the caller's context |
| `ExecIsolation.SelectDecides` | internal/circuitplugin/circuit.go:272-319 | what the select makes of the current cell: answer, failure, end, or another attempt |
| `ExecIsolation.LateCompletionsIgnored` | internal/circuitplugin/circuit.go:297-321 | leaving out all that goroutines do after their attempt is over gives a run with the same response, judgements and settlement |
| `ExecIsolation.LateActionsPossible` | internal/circuitplugin/circuit.go:301-320 | such actions do occur: after a time-out the response may still be set and the call may still finish |
| `Requests.ProjectsToBreaker` | internal/circuitplugin/circuit.go:254-295 | every run of overlapping requests is a run of the breaker protocol, with exactly the permits outstanding that running requests hold |
| `Requests.AbandonedExactly` | internal/circuitplugin/circuit.go:283-286 | a permit is abandoned if and only if the query's context ended in its last attempt |
| `Requests.SettlesExactly` | internal/circuitplugin/circuit.go:272-294 | a request reports a success if and only if it was answered, a failure if and only if it was neither answered nor cancelled |
| `Requests.RequestsRecoverExactly` | README.md:105-107 | once no request is running, new ones are admitted from retryAt on if and only if no query that alone held the awaited probe was cancelled since the last success |
| `Requests.RequestsRecover` | README.md:105-107 | with no request cancelled, the breaker admits from retryAt on once no request is running |
| `Requests.CancelledQueryWedges` | internal/circuitplugin/circuit.go:283-286 | a query cancelled at once while it holds the probe of an idle open circuit leaves it unrecoverable |
| `Doh.ProviderRecovers` | cmd/veladns/dohbridge.go:342-439 | no provider is parked for ever; the wait is at most five minutes after the failure that started it |
| `Doh.ProviderOpens` | cmd/veladns/dohbridge.go:373-412 | in backoff exactly when two failures of any kind were reported since the last success |
| `Doh.Upstream.Acquire` | cmd/veladns/dohbridge.go:383-394 | refines the acquire event |
| `Doh.Upstream.Fail` | cmd/veladns/dohbridge.go:396-412 | refines the fail event of the provider policy |
| `Doh.Upstream.Succeed` | cmd/veladns/dohbridge.go:414-421 | closes the breaker |
| `Doh.Upstream.Exchange` | cmd/veladns/dohbridge.go:342-361 | answer, recorded result and breaker after one exchange, whatever other requests do meanwhile; contacts nobody when refused; invalidates dial addresses exactly on failure of a provider that has a cache |
| `Doh.ExchangeRuns` | cmd/veladns/dohbridge.go:342-361 | an exchange is a piece of a run of the breaker: its acquire, what others do, and a success exactly when the provider answered; the provider it leaves is that of the run |
| `Counters.CountersConserved` | cmd/veladns/dohbridge.go:342-371 | every interleaving: requests = successes + failures + skips, started = recorded + in flight, each counter exact |
| `Counters.ExportAgreesExactly` | cmd/veladns/dohbridge.go:363-371 | without further settlements, every order of the outstanding reports ends with the exported retry time equal to the breaker's if and only if no retry time read is out of date, and with nothing left to report it is equal now |
| `Counters.StaleCanBeLast` | cmd/veladns/dohbridge.go:363-371 | any retry time read and unpublished can become the one exported in the end |
| `Counters.StaleExportReachable` | cmd/veladns/dohbridge.go:342-371 | a run that ends closed, all recorded, with the retry time of the past outage exported |
| `Doh.ServeDNSOverlapping` | cmd/veladns/dohbridge.go:475-496 | whatever breakers the request meets: one message written; an answer only from the last provider tried, all earlier ones refused or failed; SERVFAIL only when list or deadline ran out |
| `Doh.ServeDNS` | cmd/veladns/dohbridge.go:475-496 | the same over distinct provider objects, whatever other requests do to them up to and during their turns, and every provider tried is left as its exchange leaves it, the others untouched |
| `Doh.TriedAt` | cmd/veladns/dohbridge.go:342-361 | which breaker each tried provider is left with |
| `Doh.FailoverUnique` | cmd/veladns/dohbridge.go:480-491 | the stopping point is determined |
| `Doh.ContactsOrdered` | cmd/veladns/dohbridge.go:480-491 | exactly the admitted providers are contacted, in order |
| `DialCache.Freshness` | cmd/veladns/dohbridge.go:236-270 | a list is served if and only if it is the latest store, under a minute old and not invalidated since |
| `DialCache.StaleExactly` | cmd/veladns/dohbridge.go:242-270 | the list standing after an invalidation is older than it if and only if its resolve was in flight at that moment |
| `DialCache.CleanInvalidationExactly` | cmd/veladns/dohbridge.go:25-29 | under every continuation up to the next invalidation nothing older is served, if and only if no resolve was in flight |
| `DialCache.StaleContinuation` | cmd/veladns/dohbridge.go:252-270 | every resolve in flight at an invalidation can still store and be served |
| `DialCache.DialAddressCache.Lookup` | cmd/veladns/dohbridge.go:246-252 | the half of get before the resolve |
| `DialCache.DialAddressCache.Store` | cmd/veladns/dohbridge.go:258-261 | the half of get after the resolve |
| `DialCache.DialAddressCache.Get` | cmd/veladns/dohbridge.go:242-263 | hit, resolve and store, or resolve error, whatever others do to the cache meanwhile |
| `DialCache.DialAddressCache.Invalidate` | cmd/veladns/dohbridge.go:265-270 | empties the cache |
| `RuntimeState.Table.Update` | cmd/veladns/state.go:30-36 | changes one component and nothing else |
| `RuntimeState.Table.Register` | cmd/veladns/state.go:46-52 | adds a zero record only if there is none |
| `RuntimeState.Table.Observe` | cmd/veladns/state.go:54-85 | updates one record and no other, keeping all records adding up modulo 2^64 |
| `RuntimeState.Table.TakeSnapshot` | cmd/veladns/state.go:87-103 | entry-by-entry copies equal to both tables |
| `RuntimeState.RecordCounts` | cmd/veladns/state.go:54-85 | after any reports each counter is the number of reports of its kind, modulo 2^64 |
| `RuntimeState.RecordTimes` | cmd/veladns/state.go:54-85 | times of the last success and failure, retry time of the last report, and the sum of durations modulo 2^64 |
| `Supervisor.SuperviseChild` | cmd/veladns/process.go:43-122 | component record and delays after any cycles and any ending |
| `Supervisor.ShowUp` | cmd/veladns/process.go:62-65 | while the child runs the table shows it up without a backoff |
| `Supervisor.ShowDown` | cmd/veladns/process.go:58-83 | once it is gone the table shows it down |
| `Supervisor.CycleRecords` | cmd/veladns/process.go:55-112 | the records one cycle writes, in order |
| `Supervisor.RecordsTruthful` | cmd/veladns/process.go:58-112 | in every record written, a child that is up shows no backoff; the restart counter is the number of cycles modulo 2^64 |
| `Supervisor.DelaysByCrashLoop` | cmd/veladns/process.go:103-107 | each delay is the jittered one of the length of the crash loop it ends |
| `Supervisor.RestartRate` | cmd/veladns/process.go:103-121 | over any stretch of any run, m restarts take at least 24 m - 95.2 seconds |
| `Supervisor.RestartRateAttained` | cmd/veladns/process.go:103-121 | crash loops with the shortest waits attain the bound from five restarts on |
| `Rules.InlineCommentIndex` | internal/rulesplugin/rulesplugin.go:308-315 | the first comment start after a blank, or none |
| `Rules.SanitizeRules` | internal/rulesplugin/rulesplugin.go:278-306 | the loop computes rules, cleaned text and statistics of the specification |
| `Rules.PatternAcceptedExactly` | internal/rulesplugin/rulesplugin.go:349-368 | a pattern normalizes to r if and only if r is a valid name and the pattern is r up to case and one trailing dot |
| `Rules.PatternStable` | internal/rulesplugin/rulesplugin.go:349-368 | normalizing a normalized pattern changes nothing |
| `Rules.RuleStable` | internal/rulesplugin/rulesplugin.go:317-347 | a normalized rule normalizes to itself, has no space or leading hash, and is at most 7 characters longer |
| `Rules.AcceptedIsCanonical` | internal/rulesplugin/rulesplugin.go:285-300 | every rule produced from a line is accepted unchanged as a line |
| `Rules.ParseFacts` | internal/rulesplugin/rulesplugin.go:283-301 | all rules canonical, meaningful = accepted + rejected, growth at most 9/2 |
| `Rules.PrintParse` | internal/rulesplugin/rulesplugin.go:285-305 | printing canonical rules and parsing gives them back |
| `Rules.FixedPoint` | internal/rulesplugin/rulesplugin.go:278-306 | the cleaned form parses to the same rules, rejects nothing, and sanitizes to itself if and only if it is within the cap |
| `Rules.GrowthBound` | internal/rulesplugin/rulesplugin.go:302-323 | 2*cleaned <= 9*(raw + 1) for every input |
| `Rules.GrowthAttained` | internal/rulesplugin/rulesplugin.go:302-323 | the bound is attained by files of n one-letter lines, for every n |
| `Rules.SafeSizeExactly` | internal/rulesplugin/rulesplugin.go:26-26 | all files of up to n bytes keep a cleaned form within the cap if and only if n <= 233016 |
| `RuleLines.LineAcceptedExactly` | internal/rulesplugin/rulesplugin.go:285-347 | a line yields a rule if and only if it is a space-free text, not a comment, between spaces and before at most a comment, that is a name, alone or typed, up to case and one trailing dot, or a compiling regular expression of at most 4096 characters |
| `RuleLines.LineIgnoredExactly` | internal/rulesplugin/rulesplugin.go:286-290 | a line is not counted if and only if it is blank or its first other character is a hash |
| `RuleLines.ValidPatternExactly` | internal/rulesplugin/rulesplugin.go:349-368 | valid names without reference to labels: allowed characters, no dot or hyphen at an end or next to a dot, no 64 characters without a dot, at most 253, no IP address |
| `RuleLines.ParseConcat` | internal/rulesplugin/rulesplugin.go:285-301 | a file is parsed line by line: joined files give the rules of the first, then those of the second, and the counts add up |
| `RuleLines.ParseLine` | internal/rulesplugin/rulesplugin.go:285-301 | rules and counts of a file of one line |
| `Reload.RuleFile.Reload` | internal/rulesplugin/rulesplugin.go:176-223 | file, matcher, last good copy and result of a reload, with every failing step |
| `Reload.RuleFile.RestoreOrClear` | internal/rulesplugin/rulesplugin.go:225-252 | restore the last good file, or clear an invalid first one |
| `Reload.RuleFile.WriteFileAtomic` | internal/rulesplugin/rulesplugin.go:370-397 | all or nothing |
| `Reload.ReloadAgrees` | internal/rulesplugin/rulesplugin.go:176-252 | every reload keeps matcher and last good file linked; every successful one leaves the file equal to it |
| `Reload.QuietExactly` | internal/rulesplugin/rulesplugin.go:206-237 | reloading the last good file changes nothing, and writes if and only if it is over the cap |
| `Reload.FirstLoad` | internal/rulesplugin/rulesplugin.go:176-252 | the first load keeps a file within the cap in cleaned form, with its rules in force, and clears it if and only if it is missing, over the cap or without a valid rule |
| `Reload.LaterLoad` | internal/rulesplugin/rulesplugin.go:176-237 | every later load adopts a file within the cap that has a valid rule or nothing to parse, and replaces any other by the last good one |
| `Reload.FailedLoad` | internal/rulesplugin/rulesplugin.go:176-252 | a failed reload changes neither matcher nor last good copy, and the file only when it cleared an invalid first one |
| `Reload.WritesExactly` | internal/rulesplugin/rulesplugin.go:199-216 | a reload writes if and only if the file is not the last good one it leads to, within the cap |
| `Reload.StartEstablishes` | internal/rulesplugin/rulesplugin.go:84-102 | a successful first reload establishes the invariant |
| `Reload.AgreementOverRuns` | internal/rulesplugin/rulesplugin.go:128-223 | over all runs of edits, racing edits and failing reloads the matcher holds the last good rules; without failures an idle watcher means the file is the last good one |
| `Reload.Quiescence` | internal/rulesplugin/rulesplugin.go:128-252 | after any edit the loop goes quiet within two reloads if and only if the resulting last good file is within the cap, and otherwise never |
| `Reload.SafeFilesGoQuiet` | internal/rulesplugin/rulesplugin.go:128-252 | as long as no edit exceeds 233016 bytes, every reachable state goes quiet within two reloads |
| `Reload.EndlessRewrite` | internal/rulesplugin/rulesplugin.go:225-237 | from every loaded state there is an accepted edit after which the loop never stops |
| `LogWriter.ChildLogWriter.Offer` | cmd/veladns/process.go:147-152 | one line to the deduper, after whatever the other writer passed to it, and, unless suppressed, to the destination |
| `LogWriter.ChildLogWriter.Write` | cmd/veladns/process.go:135-155 | destination, pending bytes, deduper table and error after offering the complete lines up to the first write error |
| `LogWriter.ChildLogWriter.Flush` | cmd/veladns/process.go:157-170 | the same for the rest, offered as one line |
| `LogWriter.WriteThroughDeduper` | cmd/veladns/process.go:135-155 | from any table, with any write errors and other writer: a Write emits what the deduper's decisions on the stream's lines leave, and the table is that of the lines taken |
| `LogWriter.FedFollowsStream` | cmd/veladns/process.go:135-155 | the same for all Writes of a stream |
| `LogWriter.HiddenByHistory` | cmd/veladns/process.go:191-228 | a line of the stream is hidden if and only if a quiet startup line, or an internal warning with a live boundary line of its query, of either writer, within the window |
| `LogWriter.StreamThroughDeduper` | cmd/veladns/process.go:135-228 | for every cutting into writes the destination gets what the deduper lets through of the whole stream line by line, and its table is the one the history of both writers leaves |
| `LogStream.WritesFollowStream` | cmd/veladns/process.go:135-155 | whatever the destination refuses: after any Writes a prefix of the stream's lines has been taken, the destination has those neither hidden nor refused, in order, and the rest of the stream is pending; without refusals that is its newline-free tail |
| `LogStream.ChunkingIndependent` | cmd/veladns/process.go:135-170 | for every cutting into writes the result is the unsuppressed lines of the whole stream, in order |
| `LogStream.LinesWhole` | cmd/veladns/process.go:141-147 | every line ends in its newline and has no other |
| `LogStream.NothingInvented` | cmd/veladns/process.go:141-147 | the lines and the tail put together are the stream |
| `LogStream.DrainTakesInOrder` | cmd/veladns/process.go:141-155 | even with write errors one Write takes lines in order, none twice, none skipped, and the destination gets those neither hidden nor refused |
| `LogDedupe.ChildLogDeduper.Prune` | cmd/veladns/process.go:208-212 | deletes exactly the expired entries |
| `LogDedupe.ChildLogDeduper.Suppress` | cmd/veladns/process.go:191-228 | table and decision for one line |
| `LogDedupe.SuppressedExactly` | cmd/veladns/process.go:205-227 | readings in any order: suppressed if and only if the latest boundary of the query never was over ten seconds old at any reading since |
| `LogLines.QueryIdExactly` | cmd/veladns/process.go:174-204 | the query id is the digits of the leftmost field, and a line without a field has none |
| `LogLines.ClassifiedExactly` | cmd/veladns/process.go:191-224 | start-up lines, entry errors, internal errors and other tracked lines, by what the text says |
| `LogLines.HiddenLinesExactly` | cmd/veladns/process.go:191-228 | a line of MosDNS is suppressed if and only if it is an internal deadline line, no entry error, and an entry error of its query went before that is live and at most ten seconds older |
| `LogLines.NeverHidden` | cmd/veladns/process.go:191-218 | an entry error is never suppressed, and of other children only quiet start-up lines |
| `LogDedupe.PruningAgreesExactly` | cmd/veladns/process.go:205-227 | pruned table and unpruned record agree if and only if the latest boundary, when within the window, never was outside it at a reading since |
| `LogDedupe.PruningRefinesHistory` | cmd/veladns/process.go:208-227 | readings in lock order: the decision of an unpruned record of latest boundaries |
| `LogDedupe.SuppressedHasBoundary` | cmd/veladns/process.go:215-227 | behind every suppressed warning is an earlier boundary line of its query, at most ten seconds older |
| `LogDedupe.OutOfOrderDiffers` | cmd/veladns/process.go:205-212 | out of lock order pruning and full history can disagree |
| `LogPipeline.LinesConserved` | cmd/veladns/process.go:135-228 | every interleaving of the two writers: each line is hidden, lost, being written or at one destination, exactly once; destinations keep the order; hidden exactly when suppressed |
| `LogPipeline.BackedExactly` | cmd/veladns/process.go:147-152 | at every moment, every suppressed warning repeats a boundary line at a destination or being written if and only if no boundary lost to a refused write is repeated later |
| `LogPipeline.ReportedExactly` | cmd/veladns/process.go:147-152 | some earlier boundary line of a query is at a destination or being written if and only if not all of them were lost |
| `LogPipeline.AcceptingBacked` | cmd/veladns/process.go:135-228 | destinations that refuse nothing: at every moment a suppressed warning repeats a boundary line at a destination or being written |
| `LogPipeline.RefusedBoundaryHides` | cmd/veladns/process.go:147-152 | a refused boundary write followed by a warning within the window: the warning is suppressed and nothing is reported |
| `LogPipeline.WriteRuns` | cmd/veladns/process.go:135-155 | an uninterrupted Write is a continuation of any run of the two writers, with the same table, whose sent line numbers stand for the texts added |

## Left out

- Exec: what overlapping queries do to the gauges and counters meanwhile is not shown, only what they do to the breaker.
- ServeDNS: what other requests do to a provider after its turn is not shown.
- WriteRuns: the other writer is silent during that Write; lines of both in any order are the runs of `LogPipeline` itself.
- Policies with delays above 2^62 ns (146 years) are not analysed beyond `DefaultsUsable`.
- Time values are unbounded integers; the doubling, the jitter and the option products are modelled in int64, the counters of state.go in uint64.
- Rule text is ASCII: Unicode spacing and lower-casing and the UTF-8 validity test are not modelled; whether a regular expression compiles and whether a text is an IP address are arbitrary fixed predicates.
- A matcher is the list of rules it was built from; bundled include files appear only as a possible build failure, and MosDNS matching is not modelled.
- A reload reads, then writes in one step; an edit that lands in between is the `Racing` case of the watch loop.
- A destination takes a log line whole or not at all; partial writes are not modelled.
- HTTP, TLS, DNS message packing, sockets, fsnotify, process control and Prometheus registration are outcomes of the environment or not modelled.
- Starting and terminating the child process, the routing sequences in config/ and the remaining plugins would only add short branch lists.
- Log messages and the rate limit of the "all upstreams failed" warning are not modelled.
