# goHealth detector catalogue, modelled in Dafny

goHealth is a static analyser for Go programs. It loads packages and runs fifteen detectors over each
package's syntax trees. Each detector usually walks every file with `ast.Inspect`, matches one unsafe
pattern and emits a `Diagnosis`: severity, message, rationale, optional suggestion, file, line and code
snippet. The command concatenates the diagnoses of every detector on every package. It then prints them,
or sorts them critical-first and writes them out as one HTML page.

This project models that core:

- a reduced Go syntax tree (`Ast`);
- the pre-order walk of `ast.Inspect` (`Inspect`);
- the handful of `strings`/`fmt` operations the detectors use (`Strings`);
- the finding record (`Doctor`);
- one module per detector;
- the three resource-lifecycle detectors, modelled as one forward scan under three configurations
  (`Lifecycle`);
- the registry and aggregation loop of the command (`Registry`, `Aggregation`);
- the HTML report (`HtmlReport`).

Each detector's callback is a function (`Visit`). Where the source computes it with loops, it is also a
method (`Examine`, `ScanBlock`, `FindEnclosing`, …) proved equal to that function. Each detector has a
lemma `DiagnosesIff`: a finding is reported for a package exactly when the walk reaches a node the
detector flags, and the finding is that node's report. The same lemma, or a `ReportsPer…` lemma
beside it, states how often. The findings are, in walk order, one per flagged node. For the detectors
that look inside a node (loops, functions, structs, blocks), there is one finding per pair of such a
node and a flagged item inside it, so a Sleep call inside three nested loops is reported three times.
The loops of `main.go` become the methods `Registry.Run` and `Registry.Collect`, proved equal to
`Aggregation.Aggregate`. The report's sort is an
in-place partition of an array, proved to put critical findings first and to permute the array. The page
builder is proved equal to the page function `HtmlReport.Page`, whose structure is stated as lemmas.

The source files cited below are paths inside the goHealth repository.

## Model

| member | source | states |
|---|---|---|
| Doctor.SeverityText | internal/doctor/doctor.go:5-11 | a severity is written as one of INFO, WARNING, CRITICAL |
| Doctor.SeverityTextInjective | internal/doctor/doctor.go:7-11 | the three severities have three different names |
| Strings.ToLower | internal/checks/http_response_body.go:41 | lower-casing keeps the length and maps each character through the ASCII letter map |
| Strings.LowerIdempotent | internal/checks/time_comparison.go:61 | lower-casing twice is lower-casing once |
| Strings.ReplaceAllRemoves | main.go:127 | after replacing "\n" by "<br>", no line break is left |
| Strings.ReplaceAllLength | main.go:127 | each replaced line break grows to the length of the replacement, and every other character keeps its length |
| Strings.ReplaceAllPosition | main.go:127 | each character lands where the replacement of the characters before it ends: a line break as "<br>", any other character as itself |
| Strings.ReplaceAllAbsent | main.go:127 | a text without a line break is written unchanged |
| Strings.ReplaceAllAppend | main.go:127 | replacement distributes over concatenation |
| Strings.IntToStringRoundTrip | main.go:116 | the decimal text of every integer reads back as that integer |
| Strings.IntToStringInjective | main.go:122 | different line numbers are written differently |
| Strings.NatToStringRoundTrip | main.go:116 | the digits of a count are digits and read back as the count |
| Inspect.WalkStmt | internal/checks/sleep_in_loop.go:21 | the walk of a statement starts at the statement, or at the block for a block statement |
| Inspect.GatherMember | internal/checks/sleep_in_loop.go:20-21 | a check's Run reports a finding iff its callback reports it at some node the walk of some file reaches |
| Inspect.GatherEachIff | internal/checks/exit_in_library.go:26-47 | with a callback reporting one finding per flagged node, the findings are exactly the reports of the flagged nodes reached |
| Inspect.GatherIff | internal/checks/context_in_struct.go:19-50 | with a callback described by a relation, the findings are exactly those related to some node reached |
| Inspect.VisitAllMember | internal/checks/sleep_in_loop.go:26 | a nested walk reports a finding iff its callback reports it at some node of the walked subtree |
| Inspect.VisitAllEachIff | internal/checks/broken_link_context.go:35-58 | a nested walk with a one-per-node callback reports exactly the reports of its flagged nodes |
| Inspect.VisitAllEachCount | internal/checks/broken_link_context.go:35-58 | a nested walk with a one-per-node callback gives one finding per flagged node, in walk order |
| Inspect.GatherSlots | internal/checks/sleep_in_loop.go:20-21 | when a callback reports at each node one finding per listed item, the package's findings are those items in file, node and item order |
| Inspect.GatherEachOnce | internal/checks/exit_in_library.go:26-47 | with a callback reporting one finding per flagged node, every flagged node reached gives exactly one finding, in walk order |
| Inspect.VisitAllAppend | internal/checks/sleep_in_loop.go:21-84 | the findings of a walk split as its node sequence does, order kept |
| Inspect.GatherSilent | internal/checks/exit_in_library.go:26-49 | a callback that reports nothing anywhere leaves the package without findings |
| Inspect.WalkStmtsHas | internal/checks/rows_close.go:23 | every node under the i-th statement of a block is reached by the walk of the block |
| SleepInLoop.IsTimeSleep | internal/checks/sleep_in_loop.go:90-119 | true iff the member is Sleep and either the type information resolves it to package time or the receiver is the identifier `time` |
| SleepInLoop.Finding | internal/checks/sleep_in_loop.go:39-76 | the report is CRITICAL at the call, with the message of the loop's kind and no suggestion |
| SleepInLoop.ScanBody | internal/checks/sleep_in_loop.go:26-54 | the loop over a loop body's nodes yields exactly the nested walk's Sleep reports |
| SleepInLoop.Examine | internal/checks/sleep_in_loop.go:21-84 | the outer callback, with its `for` and `range` cases, equals `Visit` |
| SleepInLoop.VisitIff | internal/checks/sleep_in_loop.go:23-81 | a loop's findings are exactly the reports of the Sleep calls its body's walk reaches |
| SleepInLoop.DiagnosesIff | internal/checks/sleep_in_loop.go:17-88 | the package's findings are exactly, for every loop reached, the Sleep calls in its body |
| SleepInLoop.EveryEnclosingLoopReports | internal/checks/sleep_in_loop.go:26-60 | every loop enclosing a Sleep call reports it |
| SleepInLoop.ReportsPerLoopAndSleep | internal/checks/sleep_in_loop.go:20-84 | the findings are, in walk order, one for each pair of a loop reached and a Sleep call its body's walk reaches, so a call inside k nested loops is reported k times |
| SleepInLoop.NestedLoopsReportTwice | internal/checks/sleep_in_loop.go:21-26 | a Sleep call in two nested `for` loops is reported twice |
| SleepInLoop.NoLoopNoReports | internal/checks/sleep_in_loop.go:23-58 | a package without loops has no findings |
| SleepInLoop.OnlySleep | internal/checks/sleep_in_loop.go:92-94 | another member of `time` is not reported |
| SleepInLoop.ReceiverNameFallback | internal/checks/sleep_in_loop.go:113-116 | when the type information resolves `time.Sleep` elsewhere, the receiver name still decides |
| SleepInLoop.RenamedImport | internal/checks/sleep_in_loop.go:99-111 | a renamed import is recognised only through the type information |
| SleepInLoop.DemoLoopReported | demo/broken.go:10-13 | the demo loop is reported at its Sleep call, line 12 |
| SleepInLoop.ReportsCritical | internal/checks/sleep_in_loop.go:40-69 | every report is CRITICAL |
| ContextInStruct.ContextTypeShape | internal/checks/context_in_struct.go:55-66 | the type test accepts exactly the selector `context.Context` |
| ContextInStruct.Finding | internal/checks/context_in_struct.go:36-44 | a WARNING at the field whose snippet starts with the type name and holds the first field name before `context.Context` |
| ContextInStruct.Examine | internal/checks/context_in_struct.go:22-48 | the loop over the struct's fields equals `Visit` |
| ContextInStruct.FieldReportsIff | internal/checks/context_in_struct.go:32-46 | a struct's reports are exactly the reports of its context-typed field entries |
| ContextInStruct.FieldReportsBound | internal/checks/context_in_struct.go:32-46 | a struct reports at most once per field entry |
| ContextInStruct.DiagnosesIff | internal/checks/context_in_struct.go:16-53 | the package's findings are exactly the context-typed fields of the struct types reached |
| ContextInStruct.ReportsPerField | internal/checks/context_in_struct.go:19-50 | the findings are, in walk and field order, one for each context-typed field entry of each struct type reached |
| ContextInStruct.SharedEntryReportedOnce | internal/checks/context_in_struct.go:32-72 | `a, b context.Context` is one entry and one report, naming `a` |
| ContextInStruct.EmbeddedUnnamed | internal/checks/context_in_struct.go:68-73 | an embedded context field is reported with an empty name |
| ContextInStruct.InterfaceIgnored | internal/checks/context_in_struct.go:27-30 | a non-struct type spec is not examined |
| ContextInStruct.PointerFieldMissed | internal/checks/context_in_struct.go:57-65 | `*context.Context` goes unreported |
| ContextInStruct.DemoServices | demo/context_bad.go:7-10 | `Service` is reported once, at its `ctx` field; `ServiceGood` (demo/context_good.go) is not reported |
| ContextInStruct.ReportsWarning | internal/checks/context_in_struct.go:37 | every report is a WARNING |
| Lifecycle.TrackedVarFirst | internal/checks/http_response_body.go:37-46 | the first left-hand identifier matching a hint, with no matching identifier before it; "" only when none matches |
| Lifecycle.FindTracked | internal/checks/http_response_body.go:37-46 | the loop that breaks at the first match computes `TrackedVar` |
| Lifecycle.ListsVar | internal/checks/http_response_body.go:81-87 | the loop over a return's results finds the variable iff some result is that identifier |
| Lifecycle.ScanLater | internal/checks/http_response_body.go:56-88 | the scan of the later statements says released iff some later statement of the same block releases the variable |
| Lifecycle.CheckStmt | internal/checks/rows_close.go:30-84 | one statement's step yields the variable it acquires and whether it stays unreleased |
| Lifecycle.ScanBlock | internal/checks/zombie_transaction.go:30-87 | the loop over a block reports exactly the unreleased acquisitions, in statement order |
| Lifecycle.Reports | internal/checks/http_response_body.go:90-100 | one report per hit, each the report of some hit |
| Lifecycle.BlockHitsIff | internal/checks/rows_close.go:30-96 | a block's hits are exactly its unreleased acquisitions, each at its assignment's line |
| Lifecycle.BlockHitsBound | internal/checks/rows_close.go:30-96 | a block of n statements reports at most n times |
| Lifecycle.LaterReleaseSuppresses | internal/checks/rows_close.go:65-84 | a release anywhere later in the block suppresses the report |
| Lifecycle.EarlierIgnored | internal/checks/rows_close.go:65 | statements before the acquisition do not matter |
| Lifecycle.NodeReportsIff | internal/checks/zombie_transaction.go:23-89 | a node's findings are exactly the reports of its block's unreleased acquisitions |
| Lifecycle.GatherReportsIff | internal/checks/zombie_transaction.go:19-93 | the package's findings are exactly those of the blocks reached |
| Lifecycle.GatherReportsOnce | internal/checks/zombie_transaction.go:19-93 | the findings are, in walk and statement order, one for each unreleased acquisition of each block reached |
| UnclosedBody.IsBodyClose | internal/checks/http_response_body.go:110-134 | exactly the shape `v.Body.Close()` |
| UnclosedBody.RespVar | internal/checks/http_response_body.go:37-46 | the first left-hand identifier containing "resp" after lower-casing |
| UnclosedBody.Finding | internal/checks/http_response_body.go:91-99 | CRITICAL at the assignment; the rationale advises `defer <v>.Body.Close()` |
| UnclosedBody.Examine | internal/checks/http_response_body.go:22-104 | the block scan equals `Visit` |
| UnclosedBody.DiagnosesIff | internal/checks/http_response_body.go:18-108 | the findings are exactly the unreleased responses of the blocks reached; each gives one finding, in walk and statement order |
| UnclosedBody.FetchReported | internal/checks/http_response_body.go:30-100 | a response that is used and never closed is reported at its assignment |
| UnclosedBody.DeferredCloseAccepted | internal/checks/http_response_body.go:63-68 | a later `defer resp.Body.Close()` suppresses the report |
| UnclosedBody.ReturnHandsOver | internal/checks/http_response_body.go:81-90 | returning the response suppresses the report |
| UnclosedBody.CloseWithoutBodyReported | internal/checks/http_response_body.go:119-126 | `resp.Close()` does not count as a release |
| UnclosedBody.NestedCloseReported | internal/checks/http_response_body.go:59-60 | a close inside a nested block is not seen |
| UnclosedBody.ReportsCritical | internal/checks/http_response_body.go:92 | every report is CRITICAL |
| RowsClose.IsRowsClose | internal/checks/rows_close.go:103-119 | exactly the shape `v.Close()` |
| RowsClose.RowsVar | internal/checks/rows_close.go:38-46 | the first left-hand identifier containing "rows" after lower-casing |
| RowsClose.Finding | internal/checks/rows_close.go:85-94 | CRITICAL at the assignment; advises `defer <v>.Close()`; the snippet starts with the variable |
| RowsClose.Examine | internal/checks/rows_close.go:23-98 | the block scan equals `Visit` |
| RowsClose.DiagnosesIff | internal/checks/rows_close.go:19-101 | the findings are exactly the unclosed rows of the blocks reached; each gives one finding, in walk and statement order |
| RowsClose.UnclosedReported | internal/checks/rows_close.go:84-95 | rows never closed are reported at the assignment |
| RowsClose.CloseAccepted | internal/checks/rows_close.go:68-81 | a later deferred or plain `rows.Close()` suppresses the report |
| RowsClose.ReturnStillReported | internal/checks/rows_close.go:65-82 | returning the rows does not suppress the report |
| RowsClose.PlainAssignIgnored | internal/checks/rows_close.go:33-35 | a `=` assignment is not examined |
| RowsClose.NonCallIgnored | internal/checks/rows_close.go:54-60 | rows not bound from a call are not examined |
| RowsClose.ReportsCritical | internal/checks/rows_close.go:86 | every report is CRITICAL |
| ZombieTransaction.IsBeginCall | internal/checks/zombie_transaction.go:95-101 | exactly a selector call of Begin or BeginTx |
| ZombieTransaction.IsRollbackCall | internal/checks/zombie_transaction.go:103-119 | exactly the shape `v.Rollback()` |
| ZombieTransaction.TxVar | internal/checks/zombie_transaction.go:38-47 | the first left-hand identifier containing "tx" or "transaction" after lower-casing |
| ZombieTransaction.Finding | internal/checks/zombie_transaction.go:77-85 | CRITICAL at the assignment; the snippet names `defer <v>.Rollback()` |
| ZombieTransaction.Examine | internal/checks/zombie_transaction.go:23-89 | the block scan equals `Visit` |
| ZombieTransaction.DiagnosesIff | internal/checks/zombie_transaction.go:19-93 | the findings are exactly the begun transactions with no deferred rollback later in the block; each gives one finding, in walk and statement order |
| ZombieTransaction.NoRollbackReported | internal/checks/zombie_transaction.go:76-86 | a begun transaction is reported whatever follows it, other deferred calls and called rollbacks included, unless a later statement defers `tx.Rollback()` |
| ZombieTransaction.DeferredRollbackAccepted | internal/checks/zombie_transaction.go:65-74 | a later `defer tx.Rollback()` suppresses the report |
| ZombieTransaction.PlainRollbackReported | internal/checks/zombie_transaction.go:68-73 | a rollback that is called, not deferred, does not count |
| ZombieTransaction.OtherCallIgnored | internal/checks/zombie_transaction.go:57-60 | a tx-named variable bound by another call is not examined |
| ZombieTransaction.ReportsCritical | internal/checks/zombie_transaction.go:78 | every report is CRITICAL |
| SQLInjection.BuiltQueryShapes | internal/checks/sql_injection.go:77-108 | the two tests accept exactly `fmt.Sprintf(...)` and a `+` expression |
| SQLInjection.Finding | internal/checks/sql_injection.go:45-66 | CRITICAL at the call, with the rationale of its case and a snippet naming the method |
| SQLInjection.AtMostOnce | internal/checks/sql_injection.go:40-68 | the two cases exclude each other, so a call is reported at most once |
| SQLInjection.DiagnosesIff | internal/checks/sql_injection.go:16-75 | the findings are exactly the Exec/Query/QueryRow calls reached whose first argument is built; each flagged node reached gives one finding, in walk order |
| SQLInjection.ParameterisedAccepted | internal/checks/sql_injection.go:40-57 | a query passed as a literal or as a variable, whatever parameters follow, is not reported |
| SQLInjection.DemoStoredQueryMissed | demo/sql_bad.go:10-11 | `db.Exec(query)` with the Sprintf result stored in a variable first is not reported |
| SQLInjection.DemoConcatReported | demo/sql_bad.go:14 | the concatenated query is reported at the call, with the concatenation texts |
| SQLInjection.DemoQueryContextIgnored | demo/sql_good.go:10 | `QueryContext` is not one of the examined methods |
| SQLInjection.AliasedSprintfMissed | internal/checks/sql_injection.go:93-94 | an aliased formatter goes unnoticed |
| TimebombHttpClient.IsHttpGetOrPost | internal/checks/timebomb_http_client.go:55-68 | exactly `http.Get` or `http.Post` |
| TimebombHttpClient.HasTimeoutField | internal/checks/timebomb_http_client.go:93-102 | the search finds a Timeout key iff some element is `Timeout: ...` |
| TimebombHttpClient.CallFinding | internal/checks/timebomb_http_client.go:26-33 | CRITICAL at the call, with the default-client rationale |
| TimebombHttpClient.ClientFinding | internal/checks/timebomb_http_client.go:38-45 | CRITICAL at the literal, with the client rationale |
| TimebombHttpClient.Examine | internal/checks/timebomb_http_client.go:21-48 | the type switch equals `Visit` |
| TimebombHttpClient.DiagnosesIff | internal/checks/timebomb_http_client.go:17-53 | the findings are exactly the default-client calls and timeout-less client literals reached; each flagged node reached gives one finding, in walk order |
| TimebombHttpClient.TimeoutAccepted | internal/checks/timebomb_http_client.go:70-102 | a client literal setting Timeout anywhere among its elements is accepted |
| TimebombHttpClient.MissingTimeoutReported | internal/checks/timebomb_http_client.go:70-102 | a `http.Client` or `*http.Client` literal none of whose keys is Timeout is flagged, whatever its other elements |
| TimebombHttpClient.DemoDefaultCallsReported | demo/timebomb_http_client.go:10-19 | `http.Get(...)` and `http.Post(...)` are reported at their calls |
| TimebombHttpClient.DemoEmptyClientsReported | demo/timebomb_http_client.go:28-34 | `http.Client{}` is reported, and the walk of `&http.Client{}` reaches the literal |
| BrokenLinkContext.ContextParam | internal/checks/broken_link_context.go:67-80 | the first name of the first named context.Context parameter; "" when there is none |
| BrokenLinkContext.FindContextParam | internal/checks/broken_link_context.go:67-80 | the loop that returns at the first accepted parameter computes `ContextParam` |
| BrokenLinkContext.BadContextShape | internal/checks/broken_link_context.go:84-101 | exactly a TODO or Background call on a receiver ending in "context" |
| BrokenLinkContext.Finding | internal/checks/broken_link_context.go:45-52 | CRITICAL at the call |
| BrokenLinkContext.ExamineCall | internal/checks/broken_link_context.go:42-55 | the argument loop that breaks at the first bad argument reports the call once |
| BrokenLinkContext.Examine | internal/checks/broken_link_context.go:22-61 | the outer callback with its nested walk equals `Visit` |
| BrokenLinkContext.DiagnosesIff | internal/checks/broken_link_context.go:18-65 | the findings are exactly the chain-dropping calls in functions with a context parameter |
| BrokenLinkContext.ReportsPerFunctionAndCall | internal/checks/broken_link_context.go:18-65 | the findings are, in walk order, one for each pair of a function with a context parameter reached and a chain-dropping call its body's walk reaches |
| BrokenLinkContext.ReachedCallReported | internal/checks/broken_link_context.go:35-57 | a chain-dropping call at any depth of a context-taking function's body is reported at the call's line |
| BrokenLinkContext.WithoutContextIgnored | internal/checks/broken_link_context.go:29-32 | without a context parameter nothing is examined |
| BrokenLinkContext.UnnamedSkipped | internal/checks/broken_link_context.go:72 | an unnamed context parameter does not count |
| BrokenLinkContext.ConstructorNotReported | internal/checks/broken_link_context.go:42-43 | `context.Background()` by itself is not reported |
| BrokenLinkContext.IdentifierAccepted | internal/checks/broken_link_context.go:85-88 | passing a context variable is never bad |
| BrokenLinkContext.BadWithTODOReported | demo/broken_link_context.go:13-16 | the demo function is reported at line 15 |
| BrokenLinkContext.DemoBadDatabaseCallReported | demo/broken_link_context.go:8-11 | the query call inside `.Scan()` is reached and reported at line 10 |
| BrokenLinkContext.DemoGoodCallAccepted | demo/broken_link_context.go:20 | the query call passing `ctx` is not flagged |
| BrokenLinkContext.ReportsCritical | internal/checks/broken_link_context.go:46 | every report is CRITICAL |
| ExitInLibrary.IsExitCall | internal/checks/exit_in_library.go:52-78 | exactly the builtin panic, an Exit on a receiver ending in "os", or a Fatal… member on one ending in "log" |
| ExitInLibrary.Finding | internal/checks/exit_in_library.go:35-42 | CRITICAL at the call |
| ExitInLibrary.MainExempt | internal/checks/exit_in_library.go:21-24 | package main has no findings |
| ExitInLibrary.DiagnosesIff | internal/checks/exit_in_library.go:18-50 | the findings are exactly the exit calls reached, outside package main; each flagged node reached gives one finding, in walk order |
| ExitInLibrary.ReceiverBySuffix | internal/checks/exit_in_library.go:65-72 | the receiver test is a suffix test |
| ExitInLibrary.DemoExitReported | demo/lib/library.go:10 | `os.Exit(1)` is reported outside package main |
| ExitInLibrary.DemoFatalReported | demo/lib/library.go:15 | `log.Fatal(...)` is reported outside package main |
| ExitInLibrary.DemoPanicReported | demo/lib/library.go:20 | `panic(...)` is reported outside package main |
| MemoryDOSGuard.IsLimitReader | internal/checks/memory_dos_guard.go:70-79 | exactly a LimitReader call on a receiver ending in "io" |
| MemoryDOSGuard.IsUnlimitedReadAll | internal/checks/memory_dos_guard.go:47-68 | a ReadAll on such a receiver, with arguments, the first not a LimitReader call |
| MemoryDOSGuard.Finding | internal/checks/memory_dos_guard.go:30-37 | CRITICAL at the call |
| MemoryDOSGuard.DiagnosesIff | internal/checks/memory_dos_guard.go:18-45 | the findings are exactly the unlimited ReadAll calls reached; each flagged node reached gives one finding, in walk order |
| MemoryDOSGuard.LimitedAccepted | internal/checks/memory_dos_guard.go:61-65 | a LimitReader argument silences the check |
| MemoryDOSGuard.BareReaderFlagged | internal/checks/memory_dos_guard.go:60-67 | a bare reader is flagged |
| MemoryDOSGuard.NoArgumentsAccepted | internal/checks/memory_dos_guard.go:56-58 | a ReadAll without arguments is not flagged |
| MemoryDOSGuard.DemoReadAlls | demo/memory_dos.go:10-20 | `io.ReadAll(r.Body)` is reported; `io.ReadAll(io.LimitReader(r.Body, 1024*1024))` is not |
| SilencedErrors.IsCriticalFunction | internal/checks/silenced_errors.go:55-69 | the search finds the member iff it is one of the six critical names |
| SilencedErrors.IntendedExtendsSilences | internal/checks/silenced_errors.go:24 | the intended test accepts everything the written one does, and more only for `:=` |
| SilencedErrors.DemoBadMarshalMissed | demo/silenced_errors.go:14 | the written test misses `data, _ := json.Marshal(user)`; the intended one accepts it |
| SilencedErrors.DemoVisitMissed | demo/silenced_errors.go:14 | on that statement the callback as written reports nothing, the intended callback one finding |
| SilencedErrors.DemoBlankAssignReported | demo/silenced_errors.go:20 | `_, _ = json.Marshal(...)` is reported by both readings |
| SilencedErrors.Finding | internal/checks/silenced_errors.go:35-42 | CRITICAL at the assignment |
| SilencedErrors.Examine | internal/checks/silenced_errors.go:23-47 | the callback, which examines `=` assignments only, equals `Visit` |
| SilencedErrors.DiagnosesIff | internal/checks/silenced_errors.go:18-53 | the findings are exactly the `=` assignments reached that drop the error of a critical call into `_`; each flagged node reached gives one finding, in walk order |
| SilencedErrors.DiagnosesIffIntended | internal/checks/silenced_errors.go:18-53 | with `:=` examined as well, the findings are exactly the `=` and `:=` assignments reached that drop such an error; each flagged node reached gives one finding, in walk order |
| SilencedErrors.IntendedReportsMore | internal/checks/silenced_errors.go:24 | over a package, the intended check reports every finding of the written one, and more only for `:=` declarations |
| SliceAppendRace.HasAppend | internal/checks/slice_append_race.go:47-66 | the flag is raised iff the callee is a function literal whose body's walk reaches an `append` call |
| SliceAppendRace.Finding | internal/checks/slice_append_race.go:30-37 | CRITICAL at the `go` keyword |
| SliceAppendRace.Examine | internal/checks/slice_append_race.go:22-40 | the callback equals `Visit` |
| SliceAppendRace.DiagnosesIff | internal/checks/slice_append_race.go:17-45 | the findings are exactly the go statements reached whose literal appends; each flagged node reached gives one finding, in walk order |
| SliceAppendRace.NamedFunctionIgnored | internal/checks/slice_append_race.go:48-51 | `go worker(x)` is never examined |
| SliceAppendRace.AppendInBody | internal/checks/slice_append_race.go:54-63 | one append anywhere in the literal's body is enough |
| SliceAppendRace.MutexIgnored | demo/slice_race.go:14-24 | an append between Lock and Unlock is reported all the same |
| SliceAppendRace.NestedClosureCounts | internal/checks/slice_append_race.go:54 | an append in a nested closure counts |
| WeakRandomness.WeakRandShape | internal/checks/weak_randomness.go:47-66 | exactly a selector call of one of the ten math/rand names on a receiver ending in "rand" |
| WeakRandomness.ContainsKeyword | internal/checks/weak_randomness.go:88-94 | the keyword loop says yes iff the lower-cased text contains one of the seven keywords |
| WeakRandomness.EnclosingName | internal/checks/weak_randomness.go:74-86 | the recorded name is "" or the name of a function whose walk reaches the call; "" when none does |
| WeakRandomness.Reaches | internal/checks/weak_randomness.go:77-83 | the walk of one function hits iff the call is among its nodes |
| WeakRandomness.FindEnclosing | internal/checks/weak_randomness.go:74-86 | the walk computes `EnclosingName` (the last function reaching the call wins) |
| WeakRandomness.GroupMentions | internal/checks/weak_randomness.go:98-105 | a comment group mentions a keyword iff one of its comments does |
| WeakRandomness.LooksLikeSecurityContext | internal/checks/weak_randomness.go:68-109 | the heuristic holds iff the enclosing name or some comment of the file mentions a keyword |
| WeakRandomness.Finding | internal/checks/weak_randomness.go:30-37 | CRITICAL at the call |
| WeakRandomness.Examine | internal/checks/weak_randomness.go:22-41 | the callback equals `Visit` |
| WeakRandomness.DiagnosesIff | internal/checks/weak_randomness.go:18-45 | the findings are exactly the weak calls reached in a security context; each flagged node reached gives one finding, in walk order |
| WeakRandomness.CommentTaintsFile | internal/checks/weak_randomness.go:97-106 | one keyword comment makes every weak call of the file reported |
| WeakRandomness.EmptyNameMentionsNothing | internal/checks/weak_randomness.go:74-94 | "no enclosing function" mentions no keyword |
| WeakRandomness.OutsideFunctionsIgnored | internal/checks/weak_randomness.go:74-108 | a weak call outside functions in a file without keyword comments is not reported |
| WeakRandomness.SubstringMatches | internal/checks/weak_randomness.go:91 | keywords match as substrings: `monkey` counts |
| TimeComparison.IsTimeType | internal/checks/time_comparison.go:50-65 | exactly `X.Time` on a receiver ending in "time", or an identifier containing "time" after lower-casing |
| TimeComparison.Finding | internal/checks/time_comparison.go:32-40 | CRITICAL at the comparison, with a suggestion |
| TimeComparison.DiagnosesIff | internal/checks/time_comparison.go:19-48 | the findings are exactly the `==` comparisons of two time-like operands reached; each flagged node reached gives one finding, in walk order |
| TimeComparison.Symmetric | internal/checks/time_comparison.go:30 | the test does not depend on operand order |
| TimeComparison.InequalityAccepted | internal/checks/time_comparison.go:25 | `!=` is not examined |
| TimeComparison.NameTestIgnoresCase | internal/checks/time_comparison.go:61 | the identifier test ignores case |
| TimeComparison.DemoBadCompareMissed | demo/time_comparison.go:9 | `t1 == t2` goes unreported: the names do not contain "time" |
| TimeComparison.NamedTimesReported | internal/checks/time_comparison.go:55-63 | `startTime == endTime` is reported |
| EmptySpin.IsEmptySpin | internal/checks/empty_spin.go:49-71 | exactly a body that is one select whose only clause is an empty default |
| EmptySpin.Finding | internal/checks/empty_spin.go:31-39 | CRITICAL at the `for`, with a suggestion |
| EmptySpin.DiagnosesIff | internal/checks/empty_spin.go:17-47 | the findings are exactly the bare `for` loops reached whose body is an empty spin; each flagged node reached gives one finding, in walk order |
| EmptySpin.BlockingCaseAccepted | internal/checks/empty_spin.go:64-67 | a select that can block does not spin |
| EmptySpin.BusyDefaultAccepted | internal/checks/empty_spin.go:69-70 | a default clause that does work does not count |
| EmptySpin.ConditionalLoopAccepted | internal/checks/empty_spin.go:23 | a loop with a condition is not examined |
| Registry.RegistryComplete | main.go:62-79 | every check is registered exactly once |
| Registry.NameInjective | main.go:62-79 | no two checks share a name |
| Registry.ExamineWith | main.go:85 | running a check's callback at a node equals that check's `Visit` |
| Registry.Run | main.go:85 | a check's Run over a package equals the gathered walk of its callback |
| Registry.Collect | main.go:81-88 | the nested loop over packages and checks computes `Aggregate` over the registry |
| Registry.VisitSeverity | main.go:62-79 | each check's findings carry its severity: WARNING for ContextInStruct, CRITICAL otherwise |
| Registry.RunSeverity | main.go:85 | every finding of a check's Run carries the check's severity |
| Registry.AggregateNeverInfo | main.go:81-88 | no finding of the command is INFO |
| Aggregation.RunChecksMember | main.go:84-87 | one package's findings are exactly the findings of some check on it |
| Aggregation.AggregateMember | main.go:81-88 | the command's findings are exactly the findings of some check on some package |
| Aggregation.AggregateAppend | main.go:83-88 | the findings split as the package list does: packages are never interleaved |
| Aggregation.RunChecksAppend | main.go:84-87 | one package's findings split as the check list does, in registry order |
| Registry.NoFilesNoFindings | main.go:84-87 | a package without files yields no findings |
| Aggregation.AggregateHolds | main.go:81-88 | a property every check guarantees of its findings holds of every aggregated finding |
| HtmlReport.SortBySeverity | main.go:103-108 | after the sort no non-critical finding precedes a critical one, and the array is a permutation of its old contents |
| HtmlReport.CriticalFirstSplit | main.go:103-108 | a sorted list is a run of critical findings followed by the others |
| HtmlReport.RenderEntry | main.go:120-132 | the appends of one iteration build exactly `Entry(d)` |
| HtmlReport.BuildPage | main.go:110-135 | the page loop builds exactly `Page(ds)` |
| HtmlReport.GenerateHTMLReport | main.go:101-135 | sorted critical-first, a permutation, and the page of the sorted findings |
| HtmlReport.ConcatAppend | main.go:119-133 | the sections split as the list does |
| HtmlReport.CriticalSectionsFirst | main.go:103-133 | on a sorted list every critical section precedes every other section |
| HtmlReport.HeaderCountRoundTrip | main.go:116 | the header's count is a run of digits reading back as the number of findings |
| HtmlReport.EntryShowsFinding | main.go:120-131 | each section opens with the severity and message as a heading, holds the location line and the rationale, and the suggestion when there is one, as paragraphs without line breaks |
| HtmlReport.OptionalParagraphs | main.go:123-131 | the Code and Suggestion paragraphs appear exactly when snippet or suggestion is non-empty |
| HtmlReport.PageFrame | main.go:110-135 | the page opens with the header and closes with the footer |
| HtmlReport.EmptyPage | main.go:110-135 | an empty run reports "Found 0 issues." and has no sections |

## Left out

- Loading packages (`packages.Load`), command-line flags, printing errors, exit codes and writing the HTML file are I/O. `Package` is a parameter and `GenerateHTMLReport` returns the page text instead.
- The console renderer (internal/report) is not part of this model.
- Source positions are one line per node. The file name is that of the file being walked, which is what `Fset.Position(..).Filename` yields. Columns are not modelled.
- `strings.ToLower` is modelled on ASCII letters only; Unicode case mapping is not modelled.
- Go's type switch over `ast.Node` is a closed datatype of node kinds: `Ast.Node`, reduced to the node kinds the detectors distinguish. Every other construct is an `OtherExpr`/`OtherStmt` that keeps its children for the walk.
- `pkg.TypesInfo.Uses` is an optional map from the selector to the name of its object's package. "No object" and "object without package" are both a missing key.
- Registry.ExamineWith: SQLInjection, ExitInLibrary, MemoryDOSGuard, TimeComparison and EmptySpin have no loop in their callbacks, so they run their `Visit` function directly.
- HtmlReport.SortBySeverity: only what `sort.Slice` guarantees for the comparator is stated: critical first, and a permutation. The order within each group (pdqsort, not stable) is not modelled; the model's partition puts a different order there.
- WeakRandomness.FindEnclosing: the source compares `inner == call` by pointer identity. The model compares nodes structurally, so an identical call elsewhere in the file also matches. Once found, the source's inner walk stops descending (`return false`), but the outer walk goes on and a later function reaching the call still overwrites the name. The model keeps that last-wins behaviour.
- The `Diagnosis` struct in internal/doctor/doctor.go:13-20 has no `Suggestion` field, yet the detectors and main.go:128-131 set and read one. The model follows the detectors and main.go and gives `Doctor.Diagnosis` a `suggestion` field.
- `doctor.Check` is a Go interface. The model makes it the closed datatype `Registry.Check`, with `Name` and `VisitorOf` as the two methods of the interface.
- SleepInLoop.Examine: the source tests `*ast.ForStmt` and `*ast.RangeStmt` as two independent `if`s. A node is never both, so the model's two cases cannot both apply, as in the source.
- SilencedErrors: `Registry` runs the detector as written (`Silences`, `Visit`, `=` assignments only). The corrected reading of the Findings table is kept beside it as `SilencesIntended` and `VisitIntended`; IntendedReportsMore and DemoVisitMissed show where the two differ.
- Registry.VisitSeverity: severities are stated per check. For the aggregate, only "never INFO" is stated (AggregateNeverInfo), not which check each WARNING came from.
- `Ast.FuncDecl` always has a body, so a declaration without one (an assembly stub) is not modelled. The whole-file walks and the walk of a whole declaration (internal/checks/weak_randomness.go) would skip its nil body. The BrokenLinkContext check would not: internal/checks/broken_link_context.go:35 walks `fn.Body` directly, and for such a declaration with a named `context.Context` parameter the Go walk dereferences the nil body and panics. The model has no such case.
- `Strings.ReplaceAll` replaces a one-character target only, which is the only use in main.go:127 and main.go:130.
- Text constants (messages, rationales, snippets) are copied as written. Properties about them are stated only where they carry a variable part (variable names, type names, method names).

## Findings

| source | as written | input that shows it | evidently intended | confidence | as-written member | corrected member |
|---|---|---|---|---|---|---|
| internal/checks/silenced_errors.go:24 | only `=` assignments (`token.ASSIGN`) are examined, although the comment on line 28 and the snippet on line 41 describe `_, err := ...` | `data, _ := json.Marshal(user)` (demo/silenced_errors.go:14), the demo's first bad case, is not reported | `:=` declarations are examined as well | not executed | SilencedErrors.DemoVisitMissed | SilencedErrors.DiagnosesIffIntended |
