# hamsy: a model of its rules, stores, bytes and protocols

hamsy is an intercepting HTTP proxy. This project models the parts of it whose
correctness is not visible from one function body, and proves what they are for.

- **Rules** (`Headers`, `JsonEdit`, `Rules`, `RuleEngine`, `RuleEffects`,
  `RuleMatching`, `RuleOutcomes`, `RulesStore`, `Pipeline`). Rules match and
  rewrite a request and then its response; when they match and what they leave
  is read off the rules themselves. The proxy first *probes* the rules without a
  body to decide whether to buffer it.
  A probe that says no can be believed, in both phases; the compiled rule set
  agrees with the stored list even when the disk write fails; JSON edits obey
  lens laws.
- **Shared state** (`Retention`, `FlowStore`, `FlowSharing`, `WebSocketCaps`,
  `Pool`, `PoolProtocol`, `ResponseRelease`, `CertCache`). Eviction keeps the
  longest suffix that fits, updates of shared flows are atomic under every
  interleaving, connection leases are exclusive, and the certificate cache is a
  least-recently-used one that keeps one certificate and configuration while a
  host is resident.
- **Bytes** (`Utf8`, `Base64`, `ClientHello`, `Sniffing`, `Tokens`, `Body`,
  `Tee`, `RuleBody`, `Throttle`, `Authority`). The hand-written ClientHello
  parser inverts the standard's encoding, peeking loses no byte, content codings
  undo in reverse order, captures are exact prefixes, rules are shown a whole
  body or none, the throttle has a tight bound, and a request keeps one origin
  identity across HTTP versions.
- **Protocols over time and crashes** (`SysProxy`, `SysProxyMarker`, `AppId`).
  The marker file brings the user's proxy settings back, and a connection is
  only attributed to a process seen owning its port after it was accepted.

Code that changes state in place is modelled as classes and loops, each proved
against a function on values; the laws and the invariants over whole runs are
proved about those functions. Threads, crashes, clocks and the network are state
machines whose steps come in any order. Foreign libraries (regular expressions,
globs, URL and URI parsing, JSON text, compression, certificate signing) are
function-valued parameters; the laws assumed of them are `Body.Inverse`,
`Body.EmptyZlibIsNotRaw`, `Pipeline.Reparses`, `RuleOutcomes.QueryLaws` and
`Authority.UriLaws`, named wherever they are used. `RuleBody.LawsCanBeMet` shows
that the first two can be met together, `Authority.PlainLawsHold` that the last
can.

## Where the code does less than its documentation says

Each of these is a lemma; the code was kept as it is.

- The throttle counts the time a frame waits twice, once in the wait and once in
  the next refill, so it lets out up to twice its rate
  (`Throttle.DoubleRateIsReached`). The single-rate bound holds on every
  schedule exactly when everything before the last non-empty frame fits the
  bucket (`Throttle.SingleRateBoundIff`).
- The capture flag `truncated` is also set by an empty data frame that arrives
  with the cap exactly reached (`Tee.TruncatedMeansOverCapIff`).
- An empty body coded as zlib `deflate`, or a cap of zero, falls through to the
  raw decoder (`Body.DeflateRoundTripIff`). The empty body then does not decode
  (`Body.DeflateFailsOnEmpty`): it is captured as its coded bytes
  (`Body.EmptyDeflateIsCapturedCoded`), and where rules want it the exchange
  fails (`RuleBody.DecodedWholeIff`).
- `ReleaseOnComplete` gives a sender back after an error if it is polled on to
  the end (`ResponseRelease.PolledOnGivesBack`; `ResponseRelease.Drive` says
  exactly when).
- The ClientHello parser does not look at the record's length: after a hello
  without extensions it reads the bytes that follow as some
  (`ClientHello.ExtensionlessReadsOn`).
- The response phase matches against the client's own method and against
  headers adopted after the request phase, so a body that the probe did not ask
  for can be missed there (`Pipeline.MethodChangeMisses`,
  `Pipeline.AddedHostMisses`, `Pipeline.DroppedFieldMisses`).
  `Pipeline.BodyIsMissedIff` says exactly when, and
  `Pipeline.WithheldBodyIsNotMissed` gives a condition on the exchange alone.
- A request without Host that is not rewritten gets none between two HTTP/1
  sides, although http.rs:305-309 counts on a fallback
  (`Authority.HostlessClaimsUrlIff`).
- Restoring the system proxy does not bring back the server and port of a proxy
  that was off (`SysProxy.OffServersAreNotRestored`; exactly when it does is
  `SysProxy.RestoreIsExactIff`). A process killed in either of two windows loses
  the user's settings, unless they are in force anyway
  (`SysProxyMarker.KilledWhileEnablingIff`, `SysProxyMarker.KilledBeforeWrite`,
  `SysProxyMarker.KilledWhileRestoringIff`, `SysProxyMarker.KilledAfterDelete`).
- A port scan that starts in the very instant of the acceptance is not fresh for
  it, although appid.rs:258-259 says that a rescan always is
  (`AppId.OwnScanSufficesIff`, `AppId.SameInstantScanIsLost`).

## Model

| member | source | states |
|---|---|---|
| `RuleEngine.RequestProbeIsSound` | crates/hamsy-core/src/rule.rs:1157-1401 | when the probe asks for no body, the request phase with any body at all gives the same method, URL, headers, matched ids, modified flag, block, mock, delay and throttle as without one, and hands the body back unchanged |
| `RuleEngine.RequestProbeIsExact` | crates/hamsy-core/src/rule.rs:1163-1401 | the probe asks for the body exactly when execution reaches a matching rule that reads or writes it, or ends unstopped where some rule with a body condition matches otherwise |
| `RuleEngine.ResponsePhaseNeedsNoWithheldBody` | crates/hamsy-core/src/rule.rs:1365-1401 | after such a probe, and with nothing blocked or mocked, the response phase on the outcome's method, URL and headers is the same with the request body supplied or missing, for every response, in probe mode or not |
| `RuleEngine.ResponseIgnoresRequestBody` | crates/hamsy-core/src/rule.rs:704-739 | with no request-body condition reachable the response phase cannot tell which request body it was given |
| `RuleEngine.ResponseProbeIsSound` | crates/hamsy-core/src/rule.rs:1412-1567 | when the response probe asks for no body, every output of the response phase but the body itself is independent of the response body |
| `RuleEngine.ResponseProbeIsExact` | crates/hamsy-core/src/rule.rs:1412-1567 | the response probe asks for the body exactly when execution reaches a rule that matches otherwise and reads or writes it |
| `RuleEngine.RunRequest` | crates/hamsy-core/src/rule.rs:1167-1401 | the rule loop with its early exits computes the request phase that the probe lemmas speak about |
| `RuleEngine.RunRequestActions` | crates/hamsy-core/src/rule.rs:1210-1359 | the action loop of one matching rule, in place, is the fold of its actions with the captures taken before the first one |
| `RuleEngine.RunResponse` | crates/hamsy-core/src/rule.rs:1421-1567 | the rule loop of the response phase with its early exits computes the response phase that the lemmas speak about |
| `RuleEngine.RunResponseActions` | crates/hamsy-core/src/rule.rs:1464-1549 | the action loop of one matching rule in the response phase is the fold of its actions |
| `RuleEngine.DelayIsTotalThrottleIsLeast` | crates/hamsy-core/src/rule.rs:1167-1401 | the reported delay is the saturated sum of all delays that fired and the reported throttle the smallest that fired, present exactly if one did |
| `RuleEffects.OutcomeFollowsFired` | crates/hamsy-core/src/rule.rs:1167-1401 | the outcome's method is the last one set by the actions that fired, its block reason the last one given, it is mocked exactly if a mock fired, and every header has the values that the last edit of its name left |
| `RuleEffects.UnflaggedRequestIsUntouched` | crates/hamsy-core/src/rule.rs:1224-1359 | without the modified flag the outcome has the client's own method, URL, headers and body and is neither blocked nor mocked |
| `RuleEffects.ResponseFollowsFired` | crates/hamsy-core/src/rule.rs:1421-1567 | the status is the last one set, every header has the values that the last edit of its name left, and without the modified flag status, headers and body are the server's own |
| `RuleMatching.NewIsOwn` | crates/hamsy-core/src/rule.rs:1106-1137 | in every rule set made from a list each rule stands beside the entry that compiling it yields |
| `RuleMatching.RequestMatchIff` | crates/hamsy-core/src/rule.rs:580-701 | a rule matches a request exactly when its own conditions on URL, host and port, method, resource type, headers and body accept it; a probe leaves the body condition out |
| `RuleMatching.ResponseMatchIff` | crates/hamsy-core/src/rule.rs:704-739 | a rule matches a response exactly when its own conditions accept the request and the response's status, headers and body |
| `RuleMatching.StatusCodes` | crates/hamsy-core/src/rule.rs:432-438 | of the three-digit codes an exact specification takes one, a class its hundred and a range everything between its ends |
| `RuleOutcomes.OutcomeIsFolded` | crates/hamsy-core/src/rule.rs:1167-1401 | the outcome's URL and body are what the edits of the rules that fired make of the client's one after the other, its mock is the last one given with its status, headers, body and delay, its ids are those of the rules that fired, and it is flagged as modified if one of them edits for sure and only if one may have |
| `RuleOutcomes.LastSetIsSent` | crates/hamsy-core/src/rule.rs:1277-1340 | the last body set with no edit after it is the body sent, as UTF-8 text or as what the base64 stands for, and the last mock given is the answer |
| `RuleOutcomes.DecodePayloadIs` | crates/hamsy-core/src/rule.rs:785-790 | a text payload is its UTF-8 bytes, a base64 one the bytes whose encoding it is, and nothing if there are none |
| `RuleOutcomes.SubstitutesGroup` | crates/hamsy-core/src/rule.rs:744-766 | $1 to $9 give way to the group of that number, or to nothing if it took no part in the match |
| `RuleOutcomes.KeepsOtherText` | crates/hamsy-core/src/rule.rs:744-766 | any other text of a template stays, a $ without such a digit included, and all of it without a match |
| `RuleOutcomes.QueryFollows` | crates/hamsy-core/src/rule.rs:1254-1276 | a query parameter that is set has exactly the new value, one that is removed has none, and every other keeps its values |
| `RuleOutcomes.ResponseIsFolded` | crates/hamsy-core/src/rule.rs:1421-1567 | the response's body is what the edits of the rules that fired make of the server's; its delay is their saturated sum, its throttle the least, its ids those of the rules that fired; only a block cuts the phase short |
| `Headers.LookupAfterSet` | crates/hamsy-core/src/rule.rs:792-795 | after a set the name (in any case) has exactly the new value and every other name keeps its values |
| `Headers.LookupAfterRemove` | crates/hamsy-core/src/rule.rs:797-801 | after a removal the name has no value and every other name keeps its values |
| `Pipeline.BodyIsMissedIff` | crates/hamsy-proxy/src/http.rs:918-1436 | as the proxy runs the two phases with distinct rule ids, the response outcome differs from the one with the body exactly when the phase, run without it, gets to a rule whose verdict turns on the body with all else in it holding |
| `Pipeline.WithheldBodyIsNotMissed` | crates/hamsy-proxy/src/http.rs:918-1436 | after a probe that asked for none, such a body is not missed if the method was not changed and adopting the headers neither dropped a per-hop field nor added a Host, whatever the rules and ids |
| `Pipeline.MethodChangeMisses` | crates/hamsy-proxy/src/http.rs:1276-1282 | the response phase goes by the client's method: two rules, as compiled from their list, for which a changed method makes it miss a body the probe did not ask for |
| `Pipeline.AddedHostMisses` | crates/hamsy-proxy/src/http.rs:317-343 | two rules, as compiled from their list, for which a Host synthesized after the request phase makes the response phase miss such a body |
| `Pipeline.DroppedFieldMisses` | crates/hamsy-proxy/src/http.rs:317-343 | two rules, as compiled from their list, for which a per-hop field dropped after the request phase makes the response phase miss such a body |
| `RulesStore.NewIsTheSelection` | crates/hamsy-core/src/rule.rs:1106-1137 | the compiled set holds exactly the enabled rules that compile, by priority from low to high and then in the order of the list, each with its own compiled entry |
| `RulesStore.SelectionIsUnique` | crates/hamsy-core/src/rule.rs:1106-1137 | a strictly ranked list of the same rules is the same list: the selection is determined |
| `RulesStore.SkippedAreReported` | crates/hamsy-core/src/rule.rs:1106-1137 | the rules reported are exactly the enabled ones that do not compile |
| `RulesStore.CompileRules` | crates/hamsy-core/src/rule.rs:1106-1137 | the compiling loop yields aligned lists that pair up to the selection, and the ids it skipped |
| `RulesStore.ReorderIsPermutation` | crates/hamsy-core/src/rules_store.rs:96-107 | reordering keeps every rule, as often as it was there, for any ids |
| `RulesStore.ReorderPutsListedFirst` | crates/hamsy-core/src/rules_store.rs:96-107 | with distinct rule ids the listed rules come first in the order given (each once) and the others follow in the order they had |
| `RulesStore.RunReorder` | crates/hamsy-core/src/rules_store.rs:96-107 | the pick-and-remove loop is that reordering |
| `RulesStore.Store.Persist` | crates/hamsy-core/src/rules_store.rs:128-131 | the cached set is replaced before the disk is tried, so it agrees with the list even if the write fails |
| `RulesStore.Store.Create` | crates/hamsy-core/src/rules_store.rs:50-54 | appends the rule; the cached set agrees with the list, written or not |
| `RulesStore.Store.Update` | crates/hamsy-core/src/rules_store.rs:58-66 | replaces the first rule with the id, or reports it missing and changes nothing; the cached set agrees either way |
| `RulesStore.Store.Delete` | crates/hamsy-core/src/rules_store.rs:70-78 | removes the first rule with the id, or reports it missing and changes nothing; the cached set agrees either way |
| `RulesStore.Store.Toggle` | crates/hamsy-core/src/rules_store.rs:83-91 | flips only the flag of the first rule with the id, or reports it missing; the cached set agrees either way |
| `RulesStore.Store.Reorder` | crates/hamsy-core/src/rules_store.rs:96-107 | the stored list is the reordering, a permutation, and the cached set agrees with it |
| `RulesStore.Store.Import` | crates/hamsy-core/src/rules_store.rs:110-114 | the list is replaced and the cached set agrees with it |
| `JsonEdit.GetSet` | crates/hamsy-core/src/rule.rs:878-916 | reading what was just set gives the value back, at every path and whatever was there |
| `JsonEdit.SetSet` | crates/hamsy-core/src/rule.rs:892-916 | the second of two sets at one path wins |
| `JsonEdit.SetGet` | crates/hamsy-core/src/rule.rs:878-916 | setting the value that is present changes nothing |
| `JsonEdit.SetFrame` | crates/hamsy-core/src/rule.rs:892-916 | a set leaves an existing value on a diverging path alone exactly when the paths part at segments of one kind |
| `JsonEdit.SetPads` | crates/hamsy-core/src/rule.rs:892-916 | a set makes nothing up on a diverging path but the nulls with which an array is padded up to the place set |
| `JsonEdit.MergeAt` | crates/hamsy-core/src/rule.rs:943-957 | merging into an object is the right-biased union and replaces anything else |
| `JsonEdit.AppendAt` | crates/hamsy-core/src/rule.rs:962-968 | appending lengthens an array by one and makes a one-element array elsewhere |
| `JsonEdit.EditIsSet` | crates/hamsy-core/src/rule.rs:943-968 | merge and append are one set each, so the set laws cover them |
| `JsonEdit.RemoveAt` | crates/hamsy-core/src/rule.rs:920-938 | remove takes out exactly the addressed member or element, by one set of its parent, so the set laws cover the rest of the document; where nothing is addressed it changes nothing |
| `JsonEdit.OpLeaves` | crates/hamsy-core/src/rule.rs:972-1000 | each kind of operation puts or takes out exactly what its name says at its path, with null for a missing value |
| `JsonEdit.OpsConcat` | crates/hamsy-core/src/rule.rs:972-1000 | the operations of a list run in its order |
| `JsonEdit.NoIndexIsSkipped` | crates/hamsy-core/src/rule.rs:843-876 | a bracket whose text is no index closes the key before it and is skipped |
| `JsonEdit.ParseInvertsPrint` | crates/hamsy-core/src/rule.rs:843-876 | parsing undoes printing for exactly the paths whose keys are non-empty and free of '.' and '[' and whose indices fit a usize |
| `JsonEdit.ParsePath` | crates/hamsy-core/src/rule.rs:843-876 | the one-pass parser computes the grammar that the round trip speaks about |
| `JsonEdit.SetInPlace` | crates/hamsy-core/src/rule.rs:892-916 | making containers step by step and recursing is the set of the laws |
| `JsonEdit.GetMut` | crates/hamsy-core/src/rule.rs:878-888 | the segment-by-segment walk finds the value that the laws read |
| `JsonEdit.MergeInPlace` | crates/hamsy-core/src/rule.rs:943-957 | inserting member by member through the reference found is the merge of the laws |
| `JsonEdit.AppendInPlace` | crates/hamsy-core/src/rule.rs:962-968 | pushing through the reference found, or setting a new array, is the append of the laws |
| `JsonEdit.RemoveInPlace` | crates/hamsy-core/src/rule.rs:920-938 | finding the parent and removing there is the remove of the laws |
| `Retention.LongestFitIsUnique` | crates/hamsy-core/src/store.rs:49-59 | there is only one longest suffix within a count and a byte limit |
| `FlowStore.EvictionKeepsLongestSuffix` | crates/hamsy-core/src/store.rs:49-59 | eviction meets both bounds, keeps exactly the longest suffix of the insertion order that does, and leaves the kept flows as they are |
| `FlowStore.PayloadIsAllBuffers` | crates/hamsy-core/src/store.rs:299-314 | a flow counts with the bytes of all its buffers: the bodies of both requests and both responses and every socket message |
| `FlowStore.InsertIsValid` | crates/hamsy-core/src/store.rs:99-110 | after an insert the order lists exactly the stored ids once each, the byte total is exact and both bounds hold |
| `FlowStore.InsertStoresWhatFits` | crates/hamsy-core/src/store.rs:99-110 | the new flow is stored exactly when it alone is within the budget, and then it is the newest |
| `FlowStore.InsertKeepsNewest` | crates/hamsy-core/src/store.rs:99-110 | an insert puts the flow under its id at the newest place, and of the flows in that order the newest that fit are kept, each as it is |
| `FlowStore.UpdateIsValid` | crates/hamsy-core/src/store.rs:115-148 | the same accounting after an update; a surviving flow holds the callback's result and every other survivor is as it was |
| `FlowStore.UpdateKeepsNewest` | crates/hamsy-core/src/store.rs:115-148 | an update puts the callback's result in the flow's place in the order and keeps the newest flows that fit; a flow that does not grow stays, and all others with it; an id that is not stored changes nothing |
| `FlowStore.RewriteKeepsNewest` | crates/hamsy-core/src/store.rs:115-148 | the same of a callback run on a clone of the stored flow |
| `FlowStore.ResizeIsValid` | crates/hamsy-core/src/store.rs:275-289 | the same accounting after changing the capacity or the budget |
| `FlowStore.ResizeKeepsNewest` | crates/hamsy-core/src/store.rs:275-289 | a new capacity (at least one) or budget keeps the newest flows that fit |
| `FlowStore.FlowTable.EvictIfNeeded` | crates/hamsy-core/src/store.rs:49-59 | the eviction loop, in place, is the eviction of the lemmas |
| `FlowStore.FlowTable.Insert` | crates/hamsy-core/src/store.rs:99-110 | insert under the lock keeps the accounting, and of the flows with the new one at the end the newest that fit |
| `FlowStore.FlowTable.Update` | crates/hamsy-core/src/store.rs:115-148 | update under the lock leaves the callback's result in the flow's place and the newest that fit, and returns the result if it is among them; an id that is not stored changes nothing and returns nothing |
| `FlowStore.FlowTable.Clear` | crates/hamsy-core/src/store.rs:256-261 | clearing leaves an empty, valid store with the same limits |
| `FlowStore.FlowTable.NextSeq` | crates/hamsy-core/src/store.rs:89-94 | hands out the sequence numbers one after the other |
| `FlowStore.FlowTable.SetCapacity` | crates/hamsy-core/src/store.rs:275-279 | a new capacity takes effect by eviction |
| `FlowStore.FlowTable.SetMaxTotalBytes` | crates/hamsy-core/src/store.rs:285-289 | a new byte budget takes effect by eviction |
| `FlowStore.FlowTable.Snapshots` | crates/hamsy-core/src/store.rs:223-236 | the stored flows in insertion order, or in the order of the ids asked for, skipping missing ones |
| `FlowStore.PresentIsInOrder` | crates/hamsy-core/src/store.rs:223-236 | the snapshots are the stored flows under exactly the ids that are stored, in the order of the ids; of a whole store, one for each flow in insertion order |
| `FlowSharing.CountOneIsSole` | crates/hamsy-core/src/store.rs:115-148 | a strong count of one means that the table is the only holder |
| `FlowSharing.StepIsOk` | crates/hamsy-core/src/store.rs:115-148 | every step of any thread keeps the reference counts consistent, changes the store as one atomic event says, and leaves snapshots alone, so Arc::get_mut never fails; addresses are reused as soon as nothing points to them |
| `FlowSharing.StepDoes` | crates/hamsy-core/src/store.rs:99-148 | what each critical section does to the stored flows and its call, said in the counts and pointers that it tests: an update on a flow held once, or on a copy whose original is still stored, ends its call with the callback's result in the flow's place; inserts, clears and new limits leave the newest that fit; everything else leaves the store alone |
| `FlowSharing.EveryInterleavingIsAtomic` | crates/hamsy-core/src/store.rs:99-148 | under every interleaving of update, insert, clear, resizing and snapshots the store goes through the listed atomic events, each applied to the version then stored or, for a copied flow, to a clone of it (the same contents, buffers no larger); the byte total stays exact and nothing panics |
| `FlowSharing.EmptyWorldIsOk` | crates/hamsy-core/src/store.rs:74-86 | a new store is a state that such runs start in |
| `FlowSharing.EachUpdateHappensOnce` | crates/hamsy-core/src/store.rs:115-148 | each call of update takes effect exactly once, with its own id and callback, when it finishes |
| `FlowSharing.SnapshotsNeverChange` | crates/hamsy-core/src/store.rs:223-236 | a snapshot points to the same flow with the same contents for as long as it is held |
| `WebSocketCaps.WsHistory.Cap` | crates/hamsy-proxy/src/websocket.rs:379-392 | dropping the oldest messages leaves the longest run of newest ones within the count and the byte budget |
| `WebSocketCaps.WsHistory.Excess` | crates/hamsy-proxy/src/websocket.rs:379-392 | the two counting loops find how many messages that drops |
| `WebSocketCaps.CapStr` | crates/hamsy-proxy/src/websocket.rs:402-411 | a text message is cut to its longest valid prefix within the byte budget |
| `PoolProtocol.EveryRunKeepsInv` | crates/hamsy-proxy/src/upstream.rs:166-275 | in every reachable state an HTTP/1 connection is pooled or held by one lease, never both; free permits and live leases of an HTTP/2 connection make 100; buckets hold at most 8, each under the key it was dialed for |
| `PoolProtocol.EmptyPoolIsOk` | crates/hamsy-proxy/src/upstream.rs:158-164 | the pool that a connector starts with keeps those promises |
| `PoolProtocol.StepKeepsInv` | crates/hamsy-proxy/src/upstream.rs:166-509 | every dial, checkout, permit wait, finish, failure, close and tick keeps those promises |
| `PoolProtocol.FailedConnectionNeverReturns` | crates/hamsy-proxy/src/upstream.rs:452-476 | an HTTP/1 connection whose lease ended by dropping the sender is never pooled or leased again |
| `PoolProtocol.CheckoutTakesFromPool` | crates/hamsy-proxy/src/upstream.rs:166-212 | a checkout hands out an open pooled connection dialed for the key and adds none to the pool, and an HTTP/1 one is no longer pooled |
| `PoolProtocol.ReusedWithin90` | crates/hamsy-proxy/src/upstream.rs:166-275 | an open HTTP/1 connection whose lease finishes serves the next request for its key exactly if that comes within 90 seconds |
| `PoolProtocol.SharedAfterDial` | crates/hamsy-proxy/src/upstream.rs:166-230 | a freshly dialed HTTP/2 connection serves a second request at once on a permit of its own |
| `PoolProtocol.GrantedIffOpen` | crates/hamsy-proxy/src/upstream.rs:203-210 | a waiting request that gets a permit gets the connection exactly if that is still open |
| `PoolProtocol.CheckinAddsOne` | crates/hamsy-proxy/src/upstream.rs:244-275 | a checkin adds at most the returned connection, under its own key |
| `Pool.ConnPool.Checkout` | crates/hamsy-proxy/src/upstream.rs:166-212 | the checkout of the protocol: something is found exactly if an entry of the key is open and either shared with streams in use or idle for at most 90 seconds; it is the newest of these with capacity, or else the newest; all others of these stay pooled and the rest is dropped |
| `Pool.CheckoutHandsOut` | crates/hamsy-proxy/src/upstream.rs:166-212 | the same of the function that the protocol uses |
| `Pool.ConnPool.Checkin` | crates/hamsy-proxy/src/upstream.rs:244-275 | checking in under the lock is the checkin of the protocol |
| `Pool.CheckinTakesBack` | crates/hamsy-proxy/src/upstream.rs:244-275 | a checkin of an open connection keeps in every bucket exactly the entries that pass the same test, in order, drops emptied buckets, and makes the connection the newest of at most 8 under its key |
| `Pool.ConnPool.ReleaseH2` | crates/hamsy-proxy/src/upstream.rs:452-476 | releasing a shared handle sets its idle time to now and changes nothing else |
| `Pool.PickIsNewestWithCapacity` | crates/hamsy-proxy/src/upstream.rs:166-212 | the connection picked is the newest with capacity, or the newest if none has any |
| `ResponseRelease.Drive` | crates/hamsy-proxy/src/upstream.rs:611-676 | over any polls the sender goes back once if some poll completed or the body was complete to begin with, else never; it goes back despite a failure exactly when nothing completed before the first failed poll and some later poll does |
| `ResponseRelease.EndLease` | crates/hamsy-proxy/src/upstream.rs:611-676 | running the wrapper over the polls decides how the lease ends: finished if the sender went back, failed if not |
| `ResponseRelease.BackInPoolIff` | crates/hamsy-proxy/src/upstream.rs:244-275 | an HTTP/1 connection is pooled after its response exactly if the polls gave the sender back and it was open; otherwise nobody holds it |
| `ResponseRelease.FailedResponseKeepsOut` | crates/hamsy-proxy/src/upstream.rs:611-676 | a response that fails and is not polled again keeps its connection out of the pool and of every lease for good |
| `ResponseRelease.PolledOnGivesBack` | crates/hamsy-proxy/src/upstream.rs:664-676 | one failed poll and then the end: the open connection is pooled again |
| `ClientHello.HelloRoundTrip` | crates/hamsy-proxy/src/connect.rs:432-510 | for every well-formed hello with at most one server name and one ALPN extension, anywhere among any others, parsing its bytes gives exactly that name and protocol list |
| `ClientHello.ParsePrefix` | crates/hamsy-proxy/src/connect.rs:432-478 | what the parser makes of every prefix of an encoded hello with anything after it: nothing, a hello without extensions, or all of it; after a hello without extensions, whatever the bytes that follow read as |
| `ClientHello.ExtensionlessReadsOn` | crates/hamsy-proxy/src/connect.rs:432-478 | a hello without extensions takes the name and protocols of an extension block that follows its record |
| `ClientHello.RunParse` | crates/hamsy-proxy/src/connect.rs:432-478 | the cursor-driven parser computes the grammar of the round trip |
| `ClientHello.RunExtensions` | crates/hamsy-proxy/src/connect.rs:450-478 | so does the extension loop |
| `ClientHello.RunParseSni` | crates/hamsy-proxy/src/connect.rs:482-492 | and the server-name parser |
| `ClientHello.RunParseAlpn` | crates/hamsy-proxy/src/connect.rs:496-510 | and the protocol-list parser |
| `Sniffing.PeekBytes` | crates/hamsy-proxy/src/connect.rs:357-377 | peeking takes bytes off the front of the stream, loses none, reads a TLS record to its end, the cap or the end of the stream, and stops after a first read of fewer than five bytes or of anything else |
| `Sniffing.Rewind.PollRead` | crates/hamsy-proxy/src/connect.rs:538-555 | each read delivers the next bytes of the pending stream, however large the buffer |
| `Sniffing.PeekAndReplay` | crates/hamsy-proxy/src/connect.rs:357-377 | peeking and then reading with buffers of any sizes gives exactly the client's stream |
| `Sniffing.SniffHello` | crates/hamsy-proxy/src/connect.rs:357-478 | if the first read brings the record header, the peeked bytes parse as the whole hello does, however the rest arrives; if it brings less, sniffing gives up with those bytes and finds no hello |
| `Body.LayeredRoundTrip` | crates/hamsy-core/src/body.rs:30-67 | for any list of codings with inverse codecs, decoding what repeated encoding made gives the body back when it fits the cap, and otherwise its first bytes, flagged, if the first coding compresses |
| `Body.DecodeUndoesEncode` | crates/hamsy-core/src/body.rs:71-126 | one coding undone gives the capped body, except where empty zlib output sends deflate to the raw decoder |
| `Body.CodingsByName` | crates/hamsy-core/src/body.rs:71-126 | which library each coding name stands for, on both sides |
| `Body.DeflateRoundTripIff` | crates/hamsy-core/src/body.rs:81-88 | whatever the raw decoder does, deflate gives a body back when body and cap are non-empty, and otherwise only if the raw decoder makes the same of its zlib form |
| `Body.DeflateFailsOnEmpty` | crates/hamsy-core/src/body.rs:81-88 | with a raw decoder that does not take the zlib form of the empty body, deflate under a cap that is not zero gives back every body but the empty one, which is an error |
| `Body.EmptyDeflateIsCapturedCoded` | crates/hamsy-core/src/body.rs:81-88 | an empty body sent as deflate is captured as its coded bytes |
| `Body.OversizedLayerStops` | crates/hamsy-core/src/body.rs:30-67 | an intermediate form over the cap ends decoding there |
| `Body.WholeIff` | crates/hamsy-core/src/body.rs:30-67 | decoding repeated codings ends without an error and unflagged exactly when every layer fits the cap of its step and none is the empty body under deflate; then it is the original body, never a part or a coded form |
| `Body.JoinedHeaderWorks` | crates/hamsy-core/src/body.rs:30-67 | the usual header value, tokens joined by commas, is read back as the codings it lists |
| `Body.RunDecodeBody` | crates/hamsy-core/src/body.rs:30-67 | the loop over the codings in reverse is the decoding of the laws |
| `Body.UntruncatedGivesBack` | crates/hamsy-core/src/body.rs:227-312 | a payload that is not truncated gives back exactly the decoded bytes, base64 included |
| `Body.KindIs` | crates/hamsy-core/src/body.rs:227-299 | a body is kept as text exactly if it is whole, not empty, valid UTF-8 and either of a textual type or without control bytes other than tab, line feed and carriage return |
| `Body.TextualIs` | crates/hamsy-core/src/body.rs:189-215 | parameters, case and surrounding blanks of a type do not matter; textual are text types, those ending in +json or +xml and the listed ones |
| `Tokens.TrimIs` | crates/hamsy-core/src/body.rs:30-67 | trimming takes white space off both ends and stops at the first other character |
| `Body.TruncatedIsLongestPrefix` | crates/hamsy-core/src/body.rs:227-299 | a truncated text payload is the longest valid UTF-8 prefix within the cap, at most 3 bytes short of it, also when decoding stopped in mid-character; a truncated binary one is the exact prefix |
| `Body.TextIsCaptured` | crates/hamsy-core/src/body.rs:227-312 | end to end, valid text under layered codings is captured whole when it fits and as its longest valid prefix when it does not |
| `Body.RunToPayload` | crates/hamsy-core/src/body.rs:227-299 | the packaging code with its back-up loop is the packaging of those lemmas |
| `Utf8.EncodeDecode` | crates/hamsy-core/src/body.rs:227-299 | decoding valid bytes to text and encoding them again loses nothing (section 4 of RFC 3629) |
| `Utf8.DecodeEncode` | crates/hamsy-core/src/body.rs:306-312 | every string encodes to valid bytes and comes back unchanged |
| `Utf8.BoundaryWithinThree` | crates/hamsy-core/src/body.rs:227-299 | valid or merely cut-off text has a character boundary at most 3 bytes before any position |
| `Base64.DecodeIffEncoded` | crates/hamsy-core/src/body.rs:306-312 | base64 text decodes to a body exactly if it is the encoding of that body (section 4 of RFC 4648) |
| `Base64.FourDigits` | crates/hamsy-core/src/body.rs:306-312 | three bytes are written as the four digits to the base 64 of the number they spell (section 4 of RFC 4648) |
| `Base64.TestVectors` | crates/hamsy-core/src/body.rs:306-312 | test vectors of section 10 of RFC 4648 |
| `Tee.TeeBody.PollFrame` | crates/hamsy-proxy/src/tee.rs:85-109 | after every frame, passed through unchanged, the capture is the first min(cap, total) bytes, the total is exact and the flag says whether some data frame found too little room |
| `Tee.TruncatedMeansOverCapIff` | crates/hamsy-proxy/src/tee.rs:96-106 | the flag means "more than the cap was seen" exactly when no empty data frame arrived with the cap exactly reached |
| `Tee.EmptyFrameAtCapFlags` | crates/hamsy-proxy/src/tee.rs:96-98 | a stream of one byte and an empty frame is flagged at a cap of one |
| `Tee.CollectCapped` | crates/hamsy-proxy/src/tee.rs:126-154 | reads to the end or fails; keeps the exact prefix, the exact total and the same flag |
| `Tee.CollectForRules` | crates/hamsy-proxy/src/tee.rs:158-176 | returns the whole body if and only if it is read without error and fits, and reports "too large" exactly when the frames before any error are |
| `RuleBody.SupportedIff` | crates/hamsy-proxy/src/http.rs:456-468 | the check on the header, item by item, passes exactly when every coding the sender applied is a known one |
| `RuleBody.DecodedWholeIff` | crates/hamsy-proxy/src/http.rs:456-477 | decoding for the rules succeeds exactly when every coding is known and every layer is undone whole, and then gives the original body |
| `RuleBody.BodyForRules` | crates/hamsy-proxy/src/http.rs:932-954 | rules are shown the whole original body or none: exactly when it was read without an error, its coded form fits the buffer, and it is decoded whole under known codings |
| `RuleBody.LawsCanBeMet` | crates/hamsy-proxy/src/http.rs:456-477 | the laws assumed of the codecs can be met, by codecs under which every body but the empty one, up to the limit, is shown to the rules |
| `Tee.CaptureBody.Start` | crates/hamsy-proxy/src/tee.rs:218-232 | the callback is started by the first call only, with a body if the queue has room |
| `Tee.CaptureBody.PollFrame` | crates/hamsy-proxy/src/tee.rs:237-258 | frames pass through; after the end, polls report it only once the callback's run is over |
| `Tee.CaptureBody.IsEndStream` | crates/hamsy-proxy/src/tee.rs:259-261 | the end is reported exactly when it was seen and the callback's run is over |
| `Tee.CaptureLife` | crates/hamsy-proxy/src/tee.rs:209-270 | over any polls and the drop the callback is started exactly once, and the end is reported only after its run |
| `Throttle.ThrottleBound` | crates/hamsy-proxy/src/tee.rs:284-398 | on every frame sequence and polling schedule the tokens stay within the bucket and the bytes out by any time are at most capacity + 2 * rate * elapsed |
| `Throttle.FramesInOrder` | crates/hamsy-proxy/src/tee.rs:352-398 | the frames let out, the one held back and those to come are the body's own, unchanged and in order |
| `Throttle.DoubleRateIsReached` | crates/hamsy-proxy/src/tee.rs:305-379 | for every whole number of seconds some run lets out exactly capacity + 2 * rate * elapsed, because waits are credited twice |
| `Throttle.SingleRateBoundIff` | crates/hamsy-proxy/src/tee.rs:284-398 | capacity + rate * elapsed bounds every schedule of a body exactly when all its frames before the last one with bytes fit the full bucket |
| `Throttle.StepKeepsInv` | crates/hamsy-proxy/src/tee.rs:352-398 | the ledger of bytes out, held, left, spilled, refilled and owed balances after every poll, and waits never overlap |
| `Throttle.TokenBucket.Refill` | crates/hamsy-proxy/src/tee.rs:295-297 | refilling adds rate times the time, up to the capacity |
| `Throttle.TokenBucket.TryTake` | crates/hamsy-proxy/src/tee.rs:305-314 | takes the amount if it is there, else empties the bucket and returns the time the rest takes |
| `Throttle.Throttled.PollFrame` | crates/hamsy-proxy/src/tee.rs:352-398 | the poll, step by step, is the transition of the schedules above |
| `Authority.HostArrivesIff` | crates/hamsy-proxy/src/http.rs:671-884 | on a direct connection, for every client and connection version, a single valid Host arrives as exactly one identity, with no other authority in the request target, unless an HTTP/1 request goes to HTTP/2 with a URL the http crate does not take; then none arrives |
| `Authority.PlainLawsHold` | crates/hamsy-proxy/src/http.rs:743-820 | the laws assumed of URL printing and URI parsing can be met, by libraries that take every rooted URL |
| `Authority.KeptHostHappens` | crates/hamsy-proxy/src/http.rs:317-343 | under those laws a rewritten request that keeps its Host is sent, claiming it, between every two versions |
| `Authority.HostlessRewriteHappens` | crates/hamsy-proxy/src/http.rs:317-343 | and so is one without Host, claiming the original URL's host |
| `Authority.HostlessHappens` | crates/hamsy-proxy/src/http.rs:790-884 | and one that is not rewritten, which claims its URL's host if either side speaks HTTP/2 |
| `Authority.NeverBoth` | crates/hamsy-proxy/src/http.rs:743-820 | on HTTP/2 a Host header is never sent beside :authority (section 8.3.1 of RFC 9113), whatever the headers were |
| `Authority.TargetIsUrl` | crates/hamsy-proxy/src/http.rs:671-820 | the request target is the URL's path and query to an HTTP/1 origin, and has the scheme and path of the whole URL to a proxy and on HTTP/2, whatever the headers; a text that does not parse at a change of version leaves the target as it was |
| `Authority.BuiltIff` | crates/hamsy-proxy/src/http.rs:671-701 | a request is built exactly when its target parses and every field name and value is one the http crate takes |
| `Authority.AdoptedIs` | crates/hamsy-proxy/src/http.rs:317-343 | a rewritten URL is adopted with its host and port if its text is new and parses, else nothing but the headers; a missing Host is supplied in the first case only |
| `Authority.OwnHostText` | crates/hamsy-proxy/src/http.rs:265-280 | a Host names the URL's host, with the port only where it is not the one of the scheme |
| `Authority.LookupAfterStrip` | crates/hamsy-proxy/src/http.rs:192-209 | the eight fields that belong to one connection are gone, in any case, and all others keep their values |
| `Authority.HostlessRewriteClaimsOriginal` | crates/hamsy-proxy/src/http.rs:317-343 | a rewrite that leaves no Host is sent to the new URL's path and query, claiming the original URL's host and port, on every pair of versions |
| `Authority.RewriteClaimsKeptHost` | crates/hamsy-proxy/src/http.rs:317-343 | a rewritten request with one valid Host is sent to the new URL's path and query, claiming that Host, on every pair of versions |
| `Authority.HostlessClaimsUrlIff` | crates/hamsy-proxy/src/http.rs:790-884 | without Host and rewrite the URL's own authority is claimed exactly when either side speaks HTTP/2; from HTTP/1 to HTTP/1 nothing is |
| `Authority.OtherFieldsArrive` | crates/hamsy-proxy/src/http.rs:790-841 | a downgrade joins all Cookie values in order with "; " (section 8.2.3 of RFC 9113); every other field but Host keeps its values |
| `Authority.InflightRequest.ApplyOutcomeUrlAndHeaders` | crates/hamsy-proxy/src/http.rs:317-343 | the in-place update is the adoption that the identity lemmas speak about |
| `Authority.OutboundRequest.AdaptToSender` | crates/hamsy-proxy/src/http.rs:790-820 | the in-place adaptation is the one of the identity lemmas; a downgrade sends the URL's path and query, an upgrade the scheme and path of the whole URL, and equal versions change nothing |
| `Authority.OutboundRequest.AlignAuthorityWithHost` | crates/hamsy-proxy/src/http.rs:743-759 | moves a valid Host into the authority and drops the header in any case |
| `Authority.OutboundRequest.JoinCookieHeaders` | crates/hamsy-proxy/src/http.rs:824-841 | the joining loop yields one field with all values in order |
| `Authority.OutboundRequest.EnsureHostHeader` | crates/hamsy-proxy/src/http.rs:863-884 | adds the preferred authority, or the URL's own, only if no Host is there |
| `SysProxy.RestoreUndoesIff` | crates/hamsy-api/src/sysproxy.rs:303-388 | restoring a snapshot over any later settings brings back flags, servers and ports in force and bypass lists exactly when every enabled proxy had a server and a port and no bypass list was the keyword "Empty" |
| `SysProxy.RestoreIsExactIff` | crates/hamsy-api/src/sysproxy.rs:339-388 | restoring a snapshot over any later settings gives back the very same settings exactly when every proxy was on with a server and a port or still has its old ones, and no bypass list was the keyword |
| `SysProxy.OffServersAreNotRestored` | crates/hamsy-api/src/sysproxy.rs:350-362 | after an enable the server and port of a proxy, web or secure, that was off stay hamsy's; they come back exactly if they were the same |
| `SysProxy.RestoreAll` | crates/hamsy-api/src/sysproxy.rs:339-388 | the restore loop gives each service of the snapshot its settings and touches no other |
| `SysProxy.EnableAll` | crates/hamsy-api/src/sysproxy.rs:224-245 | the enable loop gives every active service both proxies switched on with hamsy's host and port, and the bypass list, and touches no other |
| `SysProxy.DisableAll` | crates/hamsy-api/src/sysproxy.rs:268-275 | switching off leaves both proxies of every listed service off, their servers, ports and bypass lists as they were, and no other service touched |
| `SysProxy.NetworkSetup.Enable` | crates/hamsy-api/src/sysproxy.rs:224-245 | the loop issues the commands in that order; without a service it fails and changes nothing |
| `SysProxy.NetworkSetup.Disable` | crates/hamsy-api/src/sysproxy.rs:268-275 | the loop switches both proxies of every service off |
| `SysProxy.NetworkSetup.Snapshot` | crates/hamsy-api/src/sysproxy.rs:303-337 | one entry per active service, in order, with its settings |
| `SysProxy.NetworkSetup.Restore` | crates/hamsy-api/src/sysproxy.rs:339-388 | the loop issues exactly the commands that the restoring lemmas run |
| `SysProxyMarker.EveryRunKeepsInv` | crates/hamsy-api/src/sysproxy_state.rs:60-145 | over every run of acquires (nested or not), releases, restores, recoveries and crashes outside the two windows, the user's settings are in force whenever no marker exists and kept by the marker otherwise |
| `SysProxyMarker.EventKeepsInv` | crates/hamsy-api/src/sysproxy_state.rs:73-145 | each operation, run to its end or killed outside the windows, keeps that promise |
| `SysProxyMarker.AcquireHolds` | crates/hamsy-api/src/sysproxy_state.rs:73-98 | after an acquire every service has hamsy's settings and the marker holds the user's, also when a stale marker was there |
| `SysProxyMarker.RecoveryRestores` | crates/hamsy-api/src/sysproxy_state.rs:131-145 | recovery puts the user's settings in force and leaves no marker |
| `SysProxyMarker.ReleaseLeaves` | crates/hamsy-api/src/sysproxy_state.rs:105-110 | a release puts the user's settings in force if a marker keeps them and otherwise switches every proxy off; no marker is left |
| `SysProxyMarker.KilledWhileEnablingIff` | crates/hamsy-api/src/sysproxy_state.rs:87-96 | killed after any number of the enabling commands, the promise survives exactly if, service by service, what those commands set was as the user had it |
| `SysProxyMarker.KilledWhileRestoringIff` | crates/hamsy-api/src/sysproxy_state.rs:60-65 | killed after the marker is deleted and any number of the restoring commands, the promise survives exactly if, service by service, everything not restored yet is as the user had it |
| `SysProxyMarker.KilledBeforeWrite` | crates/hamsy-api/src/sysproxy_state.rs:87-96 | killed between enabling and writing the marker, the user's settings survive exactly if they were hamsy's in effect; recovery changes nothing, and the next acquire keeps the settings then in force as the user's |
| `SysProxyMarker.KilledAfterDelete` | crates/hamsy-api/src/sysproxy_state.rs:60-65 | killed after deleting the marker and before restoring, hamsy's settings stay and no recovery changes them |
| `SysProxyMarker.SystemProxy.Acquire` | crates/hamsy-api/src/sysproxy_state.rs:73-98 | recover, snapshot, enable and write run as the micro-steps of the protocol |
| `SysProxyMarker.SystemProxy.Release` | crates/hamsy-api/src/sysproxy_state.rs:105-110 | restores from the marker if there is one, else switches the proxy off |
| `SysProxyMarker.SystemProxy.RestoreIfMarked` | crates/hamsy-api/src/sysproxy_state.rs:118-123 | restores exactly if a marker is there and says so |
| `SysProxyMarker.SystemProxy.RecoverStale` | crates/hamsy-api/src/sysproxy_state.rs:131-145 | restores exactly if a marker is there |
| `SysProxyMarker.SystemProxyGuard.Restore` | crates/hamsy-cli/src/run.rs:84-116 | the first call restores if marked; later ones do nothing, even with a marker written since |
| `AppId.AnswersAreWitnessed` | crates/hamsy-proxy/src/appid.rs:209-301 | in every interleaving a pid answered from the port cache was seen owning the port during one scan that started after the connection was accepted |
| `AppId.SoleOwnerIsNotMistaken` | crates/hamsy-proxy/src/appid.rs:250-301 | a port with one owner while that scan ran is attributed to no other, whoever had it before or has it afterwards |
| `AppId.FreshCacheAnswers` | crates/hamsy-proxy/src/appid.rs:250-267 | a cache whose scan started after the acceptance answers with the pid under the port, and with nobody only if there is none; one that is not fresh never answers |
| `AppId.OwnScanAnswers` | crates/hamsy-proxy/src/appid.rs:250-301 | a lookup whose own scan starts after the acceptance, sees one owner of the port and no other, finds at most 4096 ports and is the last published is answered with that owner, whatever else goes on |
| `AppId.GateNeverSticks` | crates/hamsy-proxy/src/appid.rs:271-301 | in every reachable state the scan gate is free, or whoever holds it is there to pass it on |
| `AppId.StartTimesAdvance` | crates/hamsy-proxy/src/appid.rs:271-301 | published scan start times never go backwards |
| `AppId.OwnScanSufficesIff` | crates/hamsy-proxy/src/appid.rs:250-301 | a lookup back from its own scan can use the cache exactly when the published scan started after the acceptance; a start in the same instant does not do |
| `AppId.SameInstantScanIsLost` | crates/hamsy-proxy/src/appid.rs:250-301 | a run from the start in which the scan of the very instant of acceptance sees the owner and is published, and the lookup is still answered with nobody |
| `AppId.StepKeepsInv` | crates/hamsy-proxy/src/appid.rs:271-301 | every step of any lookup or scan, cancellations included, keeps one scan at a time and the freshness facts |
| `AppId.Cache.LookUp` | crates/hamsy-proxy/src/appid.rs:250-266 | answers exactly from a scan that started after the acceptance, with the pid under the port if there is one |
| `AppId.Cache.Publish` | crates/hamsy-proxy/src/appid.rs:284-298 | a finished scan replaces the whole map, cut to 4096 entries, and records when it started |
| `AppId.Cache.AppForPid` | crates/hamsy-proxy/src/appid.rs:303-315 | a cached name is returned whatever the executable is now; the cache stays within 4096 entries |
| `CertCache.ResidentIff` | crates/hamsy-proxy/src/ca.rs:117-164 | a host is among the last capacity by last use exactly if fewer than capacity other hosts were used since |
| `CertCache.AccessKeepsRecency` | crates/hamsy-proxy/src/ca.rs:126-164 | the order is the last capacity of the hosts by last successful use |
| `CertCache.AccessKeepsValid` | crates/hamsy-proxy/src/ca.rs:136-164 | map and order hold the same distinct hosts within the capacity; a failed mint changes nothing; every other resident entry stays as it is or is evicted; a capacity of zero always fails |
| `CertCache.HostCache.Touch` | crates/hamsy-proxy/src/ca.rs:126-131 | moves a host to the newest place, once |
| `CertCache.HostCache.GetOrMint` | crates/hamsy-proxy/src/ca.rs:136-164 | refines the recency list, and mints exactly when the host is not resident |
| `CertCache.CertAuthority.Mint` | crates/hamsy-proxy/src/ca.rs:233-238 | an unusable host name changes nothing; otherwise one access of the cache |
| `CertCache.SanitizedIs` | crates/hamsy-proxy/src/ca.rs:64-77 | white space around a host and one pair of brackets do not count; the rest is the name, unless it is empty or longer than 255 bytes |
| `CertCache.RestrictedIs` | crates/hamsy-proxy/src/ca.rs:82-88 | exactly the offers of h2 and http/1.1 are left, in the client's order |
| `CertCache.CertAuthority.ServerConfig` | crates/hamsy-proxy/src/ca.rs:243-258 | an unusable host name changes nothing; otherwise one access of the cache and one configuration for each restricted ALPN list, found or built on the entry's own certificate |
| `CertCache.ResidentNowIff` | crates/hamsy-proxy/src/ca.rs:117-164 | at every point of a run a host is resident, and so not minted, exactly if it was accessed and fewer than capacity others have been since |
| `CertCache.AnsweredIsHeld` | crates/hamsy-proxy/src/ca.rs:243-258 | a configuration answered is the one that its host then serves for the list, on the same certificate |
| `CertCache.ServedTheSame` | crates/hamsy-proxy/src/ca.rs:117-258 | over every run of calls, while no stretch without a use of the host uses capacity or more others, it is never minted again: its callers all get the one certificate and, for the same protocols, the very same configuration |

## Left out

- Throttle.Throttled.PollFrame: time and tokens are real numbers; the rounding of `f64` and `Duration` and the millisecond granularity of the timer are not modelled, and one poll takes no time.
- Pipeline.BodyIsMissedIff: rules are told apart by their ids, which the stores do not enforce; with a shared id only the half `Pipeline.SameUnlessItTurns` is left.
- Authority.HostArrivesIff: URLs with a host and a path that starts with '/', as http URLs have; direct connections only, since with a chained proxy the request target follows different rules. Header maps are lists, so the order of fields with different names is not meant to be observed.
- ResponseRelease.Drive: what the inner body answers to each poll is given; whether the HTTP library polls a failed body again is not modelled.
- SysProxyMarker.EveryRunKeepsInv: commands and file operations that are reached succeed, the marker file is written whole or not at all, the active services do not change, and the user does not edit the settings while a marker exists.
- SysProxy.NetworkSetup.Snapshot: reads the settings as values; parsing the text that `networksetup` prints (sysproxy.rs:281-301) is not modelled.
- AppId.SoleOwnerIsNotMistaken: the claim is about the port number, as the scan does not look at the local address; a lookup that comes back empty goes on to `lsof`, which is not modelled.
- AppId.Cache.AppForPid: that a pid's executable never changes is taken as the code takes it; a reused pid keeps the old name until the cache is cleared.
- FlowStore.UpdateIsValid: byte totals do not overflow `u64`.
- RuleEngine.RunRequest: reading and writing of URL queries, JSON text, regular expressions, globs and lossy decoding are foreign functions, and so is the parsing of a status specification (rule.rs:418-430); the JSON values keep no member order.
- RulesStore.CompileRules: the library sort is an insertion of the numbered rules, and of each skipped rule only the id is reported, not the messages.
- Body.RunToPayload: the codecs are foreign functions with the laws `Body.Inverse` and, where named, `Body.EmptyZlibIsNotRaw`; their text of an error is not modelled.
- CertCache.CertAuthority.ServerConfig: certificate contents, key generation and persistence.
- Sockets, TLS handshakes, DNS, the HTTP library and signal handling: only the state they drive is modelled.
- The `ui/` tree, `har.rs`, settings, presets, listener classification and command-line rule merging: display, storage of single values and straight-line code, with no property beyond what one body says.
- The Windows and Linux branches of `sysproxy.rs`: the same shape without the loops.
- Lock poisoning, allocation failure and runtime shutdown.
