# Verified model of the VPC file-share session layer

The session layer of `ibmcloud-volume-file-vpc` runs small protocols against a remote, shared and
unreliable backend: adding tags by conditional writes, creating and deleting mount targets that
other callers may touch at the same time, waiting for states, walking paged lists. This project
models those protocols in Dafny and proves what they guarantee. `dafny verify dfyconfig.toml`
checks all of it.

How the pieces are modelled:

* **Go globals and loops.** `RetryEngine.Process` is a class with the package variables of
  `file/provider/util.go` as fields, a clock that `time.Sleep` advances and a counter of backend
  calls. The four retry loops are methods of it. A retried closure is a function of the world
  (gap, clock, counter) and of the variables it captures; each loop is proved equal to one pure
  function, `Until`, applied to that loop's own iteration. Loops nested in closures use the function
  their method is proved equal to.
* **Backend.** It is an arbitrary function from the number of a call to its answer, so every
  behaviour of other callers and of the network is covered. Where the interaction itself is the
  point it is a state machine: `TagSystem` (any number of calls, writes lost, delayed, duplicated,
  reordered or applied after the caller gave up) and `TargetAgreement` (any history of creations,
  lost answers included). The calls inside `TagSystem` take the steps of the code by construction,
  and `TagCalls` proves that a call of the system returns what `UpdateVolume` returns on the same
  answers and sends the same writes.
* **Shared gap.** `SharedGap` interleaves the unsynchronised load, store, check and clamp of any
  number of loops.

Modules: `Strings` (operations of Go's `strings`), `RetryEngine`, `Backoff` (closed form of
`retry`), `SharedGap`, `TagUpdate`, `TagSystem`, `TagGuarantees`, `TagCalls`, `AccessPoints`,
`TargetAnswers` (the mount-target operations in terms of the backend's answers), `Waits`,
`TargetAgreement`, `Paging`, `ListVolumes`, `PathTemplate`, `Sizes`, `Shares`.

Assumptions, beyond what the code does:

* Tags: an ETag is never reused for another state of the share; a write whose `If-Match` differs
  from the current ETag has no effect; one that matches replaces the whole list (sections 8.8.3 and
  13.1.1 of RFC 9110). Nobody but these calls changes the tags; other changes of the share may
  give it a new ETag.
* Mount targets (`TargetAgreement` only): at most one per share and VPC, none deleted meanwhile, IDs
  not reused, lists name only targets that exist. A list may miss targets.
* The API client returns either a value or an error, as
  `common/vpcclient/vpcfilevolume/get_file_share_target.go:50-55` and its siblings do.

Findings where the code does less than a reader may expect, each with the exact extent of it:

* A call can return nil with a tag missing, unless all its tags were on the share when it started
  (`TagGuarantees.NilCanMissATag`): a tag counts as present if it is part of another one
  (`CoveredMeaning`, `StableReadDecides`, `SkipCanMissATag`).
* A call that ends in an error may have written its tags, unless they were covered when it started
  (`TagGuarantees.FailureMayHaveWritten`).
* A failed lookup makes the deletion of a mount target succeed (`AccessPoints.DeleteExact`,
  `DeleteNilMeaning`), and a VPC-mode wait for deletion never succeeds (`Waits.WaitForDeleteExact`).
* Of the two codes for a duplicate target one makes the creator fail
  (`TargetAgreement.DuplicateCodes`).
* An expansion can ask for a smaller share (`Shares.ExpandShrinksExactly`, `ExpandCanShrink`).
* The wait after a deletion cannot fail, but it can crash (`Shares.WaitForVolumeDeletion`).
* Two loops or more can drive the shared gap past any bound while they are in flight, a single one
  cannot (`SharedGap.UnboundedExactly`).
* A paged search whose cursors come back does not end (`Paging.SearchEndsExactly`,
  `CycleNeverEnds`).
* Values that together spell a placeholder make the path depend on map order
  (`PathTemplate.OrderShowsExactly`).

## Model

| member | source | states |
|---|---|---|
| `TagGuarantees.AtMostOnce` | file/provider/update_volume.go:36-67 | in every run of any number of calls, with any loss, delay, duplication or retry of writes, two writes that took effect belong to different calls |
| `TagGuarantees.Conservation` | file/provider/update_volume.go:56-65 | in every reachable state the tag list is the original list followed by the requests of exactly the calls whose write took effect, in that order |
| `TagGuarantees.NoLostUpdate` | file/provider/update_volume.go:51-65 | from any reachable state on, the tag list and the list of effective writes only grow at the end |
| `TagGuarantees.WrittenListsAreNonEmpty` | common/vpcclient/models/share.go:39 | no write carries an empty list, so `omitempty` never drops the field |
| `TagGuarantees.SuccessIsStable` | file/provider/update_volume.go:51-74 | once a call returned nil its tags are covered, then and after every later step of anyone |
| `TagGuarantees.RepeatWritesNothing` | file/provider/update_volume.go:50-54 | a call repeating a request that succeeded never sends a write, in any run |
| `TagGuarantees.CoveredMeaning` | file/provider/update_volume.go:78-89 | for comma-free tags the test on the joined list holds iff each requested tag is, letter case aside, part of some existing tag |
| `TagGuarantees.StableReadDecides` | file/provider/update_volume.go:50-65 | an attempt that reads a stable share makes the call return nil without another write iff every requested tag is part of an existing one; else it sends the whole list |
| `TagGuarantees.NilMeaning` | file/provider/update_volume.go:36-67 | in every run, nil means that the last call was a read that showed the tags covered, or that the last write, based on the read just before it, was accepted |
| `TagGuarantees.NilCanMissATag` | file/provider/update_volume.go:36-74 | from any reachable state a new call can return nil with a requested tag not on the share, iff one of its tags is not on the share when it starts |
| `TagGuarantees.SkipCanMissATag` | file/provider/update_volume.go:51-54 | asked for a tag that begins the only existing one, a call returns nil having sent nothing, and the tag is not on the share |
| `TagGuarantees.FailureMayHaveWritten` | file/provider/update_volume.go:65-72 | from any reachable state a new call can end in an error although its write took effect, iff its tags are not covered when it starts |
| `TagSystem.StepKeepsInv` | common/vpcclient/vpcfilevolume/update_file_share_with_etag.go:44-49 | every step of every caller, of the network and of the backend keeps the protocol invariant |
| `TagSystem.AppliedWriteAppends` | file/provider/update_volume.go:56-65 | a write that takes effect finds the list it was computed from, and its call had no effective write before |
| `TagSystem.CoversItsOwn` | file/provider/update_volume.go:78-89 | a list covers every element appended to it |
| `TagCalls.CallFollowsCode` | file/provider/update_volume.go:36-74 | a call inside the concurrent system returns what the code returns on the same answers, and sends the same writes in the same order |
| `TagUpdate.CallRunIsRetry` | file/provider/update_volume.go:36-67 | the retry loop around the closure is the reply-by-reply call: same result, same writes, same number of backend calls |
| `TagUpdate.UpdateVolume` | file/provider/update_volume.go:30-75 | result, writes and calls are those of the reply-by-reply call; nil iff one of five attempts reads a stable share and skips or has its write accepted, after failures of which none is permanent |
| `TagUpdate.UpdateAnswers` | file/provider/update_volume.go:36-67 | on the replies alone: the call goes on after every failed read, unstable share and refused write that is not permanent, up to five attempts, and ends with the failure or the success of the last one, having sent the writes of all of them |
| `TagUpdate.IfTagsEqual` | file/provider/update_volume.go:78-89 | true iff every requested tag occurs in the lower-cased join |
| `RetryEngine.SkipRetryMeaning` | file/provider/util.go:163-171 | the first code the table knows decides |
| `RetryEngine.Process.Retry` | file/provider/util.go:94-125 | the loop is `Until` over its iteration, on the shared gap |
| `RetryEngine.Process.RetryWithMinRetries` | file/provider/util.go:128-160 | the loop is `Until` over its iteration, on a gap of its own |
| `RetryEngine.Process.RunFlexyRetry` | file/provider/util.go:208-235 | the loop is `Until` over its iteration; the closure decides when to stop |
| `RetryEngine.Process.RunFlexyRetryWithConstGap` | file/provider/util.go:238-260 | the loop is `Until` over four times the limit with a constant pause |
| `RetryEngine.Process.SetRetryParameters` | file/provider/util.go:445-453 | limits stay positive |
| `RetryEngine.Process.OpenSession` | file/provider/provider.go:185-204 | limits stay positive and are copied into the session |
| `RetryEngine.Process.Configure` | file/provider/provider.go:116-117 | over any sequence of set-ups and session openings every opened session is returned, with the limits of its moment, and every attempt limit is at least 1 |
| `RetryEngine.LoopResult` | file/provider/util.go:208-235 | a loop ends with its first stopping iteration or after the attempt limit |
| `RetryEngine.UntilBounded` | file/provider/util.go:208-260 | bounds on calls, sleep and gap of one iteration give bounds for the whole loop |
| `Backoff.RetryRefinement` | file/provider/util.go:94-125 | for every reply sequence: number of calls, final reply, final gap min(g * 2^d, cap) after d doublings, and sleep at most the sum of min(g * 2^j, cap), with equality when all failures are API errors |
| `Backoff.GapClosedForm` | file/provider/util.go:111-116 | capping at every doubling gives min(g * 2^j, cap), for any starting gap |
| `Backoff.NilMeansSuccess` | file/provider/util.go:101-124 | nil iff a call below the limit succeeds with no final reply before it |
| `Backoff.MinRetryIsRetryOnOwnGap` | file/provider/util.go:128-160 | around one call this loop is `retry` started on a gap of ten seconds, and leaves the shared gap alone |
| `Backoff.FlexyRefinement` | file/provider/util.go:208-235 | for every reply sequence, whatever the errors: number of calls, last reply, the exact sleep, the sum of the capped doublings, and the final gap, doubled once for each call past the first that did not stop the loop |
| `Backoff.ConstRefinement` | file/provider/util.go:238-260 | for every reply sequence: calls up to the first final reply within four times the limit, exactly ten seconds before each but the first, the shared gap left alone |
| `SharedGap.GapBounded` | file/provider/util.go:111-116 | under any interleaving the gap is positive, an excess over the bound is always owed by some loop, and the bound holds at quiescence |
| `SharedGap.UndisturbedIsGrow` | file/provider/util.go:111-116 | undisturbed, a loop goes from idle to idle in three accesses, four with a clamp, and leaves min(2 * gap, cap) and all else as it was: the sequential doubling |
| `SharedGap.ClampStoresCap` | file/provider/util.go:114-116 | in any interleaving a clamp leaves the gap at the clamping loop's cap |
| `SharedGap.GapUnboundedInFlight` | file/provider/util.go:222-227 | with two loops or more, in any phases and with any caps, some interleaving drives the gap past any value |
| `SharedGap.UnboundedExactly` | file/provider/util.go:222-227 | the gap can exceed every value in flight iff at least two loops run on it; a single loop from rest keeps it within twice the bound |
| `SharedGap.OvershootReachable` | file/provider/util.go:40 | two idle loops, whatever the others do, reach a gap past both their caps with the check still owed |
| `AccessPoints.GetVolumeAccessPoint` | file/provider/get_volume.access_point.go:30-119 | result and world are those of `Lookup` |
| `AccessPoints.CallFlexy` | file/provider/get_volume.access_point.go:59-66 | the loop calls up to the first success or permanent error, at most n times, and returns the reply to the last call |
| `AccessPoints.FoundIsListed` | file/provider/get_volume.access_point.go:102-114 | the scan finds the first listed target of the VPC, or nothing iff there is none |
| `TargetAnswers.LookupAnswers` | file/provider/get_volume.access_point.go:30-119 | a lookup answers the ID and status of the target its deciding call shows, by ID that answer, by VPC the first listed one, for the share of the request, and fails iff there is none, with the code of its kind; an incomplete request fails without a call |
| `AccessPoints.CreateVolumeAccessPoint` | file/provider/create_volume_access_point.go:40-105 | result, requests sent and world are those of `CreateRun` |
| `AccessPoints.CreateLoopResponds` | file/provider/create_volume_access_point.go:55-96 | nil iff some attempt within the limit is not rejected, after rejections none of which is permanent; the response is what that attempt found or created, decided by the last call of the run |
| `TargetAnswers.CreateAnswers` | file/provider/create_volume_access_point.go:55-104 | on the backend's answers alone: success iff an attempt within the limit is not turned down, after rejections none permanent; it answers the target seen or created by that attempt, with the number of requests and calls |
| `AccessPoints.DeleteVolumeAccessPoint` | file/provider/delete_volume_access_point.go:33-78 | error, requests sent and world are those of `DeleteRun` |
| `AccessPoints.DeleteExact` | file/provider/delete_volume_access_point.go:46-77 | nil iff the request is valid and some attempt within the limit is not a refused deletion |
| `AccessPoints.DeleteNilMeaning` | file/provider/delete_volume_access_point.go:49-69 | a run ending with nil sent k refused requests for the targets just found, and an accepted one iff its last lookup found the target alive |
| `TargetAnswers.DeleteAnswers` | file/provider/delete_volume_access_point.go:46-77 | on the backend's answers alone: nil iff an attempt within the limit is not refused; the IDs sent are those of the targets seen alive, in order |
| `Waits.WaitForCreateVolumeAccessPoint` | file/provider/wait_for_create_volume_access_point.go:30-64 | result and world are those of `WaitForCreateRun` |
| `Waits.WaitForCreateExact` | file/provider/wait_for_create_volume_access_point.go:43-64 | on the backend's answers alone: success iff one of 4n polls shows a target stable after polls that showed one in another state, and the answer is that target; else it times out |
| `Waits.WaitForDeleteVolumeAccessPoint` | file/provider/wait_for_delete_volume_access_point.go:31-66 | error and world are those of `WaitForDeleteRun` |
| `Waits.WaitForDeleteExact` | file/provider/wait_for_delete_volume_access_point.go:37-65 | on the backend's answers alone: nil iff the request names share and target, messages are initialised, and one of 4n polls ends with a failed read; else it times out |
| `Waits.LookupWork` | file/provider/get_volume.access_point.go:59-94 | a lookup makes at most n calls and n - 1 pauses |
| `Waits.CreateWork` | file/provider/create_volume_access_point.go:55-96 | a create makes at most n (n + 1) backend calls, with a bound on its sleep |
| `Waits.WaitForCreateWork` | file/provider/util.go:238-260 | a wait makes at most 4 n n reads and sleeps at most (4 n - 1) 10 + 4 n (n - 1) m |
| `Waits.WaitForDeleteWork` | file/provider/wait_for_delete_volume_access_point.go:42-51 | the same bounds for a wait for deletion |
| `TargetAgreement.Agreement` | file/provider/create_volume_access_point.go:55-104 | successful concurrent creators for one share and VPC return one target, it stays, and no second one is created |
| `TargetAgreement.ResultIsATarget` | file/provider/create_volume_access_point.go:60-95 | a returned ID is the ID the backend held for that share and VPC at the moment of the last answer the caller got |
| `TargetAgreement.RejectedCreatorFollows` | file/provider/create_volume_access_point.go:86-95 | a creator rejected k times with retriable errors returns what its next successful lookup finds, having sent k requests; after a permanent rejection it fails |
| `TargetAgreement.PostsNameVpcOrInterface` | file/provider/create_volume_access_point.go:67-84 | in every run: at most as many create requests as attempts, each for the caller's share and naming the caller's VPC or, in security-group mode, an interface, never both |
| `TargetAgreement.DuplicateCodes` | file/provider/create_volume_access_point.go:55-95 | of two creators told that the VPC has a target, by the two codes for it, one returns the target its next lookup finds and the other fails |
| `Paging.SearchPages` | file/provider/get_subnet.go:54-99 | where the cursor loop ends, its result is the linear search of the pages up to the one that stops it, or of any number of pages more |
| `Paging.FirstStopDecides` | file/provider/get_subnet.go:54-99 | the first page that is not passed by decides: the ID of its first match, else the code for nothing found, or for a failed listing if it is no page |
| `Paging.SearchEndsExactly` | file/provider/get_subnet.go:54-99 | the loop ends iff a page it can reach has a match or leads nowhere |
| `Paging.CycleNeverEnds` | file/provider/get_subnet.go:73-91 | cursors that come back without a match or an end on the way keep the loop running for good |
| `Paging.GetSubnet` | file/provider/get_subnet.go:41-100 | the cursor loop with the substring test and the subnet codes; for a split of a list with plain IDs it returns the first item listed for the cluster, and nothing found iff there is none |
| `Paging.GetSecurityGroup` | file/provider/get_security_group.go:41-99 | the cursor loop with the group codes; for every split of a list it returns the ID of the first item with the requested name, letter case aside, and nothing found iff there is none |
| `Paging.FirstMatchMeaning` | file/provider/get_security_group.go:64-70 | the reference search returns the first match, or none iff nothing matches |
| `Paging.PagedSearchIsLinear` | file/provider/get_subnet.go:54-99 | for every split of a list into pages the search ends and is the linear search of the list |
| `Paging.WalkIsWholeList` | file/provider/get_subnet.go:73-91 | walking the pages of any split visits every item once and in order |
| `Paging.SubstringTestIsMembership` | file/provider/get_subnet.go:67 | for comma-free IDs of one length the substring test is membership |
| `Paging.SubnetSearchIsMembershipSearch` | file/provider/get_subnet.go:65-71 | so the search returns the first listed subnet that is in the cluster's list |
| `Paging.SubstringTestExact` | file/provider/get_subnet.go:67 | in general the two agree exactly when the ID is listed or is no part of a listed ID |
| `Strings.OccursInJoinIffInElement` | file/provider/update_volume.go:80-82 | a comma-free word occurs in a joined list iff it occurs in an element |
| `Strings.EqualFoldMeaning` | file/provider/get_security_group.go:66 | folded equality is equality character by character up to the case of a letter |
| `ListVolumes.TokenRoundTrip` | file/provider/list_volumes.go:80-82 | the double split gives back exactly the token the URL carries |
| `ListVolumes.ListPage` | file/provider/list_volumes.go:38-97 | rejects a negative limit without a call, clamps it to 100, and makes of the deciding reply the page's shares in order and the token of its URL, or the code that its error text selects |
| `ListVolumes.HonestPage` | file/provider/list_volumes.go:61-94 | through any failed attempts, a listed page is the page at the cursor and leads to the next one |
| `ListVolumes.ListAll` | samples/main.go:477-491 | the driver loop ends; it collects a beginning of the backend's list, and all of it when no call fails |
| `PathTemplate.Path` | common/vpcclient/client/request.go:79-85 | the path is the result of the replacements in some order of the keys, and the simultaneous substitution for a flat pattern unless values collide |
| `PathTemplate.Confluence` | common/vpcclient/client/request.go:79-85 | unless values collide every order gives the simultaneous substitution, and a supplied placeholder is left only if the values spell it |
| `PathTemplate.OrderShowsExactly` | common/vpcclient/client/request.go:79-85 | the order shows on some flat pattern iff values of other parameters, one or two, supply the opening and the closing brace of a parameter's placeholder |
| `PathTemplate.OneKindOfBrace` | common/vpcclient/client/request.go:81-83 | values without opening braces, or without closing ones, never collide and spell no placeholder |
| `PathTemplate.ReplaceIsExpand` | common/vpcclient/client/request.go:82 | one replacement adds exactly one parameter to the simultaneous substitution, unless the values put in so far spell its placeholder |
| `PathTemplate.ServicePatternsAreFlat` | common/vpcclient/vpcfilevolume/constants.go:24-38 | the shapes of the service's patterns meet the condition |
| `PathTemplate.BracesInValuesBreakConfluence` | common/vpcclient/client/request.go:81-83 | a value that is another parameter's placeholder makes two orders give different paths |
| `Sizes.RoundUpExact` | file/provider/util.go:455-457 | on int64 rounding up is the ceiling precisely up to 2^63 - 2^30 bytes, and negative above |
| `Sizes.RoundUpAdjoint` | file/provider/util.go:455-462 | rounding up and `GiBToBytes` are adjoint |
| `Sizes.RoundingUndoesConversion` | pkg/watcher/pv_watcher.go:302-304 | rounding up or down undoes `GiBToBytes` |
| `Sizes.RoundDownExact` | pkg/watcher/pv_watcher.go:302-304 | the conversion to GiB truncates toward zero, for every number of bytes |
| `Shares.WaitForValidVolumeState` | file/provider/wait_for_valid_volume_state.go:30-57 | error and world are those of the retried poll |
| `Shares.StableWaitExact` | file/provider/wait_for_valid_volume_state.go:38-49 | nil iff within the limit a poll sees stable and none before met a permanent API error |
| `Shares.WaitingDoesNotBackOff` | file/provider/util.go:104-107 | whatever the polls see, the final gap is the starting one doubled, with the cap, once for each transient API error past the first poll; seeing a non-stable share counts for nothing |
| `Shares.GetVolume` | file/provider/get_volume.go:28-56 | result and world are those of `GetVolumeRun` |
| `Shares.ExpandVolume` | file/provider/expand_volume.go:35-79 | result, size sent and world are those of `ExpandRun` |
| `Shares.ExpansionIsEnough` | file/provider/expand_volume.go:52-78 | the backend is asked iff the deciding read shows a number below the bytes; the size sent is the least that holds them up to the wrap-around; success iff the deciding expand call, made after that read, is accepted and the last poll sees a stable share |
| `Shares.ExpandAnswers` | file/provider/expand_volume.go:35-79 | on the replies alone: the requested bytes on success, the number read if that is no less, else -1 with the code of the step that failed |
| `Shares.ExpandShrinksExactly` | file/provider/expand_volume.go:46-57 | for every int64 size: the request asks for less than the share has iff the bytes exceed the number of GiB and either fit into one GiB less or are so many that rounding wraps |
| `Shares.ExpandCanShrink` | file/provider/expand_volume.go:46-52 | runs against a share of 20 GiB: asked for 5 GiB it is asked to shrink to 5, asked for 2^63 - 1 bytes to a negative size |
| `Shares.WaitForVolumeDeletion` | file/provider/delete_volume.go:92-113 | never an error, timeout included; it crashes iff a poll fails with a non-API error before any met a permanent API error, and sees the share gone iff one meets a permanent API error before any crashes |
| `Shares.DeleteVolume` | file/provider/delete_volume.go:31-75 | outcome and world are those of `DeleteVolumeRun` |
| `Shares.DeletionIsGuarded` | file/provider/delete_volume.go:42-70 | deletion is asked for iff the deciding read shows no mount targets, beginning with the next call; nil iff the deciding delete call is accepted; after it the run crashes or sees the share gone exactly as the wait does |

## Left out

- ToLower: ASCII letters only, as for `EqualFold`; Go folds Unicode.
- Process: the gap is an unbounded integer, so the wrap-around of `int` for caps above 2^62 is not modelled; limits do not change while a loop runs.
- SharedGap: memory is sequentially consistent; what a racy Go program may do beyond that is not modelled.
- AccessPoints: message texts, logging, and the fields of targets other than ID, VPC and status.
- Paging: the listing does not change between pages; parsing of the next-page URL is a given (`Paging.Next`).
- Shares: the conversion of shares to library volumes, and messages of an uninitialised table (modelled for mount targets only).
- `PathTemplate`: escaping and resolution of the URL after substitution.
- HTTP, TLS, JSON and request bodies: library plumbing; their failures are arbitrary errors here.
- Authentication, provider registry, configuration loading and the rest of session opening.
- Kubernetes informer, events, metadata, test suites, sample menu, fakes and metrics.
- Snapshots and share creation: retry around single calls, covered by `Backoff`.
- Real time: sleeping adds to a counter.
