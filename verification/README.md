# Noe, modelled and proved in Dafny

Noe is a Kubernetes admission webhook with a controller beside it. The webhook asks container
registries which architectures a pod's images support and narrows the pod's node selection to them;
the controller counts the images in use, exports them as gauges, and deletes pods that landed on a
node their images do not run on. Registry traffic goes through an expiring cache and a per-key rate
limiter. This project models these parts and proves what they keep over whole runs.

`dafny verify dfyconfig.toml` checks everything.

| file | models |
|---|---|
| `RateLimiter.dfy`, `RateLimiterProtocol.dfy`, `RateLimiterTheorems.dfy` | the rate limiter: its two critical sections as a class, callers and workers as a step relation over them, and the theorems over all runs |
| `ExpiringCache.dfy` | the cache used by one goroutine at a time, as a class; sweeping is invisible |
| `CacheInterleavings.dfy` | the cache under any interleaving of callers, sweeps and time |
| `CacheKey.dfy`, `CachedRegistry.dfy` | the image pull secret, the cache key, and concurrent `ListArchs` calls end to end |
| `PodSpecs.dfy`, `Hook.dfy`, `HookTheorems.dfy`, `HookPromises.dfy` | node placement and its meaning, the webhook's in-place rewrite, and what it achieves |
| `Reconciler.dfy`, `ReconcilerTheorems.dfy` | the controller's tables, gauges and evictions |
| `Agreement.dfy` | webhook and controller together |
| `ImageReference.dfy` | image names and manifest paths |
| `SortedStrings.dfy`, `Collections.dfy` | sorted listing of a set of strings; sums and counts |

Inputs that come from outside are parameters or nondeterministic choices: the clock, the replies of
the transport, the answers of the registry and the order in which they arrive, what the API server
returns, and the verdict of `filepath.Match`.

## Where the code and its documentation part

The model follows the code. Where a promise fails there is a lemma with a concrete run or input, and
one with the exact condition under which the promise holds.

- The repository's README promises that pods go to nodes capable of executing all their images. For
  a pod with required node affinity of its own the architectures become one more alternative:
  `ImagePromiseFails` gives a pod and a node, `ImagesRunExactlyWhen` the condition.
- It also promises that a pod with a matched label only goes to nodes with that label. Without a node
  selector and a preference that fits, the labels become alternatives to the architectures:
  `LabelPromiseFails` gives a pod and a node, `LabelsIgnoredNextToArchitectures` the general failure,
  `LabelsEnforcedExactlyWhen` the condition. `NarrowsExactlyWhen` says when the hook meets all its
  aims at once.
- `LoadOrCall` says that it serialises requests for the same key. A sweep removes a mutex that may be
  held, so several goroutines can call the registry for one key; `MissesAreSerialised` bounds them
  and `BoundIsReached` shows that the bound is attained.
- A sweep is there to drop expired entries. It looks at an entry first and deletes by key afterwards,
  so it can drop a live one: `LiveEntryIsDropped` gives a run, `LiveDropsArePublishedAfterVisit` says
  that such an entry was published in between.
- An image named by digest is looked up under its tag, or under "latest" (`DigestIsDropped`).
- A platform without an operating system, as a plain manifest yields it, suits the webhook and never
  the controller: `PlainManifestMismatches` gives a pod and a node, `AdmittedNodesMatchExactlyWhen`
  the condition; `SelectedPodsAreNotEvicted` is why this does no harm to pods the webhook handled.
- A gauge counts a platform as often as a listing repeats it: `RepeatedPlatformCountsTwice` gives a
  run, and `IncrementStaysInStepExactlyWhen`, `DecrementStaysInStepExactlyWhen` and, for one series,
  `GapKeptExactlyWhen` and `GapKeptByDecrementExactlyWhen` the conditions under which the gauges keep
  step with the reference count.

## Model

| member | source | states |
|---|---|---|
| RateLimiter.RateLimitedRoundTripper.GetRequestChan | pkg/httputils/rate_limiter.go:39-63 | the whole new state of the tables: one channel per key with max(1, limit) workers, and one more caller in flight |
| RateLimiter.RateLimitedRoundTripper.Done | pkg/httputils/rate_limiter.go:65-79 | the whole new state: one caller fewer, and at zero the channel closed and both entries gone |
| RateLimiter.ReleasedUndoesRegistered | pkg/httputils/rate_limiter.go:39-79 | `done` undoes `getRequestChan`: nothing is left while others are in flight, one closed channel of max(1, limit) workers otherwise; for a key nobody is in flight for it does nothing |
| RateLimiterProtocol.StepKeepsInv | pkg/httputils/rate_limiter.go:32-99 | every step of every goroutine keeps the invariant: maps point at exactly the open channels, counts equal callers in flight, a serving worker serves a caller waiting for it, replies match requests |
| RateLimiterProtocol.NeverSendsOnClosed | pkg/httputils/rate_limiter.go:94 | no caller finds its channel closed between getRequestChan and the send |
| RateLimiterTheorems.ConcurrencyLimit | pkg/httputils/rate_limiter.go:32-63 | in every reachable state at most max(1, limit) transport calls run per key over all channel generations, all on the key's current channel |
| RateLimiterTheorems.LimitIsReached | pkg/httputils/rate_limiter.go:49-57 | for every limit some run has exactly that many calls under way for one key |
| RateLimiterTheorems.NeverPanics | pkg/httputils/rate_limiter.go:39-99 | no send on a closed channel, no double close, no negative wait group; the two maps agree and count the callers in flight, who all hold the open channel of their key |
| RateLimiterTheorems.OwnReplyOnce | pkg/httputils/rate_limiter.go:81-99 | no request is executed twice and a caller returns the reply to its own request |
| RateLimiterTheorems.ReplyIsReturned | pkg/httputils/rate_limiter.go:32-99 | from any reachable state, whatever the transport returns, response or error, its caller can return next |
| RateLimiterTheorems.SoloRoundTrip | pkg/httputils/rate_limiter.go:39-99 | a request for an unused key goes through alone and leaves the maps as they were |
| RateLimiterTheorems.WaitsExactlyAtLimit | pkg/httputils/rate_limiter.go:49-94 | a caller waits to be served if and only if max(1, limit) callers of its own key are being served; other keys never hold it up |
| RateLimiterTheorems.CallersNeverWaitElsewhere | pkg/httputils/rate_limiter.go:81-99 | a caller can enter at any time, and leave if and only if it is no longer being served |
| RateLimiterTheorems.WorkersNeverWait | pkg/httputils/rate_limiter.go:32-37 | a worker gets any reply at any time, signals it, and ends if and only if its channel is closed and it is idle |
| RateLimiterTheorems.RunsAreBounded | pkg/httputils/rate_limiter.go:32-99 | every run of n callers ends within n * (max(1, limit) + 5) steps |
| RateLimiterTheorems.StuckOnlyWhenCompleted | pkg/httputils/rate_limiter.go:32-99 | no deadlock: a reachable state has no successor if and only if every caller is answered, the maps are empty and every channel is closed and drained |
| RateLimiterTheorems.EveryRunCompletes | pkg/httputils/rate_limiter.go:32-99 | every run extends to one in which each request was executed exactly once and answered |
| ExpiringCache.Cache.Load | pkg/registry/cache.go:34-42 | a value is returned exactly for an entry strictly before its expiry |
| ExpiringCache.Cache.Store | pkg/registry/cache.go:64-73 | the entry expires after the cache duration, or when the last mutation says |
| ExpiringCache.StoredIsFoundUntil | pkg/registry/cache.go:64-102 | a stored value is found exactly until the cache duration has passed, or before the time the last mutation gives, and other keys are found as before |
| ExpiringCache.Cache.LoadOrCall | pkg/registry/cache.go:44-62 | a hit changes no entry, a miss stores a success and never an error |
| ExpiringCache.LoadOrCallIsFoundUntil | pkg/registry/cache.go:44-62 | for every key and every later time: a hit and a failed miss change nothing that is found, a successful miss is found exactly until the cache duration after it was stored |
| ExpiringCache.Cache.CleanUp | pkg/registry/cache.go:75-96 | for every visiting order the sweep drops exactly the expired entries and their mutexes, and only when the period has passed |
| ExpiringCache.SweptKeepsExactly | pkg/registry/cache.go:75-96 | key by key, an entry and its mutex go if and only if the sweep is due and the entry has expired; the period is five minutes by default |
| ExpiringCache.SweepsAreSpaced | pkg/registry/cache.go:78-84 | a sweep before the period has passed since the last one changes nothing |
| ExpiringCache.SweepsAreInvisible | pkg/registry/cache.go:34-96 | for every sequence of operations under a monotone clock the hits, misses and values are those of a cache that is never swept |
| ExpiringCache.SweepUnnoticedExactlyWhen | pkg/registry/cache.go:82-93 | a sweep is unnoticed by readers at a time if and only if it is not ahead of an entry still live then |
| ExpiringCache.ListArchs | pkg/registry/cache.go:159-184 | a live entry is returned as a hit, otherwise the registry's answer; from the sweep on, a new success is found exactly until it expires, and all else as before the call |
| CacheInterleavings.StepKeepsInv | pkg/registry/cache.go:34-96 | every step keeps: owners of mutexes; one mutex per key plus the removed ones; each logged store is the only one of its goroutine, of a value the registry gave it before; each entry, cached or carried, expires exactly the cache duration after a logged store for its key |
| CacheInterleavings.MissesAreSerialised | pkg/registry/cache.go:44-62 | for every interleaving the goroutines calling the registry for a key number at most one more than the times a sweep removed its mutex |
| CacheInterleavings.BoundIsReached | pkg/registry/cache.go:86-94 | for every n some run has n removals and n + 1 goroutines calling the registry for one key |
| CacheInterleavings.SomeThreadCanMove | pkg/registry/cache.go:45-50 | no goroutine is stranded, whatever sweeps removed |
| CacheInterleavings.WaitsOnlyForItsKey | pkg/registry/cache.go:44-62 | a goroutine waits only for its mutex, and if and only if another goroutine, asking for the same key, is past its lock |
| CacheInterleavings.ServesLive | pkg/registry/cache.go:52-54 | a goroutine that has locked its mutex can return a live entry as a hit in its next steps |
| CacheInterleavings.MissesAreNeeded | pkg/registry/cache.go:34-56 | in every run, a goroutine that calls the registry looked into the cache before and found nothing, or an entry that had expired when it read the clock |
| CacheInterleavings.SoloIsLoadOrCall | pkg/registry/cache.go:44-62 | refinement: from any reachable state an uninterrupted goroutine whose mutex is free does what the sequential `LoadOrCall` does, result and fields |
| CacheInterleavings.SoloIsCleanUp | pkg/registry/cache.go:75-96 | refinement: a sweep can start if and only if `CleanUp` does not return early, and an uninterrupted one does what `CleanUp` does |
| CacheInterleavings.AnswersAreGenuine | pkg/registry/cache.go:34-73 | behind every hit is a logged store, of a value the registry gave for that key, made less than the cache duration before the clock was read; no answer is stored twice; a fresh value is the goroutine's own; errors are never cached |
| CacheInterleavings.LiveDropsArePublishedAfterVisit | pkg/registry/cache.go:86-94 | in every run, a sweep is about to delete a live entry only if the entry's key was published after the sweep visited it |
| CacheInterleavings.LiveEntryIsDropped | pkg/registry/cache.go:86-94 | for every positive cache duration some run ends with a sweep deleting a live entry |
| CacheKey.GetImagePullSecret | pkg/arch/hook.go:174-213 | the secret is the marshalled merge of the readable secrets, empty when there is nothing to merge; unreadable ones are reported |
| CacheKey.LastSecretWins | pkg/arch/hook.go:198-200 | a registry has credentials if and only if some readable secret has, and those of the last such secret |
| CacheKey.EscapesExactly | pkg/arch/hook.go:205 | characters are escaped if and only if JSON or HTML safety asks for it, in the short form where there is one |
| CacheKey.OneCredentialAsText | pkg/arch/hook.go:203-212 | the text of one credential, letter by letter |
| CacheKey.TwoCredentialsAsText | pkg/arch/hook.go:203-212 | two credentials are written in the order of their registries, separated by a comma |
| CacheKey.ConfigIsObjectText | pkg/arch/hook.go:203-212 | the marshalled configuration is one JSON object that closes at its last character and not before |
| CacheKey.ObjectTextsArePrefixFree | pkg/arch/hook.go:203-212 | no object text is a proper prefix of another |
| CacheKey.SecretTextIsUnique | pkg/arch/hook.go:203-212 | different credentials never marshal to the same secret |
| CacheKey.CacheKeyIsInjective | pkg/registry/cache.go:161 | equal cache keys come from equal credentials and equal images |
| CachedRegistry.AnswersBelongToTheRequest | pkg/registry/cache.go:159-184 | in every interleaving a returned value was given by the registry to a request with the same credentials and image, which stored it: less than the cache duration ago for a hit, and this very request for a miss |
| PodSpecs.PodSpecHasNodeArchitectureSelection | pkg/arch/hook.go:227-256 | found exactly when an architecture label occurs in the node selector or a required term, or a required term names a node |
| PodSpecs.SelectionIsFoundExactly | pkg/arch/hook.go:227-256 | the search in terms of the label and field names: current and beta architecture label, node name |
| PodSpecs.UnselectedIgnoresArch | pkg/arch/hook.go:227-256 | what is not found selects nothing: such a specification accepts a node whatever its architecture labels and its name |
| PodSpecs.GetContainerImages | pkg/arch/hook.go:215-225 | the non-empty images of the lists, in order |
| PodSpecs.ImagesArePiecewise | pkg/arch/hook.go:215-225 | images are collected list by list and container by container, an empty image giving nothing |
| PodSpecs.HookAndControllerListAlike | pkg/arch/hook.go:330 | the hook and the controller, which take the two container lists in opposite orders, look up the same images equally often: every non-empty one |
| SortedStrings.Keys | pkg/arch/hook.go:652-659 | for every iteration order the result is the one ascending listing of the set |
| SortedStrings.AscendingIsUnique | pkg/arch/hook.go:652-659 | a set has only one ascending listing |
| SortedStrings.BeforeAtFirstDifference | pkg/arch/hook.go:657 | the order is that of the first characters that differ, beginnings first |
| Hook.AddPodNodeMatchingLabels | pkg/arch/hook.go:258-290 | the whole rewritten specification: entries of an existing node selector, or one more term per label |
| Hook.CollectArchitectures | pkg/arch/hook.go:328-378 | for every arrival order, exactly the architectures usable for every listed image; or that no image was listed |
| Hook.UpdatePodSpec | pkg/arch/hook.go:297-436 | for every arrival order, the rewritten specification and the outcome are the function `Updated` of configuration, labels, specification and answers |
| HookTheorems.CommonArchsAreExactly | pkg/arch/hook.go:352-378 | an architecture is common if and only if it is schedulable and every listed image has a platform with it for the system's or no operating system |
| HookTheorems.ArrivalOrderIsIrrelevant | pkg/arch/hook.go:328-378 | specification and outcome depend only on the set of successful answers |
| HookTheorems.PreferredAccepts | pkg/arch/hook.go:391-397 | the nodes admitted after the preferred branch: the demanded labels and one of the pod's own terms |
| HookTheorems.AffinityAccepts | pkg/arch/hook.go:398-423 | the nodes admitted after the affinity branch: the demanded labels and a common architecture, one of the pod's own terms, or without a node selector a matched label |
| HookTheorems.NarrowsExactlyWhen | pkg/arch/hook.go:391-435 | whenever the hook injects, the rewritten specification admits exactly the nodes the old one accepts, of a chosen architecture, agreeing with the matched labels, if and only if a guard on branch, required terms, node selector and labels holds |
| HookTheorems.AffinityWidens | pkg/arch/hook.go:398-423 | without the guard the affinity branch admits some node that is not wanted |
| HookPromises.WishDecidesAdmission | pkg/arch/hook.go:309-397 | where the hook narrows, a schedulable wish every image meets, or the default for a pod without one, leaves exactly the nodes of that architecture among those accepted before and agreeing with the labels |
| HookPromises.OutcomesExactly | pkg/arch/hook.go:379-432 | a pod is refused if and only if the hook has to choose and no schedulable architecture runs every listed image, and warned if and only if its labelled wish goes unmet, or is unusable with no default in its place |
| HookPromises.WarningNamesTheWish | pkg/arch/hook.go:426-432 | the warning names the unmet wish, or nothing for an unusable one |
| HookPromises.UninjectedAdmitsExactly | pkg/arch/hook.go:298-389 | an update that does not inject leaves a scheduled pod alone and otherwise adds the matched labels and nothing else |
| HookPromises.WantedNodesStayAdmitted | pkg/arch/hook.go:297-436 | in every branch no node is lost that the old specification accepts and that has the matched labels and, if the hook injects, a chosen architecture |
| HookPromises.UpdateTouchesPlacementOnly | pkg/arch/hook.go:297-436 | the node name never changes, and a node selector appears only for a preferred architecture |
| HookPromises.WrittenSpecifications | pkg/arch/hook.go:391-432 | two specifications and a warning as they are written, for an image of two usable platforms |
| HookPromises.ImagesRunExactlyWhen | pkg/arch/hook.go:391-435 | whenever the hook injects, every listed image runs on every admitted node if and only if nothing gets around the architectures: none of the pod's own terms in the place of the appended one, no matched label beside it, no architecture label of an uncommon value in place of the preference |
| HookPromises.ImagePromiseFails | pkg/arch/hook.go:398-423 | a concrete pod with node affinity of its own and a node it is admitted to that its image does not run on |
| HookPromises.ArchEnforcedExactlyWhen | pkg/arch/hook.go:391-435 | all admitted nodes have a chosen architecture if and only if a guard holds: no matched label overrides or bypasses the choice, and none of the pod's own terms can be met in the appended term's place |
| HookPromises.LabelsEnforcedExactlyWhen | pkg/arch/hook.go:258-436 | over every branch of the update, all admitted nodes carry the matched labels if and only if there are none, they go into a node selector, or, as terms, a single one is left no alternative by the pod's own terms and the injected one; a scheduled pod is left alone |
| HookPromises.LabelsIgnoredNextToArchitectures | pkg/arch/hook.go:262-284 | without node selector and fitting preference, every node of a common architecture is admitted whatever its labels |
| HookPromises.LabelPromiseFails | pkg/arch/hook.go:258-290 | a concrete pod and a node of another zone that it is admitted to |
| HookPromises.SelectionPersists | pkg/arch/hook.go:302-307 | a selection found or injected is still found in the result |
| HookPromises.SecondUpdateSettlesExactlyWhen | pkg/arch/hook.go:297-436 | whatever the answers of the first and the second time, a second update is the identity if and only if the pod was scheduled, or it does not inject and the result has a node selector or no matched label is on the pod; it does not inject after a found or injected selection, nor with the same answers |
| Reconciler.PodReconciler.IncrementPlatformStatistics | pkg/controllers/pod.go:236-259 | the whole new state: count raised, listing replaced, lost platforms' series deleted, listed ones raised |
| Reconciler.PodReconciler.DecrementPlatformStatistics | pkg/controllers/pod.go:261-274 | the whole new state: count and series lowered, all gone at zero, nothing for an untracked image |
| Reconciler.PodReconciler.DeleteFromCache | pkg/controllers/pod.go:225-234 | one decrement per remembered image, in order, and the entry removed |
| Reconciler.PodReconciler.CountImages | pkg/controllers/pod.go:194-214 | the images before the first failed lookup are counted; a match is reported exactly when no image mismatches the node |
| Reconciler.PodReconciler.Reconcile | pkg/controllers/pod.go:118-162 | the whole new state and the action of one pass, for every observation |
| ReconcilerTheorems.DecidesExactly | pkg/controllers/pod.go:118-213 | the action of every pass from what is observed, label names, owner kind and readiness included: deleted if and only if a scheduled pod's node names both labels, some image lists no platform of both, and nothing selects an architecture |
| ReconcilerTheorems.RemembersExactly | pkg/controllers/pod.go:118-146 | what every pass remembers and forgets, and which passes change nothing at all |
| ReconcilerTheorems.LastListingCounts | pkg/controllers/pod.go:194-254 | a counted image keeps the platforms of its last listing |
| ReconcilerTheorems.ForgettingKeepsListings | pkg/controllers/pod.go:225-274 | forgetting a pod changes no listing |
| ReconcilerTheorems.ExportedSeries | pkg/controllers/pod.go:236-274 | in every reachable state an image is tracked exactly while its count is positive, and its series are its last listed platforms |
| ReconcilerTheorems.RefcountsAreExplained | pkg/controllers/pod.go:118-274 | in every reachable state a count is the image's occurrences over all remembered pods plus its leaks, and no decrement hits an untracked image |
| ReconcilerTheorems.LeaksGrowExactly | pkg/controllers/pod.go:134-146 | what a pass leaks, and that it leaks only when it fails midway or counts a StatefulSet pod anew |
| ReconcilerTheorems.NoLeakNoDrift | pkg/controllers/pod.go:194-274 | over runs that leak nothing of an image its count is exact |
| ReconcilerTheorems.GaugesMoveExactly | pkg/controllers/pod.go:255-274 | a count raises a gauge, from zero if it is new, by as often as the listing names its platform, a decrement lowers it by as often as the last listing did, and no other image's gauges move |
| ReconcilerTheorems.GapKeptExactlyWhen | pkg/controllers/pod.go:255-258 | on a count, a kept gauge and the reference count move together if and only if the listing names the platform once |
| ReconcilerTheorems.GapKeptByDecrementExactlyWhen | pkg/controllers/pod.go:261-274 | on a decrement that leaves the image tracked, likewise for its last listing |
| ReconcilerTheorems.IncrementStaysInStepExactlyWhen | pkg/controllers/pod.go:236-259 | a count leaves every gauge short of its count by its base, new series included, if and only if the listing repeats nothing |
| ReconcilerTheorems.DecrementStaysInStepExactlyWhen | pkg/controllers/pod.go:261-274 | a decrement does if and only if the image goes away or its last listing repeats nothing |
| ReconcilerTheorems.RepeatedPlatformCountsTwice | pkg/controllers/pod.go:255-258 | a concrete run of one pass after which a gauge is two and the count one |
| ReconcilerTheorems.GaugeLaw | pkg/controllers/pod.go:236-274 | over runs in which no listing of its own image repeats the platform, whatever is listed otherwise, a gauge falls short of its image's count by the count just before the series appeared, so it never exceeds it |
| ReconcilerTheorems.IncrementedKeepsGauges | pkg/controllers/pod.go:236-259 | a kept series keeps that shortfall, a new one takes the count before it, and counting other images changes neither |
| ReconcilerTheorems.SteadyImagesAreExact | pkg/controllers/pod.go:236-274 | over runs in which every listing of an image names a platform once, that gauge equals the image's count, and exists exactly while the image is tracked |
| ReconcilerTheorems.EvictedOnceBetweenDisappearances | pkg/controllers/pod.go:129-161 | over every run, two deletions of a name, the second of a pod without a StatefulSet owner, have a NotFound of it in between |
| Agreement.SelectedPodsAreNotEvicted | pkg/controllers/pod.go:152-159 | a pod for which the webhook found or injected a selection is never deleted by the controller |
| Agreement.MismatchIsEvicted | pkg/controllers/pod.go:141-161 | in a pass over the listed images of a pod on a node, it is deleted if and only if the controller finds a mismatch and nothing selects an architecture |
| Agreement.AdmittedNodesMatchExactlyWhen | pkg/controllers/pod.go:170-213 | on an admitted node of the system's operating system the controller finds no mismatch if and only if every image has a usable platform for its architecture that names the operating system, or the node leaves a label empty |
| Agreement.AdmittedNodesMatch | pkg/controllers/pod.go:170-213 | in particular none when all platforms name their operating system |
| Agreement.PlainManifestMismatches | pkg/registry/registry.go:564 | a concrete pod with a plain manifest and a node the hook sends it to, on which the controller finds a mismatch |
| ImageReference.ParseImage | pkg/registry/registry.go:184-219 | registry, image, tag and digest flag of every input, the registry as the proxies leave it |
| ImageReference.ParsesAsWritten | pkg/registry/registry.go:184-211 | a name written as registry/path:tag@digest, parts optional, is parsed to these parts, with docker.io, "latest" and library/ where they are missing |
| ImageReference.EveryNameIsWritten | pkg/registry/registry.go:184-211 | every string is a name written so, hence the parse of every input is known |
| ImageReference.OfficialImages | pkg/registry/registry.go:206-211 | official images with and without a tag |
| ImageReference.FirstMatchApplies | pkg/registry/registry.go:212-217 | a registry that no proxy matches is left alone, otherwise the first that matches takes its place and the later ones are tried on its name |
| ImageReference.ParsesBackExactlyWhen | pkg/registry/registry.go:184-211 | a full name parses back to its parts if and only if its registry looks like one and a docker.io image has a path |
| ImageReference.NormalisationIsIdempotent | pkg/registry/registry.go:184-219 | without proxies, for every input string, the full name parses to the same registry, image and tag |
| ImageReference.DigestIsDropped | pkg/registry/registry.go:193-204 | a name with a digest parses like the name without it, apart from the flag |
| ImageReference.RepositoryIsRecovered | pkg/registry/registry.go:253-254 | the indices are in range for every manifest path, and the repository read back is the image if and only if the tag or digest has no slash |
| ImageReference.PanicsExactlyWhen | pkg/registry/registry.go:253-254 | for every path, the slice is out of range if and only if the path has fewer than three slashes |
| ImageReference.ScopeIsParsedImage | pkg/registry/registry.go:335-336 | the token scope names the parsed image for every digest, and for a tag if and only if it has no slash |

## Left out

- HTTP, TLS, token requests, the SHA-1 key of the token cache and the decoding of manifests: foreign code.
- `listArchsWithAuth` and its handling of pointed manifests: what it returns is an arbitrary answer here.
- Credential sources (kubelet plugins, containerd and docker files) and login patterns: file and process plumbing.
- `Handle`, events, patches, logging and counters: `UpdatePodSpec` ends in an outcome that `Handle` turns into a response.
- Calls to the API server: what they return is part of `Pass`, and reading a secret part of `GetImagePullSecret`.
- RateLimiterProtocol.StepKeepsInv: the mutex is not a step of its own, each critical section is one step; the transport always returns.
- ExpiringCache.Cache.CleanUp: interleaving with callers is in `CacheInterleavings`, where a sweep may visit a key any number of times, and the direct use of `Store` by the token cache is not.
- Hook.CollectArchitectures: the goroutines and their channel appear as a free choice of the next result to receive; pod affinity and preferred node affinity, which the hook never touches, are not fields of the specification.
- Reconciler.PodReconciler.Reconcile: an eviction is the attempt to delete; whether the API server grants it is not modelled. Passes do not overlap, as the controller runs with one worker.
- ImageReference.RepositoryIsRecovered: the path is the one written into the URL; percent-encoding, "?" and "#" belong to the URL parser.
- HookPromises.ImagesRunExactlyWhen: every node is taken to run the system's operating system, because the hook puts no demand on a node's operating system.
- CacheKey.GetImagePullSecret: strings are sequences of characters, so the replacement of invalid UTF-8 does not arise.
