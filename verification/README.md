# Solverr: the concurrent service around the browser engines

Solverr answers FlareSolverr requests with two browser engines. The browsers, the
sites, the network and the clock are outside it; what it owns is a session pool shared
by many request threads, a passthrough cache with coalesced solves, a controller that
divides one time budget over a list of engines, a printer for POST navigations, the timed
loops that wait for a challenge to clear, a cache of where each exit is, the rule that
judges a page, and the redaction of its logs. This project models those parts in Dafny and
proves what they promise. Everything outside is an arbitrary argument: a build or a solve
that returns or raises, a page that answers each look in any way, a clock that only moves
forward, a sleep that lasts at least as long as asked.

`dafny verify dfyconfig.toml` checks the whole project.

## How it is laid out

| modules | about |
|---|---|
| Basics, Text, Sorting, RecencyMap | shared pieces; RecencyMap is the bounded ordered dictionary behind three of the caches |
| SessionSections, SessionProtocol, SessionSafety, SessionRuns, SessionClock | the pool as a transition system, one step per lock section, any number of threads, and what its clock readings come to |
| SessionStore, Egress, EgressRoutes | the pool as a class whose methods are those lock sections, the proxies its browsers go out through, and how an id can come to have two |
| PassthroughCache, PassthroughRouting, PassthroughHandler, SingleFlight, SingleFlightRuns, SingleFlightHits | the byte-capped cache, the routing rule, the handler's lock sections, and every interleaving of handlers |
| Budget, Controller, EnginePlan | time shares, the fallback loop, the plan and the routing memory |
| Percent, Markup, PostForm, PostFormPrinter, FormBody | the two nested encodings, a reader for them, and the printed POST form |
| StealthWait, ChromeLoops | the engines' timed loops |
| GeoCache | the racing timezone and language cache |
| Kernels, Verdict, VerdictCases, SettledVerdict | the page verdict as a suspended generator driven to its end, and case by case |
| Redact, RedactionRules, Redaction, RedactionReach, RedactionLimits | redaction, what it is independent of, and exactly where it does not look |

A lock section is one atomic step. The classes hold the fields the source mutates; their
methods are proved equal to the section functions the transition systems are built from.
Text is its UTF-8 bytes, each in a character below 256, where percent-encoding matters.

## What turned out not to hold, and exactly when it does

* A `destroy` or `discard` removes a session that is in use. It keeps the pool's safety
  exactly when the session it removes is idle (`SessionRuns.PopIsSafeIff`); a concrete run has
  a browser closed while a request is solving on it (`SessionRuns.DestroyCanCloseABusyBrowser`).
* The expiry step pops by id, not by object. It conserves browsers exactly when the id still
  names the session it expires (`SessionRuns.ExpiryConservesIff`); with a destroy and a second
  create in between, a browser is lost (`SessionRuns.TtlAndDestroyCanLoseABrowser`).
* An id's proxy is stable from the call that opened it, a create or the create inside a get,
  exactly when the other engine's pool does not hold the id on a different proxy
  (`Egress.EgressIsStableIff`). Through the service's commands that happens by one route only: a
  get opens on another proxy an id that the memory has forgotten while the other pool still
  holds it (`EgressRoutes.CommandedEgressIsStableIff`). A run from the empty service takes it,
  with 1024 other ids to make the memory forget (`EgressRoutes.ForgottenSessionSplits`).
* The checkbox loop's docstring says its first pass always runs. The code runs it exactly when
  the deadline has not been reached (`ChromeLoops.GetTurnstileToken`). Growth in pass time alone
  does not bound the overrun either: the loop reads the clock again after its check, and the
  bound holds for a pass of any length exactly when the check would still pass at that second
  reading (`ChromeLoops.GrowthBoundsEveryLengthIff`); a first pass overruns it otherwise
  (`ChromeLoops.HandoverCanOverrun`).
* The stealth loop's second look accepts any page that is not a challenge. A page that denies
  access on the second look of the first pass is always reported cleared
  (`StealthWait.DeniedSecondLookClears`), and that look is the only way to be cleared while
  denied (`StealthWait.ClearedWhileDeniedIff`).
* Each engine is granted timeout/n for certain exactly when no time passes between setting the
  deadline and the loop's first clock reading (`Budget.FullSharesIff`); otherwise that gap comes
  off first.
* Redaction does not look inside an object sent as `url`, under a header that is no
  credential, at a cookie's attributes other than `value`, or at the `cookies`, `headers` and
  `postData` of a proxy object. Two bodies that differ only in secrets, cookie values,
  credential headers and form values, at any depth, are logged alike exactly when none of these
  sits there (`RedactionLimits.CredentialsAreHiddenIff`), with one body for each place.
* A form value with a line break is in the printed document whole, but a single-line text
  input drops the break; every value is kept exactly when none has one
  (`FormBody.ValuesAreEnteredIff`).

## Model

| member | source | states |
|---|---|---|
| SessionRuns.PoolIsSafe | src/sessions.py:111-283 | In every interleaving of create, get, end_use, reap_idle and enforce_cap, a solving request is alone on its browser, holds one of its marks, and its session is pooled under its own id with its browser open; a pooled session's in_use is its number of holders, and browsers are conserved |
| SessionSafety.StepInv | src/sessions.py:136-283 | Every lock section of those operations keeps the whole pool invariant |
| SessionRuns.BrowsersAreConserved | src/sessions.py:136-186 | With destroy and discard anywhere, as long as no get carries a ttl, every browser built is in exactly one place: one thread's hands, one pooled id, or closed once |
| SessionProtocol.ConservedStep | src/sessions.py:136-283 | Each step moves a browser from one place to one other, the loser of a creation race included; the one proviso is that an expiry finds its own session |
| SessionRuns.ExpiryConservesIff | src/sessions.py:219-238 | The expiry step conserves browsers if and only if its id still finds the session being expired |
| SessionRuns.PopIsSafeIff | src/sessions.py:164-186 | Removing an id keeps the invariant if and only if the session it finds, if any, has no holder |
| SessionRuns.DestroyCanCloseABusyBrowser | src/sessions.py:164-186 | A run in which a request is solving on an open browser, and after destroy's removal and close it is still solving and the browser is closed |
| SessionRuns.TtlAndDestroyCanLoseABrowser | src/sessions.py:222-238 | A run of get with a ttl, destroy and create that leaves a browser in nobody's hands |
| SessionSafety.MarkedIsCounted | src/engines/chrome_engine.py:118-175 | A request between get and end_use is one of the holders its pooled session counts, and is the only one when the count is one |
| SessionSafety.StepLocks | src/engines/stealth_engine.py:335-366 | The session lock is held exactly by the request solving on that browser, across acquire, timeout and release |
| SessionSections.CapIsExact | src/sessions.py:267-283 | A legal choice of victims leaves an over-full pool at the cap if and only if at most that many sessions are in use, never below it, and takes none in use |
| SessionStore.Pool.EnforceCap | src/sessions.py:267-283 | Removes and closes min(excess, idle) sessions, idle ones only, none used later than an idle survivor |
| SessionStore.Pool.ReapIdle | src/sessions.py:251-265 | Removes and closes exactly the sessions idle past the ttl that nobody holds |
| SessionStore.Pool.FindOrClaim | src/sessions.py:126-134 | The first section of create: the pooled session is returned, and claimed under the same lock when asked |
| SessionStore.Pool.StoreOrYield | src/sessions.py:136-153 | The second section: the newcomer is pooled, or the race's winner is returned and the newcomer is left to be closed |
| SessionStore.Pool.DecideExpiry | src/sessions.py:219-231 | The session is removed if and only if a lifetime was asked for, it is not new, it is older than that, and this request alone holds it |
| SessionStore.Pool.EndUse | src/sessions.py:240-249 | One mark is given back, never going below zero, and the last use becomes this clock reading |
| SessionStore.Pool.Create | src/sessions.py:111-153 | Sequentially: finds or builds, builds once with the given proxy, and remembers that proxy only when it built |
| SessionStore.Pool.Get | src/sessions.py:188-238 | Sequentially: what it does to pool, proxy memory and browsers built is the get of the egress model; an expired session's browser is closed once |
| SessionStore.Pool.Destroy | src/sessions.py:164-171 | The session goes, its browser is closed, and its proxy is forgotten |
| SessionStore.Pool.Discard | src/sessions.py:173-186 | The session goes and its browser is closed, the proxy memory stays |
| SessionClock.LastUseIsLastTouch | src/sessions.py:126-158 | In every run, destroys included, a session's last use is the reading of the newest launch, claim or end_use made on it |
| SessionClock.ReapedIff | src/sessions.py:251-265 | In every run without destroys, a reaper pass takes a pooled session if and only if nobody holds it and that reading is older than a positive ttl |
| SessionClock.ReapedIffUnused | src/sessions.py:240-265 | With readings that never go back: if and only if nobody holds it and no launch, claim or end_use on it is within the ttl |
| SessionClock.CreatedAtLaunch | src/sessions.py:136-137 | In every run a session's creation is the reading of its browser's launch |
| SessionClock.ExpiredIff | src/sessions.py:219-231 | A get takes its session out for rebuilding if and only if a ttl was given, it found the session rather than built it, the creation is older than the ttl, and it is the only holder; otherwise it goes on with it |
| SessionClock.NewOnlyWhenStored | src/sessions.py:126-153 | A session is new only to the thread that stored it, and a rebuild takes the expired session's own proxy and is not judged again |
| Egress.SettledStaysOnItsProxy | src/sessions.py:51-87 | Once an id is remembered and no pool holds it otherwise, every later browser for it gets its proxy, through expiry, reap, cap, discard and the other pool, while fewer than 1024 other ids come between uses |
| Egress.EgressIsStableIff | src/sessions.py:203-238 | From the call that opened an id in a pool, a create or a get, its egress is stable on that call's proxy in every such run if and only if the other pool does not hold the id on another proxy |
| EgressRoutes.StaysAgreedIff | src/flaresolverr_service.py:200-215 | With sessions.create refused while either pool holds the id, the only step that sets two proxies against each other is a get opening a forgotten id that the other pool holds on another proxy |
| EgressRoutes.CommandedEgressIsStableIff | src/sessions.py:203-238 | In every run of commands from the empty service, an opening is stable if and only if it is not such a get |
| EgressRoutes.ForgottenSessionSplits | src/sessions.py:63-82 | A run of commands from the empty service that ends in such a get |
| RecencyMap.RecallIsHistory | src/flaresolverr_service.py:390-403 | After any history, a key is found with its newest value if and only if fewer than cap distinct other keys were stored since; keys stay distinct and within the cap |
| RecencyMap.Memory.Remember | src/sessions.py:63-68 | Pop, insert at the end, evict the oldest: the memory becomes the specification's insertion |
| RecencyMap.Memory.Recall | src/sessions.py:71-82 | The remembered value, whose reading counts as use |
| RecencyMap.PutOther | src/sessions.py:63-68 | An insertion ages every other key by one, or forgets exactly the one that had cap newer keys |
| PassthroughCache.Cache.Store | src/passthrough.py:188-225 | Refuses exactly a body over a quarter of the cap, changing nothing; otherwise drops the expired, evicts the shortest soonest-expiring prefix that makes room, and keeps the running total equal to the sum of body lengths |
| PassthroughCache.Cache.MakeRoom | src/passthrough.py:216-222 | The entries evicted are the shortest prefix in expiry order after which the new body fits |
| PassthroughCache.Cache.Drop | src/passthrough.py:228-233 | An entry and its bytes leave the total together |
| PassthroughCache.StoredMeans | src/passthrough.py:200-225 | A store entry by entry: refused exactly over a quarter of a positive cap; the expired go; what else goes expires no later than anything that stays, and without the last of it there was no room |
| PassthroughCache.StoresStayWithinCap | src/passthrough.py:188-225 | After any sequence of stores the bodies sum to at most the cap and each is at most a quarter of it |
| PassthroughCache.TtlFor | src/passthrough.py:160-185 | A body is kept for less than the full TTL exactly when a marker is required, its type names HTML, its bytes lack the marker, and the full TTL is longer than a minute |
| PassthroughRouting.TargetIsAllowed | src/passthrough.py:259-288 | Whatever the path, the upstream host is one on the allow list, and there is none exactly for an asset, a path without a host, or an empty list |
| PassthroughRouting.RestIsKept | src/passthrough.py:98-115 | Everything below the first segment reaches the target as it came, on the named host if it is allowed and on the default mirror, segment included, if not |
| PassthroughRouting.HostAloneIsTheRoot | src/passthrough.py:108-115 | A host alone is asked for its root |
| PassthroughRouting.QueryIsKept | src/passthrough.py:108-115 | A query straight after the host is kept behind the root's slash |
| PassthroughRouting.NoHostIsRefused | src/passthrough.py:103-114 | A first segment that leaves no host, or one with a query or fragment in it, and an empty path are refused |
| PassthroughRouting.AssetSeesThePath | src/passthrough.py:256-259 | The asset test sees the path up to its query or fragment |
| SingleFlightRuns.SingleOwner | src/passthrough.py:296-367 | In every interleaving at most one thread per path is between taking and releasing the slot |
| SingleFlightRuns.SlotIsReleasedAndWoken | src/passthrough.py:330-367 | A slot not yet woken has an owner that can step, and each of its steps brings the release and wake nearer, however the solve ends; a woken slot is no longer listed |
| SingleFlightRuns.WaiterGetsTheOwnersAnswer | src/passthrough.py:313-321 | A waiter woken by the event sends what the owner's solve for that very slot and target returned, the same as the owner sent, or a 502 |
| SingleFlightRuns.HitsAreGenuine | src/passthrough.py:297-311 | Every body sent on a hit came from an earlier solve of the same path's target that was 2xx and unchallenged, and expires after the reader's clock reading |
| SingleFlightRuns.StepInv | src/passthrough.py:252-367 | Every step of the handlers keeps the slot, solve and response invariants |
| SingleFlightHits.LiveEntryIsServed | src/passthrough.py:296-311 | In every interleaving, a thread that decides while its path has a live entry takes that entry, and the next thing it does is send its body, whatever becomes of the cache in between |
| SingleFlightHits.DecidesBy | src/passthrough.py:296-306 | The first lock section case by case: live entry, listed slot, new slot |
| SingleFlightHits.EligibleIsCached | src/passthrough.py:345-356 | A solve is kept exactly when caching is on, it was a 2xx, it did not look challenged and it fits a quarter of the cap; then it is the path's entry until the reading plus its ttl |
| PassthroughHandler.Handlers.Decide | src/passthrough.py:296-306 | A hit if and only if caching is on and the path has an entry expiring after the reading, and then that entry; else the listed slot is joined; else a fresh one is listed |
| PassthroughHandler.Handlers.SolveAndPublish | src/passthrough.py:330-367 | The owner's path: caching by the store relation only when eligible, the slot published, unlisted and woken whether the solve, the judging, the storing or the sending raises |
| PassthroughHandler.Handlers.ReadSlot | src/passthrough.py:313-321 | A waiter answers with the slot's answer, or a 502 when it failed |
| Controller.ResolveChallenge | src/flaresolverr_service.py:486-552 | The loop's answer is the first clean page, else the latest challenged page among the engines tried, else the last error; the memory learns the clearing engine exactly when a clean page is returned; each engine tried gets its even share |
| Controller.LongerIsNoWorse | src/flaresolverr_service.py:507-552 | Trying more engines never lowers the answer in error < challenged page < clean page, and never changes a clean one |
| Controller.AppendingNeverLowers | src/flaresolverr_service.py:486-552 | With outcomes and clock held fixed, appending an engine to the plan never lowers the answer |
| Controller.CleanPageIsAnswered | src/flaresolverr_service.py:525-544 | The first page that is no challenge is the answer, whatever came before it |
| Controller.ChallengedPageIsAnswered | src/flaresolverr_service.py:510-551 | Failing that, the latest challenged page, even when engines after it failed |
| Controller.LastErrorIsRaised | src/flaresolverr_service.py:505-552 | Failing that, the last tried engine's own error, and the fixed message when none was tried |
| Controller.LearnsTheClearing | src/flaresolverr_service.py:530-544 | The memory of at most 500 hosts learns exactly the engine of the first such page, and the loop stops there |
| Budget.SharesAreFair | src/flaresolverr_service.py:481-506 | While every engine stays inside its share each is granted an nth of what the loop's first clock reading leaves, and the request ends by its deadline |
| Budget.NoneIsSkipped | src/flaresolverr_service.py:487-495 | With at least five seconds an engine left at the loop's first clock reading, none is skipped |
| Budget.SharesFromTheStart | src/flaresolverr_service.py:481-506 | Counted from the request's start, each engine is granted an nth of the timeout less the gap before the first reading, and at least five seconds when that allows five each |
| Budget.FullSharesIff | src/flaresolverr_service.py:481-489 | timeout/n itself is granted whatever the engines spend if and only if that gap is nothing |
| Budget.MarginIsKeptIff | src/budget.py:21-32 | Solving stops three seconds before the share ends if and only if the share is four seconds or more, and never before one second |
| Budget.WaitIsCounted | src/budget.py:35-47 | What is left of a share is the share less what was waited, down to a second |
| Budget.OverrunsDoNotAddUp | src/flaresolverr_service.py:481-506 | If each engine overruns its share by at most d, the request overruns its deadline by at most d |
| Budget.EngineEndsInItsShare | src/budget.py:35-47 | An engine that counts launch and lock wait w against its share ends within max(share, w + 1) |
| Budget.RequestOverrun | src/engines/chrome_engine.py:103-152 | So a whole request overruns by no more than the slowest wait exceeds its share, plus the floor of a second |
| EnginePlan.MakePlan | src/flaresolverr_service.py:406-453 | A forced engine alone or a refusal; otherwise the session's holder, the remembered engine or the default first, and the rest only with fallback on |
| EnginePlan.PlanCovers | src/flaresolverr_service.py:406-453 | The plan names available engines, none twice, all of them with fallback on, and starts with a holder of the session when there is one |
| EnginePlan.PrimaryIs | src/flaresolverr_service.py:419-446 | First goes the remembered engine if it holds the session, else the first holder in order, else the remembered one, else the default, else chrome |
| EnginePlan.OthersKeepOrder | src/flaresolverr_service.py:448-452 | The fallbacks keep the order the engines are listed in |
| EnginePlan.HistoryRoutes | src/flaresolverr_service.py:390-453 | A sessionless unforced request starts with the engine that last cleared its host if that is available and fewer than 500 other hosts were cleared since, and otherwise with the default |
| PostFormPrinter.BuildPostHtml | src/postform.py:34-61 | For every url and urlencoded body the document has no `#` and no `%` outside a valid escape, and decoding, parsing and unescaping it gives a form with id hackForm, method POST, exactly the url as action and, between its tags, exactly the decoded fields in order, minus those named submit, as text inputs; it ends in the script that submits hackForm |
| PostForm.PostRoundTrip | src/postform.py:22-61 | The same of the document as pieces: decoding, reading and unescaping it gives back the id, the method, the url and the fields |
| PostForm.AttrKeeps | src/postform.py:31-31 | Of single bytes an attribute keeps exactly letters, digits, `_.-~` and the slash as they are |
| PostForm.AttrTextIsSealed | src/postform.py:22-31 | An attribute survives the whole-document decode as its HTML-escaped text, with nothing left that could cut the URL short |
| FormBody.EncodedFieldsComeBack | src/postform.py:35-59 | Fields a client percent-encoded come back as they were, in order, but for those named submit; a leading ? changes nothing |
| FormBody.KeptIsTheRest | src/postform.py:45-46 | The fields left out are those named submit and no others, and the order is kept |
| FormBody.PairIsDecoded | src/postform.py:38-52 | A pair is cut at its first equals sign and both halves decoded; without one the value is empty |
| FormBody.FirstPairFirst | src/postform.py:36-52 | Pairs are taken in order and one leading question mark is dropped |
| FormBody.ValuesAreEnteredIff | src/postform.py:52-52 | A text input holds every value of the document if and only if none has a line break |
| FormBody.EmptyBodyPostsOneField | src/postform.py:35-37 | No body still posts one nameless field |
| Percent.UnquoteQuote | src/postform.py:31-31 | What quote writes decodes to the original bytes, and is sealed (RFC 3986 sections 2.1 and 2.3) |
| Percent.QuotedAs | src/postform.py:31-31 | Letters, digits, `_.-~` and the safe characters are written as they are, every other byte as a percent sign and two upper-case digits |
| Percent.EscapeIsDecoded | src/postform.py:42-50 | An escape in either case decodes to its byte |
| Percent.OthersAreKept | src/postform.py:42-50 | Everything else is kept, a percent sign that starts no escape included |
| Percent.UnescapeEscape | src/postform.py:31-31 | The five entities unescape to the original text |
| Percent.EscapedIsInert | src/postform.py:22-31 | Escaped text cannot open a tag or close a double-quoted attribute |
| Markup.ReadTag | src/postform.py:35-50 | A tag with escaped double-quoted attribute values is read back whole, whatever the values |
| StealthWait.WaitUntilCleared | src/engines/stealth_engine.py:684-736 | For every sequence of passes: cleared exactly when the last pass read clear and then, a second later or more, not a challenge, or a widget with a token and no interstitial; no earlier pass could have decided; at most ceil((deadline - start)/1.5) + 1 passes |
| StealthWait.WaitEndsBy | src/engines/stealth_engine.py:699-724 | Exactly which looks and answers end a wait as cleared, blocked or an error, and that none of the passes before had them |
| StealthWait.WaitTakes | src/engines/stealth_engine.py:723-736 | The second look starts a second after the first, a pass a second and a half after the one before, and the number of passes is bounded by that |
| StealthWait.ClearedWhileDeniedIff | src/engines/stealth_engine.py:727-736 | A wait reports cleared with the page last seen denied if and only if its last pass read clear and then denied |
| StealthWait.DeniedSecondLookClears | src/engines/stealth_engine.py:720-736 | A page that denies access on the first pass's second look is always reported cleared |
| StealthWait.MakePass | src/engines/stealth_engine.py:699-721 | When one pass clears, blocks, fails (the title read for the debug log included) or goes on, and that it presses exactly with a widget, no token and the cooldown over |
| StealthWait.PressesAreSpaced | src/engines/stealth_engine.py:715-719 | Any press starts at least four seconds after every earlier landed one ended |
| StealthWait.PressedExactlyWhen | src/engines/stealth_engine.py:713-719 | Never over a token; a prompting box without one is left alone only while a landed press, or the clock's first four seconds, are still cooling down |
| ChromeLoops.GetTurnstileToken | src/engines/chrome_engine.py:543-591 | Stops at the first changed non-empty token, at an exception, or when the last pass's length no longer fits; each pass but the last left the input unread, empty or as it was and slept a second; the first runs exactly when the deadline has not been reached |
| ChromeLoops.OverrunIsGrowth | src/engines/chrome_engine.py:557-591 | Pass k ends before the deadline plus its growth over pass k-1 and the gap between the loop's clock readings |
| ChromeLoops.GrowthBoundsEveryLengthIff | src/engines/chrome_engine.py:557-559 | Without that gap the bound holds for a pass of every length if and only if the loop's check would still pass when the pass starts |
| ChromeLoops.GrowthBoundsAPassIff | src/engines/chrome_engine.py:557-589 | And for one pass if and only if the shorter of it and the one before would have ended in time from its start |
| ChromeLoops.HandoverCanOverrun | src/engines/chrome_engine.py:557-589 | A first pass that runs past the deadline by more than its growth |
| ChromeLoops.SteadyPassesEndInTime | src/engines/chrome_engine.py:551-556 | Passes after the first that do not grow end before the deadline |
| ChromeLoops.Settle | src/engines/chrome_engine.py:351-372 | Leaves as quiet at exactly the first poll whose last six reads succeeded, are identical and complete; else at the first check past the deadline, or after 50 polls |
| ChromeLoops.PollsAreSpaced | src/engines/chrome_engine.py:357-371 | Polls are a tenth of a second apart besides what the reads take |
| ChromeLoops.TokenValue | src/engines/chrome_engine.py:511-523 | An input that cannot be read or is empty is no token, and any other is its own |
| ChromeLoops.QuietIsFiveRepeats | src/engines/chrome_engine.py:357-369 | The loop's counter reaches five exactly when the last six reads are identical and complete |
| GeoCache.GoodEntryIsKept | src/geo.py:180-204 | In every interleaving an unexpired complete entry stays complete and unexpired for as long, as long as fewer than 512 other exits are stored after it: no fallback pair replaces it |
| GeoCache.GoodEntryIsAnswered | src/geo.py:182-204 | A call whose last lock section finds such an entry returns a pair from a complete lookup of that exit |
| GeoCache.StepKeepsGood | src/geo.py:191-203 | One lock section keeps a good entry or replaces it by one that lasts at least as long, unless it is the 512th other exit |
| GeoCache.NeverOverfull | src/geo.py:202-203 | The cache holds at most 512 entries, one an exit, whenever the lock is free |
| GeoCache.PairIsServed | src/geo.py:187-203 | A pair is served until its time is up and no longer: a minute for a fallback, the session lifetime but five minutes at least for a whole one |
| GeoCache.PairIs | src/geo.py:188-190 | The container's zone and en-US stand in for exactly what the lookup could not tell |
| GeoCache.LivePairWins | src/geo.py:192-198 | A failed lookup that finds a whole live pair hands it back and leaves the cache alone |
| GeoCache.Exits.Store | src/geo.py:187-204 | The second lock section: the cached answer for an incomplete lookup that lost to a complete one, else the pair stored with its own ttl and the oldest evicted |
| GeoCache.Exits.Cached | src/geo.py:182-185 | The first lock section: an unexpired entry's pair |
| Kernels.Run | src/pipeline.py:123-131 | The loop's result and steps are those of the driven kernel, whatever the handlers answer |
| Verdict.VerdictIsRule | src/pipeline.py:68-101 | For all lists and any page, the driven generator gives the declarative rule's verdict, having looked at the title and a prefix of denied, widget (if enabled) and challenge selectors with none after the deciding one |
| VerdictCases.DeniedTitleDecides | src/pipeline.py:76-80 | The first denied title the page's title starts with denies it, before any selector is looked for |
| VerdictCases.DeniedSelectorDecides | src/pipeline.py:81-83 | Else the first denied selector shown denies it |
| VerdictCases.WidgetDecides | src/pipeline.py:88-92 | Else, for an engine that can press one, the first widget shown makes it a challenge |
| VerdictCases.TitleDecides | src/pipeline.py:94-96 | Else any of the listed challenge titles, in any case, makes it a challenge with the title as reason |
| VerdictCases.ChallengeSelectorDecides | src/pipeline.py:97-99 | Else the first challenge selector shown does |
| VerdictCases.OtherwiseClean | src/pipeline.py:101-101 | With none of these the page is clean and every selector was looked for |
| SettledVerdict.VerdictMeans | src/pipeline.py:77-101 | On a still page: denied if a title or selector denies, else challenge if a pressable widget or a challenge mark shows, else clean; and when it counts as a widget |
| SettledVerdict.CapabilityMatters | src/pipeline.py:88-92 | The two capability settings find different things if and only if the page is not denied and shows a widget, and differ in verdict if and only if nothing else challenges besides |
| SettledVerdict.SettledIsRule | src/pipeline.py:104-131 | The settled kernel is the verdict, taken again after a settle exactly when the first look is clean |
| SettledVerdict.SettlesAtMostOnce | src/pipeline.py:104-120 | It settles once when the first look is clean, and otherwise never |
| SettledVerdict.Detect | src/pipeline.py:68-101 | run with the verdict kernel returns the rule's verdict after exactly its looks |
| SettledVerdict.DetectSettled | src/pipeline.py:104-131 | run with the settled kernel likewise |
| Redaction.SameOutput | src/redact.py:115-190 | Two bodies of any nesting depth that differ only in what its rules replace give the same output; CredentialsAreHiddenIff says which credentials that leaves out |
| Redaction.KeysAreKept | src/redact.py:162-190 | Every key and every plain value is in the output, field names of a form included, outside the fields replaced whole |
| Redaction.FormKeepsNames | src/redact.py:115-120 | A redacted form has as many pairs, each with its own name |
| RedactionRules.SecretIsReplaced | src/redact.py:174-176 | A password or turnstile_token is replaced exactly when it is not empty, zero, false or null |
| RedactionRules.SecretIsHidden | src/redact.py:174-176 | Bodies that differ only in such a non-empty value are logged alike |
| RedactionRules.HeaderIsLogged | src/redact.py:143-145 | Exactly cookie, set-cookie, authorization and proxy-authorization, in any case, are replaced, and every other header is left alone |
| RedactionRules.CredentialHeaderIsHidden | src/redact.py:143-145 | Bodies that differ only in the value of one of the four are logged alike |
| RedactionRules.OddHeadersGoWhole | src/redact.py:146-148 | Headers that are no object go whole unless there is nothing in them |
| RedactionRules.CookiesAreLogged | src/redact.py:123-133 | A cookie string goes whole, a cookie object keeps its names, and in a list anything that is no object goes whole |
| RedactionRules.CookieIsLogged | src/redact.py:125-128 | A cookie in a list keeps everything but its value |
| RedactionRules.PostDataIsLogged | src/redact.py:151-159 | A form string is logged pair by pair, a form object keeps its names, a list goes whole |
| RedactionRules.PairIsLogged | src/redact.py:119-120 | A pair keeps its name and loses its value; a pair without one is left alone |
| RedactionRules.ProxyUrlIsLogged | src/redact.py:43-52 | What redact.url replaces stays so, and what still has a colon before its first at-sign goes whole |
| RedactionRules.ProxyPartIsLogged | src/redact.py:65-74 | In a proxy object the secrets are replaced, the url is redacted or goes whole, and the rest is walked |
| RedactionRules.ProxyIsLogged | src/redact.py:63-77 | A proxy that is neither text nor object goes whole unless there is nothing in it |
| RedactionRules.OtherFieldIsWalked | src/redact.py:188-189 | Any field without a rule is walked as a body of its own |
| RedactionLimits.CredentialsAreHiddenIff | src/redact.py:55-190 | The output is independent of every password, turnstile_token, cookie value, credential header and form value in a body, at any depth, if and only if none sits where redaction does not look |
| RedactionReach.Unexposed | src/redact.py:162-190 | Bodies that differ only in credentials are alike to the redaction when none is exposed |
| RedactionReach.NothingCarried | src/redact.py:115-190 | What carries no credential has no other variant: nothing else is let vary |
| RedactionLimits.ExposedShows | src/redact.py:162-190 | An exposed credential shows: some other value for it is logged differently |
| RedactionLimits.UrlObjectIsLogged | src/redact.py:186-187 | An object sent as `url` is logged unchanged, whatever is in it |
| RedactionLimits.ProxyCookiesAreLogged | src/redact.py:64-74 | A cookie string in a proxy object is logged unchanged |
| RedactionLimits.CookieAttributeIsLogged | src/redact.py:123-128 | A password among a cookie's attributes is logged unchanged |
| RedactionLimits.PlainHeaderIsLogged | src/redact.py:143-145 | A password under a header that is no credential is logged unchanged |
| Redact.LogBody | src/redact.py:162-190 | The recursive loop over a body, field by field, is the specified redaction |
| Redact.LogProxy | src/redact.py:55-77 | The loop over a proxy object likewise |

## Left out

- SessionRuns.PoolIsSafe: runs of create, get, end_use, reap_idle and enforce_cap only, because destroy, discard and Chrome's timeout path remove a session whatever its holders; what those break is stated exactly beside it.
- Egress.EgressIsStableIff: sequential runs only, because another thread can run between storing a session and remembering its proxy.
- SingleFlightRuns.WaiterGetsTheOwnersAnswer: waiters woken by the event; one whose wait times out while the owner is publishing can read a half-written slot. The slot's fields are published in one step.
- SingleFlightRuns.SlotIsReleasedAndWoken: says that the owner can always step and gets nearer; that it is scheduled is the operating system's part.
- PassthroughRouting.TargetIsAllowed: str.strip, str.lower and the static-asset pattern are arguments, as is str.lower in the cache's HTML test.
- PostFormPrinter.BuildPostHtml: HTML parsing beyond double-quoted attributes and the five entities escape writes, and bytes that are not valid UTF-8, for which unquote substitutes a replacement character. The tab and newline removal of URL parsers only touches text between tags. FormBody.ValuesAreEnteredIff says when a text input keeps every value; how the browser encodes the submission is not modelled.
- ChromeLoops.OverrunIsGrowth: keeps the gap between the two clock readings of a pass in the bound; ChromeLoops.GrowthBoundsEveryLengthIff says when it can go.
- Budget.NoneIsSkipped: counts the five seconds an engine from the loop's first clock reading; Budget.SharesFromTheStart counts from the request's start.
- SettledVerdict.CapabilityMatters: a page that holds still; Verdict.VerdictIsRule covers pages that change between looks.
- SessionStore.Pool.Get: hands over the claimed session; the per-session lock taken after it is in the transition system, where waiting means something.
- Redaction.SameOutput: which strings of a URL count as its password is `redact.url`'s own decision, an argument here, as is `str.lower`.
- The page-load kernel `approach`: three fixed steps.
- A handler that raises inside `run`: the exception leaves the loop.
- The id a create without one makes up, the session's payload, and the start-up and reaper threads: the pool is given ids and the clock readings of its calls.
- Launching and driving browsers, the paid CAPTCHA solver, screenshots and PDF fetching: foreign calls, each an arbitrary result.
- HTTP servers, metrics, labels, logging lines, configuration, response assembly, and timezone and language parsing: plumbing.
- `redact.proxy_text` and the parsing inside `redact.url`: library URL parsing.
- `src/undetected_chromedriver/`: binary patching and process handling.
- Python's float and integer widths: durations and clock readings are reals, which do not round.
