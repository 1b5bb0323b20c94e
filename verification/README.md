# Examination backend: a verified model

This project models the transactional core of the examination backend and proves what its protocols keep.
Each service method is either a pure function or a method on a small class, proved equal to a function on table
values; what the service is for is then proved of those functions, for every input and every run.

* **Widget token protocol.** `WidgetContext`, `SessionStore`, `SessionProtocol` and `SessionResults` model refresh
  sessions (create, load, rotate, revoke, refresh) and `SessionClaims` says what that means for the claims a token
  carries; `ExchangeProtocol`, `ExchangeResults`, `AuthorizeCall` and `ExchangeAnswers` model idempotent authorisation
  (claim, exchange, store, replay) and `ExchangeExclusion` how its exclusion can be lost;
  `WidgetAuth` runs both protocols on one clock, joined by the transaction that creates the session and stores the
  response. Each database access and each upstream call is one step, and any number of calls interleave. Encryption and hashing are symbolic: a sealed text opens under the associated
  data it was sealed with and under nothing else, and hashes are injective on the text they are given.
* **Ingestion.** `Webhooks` and `WebhookEvents` model webhook deliveries and `WebhookRaces` their overlapping
  transactions, `PageCollector`, `DirectorySync` and `DirectoryRecords` (with `Upserts`) the directory sync, `DemoBatch`,
  `DemoSeed`, `DemoSeedSteps`, `DemoSeedResults` and `DemoSeedRows` the demonstration seeder.
* **Exams and scores.** `ExamStore` holds the tables, `Exams` and `ExamCommands` the exam service, `ScoreEntry`,
  `ScoreEntryResults` and `ScoreGrid` the grid, `CsvFormat`, `CsvImport`, `CsvImportResults` and `CsvReports` the file
  import, `ExamLifecycle` every serial run of them.
* **Results.** `Ranking`, `Results`, `StudentResults`, `TeacherResults`, `TeacherView`, `WidgetBatch` and `WidgetItems`
  model ranks, totals, the student and teacher views and the memoising widget batch.
* **Rate limiting.** `RateLimiter` models the fixed-window guard.
* Each operation is said twice: as the function its method is proved equal to, and in plain terms, without that
  function, in a law about its result (`SessionClaims`, `ExchangeAnswers`, `WebhookEvents`, `DirectoryRecords`,
  `DemoSeedRows`, `ExamCommands`, `ScoreGrid`, `CsvReports`, `StudentResults`, `TeacherView`, `WidgetItems`).
* `Prelude`, `Text`, `StableSort` and `Permutations` hold what the others share.

Conventions. Tables are maps keyed by a unique index of the schema; the other unique indexes are error branches or
predicates that operations are shown to keep. A transaction commits or changes nothing. Generated ids, the clock, the
upstream answers, the locale's comparison, the digest of a text and the conversion between numbers and texts are
parameters, so that the results hold for every choice of them. `localeCompare` is only assumed to be a total preorder:
where ties could matter the result says so. Texts produced by `JSON.stringify` are compared as the values they print.
Scores and maxima are whole hundredths, as the `Decimal(8,2)` columns store them; a score on its way in is a real number
and is rounded as the column rounds.

Where the code and the expectations one might have of it part, the code is modelled and the difference is a lemma:

* an authorize call can lose its exclusion while its exchange is in flight or done, because claims are deleted by key
  alone. A second exchange can start by a given time exactly when the claim expires by then, or another call has already
  read a row of the key as expired and is about to delete it, or another call of the key is in flight while the claim
  has no response, so that its failure deletes it (`ExclusionIsLostIff`). Each is exhibited: `ExpiryBreaksExclusion`,
  `StaleDropEndsLiveClaim`, `LateReleaseEndsLiveClaim`; the last two end a claim that has not expired;
* the two context comparisons differ on an empty query preset (`EmptyPresetSplitsComparisons`), which no verified token
  carries (`ComparisonsAgree`);
* `duplicate: true` does not imply a receipt (`DuplicateWithoutReceipt`): it also answers exactly the well-formed tenant
  creations whose EduPlus id another tenant has or whose generated id is taken (`DuplicateIff`, `UniqueViolationIff`),
  and, if the upsert takes two statements, one of two overlapping creations of a tenant (`OverlappingCreationIsLost`);
* a second directory sync of the same records can fail (`RepeatedCourseIdCanFail`): it does exactly when a course record
  claims a code that the batch later leaves with another course it has not yet mentioned (`SecondRunRollsBackIff`,
  `SecondSyncSucceedsIff`), which needs a repeated course id (`DistinctCoursesSyncAgain`);
* the limiter can admit more than m requests in an interval of the window's length exactly when m is at least two and
  the window longer than the clock's tick (`QuotaIsExceededIff`); then up to 2m - 1, and never 2m
  (`TheBoundIsReached`, `AtMostTwiceTheQuotaLessOne`);
* the clock in a rotation's where clause is read before the write, so a row that expires in between is still rotated
  (`LateRotationStillCommits`);
* a quoted field with a line feed is not read back (`ReadsBackIffNoLineFeeds`);
* a grid checked before a publish can be written after it (`OverlappingSaveWritesIntoPublishedExam`);
* a score row outside the demonstration batch and without a value passes the value check; only the count refuses it
  (`OnlyTheCountFindsStrangers`, `SampleStranger`).

## Model

| member | source | states |
|---|---|---|
| WidgetContext.NormalizeIdempotent | backend/src/widgets/widget-refresh-session.service.ts:173-210 | normalising a stored authorisation again changes nothing, so reading a row gives the context it was written with |
| WidgetContext.NormalizeEqualIff | backend/src/widgets/widget-refresh-session.service.ts:186-210 | two contexts compare equal exactly when they bind the same identity and configuration, their key lists are permutations, and their pairs are permutations that keep the order of pairs the collation ties |
| WidgetContext.NormalizeEqualIffPermuted | backend/src/widgets/widget-refresh-session.service.ts:186-210 | with a collation that separates different pairs, that is equality up to the order of the three lists |
| WidgetContext.ContextMatchesIff | backend/src/widgets/widget-refresh-session.service.ts:186-196 | the check of a stored context succeeds exactly on the contexts with the same normal form |
| WidgetContext.SessionContextHasNoEmptyPreset | backend/src/widgets/widget-auth.service.ts:298-317 | a context built from a verified token never carries an empty query preset |
| WidgetContext.CanonicalIsNormalize | backend/src/widgets/widget-auth.service.ts:442-458 | on such contexts the canonical form of the refresh call is the normal form of the session store |
| WidgetContext.ComparisonsAgree | backend/src/widgets/widget-auth.service.ts:174-181 | on such contexts the comparison in refresh and the check in the session store accept the same pairs |
| WidgetContext.EmptyPresetSplitsComparisons | backend/src/widgets/widget-refresh-session.service.ts:203-207 | off that domain they differ: a concrete context with an empty preset passes one and fails the other |
| SessionStore.LoadSucceedsIff | backend/src/widgets/widget-refresh-session.service.ts:82-106 | over intact rows load succeeds exactly on a usable row with the right token and the right context up to order, returns the sealed text, and never reports an integrity failure |
| SessionStore.MovedCiphertextFails | backend/src/widgets/widget-refresh-session.service.ts:91-99 | a row whose ciphertext was moved in from another session never loads |
| SessionStore.CreateThenLoad | backend/src/widgets/widget-refresh-session.service.ts:51-106 | a session just created loads with its token exactly for its context, and returns the refresh token given |
| SessionStore.RotateThenLoad | backend/src/widgets/widget-refresh-session.service.ts:108-143 | after a committed rotation the new token loads the new refresh token, the old token is refused, and every other row and the binding stay |
| SessionStore.RevokeThenLoad | backend/src/widgets/widget-refresh-session.service.ts:145-161 | after a committed revocation every load answers that the session is revoked |
| SessionStore.RefusalsAre | backend/src/widgets/widget-refresh-session.service.ts:82-167 | load, rotation and revocation refuse a missing, revoked or expired session in that order and alike; then a spent token is a mismatch to a load and a conflict to a rotation, another context is a mismatch to all three, and a moved ciphertext an integrity failure |
| SessionStore.RefreshSessionService.Create | backend/src/widgets/widget-refresh-session.service.ts:51-80 | adds exactly one intact row, or refuses a taken id |
| SessionStore.RefreshSessionService.Load | backend/src/widgets/widget-refresh-session.service.ts:82-106 | answers as the table function does and changes nothing |
| SessionStore.RefreshSessionService.Rotate | backend/src/widgets/widget-refresh-session.service.ts:108-143 | succeeds exactly when the read accepts and the conditional update matches, and then replaces hash, ciphertext and expiry of that row only |
| SessionStore.RefreshSessionService.Revoke | backend/src/widgets/widget-refresh-session.service.ts:145-154 | succeeds exactly when the read accepts and the update matches, and then only stamps that row; a refusal is that of the read |
| SessionProtocol.RunKeepsInv | backend/src/widgets/widget-refresh-session.service.ts:51-161 | in every interleaving each row is bound to its id and context, the installed pairs form a chain ending in the row, every handed-out token grants the context, and installs only accumulate |
| SessionProtocol.LateRotationStillCommits | backend/src/widgets/widget-refresh-session.service.ts:125-132 | whether a prepared rotation commits does not depend on the time its write takes |
| SessionResults.RotationsFormAChain | backend/src/widgets/widget-refresh-session.service.ts:108-143 | in every interleaving each committed rotation replaced exactly the hash installed by the one before, on a row unexpired when the rotation was checked, and none came after a revocation |
| SessionResults.EachTokenIsSpentOnce | backend/src/widgets/widget-refresh-session.service.ts:108-143 | with fresh new tokens no two successful refreshes presented the same access token |
| SessionResults.LoadInAnyRun | backend/src/widgets/widget-refresh-session.service.ts:82-106 | in every reachable state load succeeds exactly with the last installed access token and the bound context up to order, and returns the refresh token installed with it |
| SessionResults.ContextNeverChanges | backend/src/widgets/widget-auth.service.ts:145-202 | every access token ever returned for a session, by authorize or by any refresh, carries the same context up to list order (of the claims themselves: `SessionClaims.ClaimsNeverChange`) |
| SessionResults.RefreshAnswersAreInstalled | backend/src/widgets/widget-auth.service.ts:160-202 | a refresh that succeeded returned a token that its session installed right after the one presented |
| SessionResults.LosingCallChangesNothing | backend/src/widgets/widget-refresh-session.service.ts:141-153 | an attempt that fails leaves every session as it found it |
| SessionResults.HistoryOnlyGrows | backend/src/widgets/widget-refresh-session.service.ts:125-140 | no later step rewrites an installed pair or rebinds a session |
| SessionResults.RevocationPersists | backend/src/widgets/widget-refresh-session.service.ts:149-153 | a revoked session stays revoked in every continuation |
| SessionResults.NothingInstalledAfterRevocation | backend/src/widgets/widget-refresh-session.service.ts:125-132 | rotations already past their read install nothing once the session is revoked |
| SessionClaims.GrantedIsBound | backend/src/widgets/widget-auth.service.ts:298-317 | a token that grants a context carries exactly its claims: user, identity, identity type, app, configuration and scope are equal, and the two key lists and the pairs, an empty preset counting as none, are permutations |
| SessionClaims.GrantsIffBound | backend/src/widgets/widget-auth.service.ts:174-180 | with a collation that ties no two pairs nothing else is compared: the claims decide |
| SessionClaims.SessionIsBoundToItsTokens | backend/src/widgets/widget-refresh-session.service.ts:51-143 | in every run a session holds the claims of every token ever installed in it, its user being the subject of the first as of any other |
| SessionClaims.ClaimsNeverChange | backend/src/widgets/widget-auth.service.ts:172-202 | any two tokens installed in one session carry the same verified claims |
| SessionClaims.CreatedSession | backend/src/widgets/widget-auth.service.ts:80-90 | a session is created for the tenant of the credential and the claims of the token, with the pair and the expiry given |
| SessionClaims.LoneRefresh | backend/src/widgets/widget-auth.service.ts:118-203 | in any reachable state, a refresh with nothing interleaved succeeds exactly if its token verifies and was the last installed in a usable session and the upstream answers with the claims the session holds; then the row takes over the new access token, and the refresh token and expiry if sent, and otherwise nothing changes |
| SessionClaims.OtherClaimsAreRefused | backend/src/widgets/widget-auth.service.ts:172-180 | a refresh for which the upstream returns a token with any other claim fails and changes nothing |
| SessionClaims.LoneRevocation | backend/src/widgets/widget-refresh-session.service.ts:145-154 | a revocation with nothing interleaved stamps the row exactly if it is usable and of the expected context |
| SessionClaims.ClockIs | backend/src/widgets/widget-refresh-session.service.ts:163-167 | the clock every check reads shows the time passed in the run, whatever the calls did |
| ExchangeProtocol.AadIdentifiesRequest | backend/src/widgets/widget-auth.service.ts:418-430 | the associated data of a stored response determines client, key and handoff code |
| ExchangeProtocol.KeyHashIdentifies | backend/src/widgets/widget-auth.service.ts:418-420 | as long as no client id holds a NUL, two requests share a key hash exactly if they have one client and one key |
| ExchangeProtocol.KeyHashCollides | backend/src/widgets/widget-auth.service.ts:418-420 | with a NUL in a client id two clients can share one |
| ExchangeProtocol.RunKeepsInv | backend/src/widgets/widget-auth.service.ts:54-116 | in every interleaving every claim row that was never read as expired has one holder in the phase the row shows, and every stored response is that of the call that stored it |
| ExchangeResults.AtMostOneExchange | backend/src/widgets/widget-auth.service.ts:62-75 | for a key never read as expired at most one call is exchanging or has completed an exchange |
| ExchangeResults.CompletedForGood | backend/src/widgets/widget-auth.service.ts:65-116 | no later step of any call undoes a completed exchange |
| ExchangeResults.SameResponseForAll | backend/src/widgets/widget-auth.service.ts:54-116 | all callers of such a key that succeed receive the same response |
| ExchangeResults.AnswersBelongToTheRequest | backend/src/widgets/widget-auth.service.ts:344-373 | in every run, expiry and re-claims included, a response returned was produced by a call with the same client, key and code |
| ExchangeResults.ForeignResponseNeverOpens | backend/src/widgets/widget-auth.service.ts:362-373 | a response stored into a row by another request does not open for this one |
| ExchangeResults.ClaimedIffHeld | backend/src/widgets/widget-auth.service.ts:319-342 | a key never read as expired has a claim row exactly while some call holds it, so failed exchanges release and completed ones do not |
| ExchangeResults.OneSessionPerExchange | backend/src/widgets/widget-auth.service.ts:84-104 | every session belongs to exactly one answered call |
| ExchangeResults.NewcomerPassesIff | backend/src/widgets/widget-auth.service.ts:344-360 | in any state with a claim under its key, a new call whose steps nobody interrupts reaches its own exchange exactly when the claim is for the same client and request and has expired; then it replaces that claim, and otherwise changes nothing |
| ExchangeResults.ExpiryBreaksExclusion | backend/src/widgets/widget-auth.service.ts:356-359 | without the expiry assumption two calls with one request can both exchange and be answered differently |
| ExchangeExclusion.ClaimLeavesIff | backend/src/widgets/widget-auth.service.ts:356-359 | in any state, a step takes a claim out of the table exactly if it deletes by its key: after an expired row was read, or after a failed exchange while the row has no response |
| ExchangeExclusion.ClaimLastsIff | backend/src/widgets/widget-auth.service.ts:107-114 | over any run, a claim is still there exactly if no step of the run deleted by its key |
| ExchangeExclusion.ExchangeStartsIff | backend/src/widgets/widget-auth.service.ts:319-342 | in any state, an exchange starts exactly in a step that inserts a claim where there is no row, and its call then holds it |
| ExchangeExclusion.ExclusionUntilNextExpiry | backend/src/widgets/widget-auth.service.ts:54-116 | from any state of the invariant in which nobody is about to drop the key and an exchange in flight holds it, until the key is next read as expired at most one call exchanges or completes, whatever happened before |
| ExchangeExclusion.NeverExpired | backend/src/widgets/widget-auth.service.ts:356-359 | a key never read as expired in a whole run is the special case that starts from the empty state |
| ExchangeExclusion.OverlapIff | backend/src/widgets/widget-auth.service.ts:356-359 | in any state where an active call owns its claim, a second exchange can start by a deadline with the first still active exactly if another call is about to drop the key, or is in flight while the claim has no response, or the claim expires by then |
| ExchangeExclusion.ExclusionIsLostIff | backend/src/widgets/widget-auth.service.ts:54-116 | so it is in every reachable state in which the call holds the claim |
| ExchangeExclusion.StaleDropEndsLiveClaim | backend/src/widgets/widget-auth.service.ts:356-359 | a run in which a late delete of an expired row removes a live claim, and two calls of one request exchange at that time |
| ExchangeExclusion.LateReleaseEndsLiveClaim | backend/src/widgets/widget-auth.service.ts:107-114 | the same by the release of a failed exchange |
| AuthorizeCall.WidgetAuthExchange.LoadReplay | backend/src/widgets/widget-auth.service.ts:344-373 | answers as the read step of the machine and deletes exactly an expired row |
| AuthorizeCall.WidgetAuthExchange.Authorize | backend/src/widgets/widget-auth.service.ts:54-116 | run alone, the code ends in the state and with the answer of the step machine; with no live claim in the way it answers the token, scope and lifetime exchanged and asks for a refresh a minute before that lifetime ends, after a second at the earliest |
| AuthorizeCall.WidgetAuthExchange.ExchangeAndStore | backend/src/widgets/widget-auth.service.ts:64-115 | the try block with its completed flag agrees with the machine, error branches included, and a success answers with the tokens exchanged in that way |
| AuthorizeCall.SuccessIsStored | backend/src/widgets/widget-auth.service.ts:84-104 | an unrivalled success leaves its response in its claim row |
| AuthorizeCall.RetryReplays | backend/src/widgets/widget-auth.service.ts:58-60 | the same request within the claim lifetime gets the same response and changes nothing |
| AuthorizeCall.LoneExchange | backend/src/widgets/widget-auth.service.ts:54-116 | run alone with no live claim under its key, a call succeeds exactly with credential, exchange, acceptance and an unused session id; the answer has the lifetime exchanged and a refresh at the greater of one second and a minute before its end; every refusal has its own cause |
| AuthorizeCall.LoneReplay | backend/src/widgets/widget-auth.service.ts:344-373 | with a live claim or another request's in the way it changes nothing, and answers the stored response exactly if the claim is this request's and sealed for it |
| AuthorizeCall.LoneSuccessWrites | backend/src/widgets/widget-auth.service.ts:84-104 | a success of its own leaves one session and one claim, of this request, for sixty seconds, with the answer sealed for it |
| ExchangeAnswers.AnswersCarryTheirTokens | backend/src/widgets/widget-auth.service.ts:84-107 | in every run an answer carries the token, lifetime and scope that the upstream returned to the call whose exchange it is, and a refresh time of the lifetime less sixty, or one if that is less, which is before its end whenever the lifetime exceeds a second |
| WidgetAuth.Projects | backend/src/widgets/widget-auth.service.ts:84-104 | a run of both protocols, joined by the one transaction, is a run of each, so everything proved of one alone holds of its part |
| WidgetAuth.AnswerOpensItsSession | backend/src/widgets/widget-auth.service.ts:84-104 | in every run, replays and expiry included, an answer of authorize names a session whose first installed pair is the answered access token and whose bound scope is the answered scope |
| WidgetAuth.SessionsFollowExchanges | backend/src/widgets/widget-auth.service.ts:84-104 | two answers name one session exactly when they come from one exchange |
| WidgetAuth.ContextFollowsTheAnswer | backend/src/widgets/widget-auth.service.ts:82-202 | every access token installed later in the session an answer names carries the context of the answered token, up to list order (of the claims themselves: `ClaimsFollowTheAnswer`) |
| WidgetAuth.RefreshFollowsTheAnswer | backend/src/widgets/widget-auth.service.ts:160-202 | so does the token a successful refresh of that session returns (of the claims themselves: `RefreshedClaimsFollowTheAnswer`) |
| WidgetAuth.TransactionOpens | backend/src/widgets/widget-auth.service.ts:73-107 | the transaction commits exactly with a refresh token and a positive lifetime, for a free session id and a claim that is still there; the session is then the tenant's, bound to the claims of the answered token, with its pair, for the lifetime sent or half an hour |
| WidgetAuth.ClaimsFollowTheAnswer | backend/src/widgets/widget-auth.service.ts:82-202 | in terms of what is signed: every token installed in the session an answer names carries the claims of the answered token, and the session holds them |
| WidgetAuth.RefreshedClaimsFollowTheAnswer | backend/src/widgets/widget-auth.service.ts:160-202 | so does the token a successful refresh of that session returns |
| WidgetAuth.AnsweredTokenLoads | backend/src/widgets/widget-refresh-session.service.ts:82-106 | the answered token loads its session exactly while it is the last installed one and the session is neither revoked nor expired |
| RateLimiter.NumberSetting | backend/src/security/origin.guard.ts:101-105 | a configured number is used exactly if finite and positive, and the default otherwise |
| RateLimiter.KeysAreDistinct | backend/src/security/origin.guard.ts:75-87 | different boundaries and addresses never share a bucket |
| RateLimiter.RouteIs | backend/src/security/origin.guard.ts:74-80 | the login routes and the one webhook route are limited, with or without a query, and no other |
| RateLimiter.ConfiguredIsValid | backend/src/security/origin.guard.ts:82-86 | whatever is configured a boundary has a positive window and maximum; by default 30 logins or 120 webhooks a minute |
| RateLimiter.BoundaryRateLimitGuard.CanActivate | backend/src/security/origin.guard.ts:72-99 | counts every request of a boundary, refused or not, and admits exactly while the count is within the quota; other routes are not touched |
| RateLimiter.AtMostQuotaPerWindow | backend/src/security/origin.guard.ts:88-98 | a window opened by a request admits at most the quota of its key, whatever follows |
| RateLimiter.AtMostTwiceTheQuotaLessOne | backend/src/security/origin.guard.ts:88-98 | in any interval of the window length a key is admitted at most 2m - 1 times |
| RateLimiter.TheBoundIsReached | backend/src/security/origin.guard.ts:88-98 | for every quota of at least one and every window longer than a tick some trace reaches that bound |
| RateLimiter.ShortWindowNeverExceeds | backend/src/security/origin.guard.ts:88-98 | in a window of at most one tick no interval of its length sees more than the quota |
| RateLimiter.QuotaIsExceededIff | backend/src/security/origin.guard.ts:88-98 | some interval of the window length sees more than m admissions exactly when m is at least two and the window longer than one tick |
| RateLimiter.BucketDependsOnOwnKey | backend/src/security/origin.guard.ts:87-97 | a bucket is a function of the requests of its own key |
| RateLimiter.TrafficIsIsolated | backend/src/security/origin.guard.ts:87-98 | traffic on one key never changes the answers on another |
| RateLimiter.Serve | backend/src/security/origin.guard.ts:66-99 | one guard answers any mixture of routes, boundaries and addresses as a separate limiter for each boundary, with its own setting, would |
| Webhooks.IssuerFromEndpoint | backend/src/subscriptions/subscriptions.service.ts:196-201 | an issuer is returned exactly if the endpoint is the issuer followed by the operation path, up to one trailing slash |
| Webhooks.SubscriptionsService.UpsertTenantRow | backend/src/subscriptions/subscriptions.service.ts:103-124 | creates a row with every member or updates only the members given, and refuses a missing name, a taken id or a taken EduPlus id |
| Webhooks.SubscriptionsService.SaveOauthCredentialRow | backend/src/subscriptions/subscriptions.service.ts:176-193 | installs the client and secret unrevoked, whether or not a row was there, and nothing else |
| Webhooks.SubscriptionsService.ApplyEventRows | backend/src/subscriptions/subscriptions.service.ts:93-174 | the handler, written as updates of the two tables, is the event function and returns the tenant concerned |
| Webhooks.SubscriptionsService.ReceiveInTransaction | backend/src/subscriptions/subscriptions.service.ts:44-66 | a known event id changes nothing; a new one applies the event and leaves a receipt with its tenant, or fails |
| Webhooks.SubscriptionsService.Deliver | backend/src/subscriptions/subscriptions.service.ts:36-73 | with the rollback, the new state and the answer are those of the delivery function |
| Webhooks.OtherAnswersChangeNothing | backend/src/subscriptions/subscriptions.service.ts:67-72 | a delivery not answered duplicate:false leaves the database as it was |
| Webhooks.EffectsAreExactlyOnce | backend/src/subscriptions/subscriptions.service.ts:43-73 | after any deliveries the state is the fold of the events answered duplicate:false, their ids are new and all different, and the receipts are exactly the old ones plus theirs |
| Webhooks.ReceiptsStay | backend/src/subscriptions/subscriptions.service.ts:53-64 | receipts are never lost |
| Webhooks.RedeliveryIsHarmless | backend/src/subscriptions/subscriptions.service.ts:45-51 | a redelivered event is answered duplicate:true and could as well not have come |
| Webhooks.UniqueViolationIff | backend/src/subscriptions/subscriptions.service.ts:96-124 | an event meets a unique index exactly when it is a tenant creation with credentials, for a known tenant or with a name, whose EduPlus id another tenant has or whose generated id is taken |
| Webhooks.DuplicateIff | backend/src/subscriptions/subscriptions.service.ts:43-72 | duplicate:true means exactly a receipt or such an event |
| Webhooks.DuplicateWithoutReceipt | backend/prisma/schema.prisma:50 | the EduPlus id of another tenant gives duplicate:true without a receipt |
| Webhooks.StatusFollowsLastEvent | backend/src/subscriptions/subscriptions.service.ts:93-151 | a tenant has the status set by the last accepted status event for its code (event by event: `WebhookEvents.StatusIsThatOfTheLastEvent`) |
| Webhooks.TenantsStayUnique | backend/prisma/schema.prisma:47-51 | tenant ids and EduPlus ids stay unique in every run |
| Webhooks.OtherTenantsUntouched | backend/src/subscriptions/subscriptions.service.ts:93-193 | an event never touches another tenant, its credential or any webhook secret |
| Webhooks.RotateThenRevoke | backend/src/subscriptions/subscriptions.service.ts:152-193 | a rotation installs the new secret unrevoked and a revocation for that client marks exactly it |
| WebhookEvents.IssuerIsCut | backend/src/subscriptions/subscriptions.service.ts:196-201 | an issuer is what stands before the operation path, which one slash may follow, and nothing else |
| WebhookEvents.IssuerPrecedence | backend/src/subscriptions/subscriptions.service.ts:99-102 | the issuer comes from the token endpoint, else the key set, else the authorization endpoint, else as sent |
| WebhookEvents.CreationIs | backend/src/subscriptions/subscriptions.service.ts:94-127 | a creation succeeds exactly with credentials, for a known tenant or with a name, without a clash; then every member of the tenant row is named with the payload member it takes, and its client secret is installed unrevoked; each refusal has its cause |
| WebhookEvents.UnknownTenant | backend/src/subscriptions/subscriptions.service.ts:129-132 | every other event needs a known tenant |
| WebhookEvents.SuspensionIs | backend/src/subscriptions/subscriptions.service.ts:134-139 | subscription.suspended makes the tenant suspended and changes nothing else |
| WebhookEvents.ReactivationIs | backend/src/subscriptions/subscriptions.service.ts:140-145 | subscription.reactivated makes it active |
| WebhookEvents.TerminationIs | backend/src/subscriptions/subscriptions.service.ts:146-151 | subscription.terminated and subscription.expired make it revoked |
| WebhookEvents.RotationIs | backend/src/subscriptions/subscriptions.service.ts:152-162 | credential.rotated needs a client and a secret and installs exactly them, unrevoked |
| WebhookEvents.RevocationIs | backend/src/subscriptions/subscriptions.service.ts:163-172 | credential.revoked stamps the tenant's client secret exactly if the event names no client or that one |
| WebhookEvents.OtherEventsDoNothing | backend/src/subscriptions/subscriptions.service.ts:163-174 | an event of any other name changes neither tenants nor credentials |
| WebhookEvents.Refusals | backend/src/subscriptions/subscriptions.service.ts:36-41 | a delivery is refused before the transaction for its signature, then for its body, its tenant code or a header that names another event |
| WebhookEvents.EffectiveLeavesReceipt | backend/src/subscriptions/subscriptions.service.ts:53-65 | an effective delivery leaves one receipt with the event's name, the body and the tenant it was about |
| WebhookEvents.StatusIsThatOfTheLastEvent | backend/src/subscriptions/subscriptions.service.ts:93-151 | over any run a tenant is suspended if the last effective status event for its code was a suspension, active if it was a creation or reactivation, revoked if it was a termination or expiry, and as before without one |
| WebhookRaces.OverlappingDeliveriesAreSerial | backend/src/subscriptions/subscriptions.service.ts:43-73 | in every interleaving of overlapping transactions the database is that of the committed deliveries in their order of commit, their event ids are new and all different, and the receipts are the old ones plus theirs |
| WebhookRaces.OneWinnerPerEvent | backend/src/subscriptions/subscriptions.service.ts:53-72 | of overlapping deliveries of one event at most one is answered duplicate:false, and none of an event that had its receipt |
| WebhookRaces.ClashIff | backend/src/subscriptions/subscriptions.service.ts:93-140 | a handler that wrote after others meets a unique index exactly on a refused creation, or on one that had found the code free and no longer does |
| WebhookRaces.OverlappingDuplicateIff | backend/src/subscriptions/subscriptions.service.ts:43-72 | a step of an overlapping transaction answers duplicate:true exactly on a receipt or such a clash |
| WebhookRaces.OverlappingCreationIsLost | backend/src/subscriptions/subscriptions.service.ts:103-124 | of two overlapping creations of one new tenant by an upsert in two statements the second is answered duplicate:true without receipt or effect, while one after the other both are accepted |
| WebhookRaces.HandlerIs | backend/src/subscriptions/subscriptions.service.ts:93-140 | a handler that wrote after others differs from the event handler only for a creation in two statements whose tenant has appeared meanwhile, which never succeeds, and for other events that had found no tenant |
| PageCollector.RepeatedNeverEnds | backend/src/directory-sync/directory-sync.service.ts:34-40 | a chain that asks for one cursor twice never ends |
| PageCollector.CollectPages | backend/src/directory-sync/directory-sync.service.ts:25-42 | returns the concatenation of the pages exactly when the chain ends, a failure exactly when one of its loads fails, and an error exactly when it repeats a cursor; over finitely many cursors it stops after at most one load more than there are |
| PageCollector.LinkIs | backend/src/directory-sync/directory-sync.service.ts:31-41 | a chain breaks at a failed load, ends at a page without cursor or with an empty one, and otherwise asks for the cursor sent |
| Upserts.UpsertAllAt | backend/src/directory-sync/directory-sync.service.ts:123-141 | a batch leaves under a key its last record, with the id the row had or was given |
| Upserts.UpsertAllTwice | backend/src/directory-sync/directory-sync.service.ts:110-168 | running a batch again changes nothing, repeated keys included |
| DirectorySync.UserId | backend/src/directory-sync/directory-sync.service.ts:303-307 | a user id is returned exactly for a positive safe integer or a text of digits with white space around it, as digits that denote that number or are that text |
| DirectorySync.NumberAndTextAgree | backend/src/directory-sync/directory-sync.service.ts:303-307 | a user id sent as a number or as its decimal text is the same id |
| DirectorySync.NumbersTaken | backend/src/directory-sync/directory-sync.service.ts:303-307 | a number is taken as a user id exactly from one up to two to the 53rd less one |
| DirectorySync.PersonKeyIsInjective | backend/src/directory-sync/directory-sync.service.ts:119 | people of different kinds or ids never share a row |
| DirectorySync.CoursesWhenAccepted | backend/src/directory-sync/directory-sync.service.ts:170-188 | a course batch that is not rolled back writes its upserts and keeps course codes unique |
| DirectorySync.DirectoryStore.SyncGroup | backend/src/directory-sync/directory-sync.service.ts:118-142 | the loop over one group is the batch of its upserts and touches people only |
| DirectorySync.DirectoryStore.SyncPeople | backend/src/directory-sync/directory-sync.service.ts:110-145 | teachers, students and parents in order, as one batch |
| DirectorySync.DirectoryStore.SyncClasses | backend/src/directory-sync/directory-sync.service.ts:147-168 | classes as one batch, nothing else |
| DirectorySync.DirectoryStore.SyncCourses | backend/src/directory-sync/directory-sync.service.ts:170-188 | all courses, or none when a code is taken |
| DirectorySync.DirectoryStore.Sync | backend/src/directory-sync/directory-sync.service.ts:70-72 | three transactions in a row; a refused course batch leaves people and classes committed |
| DirectorySync.DirectoryStore.CollectAll | backend/src/directory-sync/directory-sync.service.ts:61-68 | succeeds only with the complete chain of every entity type, and fails only when one of them cannot be collected |
| DirectorySync.DirectoryStore.SyncDirectory | backend/src/directory-sync/directory-sync.service.ts:52-99 | a run writes nothing unless every chain ends; then the tables and the answer are those of the sync, and the run row ends partial with the counts or failed |
| DirectorySync.SecondSyncChangesNothing | backend/src/directory-sync/directory-sync.service.ts:110-188 | a second successful sync of the same records changes nothing, repeated ids included |
| DirectorySync.PeopleAndClassesAreStable | backend/src/directory-sync/directory-sync.service.ts:110-168 | successful or not, a repeated sync leaves people and classes as the first left them |
| DirectorySync.SecondRunRollsBackIff | backend/src/directory-sync/directory-sync.service.ts:170-188 | after an accepted course batch the same batch is rolled back exactly when it clashes: a record with a code, a later one of another id that the batch has not mentioned before, and that id's last code the same |
| DirectorySync.SecondSyncSucceedsIff | backend/src/directory-sync/directory-sync.service.ts:110-188 | a second sync succeeds exactly when the first did and no two course records clash |
| DirectorySync.DistinctCoursesSyncAgain | backend/src/directory-sync/directory-sync.service.ts:170-188 | with distinct course ids nothing clashes and the second run leaves the same table |
| DirectorySync.RepeatedCourseIdCanFail | backend/src/directory-sync/directory-sync.service.ts:175-185 | with a repeated course id it can fail, on a concrete batch that clashes |
| DirectorySync.OtherTenantsUntouched | backend/src/directory-sync/directory-sync.service.ts:124-184 | a sync touches no row of another tenant |
| DirectoryRecords.ActiveIs | backend/src/directory-sync/directory-sync.service.ts:309-313 | a record is active exactly if it is not deleted and its account state is none of the four words, in any case |
| DirectoryRecords.PersonIsShown | backend/src/directory-sync/directory-sync.service.ts:118-140 | a person is named by name, else user name, else the key; the user id is a student's alone; mail and activity are the record's |
| DirectoryRecords.PersonRowIs | backend/src/directory-sync/directory-sync.service.ts:110-145 | after a sync each person is as the last record of their kind and id says, and a known row keeps its id |
| DirectoryRecords.ClassRowIs | backend/src/directory-sync/directory-sync.service.ts:147-168 | each class likewise, by its external id or else its own |
| DirectoryRecords.CourseRowIs | backend/src/directory-sync/directory-sync.service.ts:170-188 | each course likewise, if the run succeeds |
| DirectoryRecords.RunSucceedsIff | backend/src/directory-sync/directory-sync.service.ts:170-188 | a run succeeds exactly if no course claims a code that another course of the tenant holds when its turn comes |
| DirectoryRecords.UnmentionedRowsStay | backend/src/directory-sync/directory-sync.service.ts:110-188 | a row no record is about stays as it was |
| DemoBatch.CheckDemoStudents | backend/src/demo-exams/demo-exam-batch.ts:25-35 | refuses an empty list and exactly those lists in which two students share a user id that is not blank |
| DemoBatch.BatchShape | backend/src/demo-exams/demo-exam-batch.ts:37-50 | nine cells a student, no two for one student, exam and subject, values from 65 to 98, rising by five from exam to exam |
| DemoBatch.BatchForgetsOrder | backend/src/demo-exams/demo-exam-batch.ts:39 | two listings of the same students give the same batch if the comparison ties no two of them |
| DemoBatch.CellsAre | backend/src/demo-exams/demo-exam-batch.ts:39-49 | which cell is where, and its value: 65 plus the digest of the external id and the subject modulo 24, plus five for each exam before it |
| DemoSeed.DemoSeeder.CreateScoresInChunks | backend/src/demo-exams/demo-exam-seed.ts:127-129 | chunks of 400 that skip duplicates add up to one insertion of all rows |
| DemoSeed.DemoSeeder.CreateMembershipsInChunks | backend/src/demo-exams/demo-exam-seed.ts:65-76 | the same for memberships, with both their unique keys |
| DemoSeed.DemoSeeder.UpsertCreator | backend/src/demo-exams/demo-exam-seed.ts:40-47 | makes the creator or resets its kind, name and activity, keeping its id and user |
| DemoSeed.DemoSeeder.UpsertClass | backend/src/demo-exams/demo-exam-seed.ts:48-52 | makes the class or resets its name and activity |
| DemoSeed.DemoSeeder.UpsertCourse | backend/src/demo-exams/demo-exam-seed.ts:54-63 | makes the course with its code or resets its name and activity, and refuses a code another course has |
| DemoSeed.DemoSeeder.EnsureExam | backend/src/demo-exams/demo-exam-seed.ts:81-90 | keeps an exam that is the batch's own and not withdrawn, refuses any other under its key, and makes a missing one as a draft |
| DemoSeed.DemoSeeder.EnsureSubject | backend/src/demo-exams/demo-exam-seed.ts:92-104 | keeps a subject with maximum 100, refuses another maximum, and makes a missing one |
| DemoSeed.DemoSeeder.MakePeopleRows | backend/src/demo-exams/demo-exam-seed.ts:40-76 | creator, class, courses and memberships as specified, or the error of the first step that fails |
| DemoSeed.DemoSeeder.MakeExamRows | backend/src/demo-exams/demo-exam-seed.ts:78-106 | the nested loops over exams and subjects create what is missing and refuse what differs |
| DemoSeed.DemoSeeder.CheckExisting | backend/src/demo-exams/demo-exam-seed.ts:117-126 | the loop accepts exactly when every existing row fits, in whatever order rows come |
| DemoSeed.DemoSeeder.WriteScoreRows | backend/src/demo-exams/demo-exam-seed.ts:108-140 | value check, insertion, count and publication as specified |
| DemoSeed.DemoSeeder.RunDemoSeed | backend/src/demo-exams/demo-exam-seed.ts:15-144 | the command with its rollback is the specified function |
| DemoSeedSteps.KeysDiffer | backend/src/demo-exams/demo-exam-seed.ts:54-81 | the keys of the three exams and of the three courses are different |
| DemoSeedSteps.PeopleStep | backend/src/demo-exams/demo-exam-seed.ts:40-76 | the first half of the transaction settles its rows, keeps ids unique and leaves the listed students as they are |
| DemoSeedSteps.ExamsStep | backend/src/demo-exams/demo-exam-seed.ts:80-106 | the second half settles three exams with three subjects of maximum 100 each and keeps ids unique |
| DemoSeedResults.KeysFollowSlots | backend/src/demo-exams/demo-exam-seed.ts:146-148 | two cells have the same score key exactly if they are for the same student, exam and subject |
| DemoSeedResults.OnlyAnAppliedRunWrites | backend/src/demo-exams/demo-exam-seed.ts:28-39 | a dry run and every failure leave the tables as they were, and the report counts nine cells a student |
| DemoSeedResults.AppliedRunIsExactAndRepeatable | backend/src/demo-exams/demo-exam-seed.ts:15-144 | after an applied run the score rows of the three exams are exactly the cells, all three exams are published, no other score changed, and running again changes nothing |
| DemoSeedResults.OnlyTheCountFindsStrangers | backend/src/demo-exams/demo-exam-seed.ts:117-133 | rows that pass the value check outside the batch have no value; the write succeeds exactly if there is none, and otherwise the count refuses it |
| DemoSeedResults.StrangerIsRefused | backend/src/demo-exams/demo-exam-seed.ts:117-133 | one row without a value outside the batch, added to any tables that would be accepted, passes the value check and is refused by the count |
| DemoSeedResults.SampleStranger | backend/src/demo-exams/demo-exam-seed.ts:130-133 | concrete tables on which that happens, and which are accepted without the row |
| DemoSeedRows.CreatorIs | backend/src/demo-exams/demo-exam-seed.ts:40-47 | the creator row, member by member; a row that is there keeps its id and user |
| DemoSeedRows.ClassIs | backend/src/demo-exams/demo-exam-seed.ts:48-52 | the class row likewise |
| DemoSeedRows.CourseIs | backend/src/demo-exams/demo-exam-seed.ts:54-64 | a course is made with its code, or reset and left with the code it has; a code or id in use elsewhere is refused |
| DemoSeedRows.ExamIs | backend/src/demo-exams/demo-exam-seed.ts:80-90 | an exam that is the batch's own and not withdrawn is left alone, any other under its key refused, and a missing one made as a draft with its title, type and date |
| DemoSeedRows.SubjectIs | backend/src/demo-exams/demo-exam-seed.ts:92-104 | a subject with maximum 100.00 is left alone, another maximum refused, and a missing one made at its place |
| DemoSeedRows.MembershipIs | backend/src/demo-exams/demo-exam-seed.ts:65-76 | a membership is of the student in the demonstration class, active, under a key of its own |
| DemoSeedRows.ScoreIs | backend/src/demo-exams/demo-exam-seed.ts:108-116 | the row of a cell is under its exam, subject and student, by the creator, present, in hundredths |
| DemoSeedRows.ScoresAccepted | backend/src/demo-exams/demo-exam-seed.ts:117-133 | the scores are written exactly if every row of the three exams is a cell of the batch already; rows of other exams do not matter |
| DemoSeedRows.ScoresRefused | backend/src/demo-exams/demo-exam-seed.ts:117-133 | they are refused as differing exactly for a row that is absent, has not the value of its cell, or has a value and no cell |
| DemoSeedRows.PublicationIs | backend/src/demo-exams/demo-exam-seed.ts:134-140 | a draft becomes published and stamped, any other exam stays |
| DemoSeedRows.StudentsRefused | backend/src/demo-exams/demo-exam-batch.ts:25-35 | no student, or two bound to one user after trimming, are refused |
| DemoSeedRows.CommandIs | backend/src/demo-exams/demo-exam-seed.ts:15-38 | the tenant is checked first, then the students; a dry run reports the nine cells a student it would write and writes nothing, and a failing transaction leaves the tables |
| Exams.ExamsService.CreateOne | backend/src/exams/exams.service.ts:12-48 | the checks in order, then exam and subjects in one transaction |
| Exams.ExamsService.InsertSubjects | backend/src/exams/exams.service.ts:32-42 | the rows in order, up to the first that breaks an index or a reference |
| Exams.ExamsService.UpdateOne | backend/src/exams/exams.service.ts:109-119 | changes only the members given, of a draft the actor may change |
| Exams.ExamsService.PublishOne | backend/src/exams/exams.service.ts:121-131 | publishes exactly a draft of the actor that has a subject |
| Exams.ExamsService.WithdrawOne | backend/src/exams/exams.service.ts:133-144 | withdraws exactly a published exam the actor may change |
| Exams.CreateIff | backend/src/exams/exams.service.ts:12-48 | creation succeeds exactly for staff or an assigned teacher, a usable class and existing courses named once each, and then adds one draft with those subjects in order and nothing else |
| ExamCommands.UpdateIs | backend/src/exams/exams.service.ts:109-119 | update succeeds exactly on a draft the actor may change; title, type and date take the values given and keep the others; refusals in their order |
| ExamCommands.PublishIs | backend/src/exams/exams.service.ts:121-131 | publish succeeds exactly on such a draft with a subject, and stamps it |
| ExamCommands.WithdrawIs | backend/src/exams/exams.service.ts:133-144 | withdraw succeeds exactly on a published exam the actor may change, and stamps it |
| ExamCommands.CreateIs | backend/src/exams/exams.service.ts:12-48 | create succeeds exactly under its condition, written out; the exam is the actor's draft with the members given and the subjects in their order; refusals in their order |
| ExamCommands.RefusedByTheDatabase | backend/src/exams/exams.service.ts:21-47 | once the service's checks pass, a taken id, an actor who is no person of the tenant and a subject that repeats a course or names none are refused, each as what it is |
| ExamLifecycle.RunKeepsInv | backend/src/exams/exams.service.ts:12-154 | in every serial run published exams have a subject, stamps agree with the status, stored values lie in 0..maximum, absent means no value, and applied imports applied all their rows |
| ExamLifecycle.ReachableFromEmpty | backend/src/exams/exams.service.ts:12-154 | so do all tables reached from empty ones |
| ExamLifecycle.RunKeeps | backend/src/exams/exams.service.ts:109-154 | exams never vanish, their status never moves back, and once published their row, subjects and scores stay |
| ExamLifecycle.OnlyPublishPublishes | backend/src/exams/exams.service.ts:121-131 | the only step out of draft is a publish by someone who may change the exam, and it touches neither subjects nor scores |
| ExamLifecycle.ScoresAreThoseAtPublication | backend/src/exams/exams.service.ts:121-131 | an exam that is no draft was published at some step of the run and has the subjects and scores it had then |
| ExamLifecycle.TenantsAreIsolated | backend/src/exams/exams.service.ts:14-17 | no call of any of the six operations changes a row of another tenant |
| ExamLifecycle.OnlyStaffAndOwners | backend/src/exams/exams.service.ts:156-166 | students and parents change no exam, subject or score, and a teacher changes only exams they created |
| ExamLifecycle.OverlappingSaveWritesIntoPublishedExam | backend/src/exams/score-entry.service.ts:17-21 | a grid checked before a publish and written after it ends up in the published exam |
| ScoreEntry.RoundingStaysInRange | backend/prisma/schema.prisma:370 | rounding to the column stays within 0..maximum, is off by at most half a hundredth and keeps hundredths |
| ScoreEntry.ScoreEntryService.CheckGrid | backend/src/exams/score-entry.service.ts:46-57 | the loop with its set of seen keys reports the first failing cell |
| ScoreEntry.ScoreEntryService.Validate | backend/src/exams/score-entry.service.ts:23-77 | all checks in order, with the prepared cells |
| ScoreEntry.ScoreEntryService.Apply | backend/src/exams/score-entry.service.ts:79-87 | the upserts in order, up to the first refused reference |
| ScoreEntry.ScoreEntryService.SaveGrid | backend/src/exams/score-entry.service.ts:17-21 | a grid is written as a whole or not at all |
| ScoreEntryResults.CellKeyIsInjective | backend/src/exams/score-entry.service.ts:48 | the joined key names one student and subject as long as subject ids hold no NUL |
| ScoreEntryResults.CheckCellsIff | backend/src/exams/score-entry.service.ts:46-57 | the cell loop passes exactly if no two cells are for one place and each cell fits its subject |
| ScoreEntryResults.ValidatedIff | backend/src/exams/score-entry.service.ts:23-77 | a grid is accepted exactly on a draft of the tenant, with distinct places and every cell acceptable by itself |
| ScoreEntryResults.KeysLift | backend/prisma/schema.prisma:206 | different external ids are different people, so different cells are different score rows |
| ScoreEntryResults.SaveOverrides | backend/src/exams/score-entry.service.ts:17-87 | an accepted save overrides the table at one distinct key per cell and nothing else; a refused one changes nothing; accepted exactly under the condition above and a graderId that exists |
| ScoreEntryResults.OrderIsImmaterial | backend/src/exams/score-entry.service.ts:46-87 | the order of the cells changes neither acceptance nor the resulting table |
| ScoreEntryResults.SavingTwiceIsSavingOnce | backend/src/exams/score-entry.service.ts:79-87 | saving an accepted grid again is accepted and changes nothing |
| ScoreGrid.SavedGrid | backend/src/exams/score-entry.service.ts:17-87 | a grid is saved exactly under its conditions, written out; then there is one row for each cell, which holds no value exactly if the cell has no score and otherwise a value within half a hundredth of it, equal if it is in hundredths, with the cell's absence and the actor as grader; every other row is as it was |
| ScoreGrid.CellFault | backend/src/exams/score-entry.service.ts:46-57 | when the cell loop refuses, it does so for the first cell that is out of order and with its fault |
| ScoreGrid.RefusedGrid | backend/src/exams/score-entry.service.ts:23-69 | a grid is refused for the actor, the exam, its status, the assignments, the cells, the students and their class, in that order, each exactly when it applies |
| ScoreGrid.RefusedGrader | backend/src/exams/score-entry.service.ts:79-87 | a grid in order fails only for a grader who is no person of the tenant, as a broken reference |
| CsvFormat.ParseCsvRow | backend/src/exams/csv-import.service.ts:78-90 | the index loop computes the quoting automaton and trims |
| CsvFormat.ParsePrinted | backend/src/exams/csv-import.service.ts:78-90 | fields printed by the rules of RFC 4180, quoted at will where allowed, read back as themselves, trimmed |
| CsvFormat.FieldCount | backend/src/exams/csv-import.service.ts:82-88 | on any line, well formed or not, a comma separates exactly if the quotes before it are even in number |
| CsvFormat.ParseWithout | backend/src/exams/csv-import.service.ts:78-90 | the reader invents no character |
| CsvFormat.SplitJoined | backend/src/exams/csv-import.service.ts:50 | lines joined with either kind of line end are split back |
| CsvImport.CsvImportService.ParseRows | backend/src/exams/csv-import.service.ts:57-73 | the loop over the rows collects the cells and the errors of every row, numbered from two |
| CsvImport.CsvImportService.ParseFile | backend/src/exams/csv-import.service.ts:49-75 | mark, lines, blank lines, header and rows as specified |
| CsvImport.CsvImportService.Fail | backend/src/exams/csv-import.service.ts:36-47 | records the failure in that import row only |
| CsvImport.CsvImportService.ImportFile | backend/src/exams/csv-import.service.ts:13-34 | the whole import with its rollback is the specified function |
| CsvImportResults.NoErrorsIff | backend/src/exams/csv-import.service.ts:58-73 | no error is reported exactly if every row has four columns, a valid flag and score, and no key repeats; then there is one cell per row in order |
| CsvImportResults.ImportIsSaveOrNothing | backend/src/exams/csv-import.service.ts:13-47 | an import is applied exactly if the file has no error and its cells would be saved, with that table and equal row counts; otherwise it is failed with an error and no score changes |
| CsvImportResults.FileReadsBack | backend/src/exams/csv-import.service.ts:49-90 | a printed grid, with or without mark and blank lines and with either line end, parses to exactly its cells |
| CsvImportResults.ParsedWithoutLineFeeds | backend/src/exams/csv-import.service.ts:50 | no id read from a file holds a line feed |
| CsvImportResults.ReadsBackIffNoLineFeeds | backend/src/exams/csv-import.service.ts:50 | a printed grid reads back exactly if no id holds a line feed |
| CsvImportResults.ImportingAWrittenGridIsSavingIt | backend/src/exams/csv-import.service.ts:13-34 | uploading a printed grid is saving it: same acceptance, same table, all rows counted |
| CsvReports.ReportsAre | backend/src/exams/csv-import.service.ts:57-73 | an error is reported exactly for a fault of a row: its columns, flag, score or repeated key, with the row's number counted from two |
| CsvReports.ReportsAreInOrder | backend/src/exams/csv-import.service.ts:57-73 | in the order of the rows |
| CsvReports.HeaderIs | backend/src/exams/csv-import.service.ts:51-56 | a file without the header reports that alone |
| CsvReports.RecordedImport | backend/src/exams/csv-import.service.ts:13-47 | the import row names actor, exam and file; faults of the file are recorded as they are, a refusal of the cells by its name, and a save with its counts |
| CsvReports.ImportRefused | backend/src/exams/csv-import.service.ts:13-20 | no import row is made exactly for an id in use, an actor who is no person of the tenant, or an exam of another tenant |
| Ranking.CompetitionRanks | backend/src/results/ranking.ts:1-11 | the single pass computes the counting specification |
| Ranking.RanksAreASortedPermutation | backend/src/results/ranking.ts:2 | the rows are the input, highest value first, then by id |
| Ranking.RankOf | backend/src/results/ranking.ts:6 | with distinct ids a rank is one plus the number of greater values |
| Ranking.GreaterCountsIds | backend/src/results/ranking.ts:6 | counting entries is counting people |
| Results.Totals | backend/src/results/results.service.ts:44-47 | one entry per student with a numeric score, holding the sum of their numeric scores, and the entries sum to all numeric scores |
| Results.RankAmongTotals | backend/src/results/results.service.ts:48-49 | the class rank is one plus the number of students with a greater total, and absent without a numeric score |
| Results.SubjectRankCounts | backend/src/results/results.service.ts:50-62 | a subject rank is one plus the number of students with a greater score in it |
| Results.ExamResultFor | backend/src/results/results.service.ts:39-75 | total, average, class rank and subject results are those of the specification |
| Results.LimitedIsSuffix | backend/src/results/results.service.ts:22-37 | a limit k returns exactly the last min(clamp(k, 1, 50), n) exams of the unlimited ascending answer |
| Results.LatestIsTheSame | backend/src/widgets/widget-data.service.ts:100-115 | the summary with limit 1, the trend with limit 12 and the unlimited list name the same latest exam |
| StudentResults.TotalIs | backend/src/results/results.service.ts:39-43 | a total grows by every numeric score of the student and by nothing else |
| StudentResults.ExamIsShown | backend/src/results/results.service.ts:39-75 | a result shows its exam: the total, the average as the total over the number of numeric scores, the class rank as one more than the students with a greater total, and each subject with the student's own row and one more than the greater scores in it |
| StudentResults.UnlimitedListing | backend/src/results/results.service.ts:22-37 | without a limit the exams are exactly the published ones the student has a score in, each once, by date and then by id |
| StudentResults.AnswerIs | backend/src/results/results.service.ts:20-77 | an answer is that listing, or with a limit its last entries, as many as the limit between 1 and 50 says, each shown as above |
| StudentResults.OnlyVisibleExams | backend/src/results/results.service.ts:22-37 | so every result is of a published exam the student has a score in |
| StudentResults.ForStudent | backend/src/results/results.service.ts:20-77 | answers exactly students about themselves and parents about their children, with such an answer: the published exams they have a score in, in order, each shown in full |
| TeacherResults.MaySeeIff | backend/src/results/results.service.ts:95-124 | the joined key grants exactly the assigned class and course |
| TeacherResults.LatestIsNewest | backend/src/results/results.service.ts:97-116 | the exam shown is an eligible published one and none eligible is newer |
| TeacherResults.RankInIsFindRank | backend/src/results/results.service.ts:123-136 | the Map of ranks and the list agree |
| TeacherResults.PlacesAre | backend/src/results/results.service.ts:116-137 | the places are the scores of the assigned subjects of that exam, each once, subject by subject and in the order of the scores |
| TeacherResults.RowsAreTheAssignedScores | backend/src/results/results.service.ts:79-139 | there is exactly one row for each place, in that order, with the score, absence and rank its student is shown |
| TeacherView.TheNewestExamIsShown | backend/src/results/results.service.ts:79-139 | only teachers and staff are answered, with the newest published exam, for a teacher one with a subject they teach in its class; its rows are the score rows of the subjects they teach there, each once, with the score, the absence and one more than the greater scores; nothing when there is no such exam |
| WidgetBatch.ValidateBatch | backend/src/widgets/widget-data.service.ts:125-143 | accepts exactly a request id of 1 to 512 characters that is not blank, with one to twenty complete items with different widget keys |
| WidgetBatch.ResultKeyIsInjective | backend/src/widgets/widget-data.service.ts:101 | the memo key names one student and limit |
| WidgetBatch.BatchRun.StudentResults | backend/src/widgets/widget-data.service.ts:101-110 | a memoised fetch answers as the snapshot does and asks at most once per student and limit |
| WidgetBatch.BatchRun.EvaluateItem | backend/src/widgets/widget-data.service.ts:66-120 | the loop body with its memos is the evaluation of the item alone |
| WidgetBatch.BearerToken | backend/src/widgets/widget-data.service.ts:197-201 | a token is read exactly from a header with the scheme in any case, one space and a text without white space |
| WidgetBatch.FoundIffUnique | backend/src/widgets/widget-data.service.ts:37-46 | a person is found exactly when one active row, and only one, has the tenant, user and type of the identity |
| WidgetBatch.Batch | backend/src/widgets/widget-data.service.ts:33-123 | a bad request and a missing or unverified token are refused in that order; otherwise the answers are those without memo, with at most one call per student and limit and one teacher and one children call |
| WidgetBatch.OneAnswerPerKey | backend/src/widgets/widget-data.service.ts:65-122 | exactly one entry per requested key, given by its item alone |
| WidgetBatch.OrderDoesNotMatter | backend/src/widgets/widget-data.service.ts:65-122 | the order of the items does not matter |
| WidgetBatch.WidgetsShowTheSameExam | backend/src/widgets/widget-data.service.ts:100-115 | the summary and the table show the exam at the end of the trend, the latest there is, with its total, average and ranks |
| WidgetBatch.OnlyEntitledData | backend/src/widgets/widget-data.service.ts:79-115 | no answer depends on results of a student the viewer may not see |
| WidgetItems.RequestIs | backend/src/widgets/widget-data.service.ts:125-143 | what a well-formed request is, written out |
| WidgetItems.HeaderIs | backend/src/widgets/widget-data.service.ts:197-201 | a token is read exactly from the scheme in any case, a space and the token, without white space |
| WidgetItems.PersonIs | backend/src/widgets/widget-data.service.ts:37-47 | the person is that of the one active row with the tenant, identity and type of the token, and nobody if there are more |
| WidgetItems.ChecksAre | backend/src/widgets/widget-data.service.ts:145-180 | an item is authorised exactly if the token lists the widget, the endpoint of its name and the pair with its preset; parameters are none, or for a parent a student id of 1 to 200 characters that is not blank |
| WidgetItems.ChildIs | backend/src/widgets/widget-data.service.ts:82-94 | the child meant is the first with the id asked for, or the first of all if none is asked for |
| WidgetItems.RefusalIs | backend/src/widgets/widget-data.service.ts:65-99 | each failure code has its own cause |
| WidgetItems.TeacherTableIs | backend/src/widgets/widget-data.service.ts:69-76 | teachers and staff are shown the rows of the teacher's view, in the table only |
| WidgetItems.StudentWidgetIs | backend/src/widgets/widget-data.service.ts:96-115 | a student is shown the last exam in the summary and the table and up to twelve in the trend, figure by figure, under their name |
| WidgetItems.ParentWidgetIs | backend/src/widgets/widget-data.service.ts:81-115 | a parent is shown the same of the child meant, under the child's name |
| StableSort.SortEqualIff | backend/src/widgets/widget-refresh-session.service.ts:200-208 | stable sorting gives equal lists exactly when values that tie come in the same order |
| StableSort.SortForgetsOrder | backend/src/widgets/widget-refresh-session.service.ts:200-201 | with an order that separates values, exactly when the lists are permutations |
| Text.JoinedIsInjective | backend/src/exams/score-entry.service.ts:48 | a key joined with NUL names one pair if the second part holds no NUL |
| Text.TrimEmptyIff | backend/src/exams/csv-import.service.ts:50 | a text trims to nothing exactly if it is all white space |

## Left out

- Real cryptography, HMAC, JWT and JWKS verification: symbolic sealing, symbolic hashes and a fixed reading of claims take their place.
- HTTP, controllers, guards other than the rate limiter, cookies, CORS, CSRF, logging, module wiring: single-branch plumbing.
- The React frontend, chart scaling, Kubernetes manifests and deployment scripts: user interface and deployment.
- `syncAssignments`, `syncParentRelations` and `syncStudentClasses`: never called by `sync`.
- `ExamsService.list`, `options` and `detail` as responses: reads that only shape data; the lookup and errors of `detail` are part of the operations.
- Student names, course names and child listing in the result views: joins on a foreign key.
- DTO validation: its bounds are the types of the inputs (a maximum is between 0.01 and 999999.99); what it refuses never reaches the services.
- Overlapping calls of the score services: runs of the exam services are serial, and the lemma about an overlapping save says what is lost otherwise.
- A crash between the statements of one call: an import left in VALIDATING, or a directory run left in RUNNING.
- Timestamps other than those a decision reads (`createdAt`, `updatedAt`, `completedAt`).
- Binary floating point: scores and averages are exact; `new Prisma.Decimal(x)` is the number x.
- Letters outside ASCII in `toLowerCase`: they matter only to spellings of the status words with letters such as the Kelvin sign.
- WidgetBatch.Batch: the output object is a map, because the JavaScript treatment of keys such as `__proto__` is not part of this model.
- PageCollector.CollectPages: the source loop has no bound and does not end on an endless supply of new cursors; the model watches it for a budget of loads, any number, and says when it is still going.
- DirectorySync.DirectoryStore.SyncDirectory: the error code of a failed run and the answer's message are not modelled, because nothing reads them; the server does not change while it is read.
- Webhooks.SubscriptionsService.Deliver: the signature check and the JSON reading are an input, and the types of the optional members of the payload are taken as declared.
- WebhookRaces.OverlappingDeliveriesAreSerial: the write of a handler and its commit are one step: handlers that write one row follow each other by its lock, and what one has written is not read by another before it commits. Whether an upsert takes one statement or two is open, and both are modelled.
- SessionStore.RefreshSessionService.Rotate: the method runs its read and its write together; the step machine of `SessionProtocol` separates them.
- AuthorizeCall.WidgetAuthExchange.Authorize: the method runs alone; the step machine of `ExchangeProtocol` interleaves any number of calls.
- DemoSeed.DemoSeeder.RunDemoSeed: the tables are those of the one tenant the command finds, the order of the student query is arbitrary, and the composite score key is a tuple.
- ScoreEntry.ScoreEntryService.Apply: a score row's own id is not modelled, because nothing refers to it.
- Exams.ExamsService.InsertSubjects: the rows are inserted one by one; which of two faults of one command the database reports is left open by the results about it.
- CsvImport.CsvImportService.ParseRows: the message texts of errors are not modelled, because each follows from its code.
