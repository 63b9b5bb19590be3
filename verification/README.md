# Verified models of the backend's engines

A Dafny model of the stateful engines of the backend: the flood fill behind profile frames, the
blocked-word engine, the Redis lease locks, the circuit breaker, feature flags, the achievement
engine, the job queues with their dead-letter stores, socket presence with grace timers, and
room-stay accounting. `dafny verify dfyconfig.toml` checks everything.

Each file is one module. Code that changes state step by step is a class or a method with loops,
proved against functions of the old state; what the system promises is then proved about those
functions, over all inputs and over all runs.

- `FrameProcessor.dfy`: the fills are specified by paths of accepted pixels, without any queue. The
  breadth-first loops over `visited` and `pixelData` compute exactly that specification.
- `BlockedWords.dfy`: literal matching between boundaries, masking of the evolving text, and why
  masking never leaves, creates or uncovers a word.
- `RedisLocks.dfy`: the lock protocol as single Redis commands of any number of clients in any
  order, and the two retry loops.
- `CircuitBreaker.dfy`: a call is a beginning and a completion with anything in between; calls that
  do not overlap refine a specification that reads only the history of runs.
- `FeatureFlags.dfy`: the 32-bit hash loop is the wrapped base-31 polynomial.
- `Achievements.dfy`: database tables, a closed form over the sequence of events, grants and claims.
- `JobQueues.dfy`: one Redis command per step, with crashes between any two; no job is lost.
- `SocketPresence.dfy`: shared presence, any number of instances, both socket indexes, online
  events and grace timers.
- `RoomStay.dfy`: heartbeats and leaves tile a stay, and how the published minutes relate to it.
- `Prelude.dfy`: the two small definitions that several modules share.

## Where the code differs from its comments

- A transparent seed clears nothing. The comment in `frame-processor.service.ts:118` says its region
  is filled so that connected pixels are cleared; that fill only marks pixels. A frame therefore comes
  back unchanged exactly when its top-left pixel is transparent (`UnchangedExact`), and since every
  processed frame has one, processing is idempotent (`ProcessIdempotent`).
- The mask of a blocked word can uncover another copy of it when one end of the word is a letter or
  number and the other is not; `SingleWordExact` gives the exact condition for words free of the mask
  character. Words of both kinds in one dictionary are not enough either (`MixedDictionaryUncovers`),
  and every word made of mask characters is still there after masking some text
  (`MaskCharacterSurvives`).
- An open breaker waits from the beginning of the call whose failure came in last, so a failure
  shortens the wait exactly when its call began before that one (`LateFailureExact`); two overlapping
  calls show it (`StaleFailureShortensWait`).
- The step that the comment in `achievement.service.ts:94` calls a progress reset marks the progress
  complete. Events alone therefore earn even a repeatable achievement once (`ProgressClosedForm`).
- `uniqueUsersUnlocked` counts unlocks. It is the number of users of the day exactly when no user has
  two unlocks that day (`UniqueUsersExact`), which `OneUserCountedTwice` breaks.
- Claiming by achievement checks whichever unlock row the database finds. An unclaimed reward may be
  refused exactly when another of the key's rows is claimed or there is no reward definition
  (`ClaimMayBeRefused`); two grants and a claim lead there (`ClaimRefused`).
- The dead-letter hash is keyed by a bare job id, and queues number their jobs independently: pushing
  a second job under an id ends retries of the first from the hash, though the first job stays held
  (`SharedRecordDisplaces`).
- `presence.service.ts:62` deletes the user's room index before `socket.manager.ts:195` reads it, so
  the last disconnect ends no room membership, whatever the comment at line 193 says
  (`UnregisterEndsNoMembership`).
- Nor does the grace period end every membership of a room with a database row. `OrphanStep` and
  `OrphansArise` say exactly which steps leave one behind with neither a socket in the room nor a
  pending timer: a timer that fires while the user has another socket on the instance (`TimerLapses`),
  an ejection after the room index is gone (`EjectionMisses`), and a leave in the other role. Rooms
  without a database row get no timer at all (`UnregisterTimers`).
- A grace timer only knows the sockets of its own instance: it throws out a user who is back in the
  room on another one (`TimerIgnoresOtherInstances`, `TimerEjectsReturned`).
- A second join of the same socket forgets exactly the time since the last evaluation
  (`RejoinForgets`).

## Model

| member | source | states |
|---|---|---|
| FrameProcessor.Feather | src/infra/storage/frame-processor.service.ts:150-151 | the feathered alpha brackets 255 times the root of the squared distance in exact integers and fits a byte |
| FrameProcessor.FeatherRoundsSquareRoot | src/infra/storage/frame-processor.service.ts:142-151 | that integer is the program's rounding formula at the true square root |
| FrameProcessor.Coordinates | src/infra/storage/frame-processor.service.ts:90-91 | in-grid coordinates have a pixel number inside the buffer and are recovered from it |
| FrameProcessor.NeighbourIsAdjacent | src/infra/storage/frame-processor.service.ts:156-165 | each in-bounds neighbour that is examined is 4-adjacent and has an index inside the buffer |
| FrameProcessor.AdjacentIsNeighbour | src/infra/storage/frame-processor.service.ts:156-161 | no 4-adjacent pixel is missing from the neighbour list |
| FrameProcessor.ClosedContainsPath | src/infra/storage/frame-processor.service.ts:124-173 | a set closed under expansion contains every pixel of every accepted path from the seed |
| FrameProcessor.ClosedIsRegion | src/infra/storage/frame-processor.service.ts:124-173 | a closed set of reachable pixels is exactly the region |
| FrameProcessor.FillInvariantStep | src/infra/storage/frame-processor.service.ts:125-172 | one dequeue keeps: queue without repetition, every queued pixel reachable and unblocked, visited is blocked or queued, accepted dequeued pixels fully expanded |
| FrameProcessor.FillInvariantAtEnd | src/infra/storage/frame-processor.service.ts:125 | when the queue is exhausted the enqueued pixels are exactly the reachable region, disjoint from what was visited before |
| FrameProcessor.RoomInQueue | src/infra/storage/frame-processor.service.ts:121-127 | the queue never holds more pixels than the grid has |
| FrameProcessor.EnqueueNeighbours | src/infra/storage/frame-processor.service.ts:155-171 | marks and enqueues exactly the unvisited in-bounds neighbours, each once |
| FrameProcessor.ProcessPixel | src/infra/storage/frame-processor.service.ts:129-153 | accepts exactly by the seed's rule and rewrites the alpha of this pixel only |
| FrameProcessor.FloodStep | src/infra/storage/frame-processor.service.ts:125-172 | one iteration of the loop keeps the fill invariant and paints exactly the dequeued pixel |
| FrameProcessor.FloodSeed | src/infra/storage/frame-processor.service.ts:109-173 | the breadth-first fill terminates in bounds and equals the path specification of one pass; the pixels it enqueues are distinct, new and exactly the newly visited ones |
| FrameProcessor.TrySeed | src/infra/storage/frame-processor.service.ts:108-122 | a seed outside the grid or already visited changes nothing, any other is filled |
| FrameProcessor.ProcessSeeds | src/infra/storage/frame-processor.service.ts:107-174 | the loop over the seeds computes the seven-pass specification, within the dequeue bound |
| FrameProcessor.ProcessRaster | src/infra/storage/frame-processor.service.ts:79-174 | the buffer ends as the seven-pass specification; only alpha bytes change and none grows; buffers without four channels are untouched; with pixels, the bytes are unchanged if and only if the first alpha is below 15; at most width times height dequeues over all seeds |
| FrameProcessor.RegionAgrees | src/infra/storage/frame-processor.service.ts:113-145 | a region depends on colours and the seed alone, so earlier alpha writes do not influence it |
| FrameProcessor.RunKeeps | src/infra/storage/frame-processor.service.ts:107-174 | over any number of seeds colours never change and an unvisited pixel is untouched |
| FrameProcessor.PassOnInput | src/infra/storage/frame-processor.service.ts:107-174 | what one pass visits and writes, in terms of the input image |
| FrameProcessor.FilledOnce | src/infra/storage/frame-processor.service.ts:107-174 | a pixel belongs to the fill of at most one seed, so its alpha is written at most once |
| FrameProcessor.ProcessedPixel | src/infra/storage/frame-processor.service.ts:107-174 | the final pixel is the painted input pixel of the one fill that contains it, or the input pixel when none does |
| FrameProcessor.ChangedPixel | src/infra/storage/frame-processor.service.ts:107-174 | colours never change, alpha never increases, and a changed pixel lies in the accepted region of an opaque seed with alpha 0 up to distance 32 and the feather value up to 48 |
| FrameProcessor.ProcessedAlpha | src/infra/storage/frame-processor.service.ts:129-153 | the final alpha of every pixel of a fill from the raw colours: unchanged for a seed alpha below 15, else 0 up to squared distance 1024, at most the feather value up to 2304, unchanged beyond |
| FrameProcessor.FillSpreads | src/infra/storage/frame-processor.service.ts:145-171 | a fill spreads from each of its pixels within distance 48 of the seed, or from all of them for a seed alpha below 15, to every unvisited neighbour |
| FrameProcessor.FillComesFrom | src/infra/storage/frame-processor.service.ts:145-171 | every pixel of a fill but its seed has such a neighbour in the fill |
| FrameProcessor.SeedPoints | src/infra/storage/frame-processor.service.ts:93-102 | the seven seeds lie in every non-empty image and are these pixel numbers, in this order |
| FrameProcessor.SeedFilled | src/infra/storage/frame-processor.service.ts:107-122 | every seed ends up in its own fill or that of an earlier seed |
| FrameProcessor.OnlyAlphaShrinks | src/infra/storage/frame-processor.service.ts:147-152 | no byte but an alpha changes and no alpha grows |
| FrameProcessor.GridConnected | src/infra/storage/frame-processor.service.ts:145-171 | from a transparent top-left seed every pixel of the grid is reachable |
| FrameProcessor.TransparentCornerDisables | src/infra/storage/frame-processor.service.ts:107-174 | with a transparent top-left pixel the first pass visits everything, the later ones nothing, and the image is unchanged |
| FrameProcessor.CornerCleared | src/infra/storage/frame-processor.service.ts:94-119 | every processed image has a transparent top-left pixel |
| FrameProcessor.UnchangedExact | src/infra/storage/frame-processor.service.ts:107-174 | an image comes back unchanged if and only if its top-left pixel is transparent |
| FrameProcessor.ProcessIdempotent | src/infra/storage/frame-processor.service.ts:107-174 | processing a processed image changes nothing |
| BlockedWords.EscapeRoundTrip | src/infra/content-moderation/blocked-word.service.ts:104-107 | an escaped literal is a pattern for exactly that literal |
| BlockedWords.MatchesSeparate | src/infra/content-moderation/blocked-word.service.ts:131-132 | matches are in order, do not overlap and are bounded occurrences |
| BlockedWords.MatchesComplete | src/infra/content-moderation/blocked-word.service.ts:131-132 | every place where the word could match is covered by a match |
| BlockedWords.FoundIffOccurs | src/infra/content-moderation/blocked-word.service.ts:131-133 | a word is found if and only if it occurs between boundaries |
| BlockedWords.BoundedExact | src/infra/content-moderation/blocked-word.service.ts:104-116 | a match is an equal stretch of folded text with no folded letter or number next to it |
| BlockedWords.CaseIrrelevant | src/infra/content-moderation/blocked-word.service.ts:109-116 | words and texts that fold to the same characters are matched in exactly the same places |
| BlockedWords.MaskKeepsRest | src/infra/content-moderation/blocked-word.service.ts:136 | masking puts the mask in place of each match and keeps every other character |
| BlockedWords.Unmask | src/infra/content-moderation/blocked-word.service.ts:136 | an occurrence in masked text comes from an occurrence in the text that lies outside every match |
| BlockedWords.MaskCreatesNothing | src/infra/content-moderation/blocked-word.service.ts:136 | masking one word creates and uncovers no occurrence of any word and leaves none of its own |
| BlockedWords.SingleWordExact | src/infra/content-moderation/blocked-word.service.ts:104-136 | one word without mask characters is always masked away if and only if its two ends are of the same class |
| BlockedWords.MaskCharacterSurvives | src/infra/content-moderation/blocked-word.service.ts:136 | for every length, the word of that many mask characters still occurs in some text after masking |
| BlockedWords.MaskAllOnlyRemoves | src/infra/content-moderation/blocked-word.service.ts:130-142 | masking with a whole dictionary creates no occurrence of any word |
| BlockedWords.MaskedTextIsClean | src/infra/content-moderation/blocked-word.service.ts:130-155 | the masked text holds no bounded occurrence of any dictionary word, in any dictionary order |
| BlockedWords.ScanLeavesNoWord | src/infra/content-moderation/blocked-word.service.ts:130-155 | the same in folded characters alone, for words that begin and end with a letter or number |
| BlockedWords.MaskAllOneMore | src/infra/content-moderation/blocked-word.service.ts:130-136 | one more word masks the text so far exactly when it occurs in the original text |
| BlockedWords.VerdictExact | src/infra/content-moderation/blocked-word.service.ts:138-154 | critical when a critical word is found, mild when only mild ones are, with the action of the first word found of that severity |
| BlockedWords.CollectedFolds | src/infra/content-moderation/blocked-word.service.ts:132-135 | every reported text is a stretch of the message that folds to a dictionary word |
| BlockedWords.CollectedAll | src/infra/content-moderation/blocked-word.service.ts:132-135 | every dictionary word that occurs is reported, each text once |
| BlockedWords.MaskAllIdempotent | src/infra/content-moderation/blocked-word.service.ts:122-155 | scanning the masked text again finds nothing and returns it unchanged |
| BlockedWords.MixedDictionaryUncovers | src/infra/content-moderation/blocked-word.service.ts:130-142 | with one word of letters and one of other characters, masking the first uncovers the second |
| BlockedWords.BlockedWordService.Reload | src/infra/content-moderation/blocked-word.service.ts:85-101 | every literal word compiles to a pattern for exactly itself, none is skipped, and the set is replaced in order |
| BlockedWords.BlockedWordService.Collect | src/infra/content-moderation/blocked-word.service.ts:135 | adds exactly the matched texts, each once |
| BlockedWords.BlockedWordService.ScanText | src/infra/content-moderation/blocked-word.service.ts:122-155 | matched exactly when some word occurs; the verdict is that of the first word of the highest severity found; the matches are exactly the distinct matched texts; the text is masked by every word found in the original |
| RedisLocks.Redis.Acquire | src/infra/redis/lock.service.ts:38-61 | SET NX PX: grants exactly when no readable entry exists |
| RedisLocks.Redis.Release | src/infra/redis/lock.service.ts:20-25 | deletes the entry exactly when it holds this token |
| RedisLocks.Redis.Extend | src/infra/redis/lock.service.ts:28-33 | renews the entry exactly when it holds this token |
| RedisLocks.StepKeepsConsistent | src/infra/redis/lock.service.ts:20-67 | every command by any client keeps readable entries and active leases identical |
| RedisLocks.RunConsistent | src/infra/redis/lock.service.ts:20-67 | so in every state of every interleaving |
| RedisLocks.MutualExclusion | src/infra/redis/lock.service.ts:20-67 | at every moment a key has at most one unreleased, unexpired lease, and the store shows its holder's token |
| RedisLocks.GrantedIffFree | src/infra/redis/lock.service.ts:38-45 | an acquire succeeds if and only if nobody holds the key |
| RedisLocks.AcquireExact | src/infra/redis/lock.service.ts:38-61 | a granted acquire gives its token the key for exactly the lifetime asked for, any other changes nothing |
| RedisLocks.ExtendExact | src/infra/redis/lock.service.ts:28-33 | in every run an extend is answered 1 if and only if its token holds the key, and then the token holds it for the new lifetime from now |
| RedisLocks.ReleaseExact | src/infra/redis/lock.service.ts:20-25 | in every run a release is answered 1 if and only if its token holds the key, and then nobody holds it |
| RedisLocks.LeaseLasts | src/infra/redis/lock.service.ts:38-45 | as time passes a holder keeps the key up to and including its expiry and no longer |
| RedisLocks.LapsedHolderIsHarmless | src/infra/redis/lock.service.ts:20-33 | release and extend by a lapsed holder change neither the store nor anyone else's lease |
| RedisLocks.ActiveAllAlong | src/infra/redis/lock.service.ts:64-67 | a lease active at the end of a stretch was active all through it |
| RedisLocks.SectionsDisjoint | src/infra/redis/lock.service.ts:73-99 | critical sections that end before their lease expires never overlap |
| RedisLocks.WithLock | src/infra/redis/lock.service.ts:73-99 | for every sequence of replies: attempts with fresh tokens and fixed pauses up to the first reply that is not a refusal, then body and one release of the granted token, within the budget |
| RedisLocks.RunWithLock | src/infra/redis/distributed-lock.service.ts:31-84 | the same with one token for all attempts and pauses that grow and are left out after the last attempt |
| RedisLocks.LockedRunBudget | src/infra/redis/distributed-lock.service.ts:39-84 | at most retries plus one attempts, at most one body, exactly one release per body whichever way it exits, and no body without a grant |
| RedisLocks.FirstAnswerDecides | src/infra/redis/distributed-lock.service.ts:39-84 | with the first answer that is no refusal at attempt i there are i + 1 attempts; a grant runs the body between that attempt and the release of its token, an error runs nothing |
| RedisLocks.AllRefused | src/infra/redis/lock.service.ts:81-88 | when every attempt is refused all of them are made, nothing runs, and the lock is not acquired |
| RedisLocks.AttemptsInOrder | src/infra/redis/lock.service.ts:81-82 | every attempt is for the key and lifetime asked for, the n-th with the n-th token |
| RedisLocks.FixedTotal | src/infra/redis/lock.service.ts:84 | the single-instance loop waits the delay after every refusal |
| RedisLocks.GrowingTotal | src/infra/redis/distributed-lock.service.ts:49-51 | the distributed loop waits 1, 2, .. times the delay and not after the last refusal |
| RedisLocks.BodyIsSection | src/infra/redis/lock.service.ts:81-98 | the body of a client that takes part in a run lies between its grant and its release, and is a timely section when the lease holds until then |
| RedisLocks.ClientsDisjoint | src/infra/redis/distributed-lock.service.ts:69-84 | of any two clients that run these loops in one run and finish before their leases run out, one releases before the other is granted |
| CircuitBreaker.CircuitBreakerService.Begin | src/infra/resilience/circuit-breaker.service.ts:38-62 | runs the function unless the breaker is open and its next attempt has not passed; an admitted call half-opens an open breaker |
| CircuitBreaker.CircuitBreakerService.Complete | src/infra/resilience/circuit-breaker.service.ts:64-83 | records how the call ended in whatever state the record is by then |
| CircuitBreaker.CircuitBreakerService.Execute | src/infra/resilience/circuit-breaker.service.ts:28-89 | the result, fallback or error of a call nothing overlaps, and that other services are untouched |
| CircuitBreaker.StateMatchesCounters | src/infra/resilience/circuit-breaker.service.ts:49-88 | in every interleaving the breaker is closed if and only if failures are below the threshold, and half-open implies too few successes |
| CircuitBreaker.OpenSinceLastFailure | src/infra/resilience/circuit-breaker.service.ts:77-83 | in every interleaving an open breaker waits from the beginning of the call whose failure came in last |
| CircuitBreaker.LateFailureExact | src/infra/resilience/circuit-breaker.service.ts:77-83 | in every interleaving one more failure moves the next attempt back if and only if its call began before that one |
| CircuitBreaker.RefusedExact | src/infra/resilience/circuit-breaker.service.ts:51-62 | in every interleaving a call is refused if and only if the breaker is open and the reset time since that call has not passed |
| CircuitBreaker.ClosedCountsFailures | src/infra/resilience/circuit-breaker.service.ts:73-79 | in every interleaving a closed breaker counts the failures since the last success |
| CircuitBreaker.HalfOpenSince | src/infra/resilience/circuit-breaker.service.ts:52-67 | a half-open breaker got so by a call after the wait, has been since, and counts the successes since |
| CircuitBreaker.NextStateExact | src/infra/resilience/circuit-breaker.service.ts:51-83 | in every interleaving the next state from the history alone: an open breaker leaves only halfway and only by a call after the wait, whatever completes meanwhile |
| CircuitBreaker.StaleFailureShortensWait | src/infra/resilience/circuit-breaker.service.ts:77-83 | a run in which it does |
| CircuitBreaker.Trailing | src/infra/resilience/circuit-breaker.service.ts:65-79 | the longest row of equal endings at the end of the history |
| CircuitBreaker.FailureTrips | src/infra/resilience/circuit-breaker.service.ts:78-83 | a failing run trips the history exactly when it completes a row of failureThreshold failures |
| CircuitBreaker.SuccessRecovers | src/infra/resilience/circuit-breaker.service.ts:66-75 | a successful run closes a tripped history exactly when it completes a row of halfOpenMaxSuccesses successes |
| CircuitBreaker.CallRefines | src/infra/resilience/circuit-breaker.service.ts:49-88 | one call keeps the record in step with the history |
| CircuitBreaker.SerialRefinesHistory | src/infra/resilience/circuit-breaker.service.ts:34-88 | for calls one after another the breaker is closed if and only if the history is not tripped, and the function runs if and only if the history allows it |
| FeatureFlags.Horner | src/infra/flags/feature-flag.service.ts:55-56 | one loop step extends the base-31 polynomial |
| FeatureFlags.WrapStep | src/infra/flags/feature-flag.service.ts:56-57 | wrapping the shift and the sum in 32 bits loses nothing |
| FeatureFlags.HashString | src/infra/flags/feature-flag.service.ts:53-60 | the loop returns the absolute value of the signed 32-bit wrap of the polynomial |
| FeatureFlags.FeatureFlagService.SetFlag | src/infra/flags/feature-flag.service.ts:15-18 | replaces one flag |
| FeatureFlags.FeatureFlagService.IsEnabled | src/infra/flags/feature-flag.service.ts:20-51 | enabled if and only if the flag exists and every present restriction admits the context |
| FeatureFlags.DisabledExact | src/infra/flags/feature-flag.service.ts:24-48 | everything that disables a flag, and nothing else does |
| FeatureFlags.HashCongruent | src/infra/flags/feature-flag.service.ts:53-60 | the hash is the polynomial reduced modulo 2^32 to a signed integer, without its sign |
| FeatureFlags.RolloutMonotone | src/infra/flags/feature-flag.service.ts:41-48 | raising the rollout never disables an enabled user |
| FeatureFlags.RolloutStep | src/infra/flags/feature-flag.service.ts:45-47 | one more percent adds exactly the users of one bucket |
| Achievements.ExtractIncrement | src/modules/achievements/services/achievement-evaluation.service.ts:144-154 | 1 without a usable field, otherwise the floor of its number but at least 1, and not a number exactly when the field is none |
| Achievements.IncrementExact | src/modules/achievements/services/achievement-evaluation.service.ts:144-154 | the increment of every kind of field value |
| Achievements.ComparisonExact | src/modules/achievements/services/achievement-evaluation.service.ts:123-132 | when at-least and at-most rules pass, from the numbers of field and threshold |
| Achievements.EqualityExact | src/modules/achievements/services/achievement-evaluation.service.ts:117-121 | when equality, membership, unconditional and unknown rules pass |
| Achievements.RespondingExact | src/modules/achievements/services/achievement-evaluation.service.ts:51-62 | exactly the listed active definitions with a rule that lists the event and passes, each once |
| Achievements.HistoryStep | src/modules/achievements/services/achievement-progress.service.ts:79-90 | one recorded step keeps every history chained from 0 to the stored progress |
| Achievements.HistoryClosedStep | src/modules/achievements/services/achievement-progress.service.ts:79-90 | one increment keeps the history equal to the rows computed from the increments alone |
| Achievements.ProgressStep | src/modules/achievements/services/achievement-progress.service.ts:51-76 | one matching event keeps stored progress the capped sum of the increments |
| Achievements.IterationsAscend | src/modules/achievements/services/achievement.service.ts:80-92 | the rows of a user and achievement count upwards |
| Achievements.IterationsExact | src/modules/achievements/services/achievement.service.ts:80-92 | iterations of a user and achievement are exactly 1 to n in order |
| Achievements.RowClaim | src/modules/achievements/services/achievement-reward.service.ts:45-50 | claiming a row moves one claim count by one and nothing else |
| Achievements.IncrementKeeps | src/modules/achievements/services/achievement-progress.service.ts:33-115 | progress keeps every invariant of the tables |
| Achievements.ClaimKeeps | src/modules/achievements/services/achievement-reward.service.ts:45-57 | claiming an unclaimed row keeps every invariant, with one announcement per claimed row |
| Achievements.AwardKeeps | src/modules/achievements/services/achievement.service.ts:77-100 | awarding keeps every invariant, statistics and numbering included |
| Achievements.UsersCounted | src/modules/achievements/services/achievement-statistics.service.ts:12-26 | a day has as many unlock rows as users if and only if no user has two |
| Achievements.UnlockKeeps | src/modules/achievements/services/achievement.service.ts:71-128 | the whole unlock with its checks and its automatic claim keeps every invariant |
| Achievements.UnlockExact | src/modules/achievements/services/achievement.service.ts:71-128 | who is refused, and the new row, progress, statistics and announcements of an award |
| Achievements.CompletesIffReaches | src/modules/achievements/services/achievement-progress.service.ts:54 | progress completes for exactly the event whose prefix sum first reaches the requirement |
| Achievements.AnswerKeeps | src/modules/achievements/services/achievement-evaluation.service.ts:68-98 | one definition's answer to an event keeps everything and unlocks exactly when the requirement is first reached |
| Achievements.EventKeeps | src/modules/achievements/services/achievement-evaluation.service.ts:48-106 | an event adds exactly the responding definitions' increments and reports exactly the achievements first reached |
| Achievements.RunKeeps | src/modules/achievements/services/achievement.service.ts:71-189 | every run of events, grants and claims keeps every invariant |
| Achievements.ProgressClosedForm | src/modules/achievements/services/achievement-evaluation.service.ts:48-154 | in every run, progress not granted by hand is the capped sum of the matching increments of the run, its history is exactly the rows computed from them, and one unlock row exists exactly from the moment the sum reaches the requirement |
| Achievements.IncrementsExact | src/modules/achievements/services/achievement-evaluation.service.ts:51-76 | what one more operation adds to the increments of a key |
| Achievements.RunAccounts | src/modules/achievements/services/achievement-statistics.service.ts:12-58 | in every run, statistics are the row counts, rewards are announced once each and exactly for claimed rows, non-repeatable achievements have at most one row, iterations are exactly 1 to n |
| Achievements.UniqueUsersExact | src/modules/achievements/services/achievement-statistics.service.ts:12-26 | in every run the unique-user statistic of a day is the number of its users if and only if no user has two unlocks that day |
| Achievements.OneUserCountedTwice | src/modules/achievements/services/achievement-statistics.service.ts:16 | two grants to one user count two unique users |
| Achievements.Newest | src/modules/achievements/services/achievement-reward.service.ts:83-86 | the last unclaimed row of the key, if there is an unclaimed one |
| Achievements.ClaimAlwaysSucceeds | src/modules/achievements/services/achievement-reward.service.ts:72-98 | whatever row the check finds, a claim succeeds if and only if there are rows, all unclaimed, and a reward definition |
| Achievements.ClaimMayBeRefused | src/modules/achievements/services/achievement-validation.service.ts:66-76 | an unclaimed reward may be refused if and only if another row of the key is claimed or there is no reward definition |
| Achievements.ClaimRefused | src/modules/achievements/services/achievement-validation.service.ts:66-76 | a run of two grants and a claim after which the older row is claimed or refused depending on the row found |
| Achievements.AchievementEngine.IncrementProgress | src/modules/achievements/services/achievement-progress.service.ts:33-115 | the new progress and history tables, that justCompleted marks the change to completed, and that an increment that is not a number changes nothing |
| Achievements.AchievementEngine.IncrementUnlocks | src/modules/achievements/services/achievement-statistics.service.ts:12-26 | counts one unlock on the day, creating the day's row when missing |
| Achievements.AchievementEngine.IncrementRewardsClaimed | src/modules/achievements/services/achievement-statistics.service.ts:44-58 | counts one claim on the day, creating the day's row when missing |
| Achievements.AchievementEngine.ClaimReward | src/modules/achievements/services/achievement-reward.service.ts:24-70 | missing row, already claimed, or claimed with statistics and one announcement |
| Achievements.AchievementEngine.UnlockAchievement | src/modules/achievements/services/achievement.service.ts:71-128 | refusals leave the tables alone; an award adds its row, completes progress, counts, and claims a non-empty reward |
| Achievements.AchievementEngine.ManualGrant | src/modules/achievements/services/achievement.service.ts:182-189 | an unlock for an existing user, which keeps every invariant |
| Achievements.AchievementEngine.FindNewest | src/modules/achievements/services/achievement-reward.service.ts:83-86 | the search returns the newest unclaimed row |
| Achievements.AchievementEngine.ClaimRewardByAchievementId | src/modules/achievements/services/achievement-reward.service.ts:72-98 | for every row the check may find: refused without rows, when that row is claimed, or without reward; otherwise the newest unclaimed row is claimed, which was not announced before |
| Achievements.AchievementEngine.EvaluateOne | src/modules/achievements/services/achievement-evaluation.service.ts:69-97 | one definition's progress, and the unlock when that completes it |
| Achievements.AchievementEngine.EvaluateMatching | src/modules/achievements/services/achievement-evaluation.service.ts:68-98 | the loop answers for the matching definitions one after another |
| Achievements.AchievementEngine.EvaluateEvent | src/modules/achievements/services/achievement-evaluation.service.ts:48-106 | the tables behind an event, the number of definitions evaluated, and exactly the achievements whose requirement it first reached |
| JobQueues.StepFaithful | src/infra/queue/workers/queue-support.service.ts:32-46 | every step keeps queue, name and data of everything stored |
| JobQueues.StepConserved | src/infra/queue/queue.service.ts:93-106 | every step, a crash, a push and a deletion of a hash record included, keeps every uncompleted job in a place that no replay under way is about to clear |
| JobQueues.RunConserves | src/infra/queue/workers/base-queue.worker.ts:26-50 | so in every run from the empty system |
| JobQueues.JobsNeverLost | src/infra/queue/queue.service.ts:93-106 | in every run an enqueued, uncompleted job is held by its own queue or the dead-letter queue with its queue, name and data |
| JobQueues.FailedJobsParked | src/infra/queue/workers/base-queue.worker.ts:43-50 | in every run the failure handler dead-letters exactly the jobs that failed for good and leaves one that will be retried alone |
| JobQueues.AttemptsKept | src/infra/queue/queue.service.ts:49-51 | in every run a queue record has the attempts its last creation asked for and as many attempts made as failed since |
| JobQueues.RecordLife | src/infra/queue/queue.service.ts:49-51 | a queue record exists from its creation until it is completed or evicted |
| JobQueues.StatusLife | src/infra/queue/workers/base-queue.worker.ts:26-50 | the status of a queue record after each step |
| JobQueues.CreationWaits | src/infra/queue/queue.service.ts:49-51 | a created record waits to be processed |
| JobQueues.RecordExact | src/infra/queue/queue.service.ts:49-51 | in every run a queue record exists if and only if it was neither completed nor evicted since its last creation |
| JobQueues.ReplayLife | src/infra/queue/queue.service.ts:94-106 | how long a replay is under way and when it has added its item |
| JobQueues.FailedAfterAttempts | src/infra/queue/workers/base-queue.worker.ts:46-48 | in every run a record is failed for good, and is parked, exactly after at least as many failed attempts as its creation asked for |
| JobQueues.CrashDuplicates | src/infra/queue/queue.service.ts:98-103 | a replay that crashes between its two writes leaves the job in both places |
| JobQueues.SharedRecordDisplaces | src/infra/queue/dlq.service.ts:28-34 | in every run, pushing another job under a used record id leaves the first retriable from the hash if and only if it has another record, while its job stays held |
| JobQueues.ReplaySteps | src/infra/queue/queue.service.ts:94-106 | the three commands of an undisturbed replay amount to moving the job back to its queue |
| JobQueues.QueueService.EnqueueJob | src/infra/queue/queue.service.ts:42-51 | an unknown queue is refused, otherwise the job waits in its queue with the payload and attempts given and nothing else changes |
| JobQueues.QueueService.HandleFailed | src/infra/queue/workers/base-queue.worker.ts:43-50 | parks a job that failed for good and leaves a missing job or one to be retried alone |
| JobQueues.QueueService.PushToDLQ | src/infra/queue/dlq.service.ts:28-34 | copies the record under its id, over whatever was there, and touches nothing else |
| JobQueues.QueueService.ReplayDeadLetter | src/infra/queue/queue.service.ts:94-106 | unknown id and unknown queue change nothing; otherwise the job is back in its queue, with whatever attempts the queue gives it, and out of the dead-letter queue |
| JobQueues.QueueService.Requeue | src/infra/queue/dlq.service.ts:51-67 | the same for the dead-letter hash, true exactly when the record and its queue exist |
| JobQueues.QueueService.DeleteJob | src/infra/queue/dlq.service.ts:77-80 | removes one record and reports whether there was one |
| SocketPresence.TimerKeyInjective | src/infra/socket/socket.manager.ts:179 | a timer key determines its room and user |
| SocketPresence.SuffixPicksUser | src/infra/socket/socket.manager.ts:251-256 | the suffix test of an ejection picks exactly the user's timers |
| SocketPresence.SuffixPicksExactly | src/infra/socket/socket.manager.ts:251-252 | for rooms with a database row and any ids, the test picks exactly the user and the users whose id ends in a colon and that id |
| SocketPresence.ColonMixesUsers | src/infra/socket/socket.manager.ts:252 | every id with a colon is caught by the ejection of some other user |
| SocketPresence.ConnectOnline | src/infra/redis/presence.service.ts:42-51 | a connect reports first exactly when the user was offline and keeps online equal to having a socket |
| SocketPresence.DisconnectOnline | src/infra/redis/presence.service.ts:57-69 | a disconnect takes the user offline exactly with the last socket |
| SocketPresence.ArmAllTimers | src/infra/socket/socket.manager.ts:176-191 | a dropped socket adds a timer for exactly its rooms with a database row and keeps timers and timeouts in step |
| SocketPresence.UnregisterEndsNoMembership | src/infra/socket/socket.manager.ts:193-198 | dropping a socket, even the last, ends no room membership |
| SocketPresence.UnregisterTimers | src/infra/socket/socket.manager.ts:175-191 | when none was pending, a grace timer is left behind exactly for the socket's rooms with a database row |
| SocketPresence.OperationsDisarm | src/infra/socket/socket.manager.ts:248-256 | an allowed join and a leave cancel exactly the timer of that room and user, an ejection exactly the user's |
| SocketPresence.FireExact | src/infra/socket/socket.manager.ts:183-228 | a firing timer leaves presence alone if the user is in the room with a live local socket, otherwise ends with the user in neither set, and touches no other membership |
| SocketPresence.StepLocal | src/infra/socket/socket.manager.ts:134-501 | every operation keeps the two socket indexes inverse and the timers equal to the pending timeouts |
| SocketPresence.StepPresence | src/infra/redis/presence.service.ts:42-103 | every operation keeps online equal to having a socket, and its event says exactly how the online set changed |
| SocketPresence.EventsStep | src/infra/socket/socket.manager.ts:147-198 | each user's online and offline events keep alternating |
| SocketPresence.StepWorldOk | src/infra/socket/socket.manager.ts:134-501 | every operation on any instance keeps all of these |
| SocketPresence.PendsStep | src/infra/socket/socket.manager.ts:175-191 | which timers are pending after each operation |
| SocketPresence.InRoomStep | src/infra/socket/socket.manager.ts:193-276 | who is in a room after each operation |
| SocketPresence.MembersStep | src/infra/redis/presence.service.ts:85-116 | who is a public member after each operation |
| SocketPresence.ModeratorsStep | src/infra/redis/presence.service.ts:85-116 | who is an incognito moderator after each operation |
| SocketPresence.IndexStep | src/infra/redis/presence.service.ts:57-103 | which rooms a user is indexed in after each operation |
| SocketPresence.ListedByJoin | src/infra/socket/socket.manager.ts:325-336 | in every run whoever is listed got there by a join in that role, so an incognito moderator is never a public member |
| SocketPresence.OrphanStep | src/infra/socket/socket.manager.ts:219-256 | a step leaves a membership of a room with a database row without a socket and without a timer if and only if it is one of three kinds, given by the state before it |
| SocketPresence.OrphansArise | src/infra/socket/socket.manager.ts:134-501 | in every run such a membership goes back to one of those steps and has had no backing since |
| SocketPresence.EjectionMisses | src/infra/socket/socket.manager.ts:248-261 | a run in which an ejection during the grace period leaves the membership without any backing |
| SocketPresence.TimerLapses | src/infra/socket/socket.manager.ts:222-226 | a run in which the timer of a user who reconnected without entering the room leaves it |
| SocketPresence.TimerEjectsReturned | src/infra/socket/socket.manager.ts:222-228 | a run in which a user who is in the room on another instance is thrown out |
| SocketPresence.RunWorldOk | src/infra/socket/socket.manager.ts:134-501 | in every serialized run over any number of instances: inverse indexes without empty sets, presence lists exactly the tracked sockets, online is having one, events alternate starting online, timers are exactly the pending timeouts |
| SocketPresence.TimerIgnoresOtherInstances | src/infra/socket/socket.manager.ts:222-228 | a user who is back on another instance is still ejected by the old timer |
| SocketPresence.PresenceService.Connect | src/infra/redis/presence.service.ts:42-51 | the presence after a connect and whether it was the first |
| SocketPresence.PresenceService.Disconnect | src/infra/redis/presence.service.ts:57-69 | the presence after a disconnect and whether it was the last |
| SocketPresence.PresenceService.JoinRoom | src/infra/redis/presence.service.ts:85-91 | enters one of the two sets and the room index |
| SocketPresence.PresenceService.LeaveRoom | src/infra/redis/presence.service.ts:93-103 | leaves that set and the room index |
| SocketPresence.PresenceService.LeaveRoomEverywhere | src/infra/redis/presence.service.ts:111-116 | leaves both sets |
| SocketPresence.PresenceService.LeaveAll | src/infra/socket/socket.manager.ts:195-196 | leaves all the given rooms, in whatever order |
| SocketPresence.SocketManager.Register | src/infra/socket/socket.manager.ts:134-152 | both indexes and presence after a registration |
| SocketPresence.SocketManager.Unregister | src/infra/socket/socket.manager.ts:158-214 | indexes, timers and presence after a drop; when Redis fails before the disconnect only the local clean-up, when it fails at the rooms the same state as without failure |
| SocketPresence.SocketManager.JoinRoom | src/infra/socket/socket.manager.ts:295-336 | a denied join changes nothing; any other tracks the room, cancels its timer and enters presence |
| SocketPresence.SocketManager.LeaveRoom | src/infra/socket/socket.manager.ts:427-481 | untracks the room, cancels its timer and leaves presence |
| SocketPresence.SocketManager.LeaveUserRoomsImmediately | src/infra/socket/socket.manager.ts:248-276 | cancels every timer of the user and leaves every indexed room |
| SocketPresence.SocketManager.TimerFires | src/infra/socket/socket.manager.ts:183-228 | removes the timer entry and leaves the room unless the user is still there |
| RoomStay.SocketData.TrackJoin | src/infra/socket/socket.manager.ts:338-342 | both times restart for this room only |
| RoomStay.SocketData.HeartbeatRoomStay | src/infra/socket/socket.manager.ts:383-424 | what a heartbeat stores and publishes, for this room only |
| RoomStay.SocketData.TrackLeave | src/infra/socket/socket.manager.ts:441-472 | what a leave clears and publishes, for this room only |
| RoomStay.HeartbeatBounds | src/infra/socket/socket.manager.ts:400-402 | a heartbeat's minutes are more than half and at most twice the elapsed time |
| RoomStay.LeaveBounds | src/infra/socket/socket.manager.ts:451-452 | a leave's minutes are more than half the remaining time and at most one above twice it |
| RoomStay.HeartbeatExact | src/infra/socket/socket.manager.ts:387-418 | everything a heartbeat stores and publishes, in whole minutes and nearest seconds |
| RoomStay.LeaveExact | src/infra/socket/socket.manager.ts:441-468 | everything a leave clears and publishes, in nearest minutes and seconds |
| RoomStay.BeatsTile | src/infra/socket/socket.manager.ts:383-424 | whatever the heartbeats, the evaluations so far tile the stay up to the last one |
| RoomStay.StayAccounted | src/infra/socket/socket.manager.ts:441-472 | all evaluations of a stay tile it exactly, the last reports its length, and the published minutes sum to more than half of it and at most one more than twice it |
| RoomStay.TilesCover | src/infra/socket/socket.manager.ts:396-402 | evaluations that tile a stretch cover exactly its moments |
| RoomStay.RejoinForgets | src/infra/socket/socket.manager.ts:338-342 | with a second join at any time, exactly the moments from the last evaluation to it are covered by no evaluation, and the stay is tiled if and only if there are none |

## Left out

- Image decoding and encoding and the SVG rewriting: the raster model starts from width, height, channels and bytes. That the encoder is handed the whole underlying buffer, whatever the view's offset, is not modelled.
- IEEE rounding of the square root and the feather division: distances are compared as squared integers and the feather is the formula at the true root.
- Raw regular expressions, the reload timer and dictionary administration: only literal words. Case folding and the letter-or-number class are parameters that act character by character.
- The lock's token expiry estimate: leases are counted on the store's clock, and an entry is readable up to and including its expiry instant. Tokens are assumed fresh.
- RedisLocks.WithLock: the store's replies and the body's ending are parameters; the clients of a shared run get the store's replies in ClientsDisjoint, where a lost reply is not modelled.
- CircuitBreaker.CircuitBreakerService.Execute: covers a call that nothing overlaps; overlapping calls are sequences of Begin and Complete. Failures of the fallback itself are not modelled.
- CircuitBreaker.StateMatchesCounters: options are fixed for the run, threshold and half-open maximum at least 1.
- FeatureFlags.HashString: strings are sequences of UTF-16 code units; percentages are real numbers, so the special value NaN is not modelled.
- Achievements: nested objects, arrays and infinities in metadata, badges, audit rows, percentages, other database errors in the middle of an operation and changes to definitions during a run are not modelled; every operation reads the day once, and operations on the same user do not overlap. The database is taken to refuse a progress that is not a number.
- Achievements.AchievementEngine.EvaluateEvent: the count of definitions that progressed is not returned.
- Achievements.AchievementEngine.ClaimRewardByAchievementId: rows are appended in unlock order, so the newest unclaimed row is the last one.
- JobQueues: the queue library's promises are taken as given: single commands are atomic, a failed record is kept until the failure handler has run, a stalled job goes back to waiting. Jobs enqueued with a delay or a repeat rule, metrics and the forced-failure hook are not modelled. Nothing in the repository calls the push to the dead-letter hash; it is modelled as a step that anyone may take for any job.
- JobQueues.QueueService.ReplayDeadLetter: one undisturbed call; crashes and overlapping replays are steps of the protocol.
- SocketPresence.RunWorldOk: operations are serialized, each socket is registered once and unregistered at most once by its own instance, Redis is reachable and user ids contain no colon.
- SocketPresence.SocketManager.Unregister: an outage between the commands of one presence operation is not modelled.
- The 24-hour expiry of presence keys, socket payloads, broadcasts, join policies' own logic, spectator rooms, moderation namespaces and domain events other than the presence and duration events.
- RoomStay.StayAccounted: one clock reading per handler and positive times that do not go backwards; a dropped socket publishes nothing for the rest of its stay.
- Guards, tokens, object storage, geocoding, health checks, metrics, pagination and the games, wallet and ranking modules: wrappers, wiring or easy members.
