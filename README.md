# Gamification service — a Dafny model of the XP and badge engine

This project models the core of the gamification service of an e-learning
platform. The service gives experience points (XP) and badges in response to
domain events, and keeps a leaderboard. The model covers:

- **The leveling policy** (`Leveling`). Cumulative XP maps to one of three tiers, "Iniciante",
  "Intermediário" and "Avançado", and to the XP at which the next tier starts.
- **The XP ledger** (`Ledger`). `adjustXp` appends to `historico_xp` at most once per source
  event id. It then adds the delta to the user's `xp_total`, refreshes the stored level, pushes
  the new total to the Redis leaderboard and publishes `xp.adjusted.v1`.
- **The catalog-driven badge evaluator** (`Criteria`, `Evaluator`). A criterion `tipo:valor`
  selects one fact about the user: completed courses, distinct departments, total XP, courses
  in one category, or the longest streak of consecutive activity days. The badge is deserved
  when that fact reaches the threshold. Every catalog badge is judged, in code order.
- **The RabbitMQ consumer** (`Consumer`, with `Grants`). It connects with bounded retries,
  stores every event and grants 50 or 150 XP per completed module. On a course completion it
  applies the fixed badge rules `PRIMEIRO_CURSO`, `MARATONISTA` and `EXPERT`. Each message
  gets exactly one ack or nack.
- **Manual reprocessing** (`AutoBadges`). The same fixed rules are re-run for one user or for
  up to 1000 users.
- **The Redis leaderboard** (`Leaderboard`). This covers ZADD, the top-N read and the rank
  read, and the wholesale rebuild from the database. The periodic sync job and its interval
  are in `SyncJob`.
- **The badge catalog** (`BadgeRepository`, `BadgeService`, `Schemas`). It covers insertion
  with defaults, the dynamic `UPDATE` builder with numbered placeholders, the cascading delete,
  the 404/409 error mapping and the request-body schemas.

The relational tables are one `Store.Database` object whose methods change its fields; the
Redis sorted set is a `Leaderboard.Board` object. Every state-changing method states its new
state as a function of the old one. The properties are proved as lemmas about those functions.

Where the code and its design description disagree, the model follows the code:

- The queue is bound with `course.*.completed.*`, not with `progress.*` and `assessment.*`
  routing keys, and there is no assessment handler.
- The reconnect wait grows linearly (500 ms × attempt), not exponentially.
- A failed publish of `xp.adjusted.v1` is not swallowed. `adjustXp` awaits it, so the
  message is nacked after the ledger write has been committed.
- The level labels are the Portuguese texts above.
- Totals may become negative: no floor is applied.
- The stored level can lag behind the total. A NULL level is never filled in, and a total
  that lands on 0 leaves the level as it was.

## Model

| member | source | states |
|---|---|---|
| Leveling.LabelIsHighestReachedTier | src/services/perfilService.ts:8-10 | The label is the highest tier whose start (0, 1000, 3000) the XP has reached, and "Iniciante" for negative XP. |
| Leveling.TierMonotone | src/services/perfilService.ts:8-10 | More XP never gives a lower tier. |
| Leveling.LabelTextInjective | src/services/perfilService.ts:8-10 | Distinct tiers are stored as distinct label texts. |
| Leveling.ProximoIsNextTierStart | src/services/perfilService.ts:12-14 | Below the top tier the next threshold is the start of the next tier (1000 or 3000), strictly above the XP. In the top tier it is the XP itself. |
| Leveling.Boundaries | src/services/perfilService.ts:6-16 | -5 gives (Iniciante, 1000); 999/1000 and 2999/3000 fall on either side of a tier boundary; 4200 has next threshold 4200. |
| Store.AtMostOneAppliedPerKey | src/services/perfilService.ts:28-39 | Under the ledger invariant, at most one row with a nonzero delta carries a given `referencia_id`. |
| Store.AppendKeepsKeysFresh | src/services/perfilService.ts:28-39 | Appending a zero-XP row, or a row whose key is new, keeps the ledger invariant. |
| Ledger.MotivoOr | src/services/perfilService.ts:38 | `motivo \|\| 'event'`: an absent or empty reason is stored as "event", any other reason as given. |
| Ledger.AdjustXp | src/services/perfilService.ts:18-75 | The tables become `AdjustTables` of the old ones. The leaderboard gets the new total only when it is nonzero and the cache is up. No event when the total read back is 0; otherwise `xp.adjusted.v1` with (user, delta, total, label of total, key), published or failed. |
| Ledger.ZeroDeltaNoOp | src/services/perfilService.ts:24 | A zero delta changes no table and reads back total 0, so nothing else happens. |
| Ledger.UsedKeyNoOp | src/services/perfilService.ts:28-32 | A key already in the ledger, under any user, makes the call change nothing. |
| Ledger.KeyConsumed | src/services/perfilService.ts:28-39 | After a call with a nonzero delta, the key is in the ledger. |
| Ledger.SecondCallNoOp | src/services/perfilService.ts:28-39 | A second call with the same key, for any user and delta, changes nothing and reads back 0. |
| Ledger.FirstApplication | src/services/perfilService.ts:34-48 | A first application appends exactly (user, delta, motivo or "event", key). The user's total becomes the old total (NULL as 0) plus delta, with no floor. Other users and tables are untouched; an unknown user gets no total. |
| Ledger.KeysStayFresh | src/services/perfilService.ts:27-39 | Every call preserves the ledger invariant: a nonzero delta is never applied twice for one key. |
| Ledger.TotalsTrackLedger | src/services/perfilService.ts:34-60 | For every user with a row, `xp_total` minus the user's ledger sum is unchanged by a call. |
| Ledger.LevelFollowsTotal | src/services/perfilService.ts:51-60 | When the new total is nonzero and a level was stored, the stored level afterwards is the label of the new total. |
| Ledger.LevelUntouched | src/services/perfilService.ts:54-60 | A NULL level stays NULL, and a new total of 0 leaves the level as it was. |
| Leaderboard.RetryDelayCapped | src/config/redis.ts:9-12 | The reconnect wait is 50·times up to attempt 40, then 2000 ms. It never exceeds 2000 and never decreases. |
| Leaderboard.KeyRoundTrip | src/config/redis.ts:57-59 | Stripping "user:" from the member built for a user id gives back that id. |
| Leaderboard.MemberRoundTrip | src/config/redis.ts:57-59 | A member that starts with "user:" is the key of the id stripped from it. |
| Leaderboard.UserKeyInjective | src/config/redis.ts:37 | Distinct user ids get distinct members. |
| Leaderboard.Ranking | src/config/redis.ts:47-53 | The set read from the top lists every member once with its score, each ranked above all later ones: higher score first, ties by member descending. |
| Leaderboard.RevRank | src/config/redis.ts:85 | ZREVRANK is defined exactly for members of the set, and the ranking holds the member at that index. |
| Leaderboard.PositionOfEntry | src/config/redis.ts:85 | The member at index k of the ranking has reverse rank k. |
| Leaderboard.FlattenAt | src/config/redis.ts:48-53 | In a WITHSCORES reply, entry k is at positions 2k (member) and 2k+1 (score as text). |
| Leaderboard.TopRangeBounds | src/config/redis.ts:48-53 | The range 0..limit-1 covers the first `TopCount(limit, n)` entries: at most `limit` for a positive limit. A limit of 0 gives the whole set, and a negative limit drops entries from the end. |
| Leaderboard.TopWindow | src/config/redis.ts:48-53 | The reply to a top-`limit` request is the flat form of the first `TopCount` ranking entries. |
| Leaderboard.ReplyPair | src/config/redis.ts:57-58 | Reading the k-th pair of a reply gives back the k-th entry's member and, parsed, its score. |
| Leaderboard.ReadReply | src/config/redis.ts:56-66 | The loop over a reply yields one ranked user per entry, in reply order. Each has the id without the prefix, the score, and position k+1. |
| Leaderboard.SyncedKeys | src/config/redis.ts:108-118 | After DEL and the ZADDs, the set holds exactly the keys of the given users. |
| Leaderboard.SyncedLastWins | src/config/redis.ts:114-116 | A user listed more than once keeps the score of its last entry. |
| Leaderboard.SyncedPrefixed | src/config/redis.ts:115 | Every member written by the sync carries the "user:" prefix. |
| Leaderboard.Board.UpdateUserScore | src/config/redis.ts:33-38 | ZADD sets the user's member to exactly `xp`, adding it if absent, and leaves every other member as it was. |
| Leaderboard.Board.GetTopRanking | src/config/redis.ts:43-73 | Returns `TopCount(limit, n)` users (at most `limit` when it is positive). The k-th is the k-th of the ranking, with its id, its score and position k+1 (1, 2, 3, … without gaps). |
| Leaderboard.Board.GetUserRank | src/config/redis.ts:78-99 | For a member: a 1-based position at which the ranking holds the user, and the stored score. Otherwise (null, 0). |
| Leaderboard.Board.SyncFromDb | src/config/redis.ts:104-124 | On success the set is exactly `SyncedScores(users)`, whatever it held before, so syncing twice leaves the same set. On failure the set is unchanged and the error is reported. |
| Leaderboard.TopAndRankAgree | src/config/redis.ts:57-89 | The user listed at index k of the top ranking has ZREVRANK k, so its 1-based rank equals its top position. |
| Leaderboard.RankingDescending | src/config/redis.ts:47-53 | Scores never increase along the ranking. |
| Text.SplitJoin | src/services/badgeEvaluator.ts:136 | Splitting the join of separator-free pieces gives the pieces back. |
| Text.ParseInt | src/services/badgeEvaluator.ts:137 | `parseInt(s, 10)` is NaN exactly when no digit follows the leading whitespace and optional sign. |
| Text.ParseIntOfIntToString | src/config/redis.ts:58 | Parsing the decimal text of an integer gives the integer back. |
| Text.Sorted | src/services/badgeEvaluator.ts:41 | `ORDER BY codigo` lists every code of the set once, in ascending code-point order. |
| Criteria.CriterionRoundTrip | src/services/badgeEvaluator.ts:136-137 | The text `tipo:N`, with no colon in `tipo`, parses back to (tipo, N). |
| Criteria.CriterionWithoutThreshold | src/services/badgeEvaluator.ts:136-137 | Without a colon the whole text is the kind and the threshold is NaN. |
| Criteria.CategoryReachesMeaning | src/services/badgeEvaluator.ts:221-232 | For a positive threshold, the category query returns a row iff some category has that many completions. For a threshold of 1 or less, it needs only one completion with a category. |
| Criteria.StreakIsLongestRun | src/services/badgeEvaluator.ts:241-270 | The streak is attained by some run of consecutive days, no run is longer, and it is 0 exactly when there is no activity. |
| Criteria.StreakExample | src/services/badgeEvaluator.ts:241-270 | Days D, D+1, D+2, D+5 make a streak of 3. |
| Criteria.EvaluateCriterion | src/services/badgeEvaluator.ts:130-163 | It errs exactly for a category criterion with a NaN threshold. It is true only with a numeric threshold (or a category criterion). An unknown kind is false. |
| Criteria.ParsePieces | src/services/badgeEvaluator.ts:136-137 | For any text with a colon, the kind is the text before the first ':' and the threshold is `parseInt` of the next piece; later pieces are ignored. |
| Criteria.SpaceBeforeThreshold | src/services/badgeEvaluator.ts:136-137 | `xp_total: 3000` has threshold 3000. |
| Criteria.LeadingZeroThreshold | src/services/badgeEvaluator.ts:136-137 | `streak_dias:07` has threshold 7. |
| Criteria.EmptyThreshold | src/services/badgeEvaluator.ts:136-137 | `cursos_concluidos:` has a NaN threshold. |
| Criteria.TrailingPieceIgnored | src/services/badgeEvaluator.ts:136-137 | `xp_total:3000:x` has threshold 3000. |
| Criteria.EvaluateAnyText | src/services/badgeEvaluator.ts:136-162 | For any text `tipo:num…`, each kind compares its own fact with `parseInt(num)`. A NaN threshold is never reached, and for the category kind it is the one error. An unknown kind is false. |
| Criteria.EvaluateKinds | src/services/badgeEvaluator.ts:139-162 | For the text `tipo:N`, each kind compares its own fact with N: completed count, distinct departments, XP (0 for a missing user or NULL), a category reaching it, or the streak. |
| Criteria.PointsAlias | src/services/badgeEvaluator.ts:155-157 | `pontos_necessarios:N` evaluates exactly as `xp_total:N`. |
| Evaluator.Judge | src/services/badgeEvaluator.ts:70-125 | The verdict is about the judged code, and an awarded verdict is never "already owned" and carries no reason. |
| Evaluator.Verdicts | src/services/badgeEvaluator.ts:40-64 | One verdict per catalog badge, the j-th about the j-th code in code order. |
| Evaluator.AwardedIff | src/services/badgeEvaluator.ts:76-124 | Awarded iff the badge is not held, has a non-empty criterion, and the criterion evaluates to true. Already owned iff held. The error and "no criterion" reasons appear exactly in their cases. |
| Evaluator.HeldShortCircuits | src/services/badgeEvaluator.ts:77-89 | A held badge gives (not awarded, already owned) whatever the facts and the criterion. |
| Evaluator.OneVerdictPerBadge | src/services/badgeEvaluator.ts:40-64 | A run yields exactly one verdict per catalog badge, strictly ascending by code, covering every badge, even when some verdicts are errors. |
| Evaluator.GrantBadge | src/services/badgeEvaluator.ts:277-295 | The grant is added with ON CONFLICT DO NOTHING; no other table changes and no audit row is written. |
| Evaluator.JudgeNext | src/services/badgeEvaluator.ts:46-61 | One loop iteration: its verdict is the run's next verdict, and the grants grow by that verdict's award. |
| Evaluator.EvaluateAll | src/services/badgeEvaluator.ts:34-65 | Returns the verdicts over the catalog as it was at the start. The grants grow by exactly the awarded badges, and nothing else changes. |
| Evaluator.EvaluateOnCourseCompletion | src/services/badgeEvaluator.ts:300-321 | The same run and the same results; the awarded subset is only logged. |
| Evaluator.RerunAwardsNothing | src/services/badgeEvaluator.ts:83-124 | A second run over the resulting state awards nothing and reports each earlier award as already owned. |
| Grants.FiredCodes | src/events/consumer.ts:79-95 | PRIMEIRO_CURSO fires iff exactly one course is completed, MARATONISTA iff exactly 5 were completed this month, EXPERT iff XP ≥ 3000. |
| Grants.EnsureBadge | src/events/consumer.ts:102-103 | A missing catalog row is created with the code as name and description, and existing rows are untouched. |
| Grants.GrantEffect | src/events/consumer.ts:100-110 | Afterwards the user holds the badge and the catalog has it. One audit row (0 XP, `badge:<code>`, the reference) is added only for a new grant. Users and events are untouched. |
| Grants.GrantTwice | src/events/consumer.ts:100-110 | Granting twice gives one grant and one audit row. |
| Grants.GrantKeepsKeysFresh | src/events/consumer.ts:109 | Audit rows carry no XP, so grants keep the ledger invariant. |
| Grants.GrantKeepsLedgerSums | src/events/consumer.ts:109 | No user's ledger sum changes with a grant. |
| Grants.GrantAllEffect | src/events/consumer.ts:81-95 | After granting a list, the user holds each code and the catalog has it. Earlier grants and catalog rows stay, and users and events are untouched. |
| Grants.GrantAllIdempotent | src/events/consumer.ts:79-95 | Granting the same list again, with any reference, changes nothing. |
| Grants.FiredCodesStable | src/events/consumer.ts:79-95 | The rules fire the same codes after their own grants, because grants change no user row. |
| Consumer.StartConsumer | src/events/consumer.ts:9-39 | With no URL, no attempt. Otherwise 1 to 10 attempts, stopping at the first success; it fails only after 10 failures. The wait after failed attempt k is 500·k ms, including after the tenth. |
| Consumer.WaitsBounded | src/events/consumer.ts:33 | Each wait is between 500 and 5000 ms, and n waits add up to 250·n·(n+1) ms. |
| Consumer.NoHashPointwise | src/events/consumer.ts:19 | A binding without `#` matches a routing key iff they have the same number of words and each word is equal or `*`. |
| Consumer.WrittenBindingMissesCourseCompleted | src/events/consumer.ts:19 | The binding as written routes `course.module.completed.v1` but not `course.completed.v1`. |
| Consumer.BindingsDeliverHandledTypes | src/events/consumer.ts:19 | With `course.completed.*` added, both event types the handler switches on reach the queue. |
| Consumer.ModuleXp | src/events/consumer.ts:65-66 | A module completion is worth 50 XP, or 150 exactly when it completes the course. |
| Consumer.StoreEvent | src/events/consumer.ts:46 | The event id is stored; an already stored row is kept as it was, and a new id gets the given row. |
| Consumer.Persist | src/events/consumer.ts:45-47 | The event id is stored with its type and time unless it already was; an already stored event is kept as it was. |
| Consumer.PersistIdempotent | src/events/consumer.ts:46 | Storing the same event id again keeps the first copy. |
| Consumer.AwardBadge | src/events/consumer.ts:100-110 | The consumer's grant is the audited grant with the event id as reference. |
| Consumer.EvaluateFixedBadges | src/events/consumer.ts:76-97 | The tables after the three rules are the audited grants of the fired codes, in rule order. |
| Consumer.OnMessage | src/events/consumer.ts:20-29 | A null message gets no settlement; any other gets exactly one. An unparsable body or an unreachable database means nack and no change. An event without a payload is stored; it is then nacked if its type is one of the two handled types, whose handlers read `payload.userId`, and acked otherwise. For an event with a payload the tables become `Handled(...)`, and the message is acked unless the publish for a nonzero module total fails. The cache gets the new total only for a module completion with a nonzero total. |
| Consumer.RedeliveryIdempotent | src/events/consumer.ts:45-74 | Redelivering a handled event changes nothing more and is acked. |
| Consumer.OtherTypesOnlyStored | src/events/consumer.ts:49-60 | Other event types are stored and acked and change nothing else. |
| Consumer.CourseCompletionAddsNoXp | src/events/consumer.ts:70-74 | A course completion changes no user row and no ledger sum. |
| Consumer.GrantAllLedgerSums | src/events/consumer.ts:109 | Granting a list of badges changes no ledger sum. |
| AutoBadges.AssignBadge | src/services/autoBadgesService.ts:4-11 | Returns true iff the grant is new. The tables become the audited grant with reference `manual-reprocess`. |
| AutoBadges.AssignEffect | src/services/autoBadgesService.ts:4-11 | A repeated grant changes only the catalog, and only when the row was missing. A first grant adds one grant and one row (0 XP, `badge:<code>`, `manual-reprocess`). A missing badge row is created as code/code. |
| AutoBadges.EvaluateUser | src/services/autoBadgesService.ts:13-26 | The tables after one user are the audited grants of the codes the fixed rules fire, in rule order. |
| AutoBadges.VisitedUsers | src/services/autoBadgesService.ts:36 | At most 1000 distinct users of the table are visited: all of them when there are fewer. |
| AutoBadges.Reprocess | src/services/autoBadgesService.ts:28-43 | With a non-empty id, that user alone and `processed` 1. Otherwise each visited user in turn, with `processed` equal to the number visited. |
| AutoBadges.ReprocessedAllKeepsUsers | src/services/autoBadgesService.ts:37-40 | A run changes no user row and removes no grant or catalog row. |
| AutoBadges.ReprocessedAllSettles | src/services/autoBadgesService.ts:37-40 | After a run, every visited user holds every badge its rules fire. |
| AutoBadges.ReprocessTwice | src/services/autoBadgesService.ts:28-43 | Reprocessing the same users again with unchanged facts adds no grant, no ledger row and no catalog row. |
| AutoBadges.ReprocessUserTwice | src/services/autoBadgesService.ts:29-31 | Reprocessing one user twice is the same as once. |
| SyncJob.Filter | src/services/leaderboardSyncJob.ts:19 | Keeps only rows with positive XP (NULL fails), all of them, and adds no row. |
| SyncJob.SortByXp | src/services/leaderboardSyncJob.ts:20 | The result is a permutation of the rows with XP not increasing. |
| SyncJob.SelectedMembers | src/services/leaderboardSyncJob.ts:14-21 | A row is returned by the query iff it is a ranking row with positive XP. |
| SyncJob.JobUsersOrdered | src/services/leaderboardSyncJob.ts:20-26 | One user per positive row, each with positive XP, highest XP first. |
| SyncJob.JobUsersSound | src/services/leaderboardSyncJob.ts:23-26 | The i-th user passed is the i-th selected row, with that row's XP. |
| SyncJob.JobUsersComplete | src/services/leaderboardSyncJob.ts:19-29 | Every positive row is passed to the sync with its own XP. |
| SyncJob.JobKeys | src/services/leaderboardSyncJob.ts:19-29 | After a successful job the cache holds exactly the users with positive ranking XP. |
| SyncJob.SyncLeaderboardJob | src/services/leaderboardSyncJob.ts:9-36 | A database or cache failure is reported and leaves the cache unchanged. Otherwise the cache is rebuilt from the job's users and their number is returned. |
| SyncJob.ScheduledRun | src/services/leaderboardSyncJob.ts:47-56 | A scheduled run never fails: the cache is rebuilt when both stores are up and left as it was otherwise. |
| SyncJob.EnvNumber | src/services/leaderboardSyncJob.ts:43 | `Number` of an unset variable is NaN and of the empty string is 0. |
| SyncJob.SyncIntervalHours | src/services/leaderboardSyncJob.ts:43 | The hours are never 0; they are 24 exactly when the value is unset, 0, non-numeric or 24. |
| SyncJob.DefaultInterval | src/services/leaderboardSyncJob.ts:43-44 | Unset, empty, "0" or non-numeric values give 86,400,000 ms. |
| SyncJob.ConfiguredInterval | src/services/leaderboardSyncJob.ts:43-44 | A positive whole number of hours n gives n × 3,600,000 ms. |
| SyncJob.TimerPeriodMs | src/services/leaderboardSyncJob.ts:52-56 | The period the timer runs at is always between 1 and 2^31 − 1 ms. |
| SyncJob.PeriodOfConfiguredHours | src/services/leaderboardSyncJob.ts:43-56 | A configured count of 1 to 596 hours is the period. A negative count, or 597 hours or more, makes the job run every millisecond. |
| SyncJob.DefaultPeriod | src/services/leaderboardSyncJob.ts:43-56 | Unset, empty, "0" or non-numeric values run the job every 86,400,000 ms. |
| BadgeRepository.NullIfFalsy | src/repositories/badgeRepository.ts:41-43 | `x \|\| null`: undefined and "" become NULL, and any other string is kept. |
| BadgeRepository.InsertDefaults | src/repositories/badgeRepository.ts:39-44 | An absent or empty description, criterion or icon URL is stored as NULL, and any other value is stored as given. Absent or 0 points are stored as 0, other points as given. The name is kept. |
| BadgeRepository.InsertBadge | src/repositories/badgeRepository.ts:31-49 | A new code inserts the defaulted row and returns it. A duplicate code is a unique violation, and any other database error is returned; in both cases nothing changes. |
| BadgeRepository.FindBadge | src/repositories/badgeRepository.ts:52-62 | The row for the code, or null exactly when there is none. |
| BadgeRepository.PushIfDefined | src/repositories/badgeRepository.ts:83-86 | A defined field adds `column = $k` and its value and advances k. An undefined field adds nothing. |
| BadgeRepository.PushField | src/repositories/badgeRepository.ts:83-102 | Each field block keeps the items consecutively numbered from $1, with values in the same order. |
| BadgeRepository.BuildSetClause | src/repositories/badgeRepository.ts:79-102 | The k-th SET item is `column = $k` for the k-th defined field and the k-th value is that field's. The counter ends one past the last placeholder. |
| BadgeRepository.AssignmentsInColumnOrder | src/repositories/badgeRepository.ts:83-102 | The items name columns in the order nome, descricao, criterio, icone_url, pontos_necessarios, each at most once, and a column exactly when its field is defined. |
| BadgeRepository.UpdateBadge | src/repositories/badgeRepository.ts:77-121 | With no defined field, no query is issued and the result is `findBadge`. Otherwise `atualizado_em = now()` is appended and the WHERE uses `$(n+1)` bound to the code, so the placeholders match the values. The row, if any, gets the assignments. |
| BadgeRepository.UpdateDoesWhatIsAsked | src/repositories/badgeRepository.ts:111-118 | Executing the built SET list replaces exactly the defined fields and keeps the others. |
| BadgeRepository.DeleteBadge | src/repositories/badgeRepository.ts:124-140 | Every grant of the code and then its catalog row are removed; the result is true iff a row existed. |
| BadgeRepository.AwardBadgeToUser | src/repositories/badgeRepository.ts:171-180 | The grant set gains the pair and is otherwise unchanged, so a repeat is a no-op. |
| BadgeRepository.UserHasBadge | src/repositories/badgeRepository.ts:159-168 | True exactly when the pair is in the grant set. |
| BadgeService.CreateFailure | src/services/badgeService.ts:18-23 | A unique violation (23505) becomes HTTP 409 `badge_ja_existe`, and any other error is rethrown unchanged. |
| BadgeService.CreateBadge | src/services/badgeService.ts:14-25 | A new code is inserted and returned, and a duplicate gives 409 with nothing changed. Any other database error is rethrown with nothing changed. |
| BadgeService.GetBadge | src/services/badgeService.ts:28-34 | The badge when the code exists, and 404 `badge_nao_encontrado` exactly when it does not. |
| BadgeService.UpdateBadge | src/services/badgeService.ts:41-49 | An unknown code gives 404 and changes nothing. Otherwise the row becomes the request applied to it and is returned. |
| BadgeService.DeleteBadge | src/services/badgeService.ts:52-60 | An unknown code gives 404 and changes nothing. Otherwise the badge and its grants are removed and the success message is returned. |
| BadgeService.CreateThenGet | src/services/badgeService.ts:14-34 | A created badge reads back as the inserted row. |
| BadgeService.DeleteThenGet | src/services/badgeService.ts:52-59 | After a delete the badge reads as 404 and nobody holds it. Other badges and grants are kept. |
| Schemas.Known | src/validation/gamificationSchemas.ts:3-10 | Parsing keeps exactly the declared keys of the body, with their values. |
| Schemas.ParseCreate | src/validation/gamificationSchemas.ts:3-10 | Accepted iff valid: non-empty code and name, optional strings, icon a URL or "", points an integer ≥ 0. The result has only declared keys, includes code and name, and keeps every declared key of the body. |
| Schemas.ParseUpdate | src/validation/gamificationSchemas.ts:12-18 | Accepted iff every present field is valid (a present name non-empty). The result keeps exactly the declared keys. |
| Schemas.ParseCreateIdempotent | src/validation/gamificationSchemas.ts:3-10 | A parsed creation body parses to itself. |
| Schemas.ParseUpdateIdempotent | src/validation/gamificationSchemas.ts:12-18 | A parsed update body parses to itself. |
| Schemas.CreateFieldsUpdate | src/validation/gamificationSchemas.ts:3-18 | A valid creation without its code is a valid update. |
| Schemas.EmptyUpdateValid | src/validation/gamificationSchemas.ts:12-18 | The empty update is accepted and parses to the empty body. |
| Schemas.EmptyIconAccepted | src/validation/gamificationSchemas.ts:8 | An empty icon string is accepted whatever the URL check says. |
| Schemas.CriterionUnchecked | src/validation/gamificationSchemas.ts:7 | Any criterion string is accepted; its `kind:threshold` form is not checked. |
| Schemas.CreateRejects | src/validation/gamificationSchemas.ts:4-9 | A missing code, an empty name, or fractional or negative points are rejected. |

## Left out

- Floating point: XP deltas, totals, Redis scores and `parseFloat` are modelled as integers rendered in decimal; fractional or non-finite XP is not modelled.
- `Number(...)` accepts more forms (hex, exponents, surrounding spaces) than the decimal integer literals `SyncJob.EnvNumber` reads; such values fall to the default here.
- Concurrency and atomicity: the check-then-insert idempotency of `adjustXp` and of the grant functions is modelled as one sequential step. Two concurrent deliveries of the same key are not modelled.
- Timers and async ordering: `setTimeout` waits are returned as a list, and `setInterval` is modelled as one scheduled run with its period computed, including Node.js's replacement of an out-of-range delay by 1 ms. The fire-and-forget ZADD is applied or not according to a `cacheUp` parameter.
- Broker and network I/O: connecting, publishing, acking and Redis availability are boolean parameters. The publisher itself is not part of this model.
- Database failures other than the ones the code distinguishes (unique violation, unreachable database, NaN bound as a bigint) are not modelled as separate paths.
- `Consumer.OnMessage` treats the database as reachable for the whole handling or not at all. A failure halfway through a handler (after some grants) is not modelled.
- `SyncJob.SyncLeaderboardJob` and `Leaderboard.Board.SyncFromDb` model a failed pipeline as leaving the set unchanged. A pipeline that fails after applying some of its commands is not modelled.
- Redis errors in `getTopRanking` and `getUserRank` (logged and rethrown) are not modelled; the reads always succeed.
- String order: PostgreSQL `ORDER BY codigo` and Redis member order are taken as code-point order. Other database collations are not modelled.
- `AutoBadges.VisitedUsers`: `select id … limit 1000` fixes no row order. The model visits users in code-point order of their ids.
- `SyncJob.SortByXp`: ties in `ORDER BY xp_total DESC` keep table order here; the database may return tied rows in any order.
- The default argument `limit = 50` of `getTopRanking` belongs to the callers; `Leaderboard.Board.GetTopRanking` takes the limit explicitly.
- Catalog reads that are plain SELECTs with no logic (`listBadges`, `getUserBadges`, `getUserBadgesList`) are not modelled.
- The ranking table read by the sync job is maintained by a database function that is not part of this model; its rows are an input.
- Zod's URL check is the uninterpreted predicate `isUrl`. JSON values other than strings and numbers are one case (`Other`), and error messages are not modelled.
- `Consumer.OnMessage`: a parsed body is either an event with a payload holding a string `userId` or an event with no payload at all. A payload without a string `userId`, and an event whose `eventId`, `type` or `occurredAt` is missing or not a string, are not modelled; what the database then does with an undefined column is not part of this model.
- `Consumer.ModuleXp`: `completedCourse` is read as a boolean. JavaScript tests its truthiness, so a truthy non-boolean value (say the string "false") also gives the bonus; such payloads are not modelled.
- Logging is not modelled.
- `Criteria.EvaluateCriterion`: the text of the database error for a NaN category threshold is a fixed string; only its presence matters.

## Findings

| source | as written | input that shows it | evidently intended | confidence | as-written member | corrected member |
|---|---|---|---|---|---|---|
| src/events/consumer.ts:19 | The queue is bound only with `course.*.completed.*`. In a topic exchange `*` stands for exactly one word, so the three-word key `course.completed.v1`, which the handler switches on, is never delivered. Course-completion badges are then never evaluated. | An event published with routing key `course.completed.v1` | Bind the queue so that both handled types arrive, e.g. also with `course.completed.*` | high (proved over topic matching; not executed) | Consumer.WrittenBindingMissesCourseCompleted | Consumer.BindingsDeliverHandledTypes |
