# Empyrean backend: verified model

Empyrean collects air-quality readings from sensor nodes over MQTT, stores and aggregates them,
raises alerts, and serves an API. This project models the stateful protocols and the exact
arithmetic of that backend in Dafny and proves what they guarantee over every run and every input.

Each protocol appears twice. A module of functions describes it as a state machine (`World`,
`Event`, `Step`, `Run`) and holds the theorems about all runs; a class holds the handler or task as
a method that changes its fields in place. Each method is tied to the state machine: it is a step of
it, the next request of its trace, or, for `update_settings`, the end of a run of its statements.
`dafny verify dfyconfig.toml` checks everything.

| file | subject |
|---|---|
| `Common.dfy` | optional values, filters, sensor values |
| `Aggregates.dfy`, `HourlyRollup.dfy`, `RollupDatabase.dfy` | readings, SQL aggregates, the incremental hourly roll-up with clamp, redelivery and retention |
| `TokenLifecycle.dfy`, `TokenClaim.dfy`, `AuthStore.dfy` | refresh and password-reset tokens: rotation, replay, revocation, cleanup; the claim at statement level |
| `RetryQueue.dfy`, `AlertPublisher.dfy` | the bounded alert retry queue |
| `Subscriptions.dfy`, `NodeLimiter.dfy`, `MqttClient.dfy` | subscription and readiness state, per-node limiter |
| `CircuitBreaker.dfy` | the rolling-window breaker against the full failure log |
| `AlertTable.dfy`, `Thresholds.dfy` | alert escalation and acknowledgement; the threshold pair under concurrent PATCHes |
| `RateLimit.dfy` | the fixed-window API limiter |
| `FuzzyMembership.dfy`, `FuzzyRules.dfy`, `Tsukamoto.dfy`, `FuzzyScore.dfy` | the fuzzy engine and the range of its score |
| `FuzzyOrder.dfy`, `FuzzyRamp.dfy`, `FuzzyBounds.dfy`, `FuzzyDips.dfy`, `FuzzyMixed.dfy` | how the score follows PM2.5: order of the plateaus, size of the dips |
| `Aqi.dfy` | the EPA index from PM2.5 and PM10 |

## Where the code and its documentation differ

The model follows the code.

- The hourly roll-up is exact for commit delays of up to one hour and not a microsecond more
  (`HourlyRollup.SlackIsExact`): the 24 h look-back is measured from the newest rolled-up hour,
  which lies up to an hour behind the last run. The task time limits keep the delay far below that.
- `publish_alert` is documented as never raising; a direct `publish` that raises does escape it, and
  that alert is neither sent nor queued (`mqtt/publisher.py:193-232`). The ledger of
  `RetryQueue.EveryAlertAccounted` counts it as lost.
- The comment at `mqtt/client.py:579-582` says that backlog bypasses the limiter. It is never dropped
  by it, but the limiter is consulted first, so a backlog message still counts as its node's last one.
- `data_retention_cleanup` refuses to run when the configured retention is not positive, even if the
  setting is valid (`tasks/aggregation.py:168-176`), and a setting that is numeric but not positive
  makes it refuse instead of falling back (`tasks/aggregation.py:134-153`).
- `PATCH /admin/settings` locks the two threshold rows, but a row that does not exist yet cannot be
  locked. `Thresholds.OrderedExactlyWhenSafe` says exactly when concurrent PATCHes keep the pair
  ordered; with the default fallbacks that is when both rows exist. The PATCH reads stored texts with
  `int()` and `check_thresholds` with `float()`, so a stored fraction can give alerts an inverted
  pair; `Thresholds.AlertsSeeOrderedPair` says exactly when it cannot.
- The PM10 table leaves gaps between its bands, and the index falls by one point just above 354 and
  just above 424 (`Aqi.Pm10FallsExactly`).
- The fuzzy score falls between PM2.5 plateaus by up to 2500/280 points, 8.93 after rounding, and at
  no temperature and humidity by more (`FuzzyMixed.DipAnywhere`, `FuzzyMixed.DipIsExact`);
  `tests/test_fuzzy.py:213-222` calls that about 9.
- A reading whose device clock is more than 24 h ahead is stored at the server's time; redelivered
  once its timestamp has come within 24 h, it is stored a second time
  (`HourlyRollup.RedeliveryOfFastClock`).
- A SUBACK that arrives before the worker has registered the id of its subscribe() is ignored
  (`mqtt/client.py:467-471`), so a re-subscribe pass loses exactly the topics it happens to
  (`Subscriptions.GrantedUnlessOvertaken`, `Subscriptions.OvertakenGrantIsLost`); the flag then stays set
  and the next pass asks again (`Subscriptions.PassOutcome`, `Subscriptions.MissingMeansFlagged`).

## Model

| member | source | states |
|---|---|---|
| HourlyRollup.IncrementalEqualsGroupBy | tasks/aggregation.py:58-128 | From empty roll-ups, after any interleaving of deliveries, runs and purges (nondecreasing clock, commits at most 1 h after their time was parsed), a run leaves hourly_agg equal to the full GROUP BY on every hour before its end that retention never reached, and no later hour |
| HourlyRollup.ScheduleIndependence | tasks/aggregation.py:114-128 | Two schedules of runs around the same deliveries and purges leave the same readings and the same roll-ups above the retention horizon after a final run at the same time |
| HourlyRollup.RedeliveryChangesNothing | tasks/process_reading.py:129-144 | For a reading that arrives twice, with or without a device timestamp and with any run in between: the second arrival changes neither table if and only if its node is inactive by then, or both arrivals are stored at the same time and retention has not passed it, or the node already has a row at the second one's time; retention cannot have passed it if it was parsed after everything in between |
| HourlyRollup.SameStoredTime | tasks/process_reading.py:129-144 | Two arrivals of one reading are stored at the same time if and only if its timestamp is within 24 h of the clock both times, or both are parsed at one instant |
| HourlyRollup.RedeliveryExactly | tasks/process_reading.py:129-144 | Where no third reading is stored under the second arrival's time and node: a second arrival changes neither table if and only if its node is inactive by then, or both arrivals are stored at one time and no purge in between had a cut-off above it |
| HourlyRollup.RedeliveryOfFastClock | tasks/process_reading.py:129-144 | A device 25 h ahead, delivered at 0 and again at 2 h: two rows, although the timestamp is within 24 h at the second delivery |
| HourlyRollup.SlackIsExact | tasks/aggregation.py:114-121 | Every run leaves every kept hour exact for all commit delays up to d if and only if d is at most one hour |
| HourlyRollup.RunOutcome | tasks/aggregation.py:100-128 | One run keeps the invariant and makes all kept hours before its end exact, each row describing its own group column by column |
| HourlyRollup.StartBeforeEnd | tasks/aggregation.py:118-125 | With a clock that does not go back, a run's window starts on the hour and before its end, so the early return is never taken |
| HourlyRollup.RunKeepsInv | tasks/aggregation.py:41-131 | The invariant that links watermark, look-back and clamp holds after every feasible run of events |
| HourlyRollup.ParseTime | tasks/process_reading.py:129-144 | The stored time is within 24 h of the server's clock; it is the device's timestamp whenever that is within 24 h, and otherwise the server's clock |
| HourlyRollup.Watermark | tasks/aggregation.py:118-120 | The greatest rolled-up hour, none for an empty table |
| HourlyRollup.Earliest | tasks/aggregation.py:103-112 | The least hour that holds a reading before the end of the run |
| HourlyRollup.CutoffOf | tasks/aggregation.py:134-189 | A purge is refused exactly for a configuration that is not positive or a numeric setting below one day; otherwise the cut-off lies whole days before now: as many as the setting has, rounded down, when it is numeric, and the configured number when it is not |
| HourlyRollup.CutoffIsGreatest | tasks/aggregation.py:185-201 | After any run the retention horizon is the greatest cut-off among its purges, and there is none before the first |
| Aggregates.SummaryMeaning | tasks/aggregation.py:76-86 | Each average is null exactly when its own field is null throughout the group, and otherwise is that field's total over the number of its values, between two of them; the extremes are values none exceeds; the counts are those of the anomalies and of the rows |
| Aggregates.GroupMeaning | tasks/aggregation.py:71-90 | A group holds every copy of the readings of its node within its hour, and nothing else; a bucket exists exactly when its group is not empty |
| Aggregates.AverageLiesBetweenExtremes | tasks/aggregation.py:79-83 | MIN, AVG and MAX of a group's index agree: all null or ordered, and the extremes occur |
| Aggregates.SummaryIgnoresRowOrder | tasks/aggregation.py:69-86 | The aggregates of a group do not depend on the order of its rows |
| RollupDatabase.Database.ProcessReading | tasks/process_reading.py:275-308 | Is the delivery step; stores the reading, with its measures, exactly when its node is known and active and no row has its time and node |
| RollupDatabase.Database.HourlyAggregate | tasks/aggregation.py:41-131 | Afterwards the table equals the full GROUP BY on every kept hour before the end: a row exactly where there are readings, each column the aggregate of its own field over just those; the readings are untouched, and the count is that of the groups in the window |
| RollupDatabase.Database.WindowStart | tasks/aggregation.py:100-121 | None exactly when no reading lies before the end; otherwise on the hour, not before the earliest hour with a reading, at most 24 h behind every rolled-up hour, and later than that earliest hour only if it is 24 h behind one |
| RollupDatabase.Database.Upsert | tasks/aggregation.py:61-98 | Afterwards every bucket of the window that has readings holds the summary of all its readings, every other row is untouched, and the count is that of those buckets |
| RollupDatabase.Database.DataRetentionCleanup | tasks/aggregation.py:157-228 | Does nothing when it refuses; otherwise keeps exactly the readings and roll-ups of the retained days before now, every copy, and scrubs the accounts stale since then; counts the three |
| RollupDatabase.Database.Purge | tasks/aggregation.py:187-201 | Keeps exactly what is at or after the cut-off, in both tables, and counts both deletions |
| RollupDatabase.Database.AnonymiseAccounts | tasks/aggregation.py:203-222 | Scrubs exactly the inactive accounts untouched since the limit and not scrubbed before: name, address, password, preferences and last login; leaves the others alone, and leaves none to scrub |
| RollupDatabase.ScrubbedApart | tasks/aggregation.py:209-215 | No two scrubbed accounts get the same name or address |
| TokenLifecycle.ReplayKillsLineage | api/auth.py:334-414 | Once a revoked token is presented, nothing rotated from it, before or later, can ever be rotated again |
| TokenLifecycle.ReplayIsDetected | api/auth.py:356-384 | A rotated token presented again before its expiry is recognised as a replay, whatever happened in between, cleanups included |
| TokenLifecycle.TokenAccounting | api/auth.py:214-238 | After any run from empty tables, a user's live refresh tokens never exceed the sessions opened since the last revoke-all, an inactive user has none, and at most one reset token is unredeemed |
| TokenLifecycle.RunKeepsInv | api/auth.py:327-414 | Ownership, families, activity, accounting and single reset token survive every run |
| TokenLifecycle.StepWeakens | api/auth.py:338-351 | Apart from the token it mints, a step only revokes or deletes refresh tokens |
| TokenLifecycle.RedeemedOnce | api/auth.py:633-685 | A redeemed reset token is never redeemable again, and redeeming it leaves its user no live refresh token |
| TokenLifecycle.NewLinkSupersedes | api/auth.py:572-594 | After a new reset link, no earlier link of that user is ever redeemable |
| TokenLifecycle.LogoutIsFinal | api/auth.py:436-446 | After a logout no run ever accepts the token again, and until its expiry presenting it is answered as a replay |
| TokenLifecycle.RegistrationWorks | api/auth.py:246-278 | A new account logs in with its own password only and starts with one usable token; a taken name changes nothing |
| TokenLifecycle.ReactivationWorks | api/auth.py:117-128 | Reactivating a soft-deleted account restores everything but its sessions |
| TokenLifecycle.DescentIsRotation | api/auth.py:394-408 | The descent that `ReplayKillsLineage` speaks of is rotation: a new token descends from the one it replaced and from all that one descends from |
| TokenLifecycle.SessionsAreOpened | api/auth.py:214-238 | The sessions that `TokenAccounting` counts are the successful registrations and logins since the last replay, reset, password change or deletion |
| TokenLifecycle.CleanupKeeps | tasks/aggregation.py:248-261 | The sweep deletes no unexpired row and changes none, keeps at most ten expired ones per user, none past the grace period, and with each kept one every newer one within that period |
| TokenClaim.OneTokenOnePair | api/auth.py:338-351 | However the statements of concurrent refreshes interleave, with rollbacks, revocations and deletions, one refresh token yields at most one new pair |
| TokenClaim.ClaimIsExclusive | api/auth.py:338-351 | While a claim is open nobody else claims, revokes or deletes the row, and its rollback undoes it |
| TokenClaim.UninterruptedIsSerial | api/auth.py:338-410 | Claim and commit without interruption are the serial refresh transaction, counted as a pair exactly when it rotates |
| AuthStore.StepDbIsStep | api/auth.py:327-417 | The tables after a handler do not depend on the recorded history, so the methods below are steps of the runs above |
| AuthStore.Store.IssueAuthTokens | api/auth.py:227-238 | With a fresh token, the user's live tokens grow by exactly that one, valid for the configured days up to a second; nobody else's change, no existing row changes, and the token can be claimed at once |
| AuthStore.Store.Login | api/auth.py:282-323 | Succeeds exactly for an existing, active user with the right password, who then has one new session; a failure changes nothing |
| AuthStore.Store.Refresh | api/auth.py:327-417 | Claims exactly an unrevoked, unexpired token; rotates it exactly for an active user, whose new token differs in nothing but its identity and times; answers a revoked one by revoking all of its user's, and refuses the rest without a change |
| AuthStore.Store.Logout | api/auth.py:423-446 | Afterwards the token is not live: its row, if there is one, is revoked and otherwise as before, and nothing else changes |
| AuthStore.Store.RevokeSessions | api/auth.py:673-680 | The loop revokes all of a user's tokens and nobody else's |
| AuthStore.Store.ForgotPassword | api/auth.py:554-594 | For an active user only: every unused link of that user is used up, the new one is redeemable until its expiry and no later, and the links of others stay |
| AuthStore.Store.ResetPassword | api/auth.py:619-685 | Succeeds exactly for an unused, unexpired token of an active user, and then changes that user's password, revokes that user's tokens, spends the link and touches nothing else; the new password logs in |
| AuthStore.Store.ChangePassword | api/profile.py:145-199 | Succeeds exactly for an existing user with the right current password, and then changes it to the new one and revokes that user's tokens, nothing else |
| AuthStore.Store.DeleteProfile | api/profile.py:225-253 | Succeeds exactly for an existing user, who is then inactive and without live refresh tokens; nothing else changes |
| AuthStore.Store.RefreshTokenCleanup | tasks/aggregation.py:232-269 | Deletes exactly the expired rows that are past the grace period or have ten newer expired ones of their user |
| AuthStore.Store.PasswordResetTokenCleanup | tasks/aggregation.py:280-298 | Deletes exactly the used and the expired rows, none of which could be redeemed any more |
| RetryQueue.RetryConserves | mqtt/publisher.py:141-176 | For every alert, old queue = published + dropped + new queue, also when a publish raises in the middle of a batch |
| RetryQueue.UntouchedIsSuffix | mqtt/publisher.py:159-176 | What a raising publish leaves untouched is the end of the batch, in order; without one nothing is left |
| RetryQueue.RetriedInOrder | mqtt/publisher.py:141-176 | After a retry call the queue is what the call did not reach, in its old order, then the failed entries in order with one more attempt, and nothing else: the bound discards nothing |
| RetryQueue.FateFollowsAnswers | mqtt/publisher.py:147-172 | The entries tried get the broker's answers in turn: the accepted are published, the others fail with one more attempt, a raise is the last answer; what is dropped has had five attempts or cannot be encoded |
| RetryQueue.RetrySpends | mqtt/publisher.py:147-172 | Attempts stay within 5, and a retry of a nonempty queue strictly lowers the total of the attempts left, whatever the broker does |
| RetryQueue.RetriesDrain | mqtt/publisher.py:124-176 | Without new alerts the queue is empty after as many retry calls as that total |
| RetryQueue.PublishesDrain | mqtt/publisher.py:234-243 | After as many publishes that get through as that total the queue is empty, whatever their retries meet |
| RetryQueue.EveryAlertAccounted | mqtt/publisher.py:193-258 | After any run of publishes, an alert handed over is in exactly one place (delivered, dropped, evicted, lost to a raising direct publish, queued) and reached the broker at most six times |
| RetryQueue.LedgerMoves | mqtt/publisher.py:193-258 | Which call moves which of these accounts: deliveries by acceptances only, losses by a raising direct publish only, evictions by a full queue only |
| AlertPublisher.Publisher.QueueFailedMessage | mqtt/publisher.py:246-258 | Appends the alert with attempt 0; a full queue gives up its oldest entry first |
| AlertPublisher.Publisher.PopBatch | mqtt/publisher.py:141-144 | Takes the first ten entries, or all, and leaves the rest |
| AlertPublisher.Publisher.PublishBatch | mqtt/publisher.py:146-172 | The loop over a popped batch publishes, drops and re-queues exactly as the batch's fate says, and returns the entries a raise left untouched |
| AlertPublisher.Publisher.RetryFailedMessages | mqtt/publisher.py:124-176 | The new queue is the untouched rest of the batch, the rest of the queue, then the failed entries with one more attempt; without a client nothing changes |
| AlertPublisher.Publisher.PublishAlert | mqtt/publisher.py:193-243 | A publish that gets through is followed by a retry of the queue; without a client or connection, or on a bad code, the alert joins the queue, which gives up its oldest entry if full; one that cannot be encoded or whose publish raises leaves the queue alone; raises exactly when the direct publish does |
| Subscriptions.NeverSilentlyDeaf | mqtt/client.py:436-543 | In every interleaving of callbacks, worker statements and the broker, a connected client has each topic granted, awaits its SUBACK under a registered id, or has the failure flag set; it is ready exactly when both required topics are granted |
| Subscriptions.GrantedByBroker | mqtt/client.py:467-481 | In every interleaving, a topic counts as granted if and only if, since the last disconnect, a SUBACK with a code below 128 answered an id pending for it |
| Subscriptions.RunKeepsInv | mqtt/client.py:436-543 | The invariant behind it survives every interleaving |
| Subscriptions.RetryRecovers | mqtt/client.py:520-543 | From every reachable connected state whose flag is set and whose retry is due: every schedule in which the session lasts, each subscribe succeeds and each SUBACK is a grant for a registered id, and which ends with the pass done and nothing in flight, ends with all topics granted and the client ready, and with the flag down unless it was up with nothing missing |
| Subscriptions.GrantedUnlessOvertaken | mqtt/client.py:467-481 | One whole re-subscribe pass from any reachable state, topic by topic, while the session lasts, subscribes succeed, every SUBACK is a grant and no further pass starts: once everything in flight is answered, a topic is granted if and only if it was awaited before the pass or its SUBACK did not arrive before its id was registered |
| Subscriptions.PassOutcome | mqtt/client.py:481-487 | Such a pass ends ready if and only if neither required topic was lost that way, and a flag that was up for a missing topic stays up if and only if some topic was |
| Subscriptions.RecoveryIsPossible | mqtt/client.py:520-543 | Such a schedule exists whenever a topic is missing and the worker is between passes, where alone it ticks |
| Subscriptions.MissingMeansFlagged | mqtt/client.py:472-483 | In every interleaving, a connected client with nothing in flight that misses a topic has its flag set for the next pass |
| Subscriptions.OvertakenGrantIsLost | mqtt/client.py:467-471 | An instance of the two, from a connect whose first subscribe failed: the pass ends with that topic missing, not ready, and the flag still set |
| Subscriptions.UninterruptedPass | mqtt/client.py:536-543 | The worker's separate statements add up to the whole method when no callback intervenes |
| Subscriptions.UninterruptedRetry | mqtt/client.py:520-543 | With the tick and its throttle they are the whole method |
| MqttClient.SubscriptionState.OnConnect | mqtt/client.py:436-454 | Registers exactly the ids of the accepted subscribes and sets the flag exactly when one failed; nothing for a refused connection |
| MqttClient.SubscriptionState.OnSubscribe | mqtt/client.py:456-502 | For a pending id: a missing code or one from 128 on grants nothing and sets the flag; one below grants the id's topic, makes the client ready once both required topics are granted, and clears the flag once all are. Unknown ids change nothing |
| MqttClient.SubscriptionState.OnDisconnect | mqtt/client.py:504-518 | Forgets everything of the session but the retry time |
| MqttClient.SubscriptionState.MaybeRetrySubscribes | mqtt/client.py:520-543 | Unless flagged and due, nothing; else the next pass is due in 5 s and, while connected, exactly the ids of the missing topics' accepted subscribes are registered; grants nothing by itself |
| NodeLimiter.PassesAreSpaced | mqtt/client.py:145-158 | Two messages of one node that pass are at least 0.5 s apart, unless at least 9,000 other nodes passed since the first |
| NodeLimiter.LimitedForCause | mqtt/client.py:145-158 | And a message is held back only if an earlier one of its node passed less than 0.5 s before |
| NodeLimiter.FreshAreSpaced | mqtt/client.py:583-589 | The same for fresh messages that reach the worker queue |
| NodeLimiter.AdmittedMeaning | mqtt/client.py:145-158 | The nodes counted as passed since a time are exactly those with an arrival at that time or later that the limiter let through |
| NodeLimiter.NewestSurvives | mqtt/client.py:152-157 | The table never holds more than 10,000 nodes, and the message just let through stays on record |
| NodeLimiter.PrunedSize | mqtt/client.py:153-157 | Pruning leaves exactly 9,000 distinct nodes |
| NodeLimiter.PruneKeepsNewest | mqtt/client.py:155-157 | No evicted node was seen later than a kept one |
| MqttClient.Limiter.NodeRateLimited | mqtt/client.py:145-158 | Limits exactly a node on record less than 0.5 s ago; otherwise records it, or evicts when the table has outgrown its cap |
| MqttClient.Limiter.Evict | mqtt/client.py:153-157 | Sorting and deleting key by key gives the pruned table |
| MqttClient.Limiter.OnMessage | mqtt/client.py:545-615 | Queues a message exactly when it passes size, encoding, id and limiter (which never drops backlog) and the worker queue has or gets room; counts an overflow exactly for a wanted message that is not queued; only node messages touch the table |
| MqttClient.Limiter.Enqueue | mqtt/client.py:593-615 | Appends behind what is left of the queue if there is room or the worker takes something during an attempt, else drops this message and counts it; the queue never exceeds its bound and keeps its order |
| CircuitBreaker.CountsTheWindow | celery_app.py:57-74 | After any run, a check counts exactly the failures logged since the last reset in the last 300 s, so TTL and key deletion are unobservable; it refuses exactly from ten on |
| CircuitBreaker.LogIsHistory | celery_app.py:190-220 | The log it is compared with holds exactly the failures recorded, at their second, while the breaker was on and Redis up, since their task's last reset |
| CircuitBreaker.Recloses | celery_app.py:109-134 | A circuit whose task has not failed for 300 s is closed again |
| CircuitBreaker.LegacyStartsClean | celery_app.py:117-123 | Keys of the old type start their windows empty |
| CircuitBreaker.RunKeepsInv | celery_app.py:57-74 | The sorted set stays faithful to the log at every step |
| CircuitBreaker.Breaker.CircuitForTask | celery_app.py:97-138 | Is the check step; closed exactly when disabled, Redis is down, or fewer than ten failures are in the window |
| CircuitBreaker.Breaker.RecordTaskFailure | celery_app.py:190-220 | Adds the failure to its task's log at the present second; nothing when disabled or Redis is down |
| CircuitBreaker.Breaker.ResetCircuitBreaker | celery_app.py:223-250 | Forgets the window and log of one task or of all; nothing when Redis is down |
| CircuitBreaker.Breaker.ToggleCircuitBreaker | celery_app.py:253-257 | Changes the switch and no window |
| AlertTable.TableIsFold | tasks/alerts.py:156-180 | In every interleaving of upserts and acknowledgements the table is a fold of its history: one open row per node, showing the current breach |
| AlertTable.OneOpenAlert | tasks/alerts.py:166-177 | At most one unacknowledged row per node after any run |
| AlertTable.CurrentIsFirstMaximum | tasks/alerts.py:126-130 | The open row is the first breach at the maximum severity since the last acknowledgement, and there is none exactly when nothing breached |
| AlertTable.RiseIsNotification | tasks/alerts.py:179-180 | The upsert reports True exactly when it adds a notification to the history |
| AlertTable.AtMostTwoNotifications | tasks/alerts.py:292-343 | With the severities warning and critical, at most two notifications per node and epoch, and at least one while an alert is open |
| AlertTable.NotificationsBounded | tasks/alerts.py:145-147 | With any severities, at most one notification per rank reached |
| AlertTable.ClassificationIsMonotone | tasks/alerts.py:296-301 | A higher index never classifies lower; some index is a mere warning exactly when warning is below critical |
| AlertTable.PublishesWhatIsNew | tasks/alerts.py:303-325 | What a run publishes was not yet open at that severity for its node, and every severity newly open for a node was published |
| AlertTable.Alerts.UpsertAlert | tasks/alerts.py:117-180 | Inserts one row if none is open for the node, else replaces the open breach exactly if it is lower; touches no other row; True exactly on a strict rise over the history's current breach |
| AlertTable.Alerts.AcknowledgeAlert | api/alerts.py:128-139 | Stamps an open alert with user and time, leaves an acknowledged one and all others alone; False exactly for an unknown id |
| AlertTable.Alerts.CheckThresholds | tasks/alerts.py:242-356 | Afterwards every fresh index at a threshold has an alert of that severity or higher open; changed rows show a fresh reading's value with the highest threshold it reaches; publishes exactly what was not open before and emails the critical ones; disabled, it does nothing |
| Thresholds.OrderedExactlyWhenSafe | api/admin.py:308-402 | From an ordered pair, every interleaving of concurrent PATCHes keeps it ordered if and only if both rows exist or the missing row's fallback is at the edge of 0..500 |
| Thresholds.OrderedExactlyWithBothRows | api/admin.py:335-366 | Away from those edges: if and only if both rows exist |
| Thresholds.RunKeepsInv | api/admin.py:343-366 | Locks and re-check keep the pair ordered in every safe interleaving |
| Thresholds.AlertsSeeOrderedPair | tasks/alerts.py:86-93 | From any ordered pair, every alert run reads an ordered pair in every interleaving if and only if concurrent PATCHes keep the pair ordered and the stored fractions lie on their own side of what PATCH accepts; without fractions the second part always holds |
| Thresholds.SettingsStore.UpdateSettings | api/admin.py:282-402 | Succeeds exactly for an empty body, or one within the schema's ranges and without nulls that passes both order checks; then each key holds the text of its value and every other row stays, each change is audited with the text before and after; else nothing changes; keeps an ordered pair ordered |
| Thresholds.HandlerIsRun | api/admin.py:335-402 | A request that passed its pre-check and meets no lock runs to the patched settings if the re-check passes, else to the old ones |
| RateLimit.PassesExactly | api/rate_limit.py:180-186 | Exactly min(requests, limit) requests pass per endpoint, address and minute, for windows of at least 60 s |
| RateLimit.ExactForFullWindows | api/rate_limit.py:180-186 | That holds for every trace if and only if the window is at least 60 s |
| RateLimit.SlidingBound | api/rate_limit.py:217-240 | No interval of 60 s serves one client more than twice the limit |
| RateLimit.ResetIsEndOfMinute | api/rate_limit.py:136-138 | The advertised reset is the end of the bucket's minute |
| RateLimit.Limiter.Handle | api/rate_limit.py:217-250 | Is the next request of the trace and is served exactly as the trace says; advertises what is left; without Redis serves and counts a bypass |
| FuzzyMembership.TemperaturePartition | fuzzy/membership.py:68-83 | The three temperature memberships are nonnegative, sum to 1 and the outer two never overlap, for every real |
| FuzzyMembership.HumidityPartition | fuzzy/membership.py:88-103 | The same for humidity |
| FuzzyMembership.PmPartition | fuzzy/membership.py:108-123 | The same for PM2.5 |
| FuzzyRules.AssignmentRules | fuzzy/rules.py:8-11 | The 27 entries follow the three written assignment rules |
| FuzzyRules.PollutionRaisesRamps | fuzzy/rules.py:25-65 | More pollution raises the ramp of every rule at both ends |
| Tsukamoto.FiredRules | fuzzy/tsukamoto.py:73-87 | The nested loops with their skips collect exactly the rules of nonzero strength, in order |
| Tsukamoto.WeightedAverage | fuzzy/tsukamoto.py:38-46 | The weighted average, 20.0 for a zero total |
| Tsukamoto.InferScore | fuzzy/tsukamoto.py:57-90 | Names the first unusable input, or gives the rounded score and the number of fired rules |
| FuzzyScore.TiesGoToEven | fuzzy/tsukamoto.py:90 | Rounding takes a tie to the even neighbour |
| FuzzyScore.InferenceInRange | fuzzy/tsukamoto.py:57-64 | An inference succeeds exactly for three finite inputs, fires 1 to 8 rules and scores within 0..100 after rounding |
| FuzzyScore.FiredInGrid | fuzzy/tsukamoto.py:73-87 | The number of fired rules is the product of the numbers of nonzero terms |
| FuzzyScore.FallbackUnreachable | fuzzy/tsukamoto.py:43-45 | The total strength is positive for all inputs, so the fallback is never returned |
| FuzzyScore.ScoreWithinFiredRamps | fuzzy/tsukamoto.py:29-46 | The score lies between the smallest floor and the largest top of the fired ramps |
| FuzzyOrder.ScoreOrdering | fuzzy/tsukamoto.py:69-90 | At every temperature and humidity, p1 up to 50, p2 in 100..200 and p3 from 300 on have ordered scores, before and after rounding |
| FuzzyOrder.SettledScores | fuzzy/tsukamoto.py:29-46 | Where one temperature and one humidity term hold fully, the score on each PM2.5 plateau and half-way between them: 40, 32.5, 60, 61.25, 90 in mild air; 60, 53.75, 75, 70, 90 in dry or hot air; 77.5 and 100 at the end where it is both |
| FuzzyOrder.BoundedDip | fuzzy/tsukamoto.py:29-46 | Where one temperature and one humidity term hold fully, more PM2.5 lowers the score by at most the climate's worst dip, and by at most 8.93 after rounding |
| FuzzyOrder.DipIsReached | fuzzy/tsukamoto.py:29-46 | In every such climate that worst dip is reached |
| FuzzyOrder.WorstDipValue | fuzzy/rules.py:25-65 | It is 2500/280 on the good-to-moderate ramp, and 1600/220 in dry or hot air |
| FuzzyOrder.FallsExactly | fuzzy/tsukamoto.py:29-46 | In such a climate, the exact condition for a fall between two concentrations: on one ramp, both positions together short of twice the turning point; across the medium plateau, the distance to it less than the second dip |
| FuzzyDips.PureDip | fuzzy/tsukamoto.py:69-90 | Whatever terms share the weight: up to 40 degrees and from 70 % humidity on, more PM2.5 lowers the score by at most 2500/280; from 50 degrees on or up to 30 %, by at most 1600/220 |
| FuzzyMixed.DipAnywhere | fuzzy/tsukamoto.py:69-90 | At every temperature and humidity, also where mild pairs of terms share the weight with dry or hot ones, more PM2.5 lowers the score by at most 2500/280, and by at most 8.93 after rounding |
| FuzzyMixed.DipIsExact | fuzzy/tsukamoto.py:69-90 | Over all inputs, the numbers that bound the fall are exactly those from 2500/280 on, and after rounding those from 8.93 on |
| FuzzyDips.KindDip | fuzzy/tsukamoto.py:29-46 | On their own, the rules of mild air lose at most 2500/280 and those of dry or hot air at most 1600/220, whatever weights their terms have |
| FuzzyRamp.PairLoss | fuzzy/tsukamoto.py:83-87 | Measured against a fair score, one pair of terms loses at most its slack per strength still fired while PM2.5 moves along a ramp |
| Aqi.Pm25Shape | tasks/aqi.py:24-32 | The PM2.5 index is within 0..500 and monotone over all reals |
| Aqi.Pm10Shape | tasks/aqi.py:34-46 | The PM10 index is within 0..500, never falls by more than 1, and never falls to a whole concentration |
| Aqi.Pm10FallsExactly | tasks/aqi.py:34-46 | It falls between two rising concentrations at exactly the pairs from 354 or 424 into the first part of the gap above |
| Aqi.Pm25Breakpoints | tasks/aqi.py:24-32 | The PM2.5 index and category at all 13 distinct breakpoints |
| Aqi.Pm10Breakpoints | tasks/aqi.py:34-58 | The same for the 14 of PM10 |
| Aqi.Interpolated | tasks/aqi.py:84-86 | Between breakpoints the index is interpolated and rounded down |
| Aqi.BeyondTheTable | tasks/aqi.py:80-82 | Below zero the index is 0, above the table its end, 500 |
| Aqi.IndexInBand | tasks/aqi.py:68-86 | The index lies in the range of its band, except in a gap, where it lies below it |
| Aqi.CompositeShape | tasks/aqi.py:89-115 | The composite exists exactly when a value is usable, is within 0..500, is monotone in PM2.5, and falls by at most 1 in PM10 |
| Aqi.ComputeIsMaximum | tasks/aqi.py:112-115 | The composite is the greatest of the usable pollutants' indices, with that pollutant's category, PM2.5's on a tie |
| Aqi.ScanBands | tasks/aqi.py:60-65 | The scan returns the first band whose upper end reaches the concentration, or the last band |
| Aqi.AqiFor | tasks/aqi.py:68-86 | Clamps, finds the band and interpolates, with the category of the band |
| Aqi.ComputeAqi | tasks/aqi.py:89-115 | Gives the first greatest of the usable candidates |

## Left out

- PostgreSQL, Redis, paho and Celery internals: each statement, script or library call is one atomic step on maps, sets and sequences. Transactions are serial except for the refresh claim and the threshold PATCH, whose statements interleave.
- Clocks: every component sees one clock that never goes back. In the roll-up a reading commits at most one hour after its time was parsed; the task limits of 300 and 600 s imply it.
- Integer and real arithmetic is exact: IEEE rounding, `int(float('inf'))` and texts that `float()` reads as NaN or infinity are not modelled.
- Row order of `sensor_readings`: the table is a sequence of insertions; `Aggregates.SummaryIgnoresRowOrder` shows that the order cannot be seen.
- HourlyRollup.RedeliveryChangesNothing: the first arrival is of a known, active node, since any other is dropped; the 60 s cache of the latest reading is left out.
- Anomaly detection, forecasting, CSV export, WebSockets, the readings and nodes endpoints and the dashboard: no state machine beyond those modelled here.
- Access tokens, the user cache, email, timing padding and password hashing: a password is compared for equality, a token digest is an identifier that is never minted twice.
- TokenLifecycle.CleanupKeeps: tokens created at the same instant rank by identifier, where SQL leaves the order open.
- TokenLifecycle.TokenAccounting: transactions are serial; a login that reads its user before a concurrent soft delete commits is not covered.
- AlertPublisher.Publisher.RetryFailedMessages: other threads queueing between the pop and the re-enqueueing, and asynchronous exceptions there, are left out.
- AlertPublisher.Publisher.PublishAlert: creating the broker client and its TLS setup are a parameter.
- Subscriptions.NeverSilentlyDeaf: a callback is one atomic step, message ids are never reused (they are 16 bits wide on the wire), and the worker may only register an id that a subscribe() in its own pass returned.
- MqttClient.Limiter.OnMessage: decoding and the topic and id patterns are part of the message's description, and how many messages the worker takes during each attempt to enqueue is a parameter.
- CircuitBreaker.CountsTheWindow: every failure has its own identity (a UUID in the source), and Redis expires keys on time.
- AlertTable.Alerts.CheckThresholds: the query for the latest fresh readings, message texts with their truncation, the choice of the email recipient and the heartbeat are left out.
- Thresholds.SettingsStore.UpdateSettings: the syntax of an email address, who changed a setting and when are left out.
- RateLimit.SlidingBound: while Redis answers; requests served by failing open are counted as bypasses and are not limited.
- FuzzyMembership: the triangular membership function is not used by the engine and is left out.
- Aqi.ComputeAqi: the warnings logged for unusable concentrations are left out.
