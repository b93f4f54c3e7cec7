# Verified model of the monitoring assistant's decision logic

This project models four pieces of the assistant's deterministic logic and proves what they keep
over every run:

1. **The AI gateway** (`app/kela_ai/`): failover over the keys of a pool and over pools, each key
   gated by its own state, a 60-second window and a circuit breaker.
2. **The event engine and the alert engine** (`app/event_engine/`, `app/alert_engine/`): online
   clustering of articles into events, confidence from independent sources, and one alert thread
   per event.
3. **The reminder scheduler** (`app/cron.py`): next occurrences, and the stored job list.
4. **The message splitter** (`chunk_html` in `app/interfaces/formatter.py`).

Each part has two layers. The lower one is a meaning on values: logs of what was admitted, called,
marked or sent, tables of articles, events and links, blocks of lines. The upper one is the code's
own shape: classes with mutable dictionaries and lists, and methods with the code's loops, proved
to compute that meaning. The theorems about whole runs are lemmas about the meaning.

| files | part |
|---|---|
| `RateLimiter`, `CircuitBreaker`, `KeyManager` | the three timed machines, as functions of their logs, and the classes that refine them |
| `Gateway`, `GatewayAnswers`, `GatewaySafety`, `GatewayClass` | one pass, one `complete`, what it does without its loops, what every run keeps, the gateway object |
| `Similarity`, `SimilarityLaws` | tokens, weighted bags, cosine and its inequality, in real arithmetic; when the cosine is positive or one, what equal articles score |
| `EventEngine`, `EventBatches`, `EventInvariant`, `EventRuns` | one clustering step, independence of batching, the clustering invariant |
| `EventCounts`, `EventLaws`, `EventConfidence`, `EventStore` | counts and confidence, what they mean in rows, their behaviour over runs, the tables as an object |
| `AlertPlan`, `AlertEngine` | signatures and the plan, threads |
| `AlertCycle`, `AlertStore` | which events a cycle takes up, and which starve; the stored rows |
| `AlertRuns` | both engines together: what alert threads can hold |
| `Cron` | reminders |
| `ChunkHtml`, `ChunkTags` | message splitting; when the chunks are balanced |
| `Wrappers`, `Loops`, `Text` | options, minima and rounding; loops, iteration and folds; splitting and joining text |

`dafny verify dfyconfig.toml` checks everything.

## Where the code and its documentation differ

The model follows the code.

- A 403 cools a key down; only rejected credentials disable it (app/kela_ai/key_manager.py:51-52).
- A half-open breaker admits every caller, not one probe (app/kela_ai/circuit_breaker.py:45-46).
- A rate token is spent before the breaker is asked, so a key that the breaker holds back still
  uses up its window (app/kela_ai/gateway.py:209-213).
- The limiter's documentation speaks of a global ceiling (app/kela_ai/rate_limiter.py:3-5). The code
  has no check of its own for it; the ceiling, one key's times the number of keys, follows from the
  per-key check (`GatewaySafety.CeilingOfEveryRun`).
- `chunk_html` promises chunks within the limit and balanced tags. Both fail, and the project says
  exactly when they hold. For every text, the limit holds iff the greedy cuts leave room for the
  tags they add (`ChunkHtml.LimitHoldsIffRoom`), and the chunks are balanced iff the `in_pre` flag
  tells where the text stands at every cut and at the end (`ChunkTags.BalancedIffTruthful`); with
  at most one tag a line that is iff the flag never lags behind a block that was opened in front of
  its closing line (`ChunkTags.BalancedIffPace`). Failing texts: `ChunkHtml.BoundIsReached` (every
  limit from five on is exceeded by eleven, the most there is), `ChunkTags.SplitBeforeCloseUnbalances`
  and `ChunkTags.OneLineBlockUnbalanced`.
- `fire_due_crons` promises the number of reminders sent; it returns the number due, which is the
  number sent iff no send fails (`Cron.AllSent`, app/cron.py:416-434).
- The alert cycle has update messages for events that gain articles or sources, but it skips news,
  and only news events ever get articles; so it never sends one (`AlertRuns.ThreadsNeverUpdate`,
  app/alert_engine/__init__.py:64).
- The alert cycle takes events without an alert first "so no event starves". Yet what cannot get an
  alert, news and resolved or closed events, stays in that query for good. An event gets its initial
  message in a cycle iff it is open, not news, and fewer than the capacity of the events without an
  alert stand before it in the query's order (`AlertCycle.InitialIffFewAhead`), and in a run of cycles
  iff at one of them that was so (`AlertCycle.AlertIffTurnCame`). The query does not order events
  updated at the same instant: under every order it gets the message iff those as new as itself fit
  the capacity, under some order iff those newer leave room (`AlertCycle.InitialUnderEveryOrder`). It
  starves while stuck events fill the capacity before it (`AlertCycle.StuckStarve`,
  `AlertCycle.OneStuckEventStarves` with one such event, newer or equally new;
  app/alert_engine/__init__.py:41-64).
- A poll of reminders that cannot save its list has still sent its reminders, and sends them again: an
  instant is reminded of once for each such poll and once more (`Cron.RecurringIsExact`,
  `Cron.RemindersCounted`, app/cron.py:416-434).
- A Redis list that cannot be read counts as empty. `add_job` then replaces whatever is stored by the
  new job alone (`Cron.CronStore.AddJob`), and `delete_job`, which reads twice, writes an empty list if
  only its first read fails (`Cron.CronStore.DeleteJob`, app/cron.py:335-376). A recurring job is lost
  in a run exactly if one of these happens (`Cron.LostIffWiped`).
- The failure note of a pool is printed and split again at `": "`; the error code survives exactly
  when it contains no such separator (`Gateway.CompleteMeaning`).

## Model

| member | source | states |
|---|---|---|
| `RateLimiter.WindowBound` | app/kela_ai/rate_limiter.py:23-37 | no closed 60-second interval holds more than `limit` admissions of one key, for every log in which each admission passed the test against what came before |
| `RateLimiter.AdmitsIff` | app/kela_ai/rate_limiter.py:30-37 | a key may go iff fewer than `limit` of its admissions lie in the closed minute that ends now |
| `RateLimiter.SpanBeforeLast` | app/kela_ai/rate_limiter.py:23-37 | at any instant, the window ending there counts at least as much as any span that starts inside it and runs past it |
| `RateLimiter.AdmitKeepsAgreement` | app/kela_ai/rate_limiter.py:30-37 | appending to one deque and to the log keeps every key's deque in agreement with its log |
| `RateLimiter.PruneKeepsAgreement` | app/kela_ai/rate_limiter.py:23-28 | replacing one deque by its pruned form, at a later time, keeps the agreement of all |
| `RateLimiter.SlidingWindowRateLimiter.Prune` | app/kela_ai/rate_limiter.py:23-28 | afterwards the deque is exactly the part of the key's admission log with instants >= now - 60, and no other deque changed |
| `RateLimiter.SlidingWindowRateLimiter.Allow` | app/kela_ai/rate_limiter.py:30-37 | denies iff that part already holds `limit` admissions, and otherwise the log gains exactly this admission |
| `RateLimiter.SlidingWindowRateLimiter.Remaining` | app/kela_ai/rate_limiter.py:39-43 | what is left of the window; positive iff `allow` would say yes; the log stays |
| `RateLimiter.SlidingWindowRateLimiter.Stats` | app/kela_ai/rate_limiter.py:45-51 | reports that number for every key seen, and the log stays |
| `CircuitBreaker.ProbeDecides` | app/kela_ai/circuit_breaker.py:48-62 | at the threshold one success closes the breaker for good, and one failure keeps it open for exactly one cooldown from that failure |
| `CircuitBreaker.OwnOutcomesDecide` | app/kela_ai/circuit_breaker.py:39-62 | outcomes of other keys never change a key's state |
| `CircuitBreaker.StateMeaning` | app/kela_ai/circuit_breaker.py:33-62 | on any log, closed unless the last `threshold` outcomes of the name are all failures, then open until the cooldown since the last of them, then half open |
| `CircuitBreaker.FailureReflects` | app/kela_ai/circuit_breaker.py:54-62 | a stored entry that is stale or fresh still agrees with the longer log after a failure |
| `CircuitBreaker.CircuitBreaker.StateOf` | app/kela_ai/circuit_breaker.py:33-43 | the lazy poll answers a pure function of the outcome log: CLOSED below the threshold of trailing failures, OPEN within the cooldown of the last one, else HALF_OPEN; the log stays, so no poll changes a later answer |
| `CircuitBreaker.CircuitBreaker.Allow` | app/kela_ai/circuit_breaker.py:45-46 | true iff that function does not say OPEN |
| `CircuitBreaker.CircuitBreaker.RecordSuccess` | app/kela_ai/circuit_breaker.py:48-52 | the log gains the success and the stored dictionaries still agree with it, for every key |
| `CircuitBreaker.CircuitBreaker.RecordFailure` | app/kela_ai/circuit_breaker.py:54-62 | the log gains the failure and the stored dictionaries still agree with it, for every key |
| `CircuitBreaker.ReopensThen` | app/kela_ai/circuit_breaker.py:33-43 | a breaker is open iff the remaining time is positive, and turns half open exactly when it has passed |
| `CircuitBreaker.TenthsIs` | app/kela_ai/circuit_breaker.py:64-72 | the remaining time reported is the nearest tenth of a second |
| `CircuitBreaker.CircuitBreaker.Stats` | app/kela_ai/circuit_breaker.py:64-72 | polls every key seen; state, failures in a row and rounded remaining time are those of the log, and the log stays |
| `KeyManager.DisabledStays` | app/kela_ai/key_manager.py:137-185 | a disabled key stays disabled through any time and any marks except its own success or cooling failure |
| `KeyManager.MarkDecides` | app/kela_ai/key_manager.py:152-185 | on any log and for every code: RATE_LIMIT, SERVER, TIMEOUT, NETWORK and FORBIDDEN cool until the cooldown has passed, INVALID_CREDENTIALS disables, a success activates, any other code leaves the state as it was |
| `KeyManager.CodeTellsState` | app/kela_ai/key_manager.py:51-52 | right after a failure, which codes leave the key cooling and which disabled, in both directions |
| `KeyManager.OwnMarksDecide` | app/kela_ai/key_manager.py:137-143 | a key without marks is active, marks on other keys change nothing, an unknown name is disabled |
| `KeyManager.VerdictRaises` | app/kela_ai/key_manager.py:152-176 | which of the seven counters each code raises |
| `KeyManager.MarkCounts` | app/kela_ai/key_manager.py:152-176 | a mark raises exactly that counter and the total by one and the latency by its own, from zeroes, of its own key only |
| `KeyManager.CountersBalance` | app/kela_ai/key_manager.py:152-176 | in every reachable state total requests equal successes plus the six error counters |
| `KeyManager.FailureKeeps` | app/kela_ai/key_manager.py:161-185 | what a failure writes for one key keeps every key's state, cooldown and counters equal to what the mark log says |
| `KeyManager.OllamaKeyManager.constructor` | app/kela_ai/key_manager.py:68-88 | entries without a value are dropped, a zero cooldown means the default, every key starts active |
| `KeyManager.KeptNamesAre` | app/kela_ai/key_manager.py:75-79 | the names kept are those of exactly the entries with a value, in order |
| `KeyManager.LastValueIs` | app/kela_ai/key_manager.py:80 | of a name given twice the last value counts |
| `KeyManager.ActiveAmongCounts` | app/kela_ai/key_manager.py:187-202 | the number of active keys reported is the number of positions whose key the log has active |
| `KeyManager.OllamaKeyManager.StateOf` | app/kela_ai/key_manager.py:137-143 | the lazy poll answers a pure function of the mark log, decided by the last mark that has an effect and its time; the log stays |
| `KeyManager.OllamaKeyManager.AvailableKey` | app/kela_ai/key_manager.py:145-150 | the first active key, and none iff no key is active at that instant |
| `KeyManager.ActiveAgainThen` | app/kela_ai/key_manager.py:137-143 | a key is cooling iff its remaining time is positive, and is active exactly when it has passed |
| `KeyManager.OllamaKeyManager.Stats` | app/kela_ai/key_manager.py:187-202 | reports every key's state, remaining cooldown and counters, and how many are active, as the log says; the log stays |
| `KeyManager.ReportsAreAll` | app/kela_ai/key_manager.py:187-202 | the reports are those of exactly the keys of the pool, each as the log gives it |
| `KeyManager.OllamaKeyManager.MarkSuccess` | app/kela_ai/key_manager.py:152-159 | the log gains the success; state, cooldown and all counters still agree with it |
| `KeyManager.OllamaKeyManager.MarkFailure` | app/kela_ai/key_manager.py:161-185 | the log gains the failure; state, cooldown and all counters still agree with it |
| `Gateway.PassMeaning` | app/kela_ai/gateway.py:204-256 | a pass ends at the first turn whose call is answered or at an instant with nothing active, otherwise past the last key; which answer, which code, which logs |
| `Gateway.PassCalls` | app/kela_ai/gateway.py:204-256 | a pass calls each key at most once and in order, all but the last call failed, and the result or error code is that of the last call, EXHAUSTED if there was none |
| `Gateway.StopsOnlyWhenNoneActive` | app/kela_ai/gateway.py:204-206 | a pass never breaks past a key that is active at that instant |
| `Gateway.PassKeepsOthers` | app/kela_ai/gateway.py:193-240 | a pass tells other key managers nothing |
| `Gateway.CompleteMeaning` | app/kela_ai/gateway.py:158-191 | however many pools: the answer is that of the first configured pool whose pass succeeds, key managers used only by later pools hear nothing; if all fail, the code is the last configured pool's, with several pools exactly when it has no separator in it; the branch for no failures is unreachable |
| `GatewayAnswers.TurnMeaning` | app/kela_ai/gateway.py:204-249 | one turn: a token is spent iff some key is active, this one is, and fewer than `limit` of its admissions lie in the last minute; a call is made iff the breaker is not open besides; the loop ends iff no key is active or the call is answered, with the client's content, tokens, milliseconds, key, model and provider |
| `GatewayAnswers.NoKeysIff` | app/kela_ai/gateway.py:165-169 | the code is NO_KEYS with nothing done iff no pool has a key; with a key at least one turn is taken |
| `GatewayAnswers.FirstKeyFirst` | app/kela_ai/gateway.py:174-249 | the first key of the first pool with keys, if it may be called, is called before any other, and its answer is that of the whole call |
| `GatewayAnswers.GivesUpOnlyAfterAll` | app/kela_ai/gateway.py:158-256 | a call without an answer has given every key of every pool its turn: at some visit it might not be called as the logs stood, or it was called and refused |
| `GatewayAnswers.CompleteAnswers` | app/kela_ai/gateway.py:158-256 | all calls but the last are refused; there is an answer iff the last is answered, and then it is that answer, from a pool that has the key |
| `Gateway.SeparatorIsLast` | app/kela_ai/gateway.py:184-190 | splitting a failure note at its last separator gives what splitting the code alone gives |
| `Gateway.SeparatorFree` | app/kela_ai/gateway.py:190 | splitting at the last separator leaves a text as it is iff it has none |
| `GatewaySafety.TurnKeepsSafe` | app/kela_ai/gateway.py:204-240 | every decision a turn can take keeps the run invariant |
| `GatewaySafety.CompleteIsSafe` | app/kela_ai/gateway.py:158-191 | one `complete` call keeps the run invariant |
| `GatewaySafety.EveryRunIsSafe` | app/kela_ai/gateway.py:158-256 | the invariant holds after any number of sequential calls, whatever the clock and the replies |
| `GatewaySafety.RateOfEveryRun` | app/kela_ai/gateway.py:204-213 | over every run, no closed 60-second interval contains more than `limit` chat calls on one key name, timed at admission, across all pools |
| `GatewaySafety.CeilingOfEveryRun` | app/kela_ai/rate_limiter.py:3-5 | over every run, the chat calls of all keys together admitted in a closed 60-second interval are at most `limit` times the number of key names |
| `GatewaySafety.RejectedKeyIsNeverCalled` | app/kela_ai/gateway.py:204-240 | over every run, a key manager's key is never called again after its credential was rejected, by whichever pool |
| `GatewaySafety.KeyCooldownIsKept` | app/kela_ai/gateway.py:204-240 | over every run, after RATE_LIMIT, SERVER, TIMEOUT, NETWORK or FORBIDDEN a key manager's key is never called before its cooldown has passed |
| `GatewaySafety.BreakerCooldownIsKept` | app/kela_ai/gateway.py:209-233 | over every run, when the last `threshold` calls on a name were refused, it is called again only after the breaker's cooldown since the last of them |
| `GatewaySafety.OutcomesAre` | app/kela_ai/gateway.py:227-233 | the breaker hears of each call on a name whether it was answered and when, and nothing else |
| `GatewaySafety.MarksAre` | app/kela_ai/gateway.py:214-233 | a key manager hears of each call on its keys the verdict, the milliseconds and when |
| `GatewayClass.KELAAIGateway.constructor` | app/kela_ai/gateway.py:88-113 | the pools given, or one pool of the bare key manager; pools may share a key manager, and components may be new or have served a safe run; the new gateway satisfies the run invariant |
| `GatewayClass.KELAAIGateway.PassGates` | app/kela_ai/gateway.py:204-213 | the gates in the code's order decide as the logs say, and a token is spent exactly when the limiter admits, also when the breaker then refuses |
| `GatewayClass.KELAAIGateway.VisitKey` | app/kela_ai/gateway.py:204-249 | one turn leaves limiter, breaker and every key manager in step with the logs and is the turn of the specification |
| `GatewayClass.KELAAIGateway.KeyLoop` | app/kela_ai/gateway.py:204-249 | the loop over the keys, with the answer and last error it leaves, is the loop of the specification |
| `GatewayClass.KELAAIGateway.CompleteWithPool` | app/kela_ai/gateway.py:193-256 | afterwards ending, logs and number of turns are those of the pass |
| `GatewayClass.KELAAIGateway.Complete` | app/kela_ai/gateway.py:158-191 | the loop over the pools computes `complete`, keeps every component in step and the run invariant |
| `GatewayClass.KELAAIGateway.Status` | app/kela_ai/gateway.py:138-156 | reports, all by the logs: whether any pool has a key, every key's report with the later pool winning a shared name, how many are active, the limiter's and breaker's reports, each pool's entry; the logs, hence every later answer, stay as they were |
| `Similarity.TfMass` | app/event_engine/similarity.py:37-39 | the frequencies of a text with a token add up to their weight, those of a text without one to zero |
| `Similarity.CauchySchwarz` | app/event_engine/similarity.py:42-51 | the inequality for weighted bags over any set of tokens |
| `Similarity.CosineRange` | app/event_engine/similarity.py:42-51 | the cosine of two bags lies between 0 and 1 |
| `Similarity.CosineDisjoint` | app/event_engine/similarity.py:42-51 | without a common token it is 0 |
| `SimilarityLaws.CosinePositiveIff` | app/event_engine/similarity.py:42-51 | of bags of positive weights the cosine is positive iff they share a token |
| `SimilarityLaws.LawOfCosines` | app/event_engine/similarity.py:42-51 | the squared distance of two bags is the sum of their squared norms less twice the norms times the cosine |
| `SimilarityLaws.CosineOneIff` | app/event_engine/similarity.py:42-51 | equality in Cauchy-Schwarz: the cosine is one iff the bags are proportional |
| `SimilarityLaws.BagIs` | app/event_engine/similarity.py:64-68 | a token weighs its frequency in the title at weight two plus that in the description at weight one; every weight is positive |
| `SimilarityLaws.TfIs` | app/event_engine/similarity.py:37-39 | frequencies are in proportion to the counts |
| `SimilarityLaws.WordsOfJoined` | app/event_engine/similarity.py:16-34 | words of lower-case letters and digits set apart by another character are found again |
| `SimilarityLaws.KeptCount` | app/event_engine/similarity.py:30-34 | words of one character and stop words are dropped, all others counted as often as they occur |
| `Similarity.SimilaritySymmetric` | app/event_engine/similarity.py:88-93 | the similarity does not depend on the order of the articles |
| `Similarity.SimilarityRange` | app/event_engine/similarity.py:88-93 | it lies between 0 and 1, and without a location between 0.075 and 0.925, rounding included |
| `Similarity.NoSharedToken` | app/event_engine/similarity.py:88-93 | without a location and without a common token it is at most 0.225 |
| `SimilarityLaws.TextPositiveIff` | app/event_engine/similarity.py:88-90 | the text similarity of two articles is positive iff they share a token |
| `SimilarityLaws.SameTextScores` | app/event_engine/similarity.py:88-93 | the same title and description with a token, within a day and without a location, score exactly 0.925 |
| `SimilarityLaws.SameTextAtLeast` | app/event_engine/similarity.py:88-93 | and at whatever times between 0.775 and 0.925 |
| `SimilarityLaws.TimeMeaning` | app/event_engine/similarity.py:71-79 | one within a day, zero from a week on or when unknown, and evenly falling between |
| `SimilarityLaws.PlaceMeaning` | app/event_engine/similarity.py:82-85 | places agree iff their letters do up to case and surrounding blanks; an unknown one counts half |
| `SimilarityLaws.MixIs` | app/event_engine/similarity.py:93 | 0.7, 0.15 and 0.15, rounded to four decimals |
| `EventEngine.FindCopy` | app/event_engine/dedup.py:28-41 | the processed article of lowest id with the same non-empty hash, and none iff there is no such article |
| `EventEngine.RememberIsProfiles` | app/event_engine/clustering.py:48-59 | after any article the profiles appended in memory equal what a fresh query in event order returns |
| `EventBatches.StepShiftsQueue` | app/event_engine/clustering.py:38-45 | a step takes exactly the oldest raw article off the queue |
| `EventBatches.CycleIsDrain` | app/event_engine/clustering.py:70-132 | a cycle with its fixed batch and remembered profiles equals min(batch, backlog) single steps with everything read afresh |
| `EventBatches.CycleInRange` | app/event_engine/clustering.py:70-132 | a cycle removes exactly min(batch, backlog) raw articles |
| `EventBatches.BatchSizesDoNotMatter` | app/event_engine/clustering.py:38-132 | any batch sizes that cover the backlog end in the same articles, events, links and statuses as one pass over all of it |
| `EventBatches.ScheduleDoesNotMatter` | app/event_engine/clustering.py:38-132 | nor does it matter when articles arrive between the cycles |
| `EventInvariant.BestMeaning` | app/event_engine/clustering.py:84-90 | the comparison loop finds the highest score above zero and the first profile that reaches it |
| `EventInvariant.JudgeMeaning` | app/event_engine/clustering.py:84-92 | an article that is no copy joins the best leader, the oldest on a tie, iff some leader's score attaches, and otherwise founds an event |
| `EventInvariant.CopyMeaning` | app/event_engine/dedup.py:28-41 | what the lookup finds is the first article with that text, and it finds nothing iff there is no earlier one |
| `EventInvariant.StepKeeps` | app/event_engine/clustering.py:77-126 | clustering the next raw article keeps the invariant |
| `EventRuns.EveryRunIsGood` | app/event_engine/clustering.py:70-132 | the clustering invariant holds after every sequence of arrivals, earthquake wrappers, cycles and refreshes, for every similarity and threshold: links in order, each related link at or above the threshold and the maximum over the events then open with the oldest on ties, `updated` iff a related link exists, one link per clustered article, at most one per copy |
| `EventRuns.LeadersStayApart` | app/event_engine/clustering.py:84-124 | each news event has exactly one primary article, and a later leader scores zero or below the threshold against every earlier one |
| `EventRuns.FirstOccurrenceWins` | app/event_engine/dedup.py:28-66 | processed articles are always a prefix by id; one is deduplicated iff it has a hash, not empty, that an earlier article has too, and else clustered |
| `EventRuns.FollowersShareAToken` | app/event_engine/clustering.py:62-92 | with the real similarity and a threshold above 0.225, an article only joins an event whose primary shares a token with it |
| `EventRuns.RealLeadersApart` | app/event_engine/clustering.py:84-92 | with the real similarity, any two primaries score below the threshold in both directions |
| `EventLaws.SameStoryOneEvent` | app/event_engine/clustering.py:84-124 | over every run, at a threshold up to 0.925 no two events have leaders with the same text within a day, and up to 0.775 at whatever times |
| `EventLaws.EventsTellTheirLeader` | app/event_engine/clustering.py:106-124 | over every run, an event with a primary article is news with its title cut at 1000 characters, its description and its time; primary and duplicate links have score one |
| `EventLaws.CycleLeavesConfidence` | app/event_engine/clustering.py:70-132 | a clustering cycle changes no event's confidence and gives new events none |
| `EventConfidence.OneSourceStaysLow` | app/event_engine/confidence.py:42-83 | however many articles one source publishes, a news event stays at low confidence |
| `EventLaws.CountsMeaning` | app/event_engine/confidence.py:42-64 | an event counts one article for each link that is no duplicate, and one source for each known domain among them |
| `EventLaws.SpreadMeaning` | app/event_engine/confidence.py:57-64 | the hours between the first and the last known time among them, and none without one |
| `EventLaws.ConfidenceMeaning` | app/event_engine/confidence.py:67-99 | a refresh gives an open event high confidence iff it is an earthquake or has three sources within 36 hours, low iff it is none and has at most one, else medium, and changes nothing else |
| `EventConfidence.CopyIsInvisible` | app/event_engine/confidence.py:42-99 | clustering an exact copy changes no event's status, counts, spread or refreshed confidence |
| `EventConfidence.CopyIsSilent` | app/alert_engine/dedup.py:46-90 | after a copy, an event already reported as it stands gets no further message, at whatever time |
| `EventConfidence.RunGains` | app/event_engine/clustering.py:70-132 | over any run links and articles are only added, so no event's counts ever decrease |
| `EventConfidence.UpdatesArePaidFor` | app/alert_engine/dedup.py:73-90 | applying `plan_alert` to any one event, news included, at any points of an engine run sends no more updates than the articles and sources counted since the initial message pay for |
| `AlertRuns.OthersCountNothing` | app/event_engine/confidence.py:42-64 | over every run, an event that is not news counts no articles and no sources |
| `AlertRuns.ThreadsNeverUpdate` | app/alert_engine/__init__.py:64-114 | end to end, with quotas of at least one, over every run of the engine and wherever the alert cycle looks in, no thread ever gets an update |
| `AlertRuns.NewsHasNoThread` | app/alert_engine/__init__.py:64 | and a news event never gets a thread |
| `EventStore.EventTables.PendingArticles` | app/event_engine/clustering.py:38-45 | the scan yields the raw articles of lowest ids, at most the batch size |
| `EventStore.EventTables.EventProfiles` | app/event_engine/clustering.py:48-59 | the scan yields the open events in id order with their primaries |
| `EventStore.EventTables.FindExactDuplicate` | app/event_engine/dedup.py:28-41 | the search finds the lookup's article, and returns at once without a hash |
| `EventStore.EventTables.MarkDeduplicated` | app/event_engine/dedup.py:44-66 | status set, and a duplicate link added iff the original has a primary link |
| `EventStore.EventTables.ClusterArticle` | app/event_engine/clustering.py:77-126 | one turn changes tables, remembered profiles and counters as the judgement says |
| `EventStore.EventTables.ClusterNewArticles` | app/event_engine/clustering.py:70-132 | the batch loop computes the cycle; new events, related and their sum with duplicates are the primary and related links gained and min(batch, backlog) |
| `EventStore.EventTables.CountEvent` | app/event_engine/confidence.py:42-64 | duplicates do not count and a domain counts once |
| `EventStore.EventTables.RefreshConfidences` | app/event_engine/confidence.py:86-99 | every open event gets the confidence of its counts, all others stay, and the result counts the events changed |
| `AlertPlan.NatRoundTrip` | app/alert_engine/dedup.py:31-43 | reading a printed natural number gives it back |
| `AlertPlan.CountsRoundTrip` | app/alert_engine/dedup.py:27-43 | parsing a printed signature gives back its two counts |
| `AlertPlan.SignatureInjective` | app/alert_engine/dedup.py:27-28 | two signatures are equal iff priority, status and both counts are |
| `AlertPlan.SignatureLooks` | app/alert_engine/dedup.py:27-28 | what signatures look like, with every priority and status |
| `AlertPlan.PlanMeaning` | app/alert_engine/dedup.py:46-90 | the decision on any stored row, in both directions for each kind of message |
| `AlertPlan.ParseMeaning` | app/alert_engine/dedup.py:31-43 | of any stored signature the third and fourth part are read, each zero if it is missing or no number |
| `AlertEngine.PlanRefines` | app/alert_engine/dedup.py:46-90 | deciding from the stored row, by comparing and parsing text, is deciding from the thread itself |
| `AlertEngine.NextMeaning` | app/alert_engine/dedup.py:56-90 | for every thread and observation: a thread starts on an active or updated event only; a resolved note iff the event has become resolved or closed; else, on anything new, a severity message iff the priority is not the standing one, or an update iff a quota is reached after the cooldown |
| `AlertEngine.StandingMeaning` | app/alert_engine/__init__.py:90-114 | the standing priority is that of the last initial or severity message |
| `AlertEngine.ResolutionIsTold` | app/alert_engine/dedup.py:67-71 | however long an event has gone on, when it is first seen resolved or closed its thread gains exactly one message, a resolved note of P4 |
| `AlertEngine.SeverityIsTold` | app/alert_engine/dedup.py:73-74 | over any run, an ongoing event gains a severity message of its new priority iff that is not the standing one, which it is from then on |
| `AlertEngine.UpdateIsTold` | app/alert_engine/dedup.py:76-90 | over any run, an ongoing event of the standing priority gains an update iff a quota is reached and the cooldown is over |
| `AlertEngine.RowAdvances` | app/alert_engine/__init__.py:73-114 | the assignments after a message make the row that of the longer thread, and the message carries the fresh priority, P4 if resolved |
| `AlertEngine.ThreadsWellFormed` | app/alert_engine/__init__.py:69-149 | every reachable thread has one initial message and it comes first, neighbours differ, resolved notes come exactly on a new terminal status, priorities are fresh, updates keep the cooldown since the message before |
| `AlertEngine.NeighbourSignaturesDiffer` | app/alert_engine/dedup.py:64-65 | neighbouring messages were sent under different signatures |
| `AlertEngine.OneNotePerTerminalState` | app/alert_engine/dedup.py:67-71 | while an event stays in one terminal status at most one message is sent, and none if the thread already stands there |
| `AlertEngine.UpdatesUseQuotas` | app/alert_engine/dedup.py:76-90 | each update uses up one whole quota of new articles or of new sources |
| `AlertEngine.SpamBound` | app/alert_engine/dedup.py:76-90 | with counts that never decrease, updates <= (A-A0)/min_new_articles + (S-S0)/min_new_sources, whatever comes in between |
| `AlertStore.NextRow` | app/alert_engine/__init__.py:73-114 | plans for one event; a new row agrees with its longer thread |
| `AlertStore.AlertTable.Process` | app/alert_engine/__init__.py:69-122 | the step changes the thread of its event only, keeps one row per event, and its counters are exact |
| `AlertStore.AlertTable.RunAlertIntelligence` | app/alert_engine/__init__.py:47-138 | a cycle feeds each thread exactly the observations of its event among those the two queries return under the capacity, news skipped; created and sent are the rows and messages gained |
| `AlertStore.FedIsCycle` | app/alert_engine/__init__.py:47-138 | that is one cycle over the threads, for an event has a row exactly if it has a thread |
| `AlertCycle.TakenIffFewAhead` | app/alert_engine/__init__.py:50-61 | whatever the update times, a query returns an event iff fewer than the capacity of those it ranges over stand before it |
| `AlertCycle.CycleMeaning` | app/alert_engine/__init__.py:47-138 | a cycle, in full: a thread takes in what the table shows of its event iff that is not news and fewer than the capacity of those that, like it, have an alert, or have none, stand before it; all other threads stay |
| `AlertCycle.InitialIffFewAhead` | app/alert_engine/__init__.py:47-64 | an event without an alert gets its initial message in a cycle iff it is open, not news, and fewer than the capacity of the events without an alert stand before it |
| `AlertCycle.InitialUnderEveryOrder` | app/alert_engine/__init__.py:50-61 | an open event that is not news gets it under every order of the table iff the events without an alert as new as it, itself included, fit the capacity; under some order iff those newer leave room |
| `AlertCycle.AlertIffTurnCame` | app/alert_engine/__init__.py:47-138 | over any run of cycles, an event without an alert has one in the end iff at some cycle that condition held |
| `AlertCycle.StuckStarve` | app/alert_engine/__init__.py:41-64 | an event without an alert gets none in any number of cycles if in each as many news, resolved or closed events without an alert as the capacity stand before it |
| `AlertCycle.OneStuckEventStarves` | app/alert_engine/__init__.py:41-64 | with a capacity of one, a single such event, newer or as new and listed first, keeps an open event without an alert for ever |
| `AlertRuns.RunCycles` | app/alert_engine/__init__.py:35-138 | after any cycles over a new table, its rows hold exactly the threads that the theorems of `AlertRuns` are about |
| `AlertRuns.LooksAreRun` | app/alert_engine/__init__.py:35-138 | under one capacity these threads form a run that the theorems of `AlertCycle` are about |
| `Cron.DailyIsLeast` | app/cron.py:113-119 | the least instant after now at the wanted time, within a day |
| `Cron.WeeklyIsLeast` | app/cron.py:120-125 | the least instant after now at the wanted weekday and time, within a week |
| `Cron.ClockIs` | app/cron.py:113-127 | in microseconds, what hour, minute and weekday say about an instant |
| `Cron.Refused` | app/cron.py:113-127 | only a time of day that does not exist is refused; weekly without a weekday means today |
| `Cron.OneShots` | app/cron.py:115-127 | today's one-shot lies in the past iff its time of day is not later than now's; tomorrow's never does |
| `Cron.NextIsLeast` | app/cron.py:130-136 | rescheduling goes to the very next instant at the time of day, and weekly at the weekday |
| `Cron.NextIsComputed` | app/cron.py:113-136 | which is the instant that the schedule itself would be given then |
| `Cron.RescheduleKeepsClock` | app/cron.py:130-136 | rescheduling any number of times keeps the time of day, and weekly the weekday |
| `Cron.PollConserves` | app/cron.py:416-434 | for every id, the jobs a poll loses are exactly the one-shots it delivered |
| `Cron.PollOrder` | app/cron.py:416-434 | the list after a poll: the jobs that were not due in their order, then the due ones in theirs; a failed one stays as it is, a one-shot sent goes, a recurring one sent moves to the next instant on its clock |
| `Cron.LimitKept` | app/cron.py:362-434 | every reachable list has at most MAX_JOBS entries, so the final truncation drops nothing; a poll that cannot read or save leaves the list |
| `Cron.RecurringIsExact` | app/cron.py:416-434 | over every run that does not wipe the list: every reminder is of an instant on the schedule's clock, none early, in order, and none again once a save followed it; the instants done with are all those on the clock before the stored one, and when the job is not due all up to now, downtime caught up |
| `Cron.LostIffWiped` | app/cron.py:362-376 | a recurring job is lost in a run iff some operation writes back a list it could not read |
| `Cron.RemindersCounted` | app/cron.py:416-434 | over every run a job gets exactly one reminder for each poll whose send of it succeeds; those that come again are exactly those of polls that could not save |
| `Cron.RecurringCatchesUp` | app/cron.py:416-434 | once the polls at or after an instant that read, send and save everything are as many as the instants on its clock up to it, the job is no longer due there |
| `Cron.OnceIsOnce` | app/cron.py:416-434 | a one-shot is either stored, and every reminder of it came from a poll that could not save, or gone, and exactly the last one came from a poll that saved; none is early |
| `Cron.OnceIsSent` | app/cron.py:416-434 | it is gone iff some poll delivered it and saved, exactly one then; one poll at or after its instant that gets everything through is enough |
| `Cron.AllSent` | app/cron.py:416-434 | the reminders sent are as many as the jobs due iff no send fails |
| `Cron.CronStore.AddJob` | app/cron.py:362-368 | full iff the list read has MAX_JOBS entries, stored iff not full and writable, else nothing changes; the job is appended to the list read, so an unreadable list is replaced by the new job alone |
| `Cron.CronStore.DeleteJob` | app/cron.py:371-376 | with agreeing reads exactly the jobs of that id go; with only the first read failing everything goes |
| `Cron.CronStore.FireDueCrons` | app/cron.py:416-434 | sends each due job once, keeps what the specification keeps, or the old list if it cannot save, returns the number due, which is the number sent iff no send fails |
| `ChunkHtml.ChunksPartitionText` | app/interfaces/formatter.py:15-49 | the chunks are exactly the split lines in order, cut into non-empty blocks; a split comes only where the next line would not fit, and a tag closed by a split is opened right after it |
| `ChunkHtml.ChunksAreBounded` | app/interfaces/formatter.py:15-49 | if every line fits, no chunk exceeds the limit by more than eleven |
| `ChunkHtml.BoundIsReached` | app/interfaces/formatter.py:30-38 | and at every limit from five on some text reaches that |
| `ChunkHtml.LimitHoldsIffRoom` | app/interfaces/formatter.py:28-48 | for every text, all chunks are within the limit iff each line that begins a chunk fits, less five if opened after a cut that found the flag up, and the text collected leaves six wherever a closing tag is added |
| `ChunkHtml.RecoveredIffUndisturbed` | app/interfaces/formatter.py:28-48 | for every text, joining the chunks gives it back iff no greedy cut finds the flag up and the end needs no closing tag |
| `ChunkHtml.UndisturbedFits` | app/interfaces/formatter.py:28-48 | and then all chunks fit iff all lines do |
| `ChunkHtml.PlainTextSurvives` | app/interfaces/formatter.py:15-49 | in particular text without `<pre>` is recovered, and its chunks fit iff its lines do |
| `ChunkHtml.LinesStayWhole` | app/interfaces/formatter.py:28-44 | no line is ever cut: each is contained whole in some chunk |
| `ChunkHtml.ShortText` | app/interfaces/formatter.py:39-49 | text within the limit becomes one chunk, and comes back unchanged iff the flag ends low or the last line ends with the closing tag |
| `ChunkHtml.FlagIff` | app/interfaces/formatter.py:39-42 | the flag is up after some lines iff one holds the opening tag and no later one the closing tag alone |
| `ChunkHtml.OneLineBlockUnbalances` | app/interfaces/formatter.py:39-48 | a block on one line followed by a line gets a second closing tag |
| `ChunkTags.BlockBalanced` | app/interfaces/formatter.py:31-48 | a chunk is balanced iff a closing tag is added exactly where its text stands inside a block |
| `ChunkTags.BalancedIffTruthful` | app/interfaces/formatter.py:15-49 | for every text and limit, all chunks are balanced iff the flag tells where the text stands at every cut and at the end |
| `ChunkTags.BalancedIffPace` | app/interfaces/formatter.py:15-49 | with at most one tag a line, alternating from `<pre>` on, all chunks are balanced iff the flag lags at no cut, nor at the end unless the last line ends with `</pre>`; it lags from a block opened in front of a line with `</pre>` to the next `<pre>` |
| `ChunkTags.BalancedIfOpensWell` | app/interfaces/formatter.py:31-42 | so it is enough that no block is opened in front of a line that holds `</pre>` |
| `ChunkTags.SplitBeforeCloseUnbalances` | app/interfaces/formatter.py:31-42 | a balanced block of two lines that does not fit, with a line after it, gets an unbalanced chunk at every such limit |
| `ChunkTags.OneLineBlockUnbalanced` | app/interfaces/formatter.py:39-48 | balanced text with a block on one line gets an unbalanced chunk though nothing is split |
| `ChunkHtml.AddLine` | app/interfaces/formatter.py:28-44 | the body of the loop ends the current block or extends it as the specification does |
| `ChunkHtml.ChunkText` | app/interfaces/formatter.py:15-49 | the loop computes the rendered blocks |
| `Text.JoinSplit` | app/interfaces/formatter.py:28-33 | joining what was split gives the text back |

## Left out

- Overlapping `complete` calls and other concurrency: every operation is one atomic step.
- One sweep of `available_key` or of a report shares one clock reading; between the steps of a turn
  the clock moves freely.
- The arguments of a chat call (messages, key value, temperature and the like), exceptions other than
  `OllamaError` from the client, a missing limiter or client, the texts of exceptions, and building the
  gateway from settings and the environment.
- `GatewayClass.KELAAIGateway.constructor`: components that something other than a gateway of the same
  configuration has used before are not modelled.
- SQL, sessions and commits: queries are scans of tables whose ids are positions; failed commits,
  an article that raises in the middle of a batch, and the purge of old articles are not modelled.
- Status changes of events from outside during clustering runs; alert runs allow any.
- `AlertStore.AlertTable.RunAlertIntelligence`: takes the events table, with each event's last update,
  as input; that the kinds and counts in it are those of the engine's tables is a premise of the
  theorems in `AlertRuns`. Events updated at the same instant are taken in the order in which the
  input lists them, which may be any and differ from cycle to cycle.
- The computation of alert priorities and network health: a priority is an input of an observation.
- Message bodies, deliveries and channels.
- Normalization of source addresses to domains: the domain is part of an article's content.
- Binary floating point: similarity and reported times are exact reals, rounded with halves to even
  at four decimals and at one; the square root is any function with the defining property.
- Lower-casing and white space beyond ASCII in tokens and place names.
- `AlertPlan.CountsRoundTrip`: reads plain decimal digits only; signs, blanks and underscores that
  Python's `int` also takes never occur in a printed signature.
- `AlertEngine.SpamBound`: takes the quotas to be at least one; with a quota of zero the code sends an
  update on every change after the cooldown.
- Parsing reminder requests, `edit_job`, and the formatting of acknowledgements and lists.
- `Cron.RecurringIsExact`: is about runs with one job per id, and about runs that do not wipe the list;
  `Cron.LostIffWiped` says what happens otherwise.
- Earthquake wrapping enters event runs as events of another kind; its own queries are left out.
- Everything else in the repository (delivery, web routes, network diagnostics, document and image
  extraction) is I/O or a library call.
