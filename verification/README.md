# AnMates: verified models of the concurrent and algorithmic core

Dafny models of the parts of AnMates whose correctness is not visible in one function: the protocols that
several goroutines, replicas or users run against shared state, and the hand-written scanners and list
algorithms. To check everything, run `dafny verify dfyconfig.toml` in this directory.

How the models are made:

- An object whose methods update its fields is a class (`Hub`, `RedisHub`, `ConciergeService`,
  `MatchingService`, `ChatService`, `RateLimit`, `Services`, `Database`, `AuthService`). Each method's contract
  gives its whole effect on the old state, and what the functions in it mean is said without them, in the contract
  or in a theorem. A loop in the source is a loop with invariants, proved
  against a function that reads like a definition.
- A protocol is a set of events over those same functions: a lock's critical section, a SQL statement or a
  transaction is one event. A run is any sequence of enabled events, so theorems about runs hold for every
  interleaving, any number of tasks and any number of replicas.
- The database appears through its statements and its unique indexes: `uq_matches_pair`
  (anmates-api/db/migrations/001_initial.sql:41-44), `ai_runs_one_fired_per_match`
  (anmates-api/db/migrations/008_ai_concierge.sql:32-33), `uq_bookings_active`
  (anmates-api/db/migrations/011_bookings.sql:21-22), and the primary key of `schema_migrations`.
- Clocks, random bytes, great-circle distances, text folding, JavaScript's operations on values and the language
  model's ranking are parameters, so the theorems hold for all of them.

The modules:

| module | subject |
|---|---|
| LocalHub, RedisBackplane, Cluster, HubRefinement | rooms and send queues; the two-lock subscription protocol; N replicas; the one hub they refine |
| ConciergeCache, Concierge, Points | prewarm cache and channels; prewarm and fire goroutines; the points that trigger them |
| MatchStore, Matching | swipes and matches; two users who like each other at once |
| RateLimit, Reaper | token buckets and deletion of idle ones; requests and reaper step by step |
| Expr, ExprLoops, ExprLaws, ExprScans | the template expression evaluator, its loops, its printed forms, what its scans find |
| CssScanner, CssLoops, CssLaws, CssReads | comment stripping and declaration splitting, their loops, idempotence, what becomes of each kind of text |
| DeckKeys | React keys of a deck's children |
| Bookings, BookingRuns, ReminderRuns | bookings and reminders; interleavings; what reminders promise |
| Migrate | schema migrations by many instances |
| Otp, OtpRaces, Pascal | emailed login codes; verifications that overlap; the binomial coefficients that count them |
| Catalog, SharedFoods, VenueSearch, Picks | paging, shared foods, candidate sort and the pick filter |
| Ordering, Wrappers | sorting by a strict order; optional values |

Where the code does not do all that its comments say, the code is modelled and the exact difference is proved:

- Waiting for a prewarm in flight is said to remove the race of two provider calls
  (anmates-api/services/concierge.go:172-175). It does for every prewarm claimed by the time the fire looks
  (`Concierge.OnlyLatePrewarmsOverlap`) and for no other (`Concierge.OverlapIffUnclaimed`).
- Confirm's UPDATE does not look at the status again (anmates-api/services/booking.go:143-145), so a booking
  cancelled after Confirm's read can become confirmed. `BookingRuns.RevivedIff` says exactly in which step,
  `BookingRuns.RevivableIff` in which states that can still happen.
- Entries are said to be idle when reaped (anmates-api/middleware/ratelimit.go:62). The reaper's check and its deletion
  are separate, and so are a request's getting of its visitor and its taking of a token. A request in between is
  forgotten, and so is one that uses a visitor after its entry was deleted, with the effect that a later request is
  let through (`Reaper.ReaperIsNoticed`). A deletion is harmless if and only if the bucket is full and no request in
  flight has got it (`Reaper.DeletionUnnoticedIff`).
- A code is to be burnt once its attempt budget is exceeded (anmates-api/services/auth.go:395). The count is read and
  written back in two statements. The budget holds if and only if verifications of an email come one at a time
  (`OtpRaces.BudgetHoldsIff`). With k at once a code can be compared up to C(maxAttempts + k, k) - 1 times, 20 times
  with two at once at the server's limit of five, and accepted up to k times; neither is ever exceeded
  (`OtpRaces.ComparedAtMost`, `OtpRaces.ComparedThatOften`, `OtpRaces.AcceptedAtMost`, `OtpRaces.AcceptedThatOften`).
- A fire takes a prewarmed card without looking at its deadline or at whether the match has fired meanwhile, and posts
  it only if both are in order (anmates-api/services/concierge.go:176-205). Otherwise the card is lost:
  `Concierge.TakenCardCanBeShownIff`, and a run in which it is, `Concierge.ExpiredFireLosesCard`.
- "Slow clients are dropped" (anmates-api/ws/hub.go:62): it is the message that is dropped
  (`LocalHub.Client.TrySend`).

## Model

| member | source | states |
|---|---|---|
| LocalHub.Hub.Join | anmates-api/ws/hub.go:39-48 | the room gains exactly this client; other rooms are as before |
| LocalHub.Hub.Leave | anmates-api/ws/hub.go:50-59 | the room loses exactly this client and disappears with its last member |
| LocalHub.Client.TrySend | anmates-api/ws/hub.go:79-83 | a non-blocking send: appended if there is room for it among 16, dropped otherwise |
| LocalHub.Client.NoteFailure | anmates-api/ws/client.go:80-90 | a frame of the client's own that fails is answered by a notice in its own queue, in the same bounded way |
| LocalHub.Hub.Broadcast | anmates-api/ws/hub.go:63-85 | every member of the room whose user is not the sender and whose queue has room among 16 gets the message appended once; the others' queues, and all other queues, stay as they are |
| RedisBackplane.RedisHub.Join | anmates-api/ws/redis_hub.go:51-60 | registers the client locally and subscribes to the room's channel exactly if it was not subscribed |
| RedisBackplane.RedisHub.Leave | anmates-api/ws/redis_hub.go:62-76 | unregisters the client and closes the room's subscription exactly if the room is then empty |
| RedisBackplane.RedisHub.SubscribeLoop | anmates-api/ws/redis_hub.go:91-100 | fans a channel's messages out to every local member in order, skipping each sender; what others send arrives entire as long as the queue has room |
| RedisBackplane.OfferedNext | anmates-api/ws/redis_hub.go:91-100 | message by message, what such a queue holds |
| RedisBackplane.DeliveredOnce | anmates-api/ws/redis_hub.go:55-58 | with table and Redis in step a subscribed channel is delivered exactly once, any other not at all |
| Cluster.JoinedIsSubscribed | anmates-api/ws/redis_hub.go:51-76 | in every interleaving of the locked sections of any number of joins and leaves, a client whose Join has returned has an open subscription for its room |
| Cluster.QuietSubscriptionsExact | anmates-api/ws/redis_hub.go:51-76 | when no call is in progress the subscribed rooms are exactly the rooms with a member, on every replica |
| Cluster.JoinComesThrough | anmates-api/ws/redis_hub.go:51-60 | from any state of any run a connection that has not joined can come to have joined, reached by broadcasts, whatever calls are in progress |
| Cluster.LeaveComesThrough | anmates-api/ws/redis_hub.go:62-76 | and one that has joined can come to have left |
| Cluster.OfferedExactlyOnce | anmates-api/ws/redis_hub.go:79-100 | one broadcast appends its message exactly once to the queue of every reached connection of another user in the room, on whichever replica, if there is room for it, and changes no other queue |
| HubRefinement.ClusterRefinesOneHub | anmates-api/ws/redis_hub.go:51-100 | every run of the cluster has a run of one hub (joins, leaves, broadcasts, notices and writes) with the same broadcasts that ends with the same queues and the same frames received; the hub's members are then all completed joins, some joins in progress, and nobody else |
| HubRefinement.BroadcastRefined | anmates-api/ws/redis_hub.go:79-100 | step for step: a cluster broadcast changes every queue as that hub's broadcast does |
| HubRefinement.QuietClusterIsOneHub | anmates-api/ws/redis_hub.go:17-28 | with no call in progress that hub's members are exactly the registered clients |
| Cluster.StreamsAreInOrder | anmates-api/ws/client.go:33-42 | over every run, error notices included, no queue exceeds 16, and the broadcasts among what a client has received and still has queued are, in order, some of the broadcasts of others in its room |
| Cluster.EveryBroadcastArrives | anmates-api/ws/client.go:33-42 | from any moment of any run on: a connection that is reached whenever another user of its room broadcasts, and whose queue has room then, receives or still has queued exactly those broadcasts, in order |
| Cluster.QueueIsWritten | anmates-api/ws/client.go:95-112 | the write loop can hand over all that is queued, in order |
| Cluster.FailureIsNoted | anmates-api/ws/client.go:80-90 | a failing frame of a joined connection puts a notice in its own queue, if there is room, and changes nothing else |
| ConciergeCache.ConciergeService.Claim | anmates-api/services/concierge.go:124-139 | a prewarm is claimed exactly if none is in flight and what is cached, if anything, is at least 600 seconds old; the claim publishes a new open channel |
| ConciergeCache.ConciergeService.Finish | anmates-api/services/concierge.go:140-145 | the prewarm is unregistered and its channel, open until then, is closed |
| ConciergeCache.ConciergeService.InflightWarm | anmates-api/services/concierge.go:298-302 | the channel of the prewarm in flight, if there is one |
| ConciergeCache.ConciergeService.TakeWarm | anmates-api/services/concierge.go:306-315 | returns and removes the cached card exactly if it is less than 600 seconds old, and otherwise changes nothing |
| Concierge.SingleFlight | anmates-api/services/concierge.go:124-145 | in every run at most one prewarm per replica and match is between claim and cleanup |
| Concierge.ClosedAndConsumedOnce | anmates-api/services/concierge.go:140-160 | a prewarm's channel is closed once, exactly when it is through; a cached card is consumed at most once |
| Concierge.ReleasedFire | anmates-api/services/concierge.go:172-185 | a fire released by a closing channel never calls the provider while the prewarm it saw does, and it takes that prewarm's card if it is still fresh and untaken |
| Concierge.TakenIsFresh | anmates-api/services/concierge.go:306-315 | over every run, a prewarm's card that a fire comes to hold was stored less than 600 seconds before |
| Concierge.ClaimsIff | anmates-api/services/concierge.go:124-139 | over every run, a prewarm goes ahead if and only if no other of its match is in flight on its replica and no untaken card of theirs is younger than 600 seconds |
| Concierge.ComputedCardIsSent | anmates-api/services/concierge.go:186-213 | a fire that calls the provider for a match that has not fired can post what it computes, with the fired run, and broadcast it once |
| Concierge.SeesFired | anmates-api/services/concierge.go:150-170 | a goroutine that sees that the match has fired is through with it; only a waiting fire runs out of time |
| Concierge.OneCardPerMatch | anmates-api/services/concierge.go:326-357 | across replicas a match gets at most one card, a card exists exactly together with the match's fired run, and each is broadcast at most once, after its commit |
| Concierge.OnlyLatePrewarmsOverlap | anmates-api/services/concierge.go:172-186 | over every run, a prewarm that calls the provider at the same time as a fire was not yet claimed when the fire looked |
| Concierge.OverlapIffUnclaimed | anmates-api/services/concierge.go:172-186 | the exact condition, read off when the fire looks: some continuation, however little time it takes, has the two calls at once if and only if the prewarm is unclaimed |
| Concierge.LatePrewarmOverlaps | anmates-api/services/concierge.go:124-186 | beside any fire that is calling the provider, a prewarm not yet claimed can come to call it too, if nothing fresh is cached and none is in flight |
| Concierge.FinishPrewarm | anmates-api/services/concierge.go:140-160 | a prewarm in flight can come to its end undisturbed, unregistered and with its channel closed |
| Concierge.LateFire | anmates-api/services/concierge.go:163-186 | the state from which that overlap starts is reachable |
| Concierge.TakenCardCanBeShownIff | anmates-api/services/concierge.go:176-205 | the exact condition, read off before a fire takes a cached card: the card can still come to be posted, by anyone, if and only if the fire is not past its deadline and the match has not fired |
| Concierge.ExpiredFireLosesCard | anmates-api/services/concierge.go:163-205 | a reachable run, 75 seconds long, in which an expired fire takes the fresh card of the prewarm it waited for, nothing is posted, and that card never can be |
| Points.ChatService.IncrementPoints | anmates-api/services/chat.go:100-125 | one message adds one point and the bonus, reports the totals before and after, and reports (0, 0) for a match without a row |
| Points.PointsCountMessagesAndStreaks | anmates-api/services/chat.go:101-115 | over every history with a clock that does not go back, points are the messages plus five per active day whose previous day was active |
| Points.FiresExactlyOnce | anmates-api/services/concierge.go:83-108 | which message of a history fires or warms, by the totals around it; a total that starts below the trigger and reaches it fires at some message; no action is decided twice |
| Points.WarmPrecedesFire | anmates-api/services/concierge.go:99-108 | with thresholds at least six apart and a start below the lower one, every fire has an earlier warm |
| Points.WarmAlwaysFirstIff | anmates-api/services/concierge.go:99-108 | for a new match that holds for all histories exactly if the warm threshold is 1 or the thresholds are at least six apart |
| MatchStore.MatchingService.Swipe | anmates-api/services/matching.go:130-164 | the whole new state of the tables: the decision is recorded, and a match exists and is returned exactly if the like is mutual and unblocked; an error for a user's own id |
| MatchStore.MatchingService.CreateMatch | anmates-api/services/matching.go:181-256 | returns the pair's match in either direction, creating it with its progress row exactly if there was none |
| MatchStore.MatchingService.FindMatch | anmates-api/services/matching.go:183-192 | finds the pair's match in either direction, if there is one |
| MatchStore.MatchingService.Undo | anmates-api/services/matching.go:169-176 | a swipe of the user stays exactly if another of his is later; everything else stays |
| MatchStore.BlockParts | anmates-api/services/safety.go:40-64 | blocking removes the swipes between the two and their match and keeps either from matching the other; everything else stays |
| MatchStore.UnmatchRemoves | anmates-api/services/safety.go:27-38 | unmatching removes the one match with its progress |
| Matching.AlwaysConsistent | anmates-api/services/matching.go:219-255 | over every run of calls interleaved statement by statement, failures, undo, unmatch and block included: at most one match per unordered pair and one progress row per match |
| Matching.MutualLikesMatch | anmates-api/services/matching.go:130-164 | two opposite likes interleaved with anything that leaves the pair alone: once both return without error the pair has its one match and progress row, and a call reported it |
| Matching.OneLikeIsNotEnough | anmates-api/services/matching.go:130-164 | however calls interleave: if one user's like of the other never stands, the two never come to have a match and no call reports one |
| Matching.SideBySide | anmates-api/services/matching.go:181-256 | two users who like each other can go through every statement side by side, both trying to insert, and then both calls report the same match |
| Matching.GuardsAre | anmates-api/services/matching.go:183-192 | when each statement can run: a SELECT finds a match of the pair if there is one, and only then |
| Matching.FailureMayStand | anmates-api/services/matching.go:130-256 | any call that has not returned can fail, at its swipe or its insert also after that took effect |
| RateLimit.RateLimit.Handle | anmates-api/middleware/ratelimit.go:35-60 | one request takes a token from the address's bucket, created full if absent, and is admitted exactly if there is one |
| RateLimit.RateLimit.ReapIdle | anmates-api/middleware/ratelimit.go:63-79 | an entry stays exactly if it was last seen at most 600 seconds ago, and stays as it was |
| RateLimit.TickIsTrace | anmates-api/middleware/ratelimit.go:63-79 | one tick, behind any trace, is a legal sequence of deletions, so that the theorems about traces hold of it |
| RateLimit.ReapingIsUnobservable | anmates-api/middleware/ratelimit.go:50-79 | if ten minutes refill a bucket, then on every trace with any deletions the same requests are admitted as without deletion |
| RateLimit.ReapingIsObservable | anmates-api/middleware/ratelimit.go:50-79 | otherwise, for any address, some trace is decided differently |
| RateLimit.UnobservableIff | anmates-api/middleware/ratelimit.go:62-79 | deletion is unobservable on all traces if and only if rps times 600 is at least burst |
| RateLimit.ServerLimiterIsUnobservable | anmates-api/main.go:123 | the server's limiter, 0.5 per second and burst 5, is such a limiter |
| RateLimit.FloodOnNew | anmates-api/middleware/ratelimit.go:27-33 | any address the limiter does not know gets `burst` requests at once, and not one more |
| RateLimit.WaitingIsEnough | anmates-api/middleware/ratelimit.go:27-48 | a request is admitted whenever every earlier one of its address is far enough back for one token to flow in, whatever was admitted or deleted before |
| RateLimit.WindowBound | anmates-api/middleware/ratelimit.go:27-48 | in every window the reaping limiter admits at most burst plus rps times its length per address |
| Reaper.ReaperIsNoticed | anmates-api/middleware/ratelimit.go:35-77 | for every limiter with a burst there is a trace answered differently than without deletion in which a request comes between judgement and deletion, and one in which a request has got its visitor before and uses it after |
| Reaper.DeletionUnnoticedIff | anmates-api/middleware/ratelimit.go:35-75 | the exact condition, read off before the deletion: everything that requests, those in flight included, are told from then on is as if nothing were deleted if and only if the bucket is full and no request in flight has got it |
| Reaper.HarmlessDeletionsAreUnnoticed | anmates-api/middleware/ratelimit.go:35-79 | over every interleaving of the requests' and the reaper's steps in which each deletion meets that condition, all requests are answered as without deletion |
| Reaper.UndisturbedReaperIsUnnoticed | anmates-api/middleware/ratelimit.go:35-79 | that is so if ten minutes refill a bucket and no request that has got an entry is in flight between its judgement and its deletion |
| Reaper.ReachedIsValid | anmates-api/middleware/ratelimit.go:35-79 | every state that the steps lead to meets what DeletionUnnoticedIff asks of a state |
| Reaper.TokensAreTaken | anmates-api/middleware/ratelimit.go:37-42 | a request takes its token from the visitor it got, whether or not that is still in the table |
| ExprLoops.ScanParens | plan/mobile-app-design-planning v2/project/support.js:237-247 | the loop decides whether the outer parentheses wrap the whole text, as the recursive reading does |
| ExprLoops.ScanEquality | plan/mobile-app-design-planning v2/project/support.js:248-262 | the loop finds the first equality operator outside brackets, as the recursive reading does |
| ExprLoops.Evaluate | plan/mobile-app-design-planning v2/project/support.js:205-236 | the evaluator terminates on every text and computes Resolve |
| ExprLoops.EvaluatePath | plan/mobile-app-design-planning v2/project/support.js:263-294 | the path loop terminates on every text and computes ResolvePath |
| ExprLaws.ResolvesPrinted | plan/mobile-app-design-planning v2/project/support.js:205-294 | for every expression tree whose string literals have nested brackets and no operator outside them, evaluating its printed text gives the tree's direct value, whatever the value operations are |
| ExprLaws.ComparisonsAre | plan/mobile-app-design-planning v2/project/support.js:211-225 | for all balanced texts l and r: (l)===(r), (l)!==(r), (l)==(r) and (l)!=(r) evaluate to JavaScript's own comparison of their values, negated where the operator says so |
| ExprLaws.MembersAre | plan/mobile-app-design-planning v2/project/support.js:263-294 | the head and every member of a path is JavaScript's own lookup in a value that is neither null nor undefined, and undefined in any other |
| ExprLaws.WordsAre | plan/mobile-app-design-planning v2/project/support.js:227-230 | what true, false, null, undefined and the empty text evaluate to |
| ExprLaws.BrokenPaths | plan/mobile-app-design-planning v2/project/support.js:263-294 | a path that goes on with anything but a member, stops at a point or never closes a bracket is undefined |
| ExprScans.FindsFirst | plan/mobile-app-design-planning v2/project/support.js:248-262 | the operator found is the first "==" or "!=", with or without a third "=", that has as many brackets opened as closed before it, something other than spaces before it and no operator character right before it; none is found if there is none |
| ExprScans.WrapsIff | plan/mobile-app-design-planning v2/project/support.js:237-247 | parentheses count as wrapping the whole if and only if no ")" before the last character leaves as many closed as opened |
| ExprScans.ClosesFirst | plan/mobile-app-design-planning v2/project/support.js:276-286 | a "[" closes at the first "]" that closes more than was opened since |
| ExprScans.NumberIff | plan/mobile-app-design-planning v2/project/support.js:204-231 | which texts are numbers |
| ExprScans.IdentIsLongest | plan/mobile-app-design-planning v2/project/support.js:203-203 | an identifier is a letter, "_" or "$" with all the letters, digits, "_" and "$" that follow |
| ExprLaws.LiteralReadsIff | plan/mobile-app-design-planning v2/project/support.js:211-234 | a string literal evaluates to its text, whatever the value operations are, if and only if the evaluator sees no equality operator in it |
| ExprLaws.PlainTextIsSafe | plan/mobile-app-design-planning v2/project/support.js:232-234 | text without brackets, and without = or ! directly before =, makes such a literal, quotes in it or not |
| ExprLaws.ResolveWrapped | plan/mobile-app-design-planning v2/project/support.js:208-210 | parentheses around a text with balanced brackets do not change its value |
| CssLoops.ScanUnquotedUrl | plan/mobile-app-design-planning v2/project/support.js:1498-1510 | the index behind the unquoted url token that starts here, unterminated ones and trailing escapes included, or -1 |
| CssLoops.StripCommentsLoop | plan/mobile-app-design-planning v2/project/support.js:1511-1541 | the loop computes StripComments on every text |
| CssLoops.ImportantifyLoop | plan/mobile-app-design-planning v2/project/support.js:1542-1566 | the loop computes Importantify on every text |
| CssLaws.StripCommentsIdempotent | plan/mobile-app-design-planning v2/project/support.js:1511-1541 | stripping comments twice is stripping them once, on every text |
| CssLaws.JoinReadsBack | plan/mobile-app-design-planning v2/project/support.js:1511-1566 | declarations joined by semicolons are read back by both scanners as those declarations |
| CssLaws.ImportantifyReadsBack | plan/mobile-app-design-planning v2/project/support.js:1542-1566 | what importantify prints has no comment left and reads back as the declarations it finished, each trimmed and important |
| CssLaws.ImportantifyIdempotent | plan/mobile-app-design-planning v2/project/support.js:1542-1566 | importantify is idempotent on every text |
| CssReads.CommentsBecomeSpaces | plan/mobile-app-design-planning v2/project/support.js:1526-1529 | behind any text that ends outside strings, urls and comments, a comment, which ends at its first closing, becomes one space; an unclosed one extends to the end |
| CssReads.StringsAreKept | plan/mobile-app-design-planning v2/project/support.js:1516-1525 | a string, escapes included, is copied as it is whatever it contains, and a ";" in it does not separate |
| CssReads.UrlsAre | plan/mobile-app-design-planning v2/project/support.js:1497-1510 | where an unquoted url ends, and what makes it none |
| CssReads.UrlsAreKept | plan/mobile-app-design-planning v2/project/support.js:1531-1540 | an unquoted url is copied as it is whatever it contains, and a ";" in it does not separate |
| CssReads.ParenthesesShield | plan/mobile-app-design-planning v2/project/support.js:1550-1552 | a ";" between parentheses does not separate, and a stray ")" closes nothing |
| CssReads.SemicolonsSeparate | plan/mobile-app-design-planning v2/project/support.js:1553-1556 | outside all of these a ";" separates |
| CssReads.ImportantIff | plan/mobile-app-design-planning v2/project/support.js:1565-1565 | a declaration counts as important if and only if it ends in "!", any spaces, and "important" in any case |
| CssReads.CommentsVanish | plan/mobile-app-design-planning v2/project/support.js:1542-1566 | a comment in front makes no difference to importantify |
| CssReads.DeclarationsBecomeImportant | plan/mobile-app-design-planning v2/project/support.js:1565-1565 | a plain declaration is trimmed and gets " !important" unless it has it, and a blank one vanishes, whatever follows |
| DeckKeys.WalkDeckChildren | plan/mobile-app-design-planning v2/project/support.js:493-542 | keys are given exactly if no child is non-blank text, control flow or a slide without a valid id of its own; then one per child, as KeyAt says |
| DeckKeys.NextSlideIds | plan/mobile-app-design-planning v2/project/support.js:499-510 | the backward loop gives for every child the attribute of the next element that has to be a slide |
| DeckKeys.KeysAreDistinct | plan/mobile-app-design-planning v2/project/support.js:511-541 | whenever keys are given they are pairwise distinct as strings |
| DeckKeys.SlideKeyIsItsOwn | plan/mobile-app-design-planning v2/project/support.js:534-539 | in any two decks two slides have the same key exactly if they have the same id, wherever they stand |
| DeckKeys.KeyedIff | plan/mobile-app-design-planning v2/project/support.js:511-541 | which decks get keys: those whose texts are blank, that have no control flow, and whose slides have different ids of eight hexadecimal digits |
| DeckKeys.KeysAre | plan/mobile-app-design-planning v2/project/support.js:511-541 | which keys: a slide's is its id, a blank text's is that of the slide it stands in front of with a number from the second on, any other child's is its position |
| Bookings.Services.Propose | anmates-api/services/booking.go:73-107 | a valid proposal of a member cancels the match's live bookings and adds one; which error otherwise, with nothing changed |
| Bookings.Services.Confirm | anmates-api/services/booking.go:125-146 | uninterrupted: exactly when it succeeds, on the newest proposal and by a member who did not propose it, and exactly when it returns each error, with nothing changed |
| Bookings.Services.CancelBooking | anmates-api/services/booking.go:149-162 | the newest live booking of a member's match becomes cancelled; exactly when each error is returned, with nothing changed |
| Bookings.Services.Newest | anmates-api/services/booking.go:130-133 | the loop finds the newest wanted row of the match |
| Bookings.Services.RunDue | anmates-api/services/reminders.go:24-61 | both reminder statements in turn; the result counts the notifications created |
| Bookings.StampsAre | anmates-api/services/reminders.go:25-50 | when a booking is stamped for each kind, and that nothing else of it changes |
| Bookings.RemindersAre | anmates-api/services/reminders.go:24-57 | one statement stamps exactly the due bookings and tells exactly the members of their matches, each about the other |
| BookingRuns.BookingsStaySound | anmates-api/services/booking.go:73-162 | in every interleaving, with Confirm's read and write apart: at most one live booking per match, every confirmed one confirmed by the member who did not propose it, every reminder inside its window |
| BookingRuns.RevivedIff | anmates-api/services/booking.go:130-145 | a cancelled booking becomes live in a step if and only if a Confirm that read it earlier writes now and the match has no other live booking |
| BookingRuns.CancelledIsFinal | anmates-api/services/booking.go:123-162 | a cancelled booking that no unfinished Confirm has read stays cancelled in every run |
| BookingRuns.RevivableIff | anmates-api/services/booking.go:123-162 | in every reachable state: some continuation makes a cancelled booking live again if and only if an unfinished Confirm has read it |
| BookingRuns.CancelledIsNotFinal | anmates-api/services/booking.go:143-145 | a run of read, cancel, write that confirms a cancelled booking |
| BookingRuns.GuardsAre | anmates-api/services/booking.go:73-162 | when each call can take its step |
| BookingRuns.StepsAre | anmates-api/services/booking.go:143-145 | a confirmation at once makes its row confirmed unless another row of the match is live |
| ReminderRuns.TwoNotificationsPerReminder | anmates-api/services/reminders.go:25-56 | over every run of any number of replicas the notifications of each kind number exactly twice the bookings stamped for it |
| ReminderRuns.ClaimedAtMostOnce | anmates-api/services/reminders.go:26-32 | over every run a booking is claimed for a kind at most once, exactly once if it ends up stamped |
| ReminderRuns.ReminderArrives | anmates-api/services/reminders.go:64-88 | a booking kept confirmed gets its reminder before the window closes, if ticks are no further apart than the window is long and the next one is bound to come in time |
| ReminderRuns.TwoHourReminderArrives | anmates-api/services/reminders.go:44-50 | ticks at most two hours apart that began before that point remind every kept booking in the two hours before its time |
| Migrate.PlanAscends | anmates-api/db/migrate.go:53-59 | the plan lists every migration file exactly once, in strictly ascending order |
| Migrate.Database.Migrate | anmates-api/db/migrate.go:23-97 | one instance alone, with an error at the lock, the table, any check or any transaction: which missing files are applied, in order, and that it succeeds exactly if all are; the lock is released |
| Migrate.LogIsPrefixOfPlan | anmates-api/db/migrate.go:61-95 | any number of instances, locks lost, crashes and restarts anywhere: the log only grows, as a prefix of the plan, each file once, and success means the whole plan |
| Migrate.SuccessMeansApplied | anmates-api/db/migrate.go:61-95 | whatever was applied before, nothing is applied twice and success means that every file of the plan is applied |
| Migrate.OneInstanceWorks | anmates-api/db/migrate.go:30-39 | while no lock session is lost at most one instance is past the lock, and no transaction finds its file already applied |
| Migrate.InstanceCanFinish | anmates-api/db/migrate.go:23-97 | whatever was applied before, an instance that starts while the lock is free can come to success with every file applied |
| Migrate.NeverStuck | anmates-api/db/migrate.go:23-97 | from any state of any run, lost locks, failures and crashes included, any instance can still come to success with every file applied |
| Migrate.LostLockLetsTwoWork | anmates-api/db/migrate.go:30-39 | that only one instance works does need its premise: once a lock session is lost two can be at work |
| Migrate.GuardsAre | anmates-api/db/migrate.go:23-97 | when an instance can start, lose its lock, fail and start again |
| Catalog.ListVenuesPage | anmates-api/services/venue_catalog.go:123-172 | the requested page of the listing, and the listing's length |
| Catalog.ListingIgnoresRowOrder | anmates-api/services/venue_catalog.go:153-170 | rows with unique ids give the same listing in whatever order the query returns them |
| Catalog.ListingIsSorted | anmates-api/services/venue_catalog.go:126-170 | the listing holds exactly the rows that pass the filters, around a centre the nearer first, otherwise by name, and by id among equals |
| Ordering.BeforeIff | anmates-api/services/venue_catalog.go:163-170 | what coming first means for names: the order by the first character that differs |
| Catalog.PagesTile | anmates-api/services/venue_catalog.go:177-188 | pages fetched by separate queries concatenate to a prefix of the listing, with nothing repeated or skipped |
| Catalog.HasMoreIsExact | anmates-api/handlers/venue_catalog.go:66-71 | has_more is true after a page exactly if something is still missing |
| Catalog.FollowingHasMoreEnds | anmates-api/handlers/venue_catalog.go:66-71 | total / limit + 1 requests deliver the whole listing |
| SharedFoods.SharedFoodsOf | anmates-api/services/meal_day.go:200-246 | whatever order the map is iterated in, the result is SharedFoods of the two sets |
| SharedFoods.SharedFoodsAre | anmates-api/services/meal_day.go:200-246 | the result in full, without the loops: strictly ascending, and exactly the names of shared keys that are not led by a category contained in another name |
| SharedFoods.Symmetric | anmates-api/services/meal_day.go:200-208 | both members get the same list |
| SharedFoods.EverySharedKeyIsCovered | anmates-api/services/meal_day.go:227-243 | every shared key that is shown at all has its name contained in some entry |
| SharedFoods.BuildIcebreakers | anmates-api/services/meal_day.go:265-286 | three prompts from different templates, about the shared foods if there are any |
| SharedFoods.PromptsAre | anmates-api/services/meal_day.go:265-286 | which template each prompt has, and that it is about the shared foods in turn |
| SharedFoods.ShownAre | anmates-api/services/meal_day.go:158-161 | the names the categories are shown by |
| SharedFoods.IcebreakersForBoth | anmates-api/services/meal_day.go:300-310 | both members get the same icebreakers |
| Otp.AuthService.RequestEmailOTP | anmates-api/services/auth.go:259-286 | a code is issued exactly if the newest one for the email is older than the cooldown; other emails are untouched |
| Otp.AuthService.VerifyEmailOTP | anmates-api/services/auth.go:377-413 | the outcome and the email's rows afterwards, for no code, an exhausted one, a wrong guess and the right one; other emails are untouched |
| Otp.GuessIsJudged | anmates-api/services/auth.go:383-411 | a guess is accepted exactly if it is the newest usable code and guesses are left; that code is used up exactly if accepted or out of guesses, and counts the guess exactly if it was compared; no other code is touched |
| Otp.GuessesAreLogged | anmates-api/services/auth.go:394-411 | which guesses are compared, with which code and with what outcome |
| Otp.RunsOn | anmates-api/services/auth.go:259-413 | a run goes on event by event while time passes |
| Otp.IssuedCodeIsAccepted | anmates-api/services/auth.go:259-413 | the code that a request issued, presented before any other event of its email, is accepted exactly until it expires, whatever happens to other emails |
| Otp.ConsumedIsFinal | anmates-api/services/auth.go:383-411 | over every run a consumed code stays consumed and is never compared again |
| Otp.CodesAreRationed | anmates-api/services/auth.go:259-413 | over every run codes of an email are a cooldown apart, and each is compared at most maxAttempts times and accepted at most once |
| Otp.FewCodesAtOnce | anmates-api/services/auth.go:264-286 | at every moment at most ceil(expire / cooldown) codes of an email are unexpired |
| Otp.GuessesAreBounded | anmates-api/services/auth.go:377-413 | any window of length W sees at most maxAttempts * ceil((expire + W) / cooldown) comparisons for an email |
| OtpRaces.ComparedAtMost | anmates-api/services/auth.go:377-413 | with lookup and update as two steps, over every interleaving of at most k calls at once: no code is compared more than C(maxAttempts + k, k) - 1 times |
| OtpRaces.ComparedThatOften | anmates-api/services/auth.go:377-413 | for every limit and every k some run of at most k calls at once compares a code exactly that often |
| OtpRaces.BudgetHoldsIff | anmates-api/services/auth.go:377-413 | the exact condition: every run of at most k calls at once compares each code at most maxAttempts times and accepts it at most once if and only if k is at most one (or no code is ever valid, or no guess is ever allowed) |
| OtpRaces.AcceptedAtMost | anmates-api/services/auth.go:405-412 | with at most k calls at once no code is accepted more than k times |
| OtpRaces.AcceptedThatOften | anmates-api/services/auth.go:405-412 | for every k some run of at most k calls at once has all k accepted for one code |
| OtpRaces.UndisturbedGuessesAreRationed | anmates-api/services/auth.go:383-413 | however many calls overlap, if every update finds its row as the lookup did, each code is compared at most maxAttempts times and accepted at most once |
| OtpRaces.ServerLimit | anmates-api/config/config.go:134 | at the server's limit of five some run of two calls at once compares a code 20 times, and none more often |
| VenueSearch.SortCandidatesByDistance | anmates-api/services/venue.go:109-115 | the array holds afterwards the stable sort of what it held |
| VenueSearch.SortStableSorts | anmates-api/services/venue.go:109-115 | that sort is by distance, a permutation, and keeps the order among equal distances |
| VenueSearch.StableSortIsUnique | anmates-api/services/venue.go:109-115 | nothing else is both sorted and stable |
| VenueSearch.SearchCandidates | anmates-api/services/venue.go:84-106 | the rows within the radius, nearest first, capped at limit if it is positive |
| VenueSearch.InRadiusNext | anmates-api/services/venue.go:84-100 | row by row, which rows become candidates and in which order |
| VenueSearch.SearchFindsNearest | anmates-api/services/venue.go:101-106 | the candidates are the `limit` nearest, or all: nothing left out is nearer |
| Picks.ValidatePicks | anmates-api/services/concierge.go:481-507 | the cards are the first `max` distinct ids that name candidates, in the model's order, with every fact from the row and a safe reason |
| Picks.GenuineAre | anmates-api/services/concierge.go:488-499 | an id is kept exactly if some pick names it and it is a candidate's, once, as first named, in the order of first naming |
| Picks.CardsAre | anmates-api/services/concierge.go:481-507 | the cards in full: each shows a candidate's facts with the reason of the pick that first named it, in the order of first naming, at most `max`, and none is missing if there are fewer |
| Picks.ReasonIs | anmates-api/services/concierge.go:538-554 | the reason shown is the model's own, cut at 80 characters, unless it is empty or has a character from U+2E80 on |
| Picks.ReasonsAreSafe | anmates-api/services/concierge.go:538-554 | the reason shown is never empty, over 80 characters or with a CJK character, and is the model's own if that already is so |
| Picks.Suggest | anmates-api/services/venue_provider.go:19-37 | no candidates give no cards whatever the ranking; a ranking error fails; otherwise the validated picks |
| Picks.CardsAreReal | anmates-api/services/venue_provider.go:19-37 | for every ranking: at most three cards, no venue twice, each with the facts of a row in the radius that is among the `limit` nearest |

## Left out

- Cluster.StreamsAreInOrder: a broadcast is one step from publish to the offers on all replicas. With slow
  subscription readers a connection that leaves and rejoins could see an old message late, so order across a
  re-subscription is not claimed for the code as deployed; lost Redis connections are not modelled.
- Cluster.JoinedIsSubscribed: a subscription counts as open once Subscribe has been called under the lock; the
  time until Redis acknowledges it is not modelled.
- RateLimit.ReapingIsUnobservable: a request is one step and each staleness check is atomic with its deletion; the
  module Reaper takes both apart. Time and tokens are reals, not floating-point numbers and nanoseconds, and the token bucket is the library's
  specification (tokens refill at rps up to burst).
- Otp.CodesAreRationed: calls are atomic and their statements succeed; OtpRaces takes lookup and update apart. An
  UPDATE that fails after a wrong guess is ignored by the code, and that guess is then not counted.
- RateLimit.WindowBound: of requests and staleness checks that are one step each, as RateLimit.WaitingIsEnough.
- OtpRaces.ComparedAtMost: the codes of one email; issuing a code is one step, and updates do not fail.
- Concierge.OnlyLatePrewarmsOverlap: a fire may run out of time at any moment while it waits, which includes the
  moments at which it really does; the clock is not consulted.
- Bookings.Services.Confirm: the uninterrupted call; BookingRuns treats its read and write separately.
- ReminderRuns.TwoNotificationsPerReminder: rows are never deleted; unmatching deletes a match's bookings and
  notifications.
- ReminderRuns.TwoHourReminderArrives: a tick is a statement that succeeds; errors are logged and retried by the
  next tick, so the gap that counts is between successful ones.
- Concierge.OneCardPerMatch: the match and its messages are not deleted. Notices about users too far apart and the
  rows for skipped or failed runs carry no card and are not modelled.
- Points.ChatService.IncrementPoints: a statement that commits but reports an error is not modelled, nor is the
  level written after it.
- Migrate.LogIsPrefixOfPlan: all instances embed the same files; a file and its row are one transaction.
- Catalog.PagesTile: the rows do not change between the queries of one client, only their order does.
- SharedFoods.SharedFoodsOf: interests are sets, because nothing but true is ever stored; the templates' texts and
  the capital letter at the start of a sentence are not modelled.
- VenueSearch.SearchFindsNearest: among the rows that the SQL query returned. Whether its bounding box loses rows
  near the edge of the radius is not claimed; distances are compared in whole metres, as the code does.
- ExprLaws.ResolvesPrinted: texts are sequences of Unicode characters rather than UTF-16 code units (unpaired
  surrogates), and so in the CSS scanners and the 80-character limit. Which literals with brackets that do not nest
  still evaluate to their text inside a larger expression is not said.
- Shutdown (CloseAll), which may close a channel that a broadcast is about to use.
- HTTP handlers beyond the paging arithmetic, JWT, bcrypt, SMTP, push, image codecs, metrics and the model's HTTP API.
- The venue search cache, trust scores, level tables, anchor choice, avatar checks, read receipts and quick emoji.
- The user deck query, matching scores and the bots' conversations; their direct way to a match is an event of Matching.
- The rest of support.js (DOM, React, fetch) and the mobile apps and scripts.
