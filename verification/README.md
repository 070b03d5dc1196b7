# Verified model of the blog platform's backend services

This project models the stateful services of the blog platform's NestJS backend in Dafny and proves what they are for:
comment threads and their counters, paginated lists that keep changing while they are read, the unified home feed and its
rankings, debounced cache invalidation, blog addresses, e-mail verification codes, password reset tokens and the follow graph.

`dafny verify dfyconfig.toml` checks everything.

## Layout

| file | what it holds |
|---|---|
| `Wrappers.dfy`, `Keyset.dfy`, `Chain.dfy` | optional values; `ORDER BY ... DESC LIMIT n` over finite sets; cursor pagination over a table that changes between requests |
| `CommentTable.dfy`, `ReplyCounters.dfy`, `ReplyRecount.dfy` | the comment forest, the reply counters as a machine of interleaved steps, the batch recount |
| `Reactions.dfy`, `CommentTree.dfy`, `CommentPages.dfy`, `CommentMoves.dfy`, `CommentStore.dfy`, `PageContents.dfy`, `CommentRules.dfy`, `ServedWalks.dfy` | likes and dislikes, the nested view, parent pages, how often a comment that moves is shown, the service object with its first-page cache, what its pages hold and its requests do in terms of rows, walks through the pages it serves |
| `Feed.dfy`, `FeedContents.dfy`, `FeedRanking.dfy` | the optimised feed query, scrolling, what a page holds in terms of rows, the three sorted sets |
| `Debounce.dfy` | timers, running and failing scans, cleanup, shutdown |
| `Aliases.dfy` | current and old aliases, slugs, the lookup cache |
| `Verification.dfy`, `ResetTokens.dfy`, `Races.dfy`, `GuessRaces.dfy` | code limits, guesses, session tokens; reset tokens; what survives of their limits when requests overlap |
| `Follows.dfy`, `FollowPages.dfy`, `CategoryPages.dfy`, `Slugs.dfy` | counters as degrees, follower and following pages, value cursors, slug making |

Services that update fields become classes whose methods equate the new state with a specification function of the old one;
the laws are proved about those functions, over whole runs, and what each of them answers and changes is stated on the fields of the tables without them. SQL queries, the pure slug and cursor code and the recursive
tree builder are functions.

## Assumptions

- Ids are unique over both post tables and totally ordered (`Feed.SourcesFixed`); they are integers here, except in the rankings, where their text matters.
- Times are integers of the resolution a cursor carries (milliseconds), and one clock is read. Within a step it does not move.
- A cursor is what it decodes to; a cursor that does not decode filters nothing. The codec (base64 of JSON) is taken to round-trip.
- Verification sends and guesses, and reset requests and resets, hold no transaction or lock. In `Verification` and `ResetTokens` each is one step, so their runs are sequential; `Races` and `GuessRaces` split the read from the write and say what is left of each limit when up to k requests overlap, k being any number.
- A transaction or a row-locked block is one step. Creating and removing comments are *not* one step: `ReplyCounters` interleaves the parent lookup, the row write and the later counter update of any number of requests.
- Every comment carries the number of its insertion (`born`), which the table does not have; parents exist before their children, so it makes the walks end.
- Random values (codes, tokens, ids) are parameters, fresh where the source relies on it. Equal keyed hashes stand for equal secrets.
- A scan that fails in a timer rejects a promise nobody waits for; the process is assumed to survive that.
- Local midnight is a fixed offset from UTC.

## Where the code and its documentation differ

The model follows the code. Each of these is stated as a theorem; the members named in brackets give the exact condition and a run or input on which the promise fails.

- The popular list's snapshot is documented to prevent duplicates and omissions. It fixes the set of comments, not their likes. A reader who reads to the end sees a comment once if and only if it overtook the cursor as often as it fell below it, never if and only if it overtook once more, and repeatedly otherwise (`CompletedWalkShows`; `OvertakingCommentMissed` and `FallingCommentRepeated` are the inputs).
- A first popular page asked for with the client's own snapshot is cached for everybody; the cache then differs from a fresh page unless the cut left the first page alone (`OwnSnapshotCoherence`, `OwnSnapshotRun`).
- `create` does not check that a reply names the post of the comment it answers, and invalidates the cache of the named post only (`CrossPostReplyCoherence`, `CrossPostReplyRun`).
- `remove` does not look at `isDeleted`; removing a removed reply breaks the counter law, and that is the only way to break it (`RemoveConservesIffLive`, `RemovedTwice`).
- The alias update says it checks availability, but looks only for another blog's current alias. Names stay permanent exactly when the caller has made the rest of the availability check (`ChangeKeepsPermanentIff`, `GivenUpNameTaken`).
- A lookup answered from the cache carries no redirect. It differs from the answer of the tables if and only if the word is cached and the blog has an alias that is another word (`CachedLookupLosesRedirectIff`, `SecondLookupLosesRedirect`).
- The alias update accepts `@`, which is stored as the empty alias, and the invalidation skips empty names. A change then leaves the cache wrong if and only if the alias given up is empty, the new one is not, and the empty word is cached (`ChangeKeepsCacheIff`, `EmptyAliasRun`).
- "Clear all other tokens" after a password reset matches the used token only; the others go on working. The user is left without a valid token if and only if there was no other one (`ResetClearsIff`, `OtherTokensSurvive`, `OtherTokenOutlivesReset`).
- Reset tokens are refused by validation at the instant they expire and accepted by the reset itself, so a user can hold four usable tokens then, against three valid ones (`AtMostThreeValid`, `AtMostFourUsable`, `FourthAtExpiry`, `FourRequests`).
- A verification code is meant to be superseded by the next. Expiry is tested strictly, so an earlier code, once it is the newest unverified one, is accepted if and only if the last one was sent in this millisecond (`EarlierCodeAcceptedIff`, `SupersededCodeAccepted`).
- The limits on codes, guesses, reset tokens and uses of a token count or read first and write later. With up to k requests in between, a minute or a day holds up to limit + k - 1 codes, a user up to 3k valid tokens, a token changes the password up to k times, and up to C(maxAttempts + k, maxAttempts) - 1 guesses of a code are compared; every one of these numbers is reached (`SendsAttained`, `MinuteAttained`, `DayAttained`, `TokensAttained`, `ResetsAttained`, `GuessesAttained`). Each limit holds in all runs if and only if k is at most one, or, for codes and guesses, the limit is zero (`SendLimitsIff`, `ThreeTokensIff`, `OneChangeIff`, `GuessLimitIff`).
- A debounced scan that ends forgets its pattern even when a newer request is waiting; shutdown then misses that request's timer (`CompletionTracksIff`, `ShutdownStopsAllIffTracked`, `CompletionLosesTrack`).
- No request is forgotten while the process lives, but scans can fail. A request has a timer or a scan that has not failed, unless every scan since it failed (`RequestServedIff`); cleanup and shutdown scan again after a failure if and only if the pattern is still in the map (`FailedScanRetriedIff`), and the end of an older scan removes it (`OlderCompletionLosesRequest`).
- A category limit between zero and one rounds down to zero, and the first page then says that there is more without offering a cursor (`FractionalLimitShowsNothing`).
- Cutting an administrator slug at fifty characters leaves a trailing hyphen if and only if it cuts right after one (`CutSlugWellFormedIff`, `CutLeavesHyphen`).

## Model

| member | source | states |
|---|---|---|
| CommentTable.RootOfParent | backend/src/comments/comments.service.ts:961-972 | Parent and child reach the same root, and the walk ends at a row no younger than its start. |
| ReplyCounters.StepSound | backend/src/comments/comments.service.ts:118-140 | Whatever step runs, parents exist, are older than their children, and links never change. |
| ReplyCounters.InsertMeans | backend/src/comments/comments.service.ts:130-143 | An insert uses up its draft and writes the row the draft describes, starting from zero; a parent that is gone makes the insert fail. |
| ReplyCounters.StepConserves | backend/src/comments/comments.service.ts:952-1016 | One step of any request keeps, for every root, counter plus increments owed minus decrements owed equal to its live descendants. |
| ReplyCounters.RunConserves | backend/src/comments/comments.service.ts:146-156 | The same over every interleaving in which no comment is removed twice. |
| ReplyCounters.QuiescentCountersExact | backend/src/comments/comments.service.ts:296-305 | With nothing under way, `repliesCount` is the number of live descendants, so never negative. |
| ReplyCounters.RemoveConservesIffLive | backend/src/comments/comments.service.ts:282-305 | In every conserved state, whatever is under way, a `remove` keeps the law if and only if the comment was a root or was live. |
| ReplyCounters.RemovedTwice | backend/src/comments/comments.service.ts:282-305 | A run from the empty store: a root, a reply, and two removals of the reply, all carried through, leave the root's counter at minus one. |
| ReplyCounters.FlatteningKeepsDepth | backend/src/comments/comments.service.ts:118-140 | From depth at most d, with no draft deeper, every reachable forest has depth at most d (d at least 1). |
| ReplyCounters.ReachableIsFlat | backend/src/comments/comments.service.ts:118-140 | From an empty store every parent is a root. |
| ReplyRecount.CountTree | backend/src/comments/comments.service.ts:916-933 | The level-by-level recursive query counts exactly the comments reached through live ones only. |
| ReplyRecount.RecalculateRepliesCount.Up | backend/src/migrations/1761000000000-RecalculateRepliesCount.ts:13-53 | After the two updates live roots hold that count and every other row holds zero, nothing else changed. |
| ReplyRecount.RecountAgreesIffNoOrphans | backend/src/migrations/1761000000000-RecalculateRepliesCount.ts:20-52 | In a conserved, quiescent state the recount leaves a live root alone if and only if no live comment below it answers a removed one. |
| ReplyRecount.ReachableRecountAgrees | backend/src/migrations/1761000000000-RecalculateRepliesCount.ts:13-53 | In every reachable quiescent state the recount changes no live root, and the total-count query returns the same number. |
| ReplyRecount.OrphanDisagrees | backend/src/comments/comments.service.ts:916-933 | A live answer to a removed reply separates the two counts. |
| Reactions.ToggleMeaning | backend/src/comments/comments.service.ts:322-394 | A toggle presses one button of one user: same button off, other button switches, no other reaction or comment moves, counters stay exact. |
| Reactions.ToggleCounts | backend/src/comments/comments.service.ts:343-375 | On any board: one more or one less of the kind pressed, one less of the other kind when it is replaced, never below zero. |
| Reactions.ToggleAnswers | backend/src/comments/comments.service.ts:380-388 | A toggle fails only for an absent comment, and its answer says whether the button is lit on the final board and both counters there. |
| Reactions.ClampNeverBites | backend/src/comments/comments.service.ts:355-362 | While counters are exact, clamping at zero changes nothing. |
| Reactions.RunMeaning | backend/src/comments/comments.service.ts:322-468 | Over any run counters equal the rows of each kind, and each user's reaction is decided by that user's own presses. |
| Reactions.ScheduleIrrelevant | backend/src/comments/comments.service.ts:322-468 | Two interleavings with the same presses per user end in the same board. |
| Reactions.TogglesCommute | backend/src/comments/comments.service.ts:396-468 | Toggles of different users, or on different comments, commute. |
| CommentTree.FlattenCovers | backend/src/comments/comments.service.ts:190-244 | The nested view holds a comment if and only if its chain of ancestors up to the level is in the list. |
| CommentTree.FlattenNoRepeats | backend/src/comments/comments.service.ts:190-244 | No comment appears twice in it. |
| CommentTree.TreeMirrorsList | backend/src/comments/comments.service.ts:190-244 | At every level siblings are the list's answers to their parent, in list order. |
| CommentTree.NestedViewExact | backend/src/comments/comments.service.ts:184-245 | Built from the live list of a post, it holds exactly the comments whose whole ancestor chain is live, each once. |
| CommentPages.PageIsWindow | backend/src/comments/comments.service.ts:600-699 | The cursor clause, order and limit together return exactly the rows between the cursor and the next cursor, in sort order. |
| PageContents.PageAnswers | backend/src/comments/comments.service.ts:573-699 | A computed page shows exactly the live comments of the post that answer no other, lie within snapshot and cursor, and have fewer than `limit` such comments before them; in sort order, each with its row's counts and time; the has-more flag and the cursor at the last one say whether there are more. |
| PageContents.ReadAnswers | backend/src/comments/comments.service.ts:541-590 | So does every answer of the service that the cache does not give; a popular first page without a snapshot is cut at the present, a recent page never. |
| PageContents.ReadShowsLiveRows | backend/src/comments/comments.service.ts:577-582 | Cached or not, everything an answer shows is a live parent comment of the post with the numbers of its row. |
| PageContents.RemovedIsNeverShown | backend/src/comments/comments.service.ts:296-312 | After an accepted remove no page of the store, then or in any later state of a run, shows the comment. |
| CommentPages.SteadyCommentShownOnce | backend/src/comments/comments.service.ts:563-699 | Under any interleaved changes a comment that stays live and keeps its key is on exactly one page, unless the client stopped while its last cursor was still above it, and then on none. |
| CommentPages.ShownIffInWindow | backend/src/comments/comments.service.ts:600-699 | Page i shows any comment if and only if, when read, it was listed and lay between the cursor sent and the cursor returned. |
| CommentPages.FrozenPagesAreList | backend/src/comments/comments.service.ts:600-699 | On an unchanged table the comments shown by a completed walk are the sorted list of live parents, each once with its creation time and counts. |
| CommentPages.WalkEnds | backend/src/comments/comments.service.ts:563-699 | Although comments are added and likes change without bound, a client that keeps asking reaches the last page; `ServedWalks.StoreWalkEnds` is the same over runs of the service. |
| CommentPages.OvertakingCommentMissed | backend/src/comments/comments.service.ts:563-571 | With the snapshot passed on, a live comment that overtakes the cursor is shown on no page of a completed walk. |
| CommentPages.FallingCommentRepeated | backend/src/comments/comments.service.ts:563-571 | With the snapshot passed on, a comment that falls below the cursor is shown on two pages. |
| CommentMoves.ShowsBalanceMoves | backend/src/comments/comments.service.ts:600-699 | For every walk, with another limit and snapshot at each request, over tables changing in any way while the comment stays listed: pages showing it, plus times it overtook the cursor, plus one if the client stopped above it, equal times it fell below the cursor plus one if it lay after the first cursor. |
| CommentMoves.CompletedWalkShows | backend/src/comments/comments.service.ts:563-699 | A completed walk shows the comment once if and only if overtakes equal falls, never if and only if they are one more, twice or more if and only if they are fewer. |
| CommentMoves.FixedCommentShownOnce | backend/src/comments/comments.service.ts:600-699 | Also of a client that asks for another limit each time, a listed comment with a fixed key is on exactly one page, and on none if and only if the client stopped above it. |
| CommentStore.FindRoot | backend/src/comments/comments.service.ts:961-972 | The loop over parent links returns the root of the comment. |
| CommentStore.CommentsService.Create | backend/src/comments/comments.service.ts:103-182 | New row attached at the flattened parent, root counter raised, both cached first pages of the post dropped; errors leave the store alone. |
| CommentRules.CreateRefusedIff | backend/src/comments/comments.service.ts:103-128 | Refused exactly when the post is absent, its blog does not allow comments, or the parent named is absent, each with its own error. |
| CommentRules.CreateAddsOneRow | backend/src/comments/comments.service.ts:118-159 | One row is added, attached to the parent or what the parent answers and starting from zero; the root above gains one reply, no other row changes, and the post's cached pages go. |
| CommentRules.DoIsRequest | backend/src/comments/comments.service.ts:103-750 | Each step of a run is the request it names, carried through, or refused without a trace. |
| CommentRules.RunKeepsAllowed | backend/src/comments/comments.service.ts:112-116 | Over every run no comment is on a post whose blog does not allow comments. |
| CommentStore.CommentsService.Remove | backend/src/comments/comments.service.ts:282-312 | Row marked deleted, root counter lowered, cached pages of its post dropped; only the author may. |
| CommentRules.RemoveRefusedIff | backend/src/comments/comments.service.ts:282-294 | Refused exactly when the comment is absent or the user is not its author, each with its own error. |
| CommentRules.RemoveMarksOneRow | backend/src/comments/comments.service.ts:296-312 | The comment is marked deleted and otherwise kept, the root above loses one reply, no other row changes, and the post's cached pages go. |
| CommentStore.CommentsService.AddToRepliesCount | backend/src/comments/comments.service.ts:952-1016 | The counter of the root of the comment moves by the given amount and no other row changes. |
| CommentStore.CommentsService.InvalidateCommentsPaginationCache | backend/src/comments/comments.service.ts:1027-1044 | Both sort orders of the post leave the cache, other posts stay. |
| CommentStore.CommentsService.ToggleLike | backend/src/comments/comments.service.ts:322-394 | The board becomes what `Reactions.ToggleLike` says, and the post's cached pages are dropped. |
| CommentStore.CommentsService.ToggleDislike | backend/src/comments/comments.service.ts:396-468 | Likewise for dislikes. |
| CommentRules.TogglesPress | backend/src/comments/comments.service.ts:322-468 | Refused exactly for an absent comment; otherwise one reaction row of one user, the two counters of the comment and the post's cached pages change, as the button pressed says, and nothing else. |
| CommentStore.CommentsService.GetParentCommentsPaginated | backend/src/comments/comments.service.ts:534-750 | First pages come from the cache or fill it; other pages are computed; the snapshot defaults to now on a first popular page. |
| CommentStore.CreateIsSteps | backend/src/comments/comments.service.ts:103-156 | An undisturbed create is the lookup, insert and increment steps of the interleaved machine. |
| CommentStore.RemoveIsSteps | backend/src/comments/comments.service.ts:282-305 | An undisturbed remove is its remove and decrement steps. |
| CommentStore.CacheStaysCoherent | backend/src/comments/comments.service.ts:541-558 | Over any admissible run of creates, removes, toggles and reads, every cached first page equals a fresh query with the limit it was cached under: same ids, order, counts, cursor. |
| CommentStore.CrossPostReplyCoherence | backend/src/comments/comments.service.ts:118-156 | After a reply, the cache is coherent if and only if it did not show the root under another post than the one named. |
| CommentStore.CrossPostReplyRun | backend/src/comments/comments.service.ts:118-156 | From an empty store: a comment on one post, its first page read, a reply naming the other post; the cached page is then stale. |
| CommentStore.CutPageIsFreshIff | backend/src/comments/comments.service.ts:563-590 | A page cut at a client's snapshot is the uncut first page if and only if the cut keeps the first rows and the has-more flag. |
| CommentStore.OwnSnapshotCoherence | backend/src/comments/comments.service.ts:716-737 | A first popular page with its own snapshot keeps the cache coherent exactly then. |
| CommentStore.OwnSnapshotRun | backend/src/comments/comments.service.ts:716-737 | From an empty store: one comment, then a first popular page with an older snapshot; the cache then differs from a fresh page. |
| CommentStore.RowsPersist | backend/src/comments/comments.service.ts:282-305 | Over any run rows stay, keep post, parent and time, are never undeleted, and later rows are not older than the clock was. |
| CommentStore.StoreReadsAreLater | backend/src/comments/comments.service.ts:563-590 | Whatever the store does between the reads of a walk in later milliseconds, every comment met is one the first read could see or is strictly newer than that read. |
| ServedWalks.ServedIsWalk | backend/src/comments/comments.service.ts:534-558 | The pages the service serves, the first of them possibly cached for another client under another limit, are a walk over its tables in which each request has its own limit. |
| ServedWalks.ServedShownOnce | backend/src/comments/comments.service.ts:534-750 | So a comment that stays listed under a fixed key is served on exactly one page, whatever is cached, created, removed or liked meanwhile and whatever limits are asked for, unless the client stopped above it. |
| ServedWalks.ServedBalance | backend/src/comments/comments.service.ts:534-750 | And a comment that moves is served as often as its crossings of the cursor say. |
| ServedWalks.StoreWalkEnds | backend/src/comments/comments.service.ts:563-699 | Over every run of the service between the requests of a client, made in later milliseconds than the first, the client reaches the last page after a number of requests that the first table bounds. |
| Keyset.MergeOfTops | backend/src/feed/feed.service.ts:650-687 | The first n of the union of the first m of each part are the first n of the whole, for n at most m. |
| Keyset.FilterCommutes | backend/src/feed/feed-ranking.service.ts:147-189 | Filtering before or after the sort is the same. |
| Keyset.TakeIff | backend/src/comments/comments.service.ts:600-640 | A limited query returns a row if and only if fewer than `limit` rows come before it. |
| Chain.StableKeyOnce | backend/src/comments/comments.service.ts:639-699 | A key every read sees is on exactly one page, unless the last cursor is still above it, and then on none. |
| Chain.PagesDescend | backend/src/comments/comments.service.ts:600-699 | Whatever happens between reads, shown keys strictly descend: no key twice. |
| Chain.ChainEnds | backend/src/comments/comments.service.ts:600-699 | More reads than keys below the cursor always reach a page without a next cursor. |
| Feed.OptimizedRefinesUnion | backend/src/feed/feed.service.ts:632-820 | For sort recent and filter all, any database, cursor, limit and period, the candidate query returns what sorting the whole union and cutting it returns. |
| Feed.GetUnifiedFeed | backend/src/feed/feed.service.ts:108-149 | The assembled response is the page of the plain union: surplus row dropped, cursor at the last row kept. |
| FeedContents.PageAnswers | backend/src/feed/feed.service.ts:451-620 | A page holds exactly the published posts and public, discoverable community posts of the tables its filter reads, within period and cursor, that fewer than `limit` others come before; newest first, with the cursor at the last one exactly when there are more. |
| FeedContents.ScrollShows | backend/src/feed/feed.service.ts:67-142 | A completed scroll of an unchanged database shows a post if and only if it meets those conditions. |
| Feed.VisiblePostShownOnce | backend/src/feed/feed.service.ts:67-142 | A post visible at every request is on exactly one page, whatever is published, hidden or removed meanwhile, unless the reader stopped above it. |
| Feed.FrozenScrollIsFeed | backend/src/feed/feed.service.ts:67-142 | On an unchanged database a completed scroll is the whole feed, newest first, each post once. |
| Feed.ScrollEnds | backend/src/feed/feed.service.ts:641-687 | A reader who keeps scrolling reaches the end: over every evolution of the database in which rows keep their time and new ones are dated later, after at most one request more than there were rows at first. |
| Feed.GetRankedFeedItems | backend/src/feed/feed.service.ts:159-203 | Ranked ids come back in ranking order, those no longer visible skipped, each with its own row. |
| FeedContents.RankedAnswers | backend/src/feed/feed.service.ts:159-203 | The ranked page is the ranking without the posts that nobody may see, each item with its row's time. |
| FeedRanking.MemberRoundTrip | backend/src/feed/feed-ranking.service.ts:50-71 | A member parses back to its row if and only if the source is known and the id is not empty and has no colon. |
| FeedRanking.FeedRankingService.StoreRanking | backend/src/feed/feed-ranking.service.ts:147-189 | The three sets of the sort order hold the last usable score of each row that belongs there; the other sort order is untouched. |
| FeedRanking.RankingHoldsRows | backend/src/feed/feed-ranking.service.ts:147-182 | A member is in a set if and only if some row with a usable score and the right source names it. |
| FeedRanking.LargerScoreFirst | backend/src/feed/feed-ranking.service.ts:147-182 | The hot ranking orders by the hot score and the top ranking by the top score: of two rows a filter takes, the one with the larger score comes first, under its own score. |
| FeedRanking.RankingIsProjection | backend/src/feed/feed-ranking.service.ts:147-182 | Reading a source's set is reading the full set and skipping the other source: same order. |
| FeedRanking.SourcesPartition | backend/src/feed/feed-ranking.service.ts:147-182 | The two source sets are disjoint and together hold every member. |
| FeedRanking.RankedPrefix | backend/src/feed/feed-ranking.service.ts:40-71 | The first n entries of a filter are the first n of that filter in the full ranking. |
| FeedRanking.RankedEntriesArePrefix | backend/src/feed/feed-ranking.service.ts:40-71 | What the service reads after a refill is that prefix, and nothing for the recent sort or a limit below one. |
| Debounce.NoLostInvalidation | backend/src/cache/cache.service.ts:859-957 | In every interleaving each request has a live timer armed at or after it, or a scan that started at or after it, however that scan ended: none is forgotten. |
| Debounce.RequestServedIff | backend/src/cache/cache.service.ts:859-957 | A reading of `Debounce.NoLostInvalidation`: a request has a live timer since or a later scan that is running, done or finished, unless there are scans since then and all of them failed. |
| Debounce.ServedWithoutFailures | backend/src/cache/cache.service.ts:859-957 | Over runs in which no scan fails every request has such a timer or scan. |
| Debounce.OneScanPerBurst | backend/src/cache/cache.service.ts:868-888 | Over every run, requests that found nothing waiting are as many as scans that used up a timer plus timers still live. |
| Debounce.BurstCollapses | backend/src/cache/cache.service.ts:868-888 | Requests that keep arriving before the armed timer is due start no scan and open no new burst; one timer is left. |
| Debounce.BurstIsOneScan | backend/src/cache/cache.service.ts:868-888 | When the burst's timer goes off, exactly one scan has started since the burst began and no timer of the pattern is left. |
| Debounce.RequestArms | backend/src/cache/cache.service.ts:868-891 | A request arms a timer due after exactly the time asked for, or 500 ms when none is asked for; it replaces the timer the map named, and no other timer or entry changes. |
| Debounce.FiresWhenDue | backend/src/cache/cache.service.ts:881-887 | That timer may go off from then on and not before. |
| Debounce.GapsCollapse | backend/src/cache/cache.service.ts:868-891 | From any state, a request and others less than the debounce apart, with anything else in between but a sweep or the end of a scan of the pattern, start no scan and leave one timer in the map, due the debounce after the last of them. |
| Debounce.PhasesProgress | backend/src/cache/cache.service.ts:897-957 | A scan runs until it is done or fails; a failed or finished one stays so, and only a timer's scan that is done can finish. |
| Debounce.CompletionTracksIff | backend/src/cache/cache.service.ts:881-888 | Finishing a scan leaves the map tracking all timers if and only if no newer timer of the pattern is waiting. |
| Debounce.QuietRunsStayTracked | backend/src/cache/cache.service.ts:859-888 | If no request lands during its own pattern's scan, the map always names every live timer. |
| Debounce.ShutdownStopsAllIffTracked | backend/src/cache/cache.service.ts:1091-1119 | Shutdown leaves no timer behind if and only if the map named them all. |
| Debounce.CompletionLosesTrack | backend/src/cache/cache.service.ts:881-888 | From an empty service: a request, its scan, a second request, the end of the scan; the second timer is then in no map entry and outlives shutdown. |
| Debounce.ShutdownFlushesEverything | backend/src/cache/cache.service.ts:1091-1119 | Then every request ever made has had a scan started at or after it; that scan may fail, see `Debounce.ShutdownServesIff`. |
| Debounce.ShutdownServesIff | backend/src/cache/cache.service.ts:1091-1119 | After shutdown's scans have started a request has one that has not failed if and only if it had one before or its pattern was in the map. |
| Debounce.FailedScanRetriedIff | backend/src/cache/cache.service.ts:1091-1161 | A failed scan never reaches its second half; after any events whatever since, shutdown, or a cleanup that finds the pattern stale, scans it again if and only if the pattern is still in the map. |
| Debounce.RememberedIff | backend/src/cache/cache.service.ts:859-888 | Over any run the map names a pattern at the end if and only if it did at the start and nothing dropped it, or some request named it and nothing dropped it since; a completed scan, a cleanup and shutdown drop. |
| Debounce.CleanupScansIff | backend/src/cache/cache.service.ts:1125-1161 | Cleanup scans a pattern if and only if it is among the stale ones and in the map. |
| Debounce.OlderCompletionLosesRequest | backend/src/cache/cache.service.ts:881-888 | A run of nine events from an empty service: two requests whose scans overlap, the second fails, then the first completes. The second request is served by no scan, and neither a timer nor the map remembers it. |
| Debounce.CleanupKeeps | backend/src/cache/cache.service.ts:1125-1161 | Cleanup runs and forgets the stale patterns, loses nothing and keeps the map tracking. |
| Debounce.CacheService.InvalidatePattern | backend/src/cache/cache.service.ts:859-892 | Forced: a scan starts now. Otherwise the waiting timer is replaced by one that is due after the debounce time. |
| Debounce.CacheService.TimerFires | backend/src/cache/cache.service.ts:881-882 | The timer is gone, a scan runs, and the map still names the timer. |
| Debounce.CacheService.AfterExecution | backend/src/cache/cache.service.ts:882-886 | The pattern's entry is dropped, whatever it is by then. |
| Debounce.CacheService.CleanupPendingInvalidations | backend/src/cache/cache.service.ts:1125-1161 | Each stale pattern still in the map is run and forgotten, in order. |
| Debounce.CacheService.OnModuleDestroy | backend/src/cache/cache.service.ts:1091-1119 | Every pending pattern is run in map order, then the map is emptied. |
| Aliases.NamesArePermanent | backend/src/blogs/blogs.service.ts:762-796 | Over any run of creations, availability-checked changes and lookups, a name a blog ever held resolves to that blog, from tables and cache; names have one owner, and every old alias points at its blog's current alias. |
| Aliases.ChangeKeepsPermanentIff | backend/src/blogs/blogs.service.ts:907-996 | An accepted change keeps one owner per name if and only if the new name is not an old one and not the blog's own current one. |
| Aliases.GivenUpNameTaken | backend/src/blogs/blogs.service.ts:907-996 | From no blogs: one blog gives a name up and another takes it; every step is accepted, and the old name resolves to the second blog. |
| Aliases.ArchiveNeverCollides | backend/src/blogs/blogs.service.ts:949-976 | With permanent names the old-alias insert never violates uniqueness. |
| Aliases.OneHop | backend/src/blogs/blogs.service.ts:568-709 | Following a redirect lands on the same blog with no further redirect. |
| Aliases.RedirectsLandOnce | backend/src/blogs/blogs.service.ts:949-976 | Over any run every redirect, from an old alias or a slug, lands in one hop, because every old alias points at its blog's current alias. |
| Aliases.RedirectIff | backend/src/blogs/blogs.service.ts:568-709 | A word found in the tables redirects to the blog's alias if and only if the blog has one and it is another word. |
| Aliases.SlugReachesIff | backend/src/blogs/blogs.service.ts:648-709 | A slug reaches its blog if and only if no other blog holds that word as an alias, current or old. |
| Aliases.ChangeKeepsCache | backend/src/cache/cache.service.ts:973-1066 | Among non-empty names, dropping the old and the new name from the cache is enough: every other cached name still resolves as cached. |
| Aliases.ChangeKeepsCacheIff | backend/src/cache/cache.service.ts:986-1010 | An accepted change keeps the cache true to the tables if and only if it does not replace a cached empty alias by a name that is not empty. |
| Aliases.EmptyAliasRun | backend/src/blogs/blogs.controller.ts:325-340 | From no blogs: the alias `@`, a lookup of it, a proper alias; the lookup then goes on answering from the cache for a word the tables no longer know. |
| Aliases.EmptyAliasStaysCached | backend/src/cache/cache.service.ts:986-1010 | An empty alias escapes invalidation and stays cached for a name that no longer resolves. |
| Aliases.CachedLookupsAgree | backend/src/blogs/blogs.service.ts:417-713 | Over any run a lookup names the blog the tables alone would name, or fails when they would; its redirect is the matter of `Aliases.CachedLookupLosesRedirectIff`. |
| Aliases.CachedLookupLosesRedirectIff | backend/src/blogs/blogs.service.ts:417-713 | Over any run the whole answer, redirect included, is that of the tables if and only if the word is not cached, or the blog found has no alias or just that one. |
| Aliases.SecondLookupLosesRedirect | backend/src/blogs/blogs.service.ts:648-709 | From no blogs: a blog with an alias, its slug looked up twice; the first answer redirects to the alias and the second does not. |
| Aliases.LookupKeepsCache | backend/src/blogs/blogs.service.ts:417-713 | A lookup changes no table, keeps the cache true, and answers with the id the tables give. |
| Aliases.AvailableIsClean | backend/src/blogs/blogs.service.ts:804-881 | An available name is not empty and is stored as it was checked. |
| Aliases.BlogsService.CheckAliasAvailability | backend/src/blogs/blogs.service.ts:762-796 | Succeeds if and only if the format is right, the word is not reserved, and no blog holds or held it. |
| Aliases.FormatRefusedIff | backend/src/blogs/blogs.service.ts:804-881 | A format is refused exactly for its length, a foreign character, two joiners in a row, a joiner at an end, digits only, or a character three times running. |
| Aliases.AvailableIff | backend/src/blogs/blogs.service.ts:762-796 | Available: right format, not reserved in lower case, and neither the alias nor the old alias of any blog. |
| Aliases.LowerCase | backend/src/blogs/blogs.service.ts:771-773 | Lower-casing changes the capital letters and nothing else. |
| Aliases.BlogsService.UpdateAlias | backend/src/blogs/blogs.service.ts:907-1021 | Tables, cache and answer become what the specification says, rolled back on every error. |
| Aliases.UpdateMeans | backend/src/blogs/blogs.service.ts:907-996 | Each refusal exactly when it is called for; an accepted change answers with the blog under its new alias, changes nothing else of any blog, sends the blog's old names and the one given up to the new one, and takes both names out of the cache. |
| Aliases.CleanTakesFirst | backend/src/blogs/blogs.service.ts:912-913 | Only the first `@` is taken out of a name. |
| Aliases.BlogsService.InvalidateAliasCache | backend/src/cache/cache.service.ts:973-1066 | Both names leave the cache, no other does. |
| Aliases.BlogsService.FindOneByIdentifier | backend/src/blogs/blogs.service.ts:417-713 | Cache, alias, old alias, slug in that order, with the redirects and the cache fills of each. |
| Aliases.LookupMeans | backend/src/blogs/blogs.service.ts:417-713 | What is answered and cached, case by case: cache, current alias, old alias, slug; a redirect goes to `@` and the alias, or to the slug of a blog without one. |
| Verification.RunLimited | backend/src/email/email.service.ts:274-312 | Over every sequential run any closed 60-second window holds at most the per-minute limit of codes for an address, any calendar day at most the daily limit; `Races` has overlapping sends. |
| Verification.OnlyLastCodeAccepted | backend/src/email/email.service.ts:112-137 | After any run a guess is accepted only for the last code sent to the address, or in the millisecond in which the last one was sent. |
| Verification.EarlierCodeAcceptedIff | backend/src/email/email.service.ts:107-137 | After any run the newest unverified code, if another was sent after it, is accepted if and only if the guess is right, attempts are left and the last code was sent in this millisecond. |
| Verification.SupersededCodeAccepted | backend/src/email/email.service.ts:107-137 | From an empty table: a code, two minutes, a second code, its right guess, and in the same millisecond the first code is accepted. |
| Verification.GuessesBounded | backend/src/email/email.service.ts:128-155 | Over every sequential run guesses compared for an address are at most `maxAttempts` times the codes sent to it; `GuessRaces` has overlapping guesses. |
| Verification.TokenChecksIffIssued | backend/src/email/email.service.ts:157-194 | A session token checks true for an address if and only if a right, timely guess for that address was answered with it. |
| Verification.EmailService.CheckRateLimit | backend/src/email/email.service.ts:274-312 | The error is the one the two counts call for. |
| Verification.EmailService.InvalidateExistingCodes | backend/src/email/email.service.ts:264-269 | Every unverified row of the address expires now, no other row changes. |
| Verification.EmailService.SendVerificationCode | backend/src/email/email.service.ts:56-102 | Refused as specified, or older codes expire and one row is added. |
| Verification.SendRefusedIff | backend/src/email/email.service.ts:56-102 | Refused exactly for a registered address at sign-up, the codes of the last 60 seconds, or those since local midnight, in that order. |
| Verification.SentCode | backend/src/email/email.service.ts:79-98 | The new row is for that code, unverified and untried, and expires after the configured minutes; unverified rows of the address expire now and nothing else changes. |
| Verification.FreshCodeAcceptedIff | backend/src/email/email.service.ts:107-137 | A fresh code is accepted exactly for the right guess up to and at its expiry. |
| Verification.EmailService.FindNewest | backend/src/email/email.service.ts:112-115 | Finds an unverified row of the address than which none unverified is newer, if there is one. |
| Verification.EmailService.VerifyCode | backend/src/email/email.service.ts:107-167 | Each error exactly when its condition holds; a compared guess counts once; a right one verifies the row and hands out the token. |
| Verification.GuessMeans | backend/src/email/email.service.ts:120-167 | A guess changes only the row it is compared with: nothing once it has expired or its attempts are used up, else one attempt more, and the mark, time and token when it is right. |
| Verification.RowsMean | backend/src/email/email.service.ts:112-119 | The row compared is an unverified one of the address than which none is newer; a token checks when a verified row carries it. |
| Verification.CountsCount | backend/src/email/email.service.ts:128-155 | The counts in `Verification.GuessesBounded` are the rows of the address and the comparisons made for it. |
| Verification.EmailService.CheckVerificationStatus | backend/src/email/email.service.ts:180-194 | True if and only if a verified row of the address carries the token. |
| Races.WindowsBounded | backend/src/email/email.service.ts:274-312 | Count, then insert: if at most k requests are ever in between, every window the counts look back over holds at most the limit plus k minus one, over every interleaving. |
| Races.OverlappingSendsPerMinute | backend/src/email/email.service.ts:274-294 | So an address gets at most the per-minute limit plus k minus one codes in any closed minute. |
| Races.OverlappingSendsPerDay | backend/src/email/email.service.ts:296-311 | And at most the daily limit plus k minus one on a calendar day. |
| Races.SendsAttained | backend/src/email/email.service.ts:274-312 | For every limit and k of at least one, some run reaches each of these two bounds in one millisecond, that limit taken alone. |
| Races.SendLimitsIff | backend/src/email/email.service.ts:274-312 | Each limit, taken alone, holds in all runs if and only if k is at most one or the limit is zero. |
| Races.MinuteAttained | backend/src/email/email.service.ts:274-312 | With both limits checked, the per-minute one not above the daily one, some run still reaches the bound per minute. |
| Races.DayAttained | backend/src/email/email.service.ts:274-312 | With both limits checked, from any moment that leaves the day time for its codes, some run still reaches the bound per day. |
| Races.SequentialRuns | backend/src/email/email.service.ts:56-102 | Every run of the sequential service is, for each address, a run of both gates in which k is one. |
| GuessRaces.OverlappingGuesses | backend/src/email/email.service.ts:128-155 | If at most k guesses of one code are ever between reading and saving its attempts, at most C(`maxAttempts` + k, `maxAttempts`) - 1 are compared, over every interleaving. |
| GuessRaces.GuessesAttained | backend/src/email/email.service.ts:128-155 | For every limit and every k some run compares exactly that many. |
| GuessRaces.GuessLimitIff | backend/src/email/email.service.ts:128-155 | The limit bounds the comparisons of all runs if and only if k is at most one or the limit is zero. |
| GuessRaces.GuessIsSteps | backend/src/email/email.service.ts:107-155 | A guess of the sequential service is a read and its save with nothing in between, refused in the same cases. |
| ResetTokens.AtMostThreeValid | backend/src/auth/auth.service.ts:922-953 | A user's tokens are five minutes apart, so at most three validate at any instant. |
| ResetTokens.AtMostFourUsable | backend/src/auth/auth.service.ts:1011-1013 | Counting the instant of expiry at most four are accepted by a reset, and a fourth only at that instant. |
| ResetTokens.FourthAtExpiry | backend/src/auth/auth.service.ts:922-953 | Three tokens, five, ten and fifteen minutes old, and a new request make four usable ones. |
| ResetTokens.FourRequests | backend/src/auth/auth.service.ts:922-953 | From a store without tokens: four requests five minutes apart, and at the last all four tokens are usable. |
| ResetTokens.TokensOverRuns | backend/src/auth/auth.service.ts:899-1042 | Over every sequential run at most three valid tokens per user, and no token changes a password twice; `Races` has overlapping requests. |
| ResetTokens.UsedTokenStaysGone | backend/src/auth/auth.service.ts:1025-1037 | Once used, a token never validates and can never be presented again, over any later run. |
| ResetTokens.OtherTokensSurvive | backend/src/auth/auth.service.ts:1033-1037 | A reset leaves every other token exactly as valid as it was. |
| ResetTokens.ResetClearsIff | backend/src/auth/auth.service.ts:1033-1037 | After an accepted reset the user has no valid token if and only if there was none besides the one used. |
| ResetTokens.OtherTokenOutlivesReset | backend/src/auth/auth.service.ts:922-1042 | A run from a store without tokens: two requests five minutes apart, a reset with the first token; the second still validates. |
| ResetTokens.Pigeonhole | backend/src/auth/auth.service.ts:929-953 | Points at least a gap apart in a half-open window of k gaps are at most k. |
| Races.OverlappingResetTokens | backend/src/auth/auth.service.ts:922-953 | If at most k requests of a user are ever between the look for a recent token and the insert, at most 3k tokens validate at any instant. |
| Races.TokensAttained | backend/src/auth/auth.service.ts:922-953 | For every k of at least one, some run leaves 3k tokens that validate. |
| Races.ThreeTokensIff | backend/src/auth/auth.service.ts:922-953 | At most three tokens validate in all runs if and only if k is at most one. |
| Races.RequestIsChecked | backend/src/auth/auth.service.ts:928-940 | The gate lets a request pass exactly when the service finds no token of the user from the last five minutes. |
| Races.OverlappingResets | backend/src/auth/auth.service.ts:993-1037 | If at most k uses of a token overlap, it changes the password at most k times. |
| Races.ResetsAttained | backend/src/auth/auth.service.ts:993-1037 | For every k, some run changes the password k times with one token. |
| Races.OneChangeIff | backend/src/auth/auth.service.ts:993-1037 | A token changes the password at most once in all runs if and only if k is at most one. |
| ResetTokens.AuthService.ForgotPassword | backend/src/auth/auth.service.ts:899-969 | Expired tokens of the user go; a token is stored unless one is younger than five minutes; unknown addresses are not told apart. |
| ResetTokens.RequestAnsweredIff | backend/src/auth/auth.service.ts:899-920 | Only a social account is told anything; without a local account nothing changes. |
| ResetTokens.RequestMeans | backend/src/auth/auth.service.ts:922-953 | A local account's expired tokens go and every other token stays; one that expires in 15 minutes is stored unless one of the user's that stays is younger than 5 minutes. |
| ResetTokens.AuthService.ValidateResetToken | backend/src/auth/auth.service.ts:971-986 | True if and only if an unused row with that hash expires strictly later. |
| ResetTokens.TokenFoundIff | backend/src/auth/auth.service.ts:971-986 | A token is found by its hash while unused, and validates strictly before it expires. |
| ResetTokens.AuthService.ResetPassword | backend/src/auth/auth.service.ts:993-1042 | Unknown, expired and same-password requests change nothing; otherwise the password changes and the used row goes. |
| ResetTokens.ResetSetsPassword | backend/src/auth/auth.service.ts:1011-1037 | An accepted reset sets the password of the token's user and nothing else of any user; any refusal changes nothing. |
| ResetTokens.PasswordsOverRuns | backend/src/auth/auth.service.ts:993-1037 | Over every run a user's password is the one the last accepted reset of that user set, or what it was without one; the tokens spent are exactly those of the accepted resets. |
| ResetTokens.RedeemedOnce | backend/src/auth/auth.service.ts:993-1037 | So over every run no token sets a password twice. |
| Follows.CountersAreDegrees | backend/src/follows/follows.service.ts:34-161 | Over every run the two counters equal in-degree and out-degree. |
| Follows.UnfollowedExact | backend/src/follows/follows.service.ts:135-161 | Removing a row keeps them exact, and the guard against negative counters never bites. |
| FollowPages.ClauseIsBelow | backend/src/follows/follows.service.ts:354-373 | The clause on creation time and id selects exactly the rows after the cursor in the list order, because a row id stands for one follow. |
| FollowPages.PageIsWindow | backend/src/follows/follows.service.ts:354-388 | A page of either list holds exactly the rows between its two cursors, newest first. |
| FollowPages.PageAnswers | backend/src/follows/follows.service.ts:348-470 | A followers page holds the follows that end at the user and a following page those that start there, exactly the ones below the cursor that fewer than `limit` others come before, newest first. |
| FollowPages.StayingFollowShownOnce | backend/src/follows/follows.service.ts:421-470 | A follow that stays is on exactly one page of either list, whoever joins or leaves between pages, unless the reader stopped while the last cursor was still above it, and then on none. |
| Follows.FollowsService.Follow | backend/src/follows/follows.service.ts:34-120 | One row and one count on each side, or the error and no change. |
| Follows.FollowRefusedIff | backend/src/follows/follows.service.ts:34-75 | Refused exactly for oneself, an absent user, or a pair that already follows, in that order. |
| Follows.FollowMeans | backend/src/follows/follows.service.ts:77-88 | One dated row from follower to followed, one more on the right counter of each, nothing else. |
| Follows.FollowsService.Unfollow | backend/src/follows/follows.service.ts:122-161 | The row and one count on each side go, or there was no such row and nothing changes. |
| Follows.UnfollowMeans | backend/src/follows/follows.service.ts:135-161 | The row goes and one is taken from the same two counters while they are above zero, nothing else. |
| Follows.EdgesOverRuns | backend/src/follows/follows.service.ts:34-161 | Over every run one user follows another exactly as the last request of that pair that went through left it. |
| CategoryPages.PagesAreListIff | backend/src/blogs/blogs.controller.ts:354-387 | A reader can page through the whole list, in order and without repeats, if and only if every full page ends at the first occurrence of its last entry. |
| CategoryPages.DistinctEndsFirst | backend/src/blogs/blogs.controller.ts:354-387 | Distinct entries and a limit of at least one meet that condition. |
| CategoryPages.ParseLimit | backend/src/blogs/blogs.controller.ts:342-352 | At most 100, and zero exactly for a fraction between zero and one. |
| CategoryPages.LimitMeans | backend/src/blogs/blogs.controller.ts:342-352 | Twenty without a usable limit, otherwise the limit rounded down, but at most a hundred. |
| CategoryPages.PageMeans | backend/src/blogs/blogs.controller.ts:354-387 | Up to `limit` entries from right after the first occurrence of the cursor, or from the start for an unknown one, with the last as cursor exactly when there are more. |
| CategoryPages.FractionalLimitShowsNothing | backend/src/blogs/blogs.controller.ts:342-387 | With such a limit a list that is not empty shows nothing and never completes. |
| Slugs.TwoPassIsOnePass | backend/src/auth/auth.service.ts:851-857 | The sign-up slug and the administrator slug agree on every input before the length rules. |
| Slugs.SlugIdempotent | backend/src/auth/auth.service.ts:854-857 | Slugs hold plain characters with single inner hyphens, and making a slug of a slug changes nothing. |
| Slugs.SlugIsWords | backend/src/auth/auth.service.ts:851-857 | A slug is the words of its source, the runs of small letters and digits, joined by single hyphens. |
| Slugs.AdminSlug | backend/src/commands/create-admin.command.ts:13-20 | The administrator slug is that, cut to fifty characters, or a fixed one when it is shorter than three. |
| Slugs.CutSlugWellFormedIff | backend/src/commands/create-admin.command.ts:13-20 | The fifty-character cut keeps a slug well formed if and only if it does not fall right after a hyphen. |
| Slugs.CutLeavesHyphen | backend/src/commands/create-admin.command.ts:13-20 | Forty-nine letters, a hyphen and two letters: the cut slug ends in the hyphen. |

## Left out

- Reply pages after the first: the cursor clause names a table alias that is not in scope there, so it has no usable meaning.
- Chaining hot and top feed pages: they sort by score while the cursor compares creation time and id. `GetUnifiedFeed` is the recent sort; the ranked first page is `GetRankedFeedItems`.
- The feed's response cache, whose key omits the period, and a period boundary that moves during a scroll: `since` is one value per scroll.
- Viewer-specific data (`userLiked`, `followInfo`), private-blog views, total counts beside the pages, and expiry of cache entries.
- Comment edits, reaction toggles racing a whole-row save, and deletion cascades of users, posts and blogs.
- Concurrent alias changes and lookups: invalidation follows the commit, so a lookup in between may cache the old answer. Runs are sequential.
- The legacy plain-text comparison of verification codes, e-mail normalisation and delivery.
- Locks (`acquireLock` reads and then writes, so it excludes nobody), metrics, drivers, storage, templates, tokens for sessions, and hashing.
- The search for a free slug after a collision: it draws random suffixes and need not end.
- Feed.GetUnifiedFeed: the first page of hot and top comes from the ranking and is not this method.
- Debounce.CacheService.CleanupPendingInvalidations: which entries count as stale is a parameter, because the source compares a wall-clock time with a timer's internal start.
- Debounce.CacheService.OnModuleDestroy: states the run with nothing between its awaits; interleavings are the event runs of `NoLostInvalidation`.
- Aliases.BlogsService.FindOneByIdentifier: returns the blog id and redirect, not the cached copy of the row, which may carry an older alias.
- CommentStore.CommentsService.GetParentCommentsPaginated: the `totalCount` and `snapshotTimestamp` fields of the response are not modelled.
- GuessRaces.OverlappingGuesses: a request that fails between its read and its save, and a right guess whose saved row a late wrong one overwrites, are not modelled.
