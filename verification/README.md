# A model of the local-first sync engine

`mm` keeps a SQLite cache of a Mattermost account: one daemon writes it, and the read commands must get from it what
the live API would have given. This project models that engine in Dafny and proves what it keeps: over every run of
the daemon's goroutines against a moving server, over every input of the readers, and over crashes and restarts.

Check it with `dafny verify dfyconfig.toml`.

| file | what it models |
|---|---|
| `Prelude`, `Model`, `Sorting` | shared values, the Mattermost records, Go's stable sort on slices |
| `Tables`, `Store`, `Fts` | the tables and the effect of each statement, the store as an object, the full-text index and its triggers |
| `Protocol`, `ProtocolRuns`, `Gaps` | one channel as a state machine over single statements, its runs, and the exact limits of gap-freedom |
| `Paging`, `Blocks`, `Restart`, `Users` | the page loops of backfill and history, what they leave of an older cache, and the author fetch, as imperative code |
| `Counts`, `Handlers`, `Reconcile`, `Rejoin` | totals and read positions under interleaving, the event handlers, the reconcile pass, and its turns as steps of the protocol |
| `Messages`, `Reader`, `Unread`, `Timestamp`, `Enrich`, `Answers` | the readers: selection, cached against live, unread counts, RFC 3339 text, enrichment, and what is shown in the end |
| `Inbox`, `Freshness`, `Migrate`, `Watch` | protocols over runs: `new`/`seen`, the freshness gate, migrations, the reconnecting stream |
| `Thread`, `Hits` | thread selection, search hits compacted in place |

## How the source is rendered

The daemon's goroutines run concurrently, so `Protocol` takes every server action, every page fetch and every SQL
statement or transaction as one atomic step and lets them interleave freely. A page in progress is a job: what was
fetched and what of it is still to be upserted. The gap-freedom theorems are about runs in which the environment keeps
each step harmless (`Protocol.Benign`); `Gaps` gives, for each kind of step that is not, when it does damage. The
cursor theorems, and those about damage that stays, are about every possible run. `Paging`, `Handlers`, `Reconcile`,
`Users` and `Store` are the same code as methods on objects whose fields are the tables. Any statement may fail: the
store is given which do (`works`, by their number), counts them and the failures (`log`), and every method says for its
outcome what failed: a failure nobody caused does not happen.
Slices that are sorted or compacted in place are arrays. What the readers compute is tied to specification functions,
and the theorems are about those.

A cache is *gap-free* when every live server post at least as new as the oldest live cached one is cached as it is,
and no live cached post is absent from the server (`Tables.GapFree`).

## Assumptions

- `create_at` is positive (the code uses 0 for "unset"), differs between the posts of a channel, never changes, and
  grows in the order the server creates the posts. Ids are not reused. `Inbox`, which lists all channels together,
  allows equal times.
- The posts of a page are exactly the ones its order names. `ingestPosts` ranges over the map of posts while the page
  loops count the order (`internal/syncd/backfill.go:105,138`, `history.go:39`); an extra thread root in the map would
  open a gap.
- A new reply leaves its root's row alone. The server raises the root's reply count without an event the daemon
  handles: an edit nobody hears of (`Gaps.LostEditIff`).
- One account per database. The server serves at most 200 posts per page, and as many as asked for up to that.
- The lists of files and reactions of a post hold no nil entries, each file and each reaction of a user once, and only
  the post's own.
- Strings are compared by code point, which is Go's byte order on UTF-8 text.
- The tokenizer of the full-text index is any function of the message. JSON columns are lossless.
- Process ids, the clock, the server's answers and the failure of any call are parameters or nondeterministic choices;
  the clock does not run backwards.

## Where the code and its documentation disagree

- `internal/cli/messages.go:113-117` promises byte-identical output whenever the cache covers a request. Above 200
  posts the live path stops at the server's page and the cached path does not. `Reader.CachedEqualsLiveIff` gives the
  exact condition, `Reader.OneBeyondThePage` an instance. Files of a post come from the cache in no given order:
  `Enrich.FileOrderIff`.
- `internal/syncd/daemon.go:129-131` says the reconcile at reconnect closes any gap. It fetches one page of 60 posts:
  `Gaps.CatchUpPageIff` shows when that is enough. An event whose handler fails is recorded as an error and lost:
  `Gaps.LostEventIff`.
- `internal/syncd/backfill.go:18-20` says the window covers what is unread. Posts that come while it is fetched move
  the unread ones down, out of it: `Paging.UnreadCovered` gives the exact condition.
- `internal/cli/localcache.go:13-16` says behaviour is never worse than with the live API. The daemon that starts over
  an older cache backfills a window sized by the unread count, at most 600 posts, whatever the cursor says. A channel
  that gained more keeps a hole (`Restart.RestartIff`). Its newest post is there, so the reconcile skips it; history
  goes on behind the oldest row; new posts come in front: the hole stays (`Restart.ShortWindowLeavesHole`), and the
  gate accepts the cache.
- `internal/syncd/history.go:11-13` pages back from the oldest post already cached. The lookup counts soft-deleted
  rows, which may be older than the block of live posts; history then goes on behind the deleted row and leaves out
  what lies between: `Paging.HistoryGapFreeIff`, with an instance in `Paging.AnchorSkips`.
- A page that was fetched before a post of it was deleted or edited and is stored afterwards undoes the deletion or
  the edit, the deletion for good: `Gaps.StalePageDeletionIff`, `Gaps.StalePageEditIff`, `Gaps.RevenantStays`, with a
  run that does so in `Gaps.StalePageIsReached`. The other ways to lose gap-freedom have their exact conditions in
  `Gaps` and `Blocks` too: an edit of an uncached post, an edit or deletion nobody hears of, a connection dropped with
  events unapplied, an ingest, a page stored in part, and deletions under offset paging.
- `internal/cli/inbox.go:21-24` says `new` lists what has not been processed yet, across all channels. Two posts of
  different channels may share a millisecond, and a list cut between them loses the second one: `Inbox.CutIff`,
  `Inbox.TieLosesAPost`. The rows show times to the second only; what marking there does is in `Inbox.ShownSecondIff`,
  and `Inbox.ShownSecondStalls` says when the same list comes back for ever.
- `internal/store/views.sql:45-46` says the view's bot columns match `EnrichPost`. They differ in the bot name of a
  post that is not from a webhook, in the message of a webhook post without text, and in a negative reply count:
  `Enrich.ViewAgreesIff`, `Enrich.ViewDiffers`.
- `internal/store/read.go:11-15` says a cached post enriches like the live one. Files and reactions of an earlier
  version of the post stay when the new version does not replace them: `Enrich.RoundTripIff`,
  `Enrich.LeftOverFileShows`.
- `internal/cli/inbox.go:80-110` advances the cursor to now by default, past posts made after the last row was listed:
  `Inbox.SeenNowIff`.
- `internal/format/format.go:57-62` multiplies milliseconds into an int64 of nanoseconds, which overflows after the
  year 2262: `Timestamp.NoOverflowIff`, `Timestamp.OverflowSortsFirst`.

## Model

| member | source | states |
|---|---|---|
| `Sorting.SliceStable` | internal/cli/messages.go:272-283 | sorting part of an array in place gives the stable sort of that part and leaves the rest of the backing array alone |
| `Sorting.SortSorted` | internal/cli/messages.go:272-283 | the stable sort by any strict weak order is sorted |
| `Sorting.SortPermutes` | internal/cli/messages.go:272-283 | the stable sort loses and invents nothing |
| `Sorting.SortFixpoint` | internal/cli/messages.go:272-283 | stability: sorting what is sorted already moves nothing |
| `Sorting.SortOrderIndependent` | internal/cli/messages.go:272-283 | an order that tells all elements apart makes the result independent of the input order |
| `Sorting.SortOrderIndependentIff` | internal/cli/messages.go:272-283 | for different elements the input order never matters if and only if the order tells all of them apart |
| `Messages.SelectRecentMessages` | internal/cli/messages.go:260-285 | the filter, the two sorts and the truncation between them compute the selection function, nil entries skipped |
| `Messages.SelectIsNewest` | internal/cli/messages.go:260-285 | the selection is as many posts of the window as asked for, none left out newer than one taken, oldest first with ids breaking ties |
| `Messages.SelectShows` | internal/cli/messages.go:260-285 | what is shown is in the window, in order of time and id, and no more than the limit; a post of the window that is not shown had no room and is none newer than one shown |
| `Messages.SelectOrderIndependent` | internal/cli/messages.go:260-285 | permuting the input changes nothing when no tie is cut by the limit |
| `Messages.SelectOrderIndependentIff` | internal/cli/messages.go:260-285 | for posts with distinct ids the input order never matters if and only if the post at the limit is strictly newer than the next |
| `Store.Store.PutPostRow` | internal/store/write.go:109-124 | the posts upsert keeps the row's create time, follows every other column, and keeps the full-text index agreeing; it fails exactly when its statement does |
| `Tables.ColumnsPut` | internal/store/write.go:109-124 | the same column by column: all of the new post but the create time of a row that was there, and no other row changes |
| `Store.Store.UpsertPost` | internal/store/write.go:109-150 | row, files and reactions after success; a failure of the first statement leaves all as it was, of a later one the row new, the files a first part of the new ones, and the reactions as they were or a first part of the new ones |
| `Store.Store.ReplaceReactions` | internal/store/write.go:136-148 | the stored reactions of a post are replaced by the given ones |
| `Store.Store.MarkPostDeleted` | internal/store/write.go:153-156 | a soft delete changes one column of one row, no message, and keeps the index agreeing |
| `Tables.ColumnsDeleted` | internal/store/write.go:153-156 | a soft delete changes the delete time of that row alone |
| `Store.Store.UpsertReaction` | internal/store/write.go:172-179 | one reaction row changes and no other table |
| `Store.Store.DeleteReaction` | internal/store/write.go:182-187 | one reaction row goes and no other table changes |
| `Store.Store.UpsertChannel` | internal/store/write.go:47-60 | the channel row becomes the listed one and nothing else changes |
| `Store.Store.UpsertChannelMember` | internal/store/write.go:63-72 | the member row becomes the listed one, column by column, and nothing else changes |
| `Store.Store.BumpChannelOnPost` | internal/store/write.go:191-198 | a known channel's total rises by one and its last post time to the post's if that is later; an unknown channel stays unknown |
| `Store.Store.MarkChannelViewed` | internal/store/write.go:202-211 | the read position becomes the channel's total with mentions cleared; it fails exactly when its statement does or on a member row without a channel, where it would write NULL |
| `Store.Store.SetChannelCursor` | internal/store/write.go:214-223 | the cursor widens to the minimum and maximum of old and new bounds |
| `Store.Store.SetSeenCursor` | internal/store/read.go:152-158 | the scope's mark is overwritten |
| `Store.Store.OldestPostID` | internal/store/read.go:134-146 | the id of a row no younger than any of the channel, deleted rows included, or empty exactly when the channel has none |
| `Store.Store.Rollback` | internal/store/write.go:20-30 | a transaction that fails leaves the tables and the index it started from |
| `Fts.StatementAgrees` | internal/store/schema.sql:93-104 | the triggers of one upsert or soft delete keep the index holding exactly the tokens of the current messages, each under its row's rowid |
| `Fts.UpdateAgreesIff` | internal/store/schema.sql:101-104 | an update keeps the index right if and only if the text its 'delete' presents has the indexed tokens |
| `Fts.MatchIsSearch` | internal/store/schema.sql:91-104 | searching an agreeing index finds exactly the posts whose current message has the token |
| `Fts.IndexAlwaysAgrees` | internal/store/schema.sql:91-104 | after every run of statements from the empty database the index agrees, is not corrupt, and finds exactly the right posts |
| `Protocol.StepKeeps` | internal/syncd/daemon.go:72-93 | every benign step of server, stream, page jobs and handlers, in any interleaving, keeps the invariant on rows, queue, jobs, missing posts and cursor |
| `ProtocolRuns.AbsentStep` | internal/syncd/daemon.go:72-93 | of all benign steps only a new post on the server can make a post missing that was not |
| `Protocol.FetchMissing` | internal/syncd/backfill.go:95-118 | what is missing after a fetch that reaches the covered block was missing before and is newer than the page |
| `Protocol.AnchoredAbuts` | internal/syncd/backfill.go:95-118 | a page that starts behind a covered post and reaches down to what was synced before has nothing missing behind it: the invariant proves it |
| `Protocol.UpsertOneCover` | internal/syncd/backfill.go:138-147 | upserting one post of a page, with events applied in between, keeps every live row nobody speaks of as the server has it |
| `Protocol.ApplyEventCache` | internal/syncd/handlers.go:43-80 | applying the oldest queued event keeps the cache's rows right |
| `Protocol.SetCursorKeeps` | internal/syncd/backfill.go:155-159 | the cursor update at the end of a page keeps the invariant |
| `ProtocolRuns.StartOk` | internal/syncd/daemon.go:72-93 | an empty cache in front of any server satisfies the invariant |
| `ProtocolRuns.QuietIsGapFree` | internal/syncd/daemon.go:132-148 | once events are applied and pages stored, nothing missing means gap-free |
| `ProtocolRuns.ConnectedRunKeepsHoles` | internal/syncd/daemon.go:132-170 | over every benign run on a connected stream that loses no post no new hole opens |
| `ProtocolRuns.RunMissesNewPostsOnly` | internal/syncd/daemon.go:132-170 | whatever a benign run misses was posted during the run, disconnections included |
| `ProtocolRuns.SkipIsSafe` | internal/syncd/reconcile.go:46-52 | a channel that the reconcile skips has no hole from before its listing |
| `ProtocolRuns.CatchUpReaches` | internal/syncd/reconcile.go:53-62 | one page of 60 reaches everything missing if at most 60 posts were gained |
| `ProtocolRuns.ReconcileClosesHoles` | internal/syncd/reconcile.go:46-62 | on a connected stream a reconciled channel has no hole left, whether it was skipped or not |
| `ProtocolRuns.ReconnectRestoresGapFreedom` | internal/syncd/daemon.go:132-148 | over whole benign runs with disconnections and failing handlers: after the reconcile at reconnect, when at most 60 posts were gained since nothing was missing, the cache is gap-free at every quiet moment for as long as the connection lasts and loses no post |
| `ProtocolRuns.PageBelowCursorIsBenign` | internal/syncd/history.go:24-43 | a page that starts behind a covered post no newer than the cursor is harmless, whatever is missing in front of it |
| `ProtocolRuns.PageBelowJobIsBenign` | internal/syncd/backfill.go:98-116 | so is one that starts behind a post of a page still being stored, as the later pages of a backfill do |
| `ProtocolRuns.PageDownToCursorIsBenign` | internal/syncd/reconcile.go:53-62 | so is a page from the top behind which everything is no newer than the cursor |
| `ProtocolRuns.PageBelowStoredIsBenign` | internal/syncd/history.go:47-57 | so is a page right below a post stored or on its way when nothing from the page down is missing; no such page makes a post missing that was not |
| `ProtocolRuns.CursorsFollowStoredPosts` | internal/syncd/backfill.go:132-161 | in every reachable state, half stored pages included, stored posts sit at both ends of the cursor, it only widens, and a skip implies a stored post at least as new as the channel's last |
| `ProtocolRuns.RowsStay` | internal/store/write.go:109-156 | no step removes a row or changes its create time |
| `Blocks.TopPageIff` | internal/syncd/reconcile.go:53-62 | the newest posts, any number of them, stored over a block that more came in front of are gap-free if and only if they reach down to the block |
| `Gaps.CatchUpPageIff` | internal/syncd/reconcile.go:53-62 | after a number of missed posts the catch-up page leaves the cache gap-free if and only if it reaches the cached block; 60 is tight |
| `Gaps.EditOutsideBlockIff` | internal/syncd/handlers.go:62-68 | an edit event of an uncached post keeps the cache gap-free if and only if nothing lies between it and the block |
| `Blocks.PartOfPageIff` | internal/syncd/backfill.go:138-147 | a page stored in part keeps it if and only if the part holds with each post every newer one of the page |
| `Gaps.DeletionsUnderPagingIff` | internal/syncd/backfill.go:98-116 | posts gained in front and posts of the first page deleted between two offset pages: from the newest stored post on the cache is gap-free if and only if as many are gained as deleted and at most two pages |
| `Gaps.AbandonIff` | internal/syncd/backfill.go:138-147 | a page given up half stored leaves the cache gap-free if and only if each post it still owes is there as it is or older than all that is live |
| `Gaps.StalePageDeletionIff` | internal/syncd/backfill.go:138-147 | a post is deleted while a page is being stored: afterwards the cache is gap-free if and only if the post was not on the rest of the page |
| `Gaps.StalePageEditIff` | internal/syncd/backfill.go:138-147 | a post is edited while a page is being stored: afterwards the cache is gap-free if and only if the rest of the page held no other version of it and it touches the covered range |
| `Gaps.RevenantStays` | internal/store/write.go:109-124 | a live row of a post that the server no longer has stays through every possible run: the cache is never gap-free again |
| `Gaps.StalePageIsReached` | internal/syncd/backfill.go:138-147 | a run from an empty cache that reaches a page in flight, and ends with a deleted post live for good |
| `Gaps.LostDeletionIff` | internal/syncd/handlers.go:70-80 | a deletion nobody hears of leaves the cache gap-free if and only if the post is not live in it |
| `Gaps.LostEditIff` | internal/syncd/handlers.go:62-68 | an edit nobody hears of does if and only if it changes nothing or the post is not live in it |
| `Gaps.DropIff` | internal/syncd/daemon.go:151-169 | a connection dropped with events waiting keeps the invariant, and a gap-free cache gap-free, if and only if none of them has news of a live row |
| `Gaps.LoseEventIff` | internal/syncd/daemon.go:165-167 | a failed handler keeps the invariant if and only if the event had no last news of a live row |
| `Gaps.LostEventIff` | internal/syncd/daemon.go:165-167 | the last event waiting is lost to a failed handler: the cache is gap-free if and only if what it says is there already, or is about a post older than all that is live |
| `Gaps.IngestIff` | internal/syncd/ipcserver.go:55-75 | an ingest keeps a quiet cache gap-free if and only if it brings a current version from the covered range or right behind it |
| `Blocks.GapFreeByPosition` | internal/cli/messages.go:146-163 | gap-free means: with each cached post of the list every newer one is cached |
| `Paging.ClampWindow` | internal/syncd/backfill.go:120-128 | the window is the unread count between 100 and 500, and the nearer of these bounds outside |
| `Paging.StoredTwice` | internal/syncd/backfill.go:132-161 | pages stored one after the other, overlapping or not, are one page stored if they agree where they overlap |
| `Paging.Daemon.IngestPosts` | internal/syncd/backfill.go:132-161 | all of a page is stored, with the files and reactions its posts were sent with, and the cursor moves to its exact bounds, or a part is stored and the cursor stays |
| `Paging.Daemon.BackfillChannelPosts` | internal/syncd/backfill.go:95-118 | with front growth of at most two pages between calls the stored posts are one contiguous block of the last list, with the first page served in it; when all went well it reaches down at least to the end of the window in the last list and at most to its end in the first, so with no growth it is the newest whole pages; after a failed fetch, which really failed and was due, every page before it is in; after a failure of the store, the block so far and some of the next page; it fails only for one of these reasons, and the cursor goes with the block |
| `Paging.UnreadCovered` | internal/syncd/backfill.go:120-128 | the posts unread when paging began, up to 500, are in that block if and only if it reaches down to the last of them in the list as grown, and so they are while no more come than the last page has room for |
| `Paging.GrowthBoundIff` | internal/syncd/backfill.go:98-116 | two successive pages form one block if and only if the list gained at most two pages between them |
| `Paging.OlderIgnoresFront` | internal/syncd/history.go:47-57 | posts coming in front do not change what lies before the anchor |
| `Paging.Daemon.LoadHistory` | internal/syncd/history.go:14-45 | stores exactly the next min(M, whole pages of the limit) posts behind the oldest row, moves the cursor over them, and returns their number; each failure has its cause, at the page it says, and leaves the pages counted and what it left of the next one |
| `Paging.AnchorIff` | internal/store/read.go:134-146 | paging from the oldest row, deleted rows counted, goes on right behind the live block if and only if no post lies between the two |
| `Paging.HistoryGapFreeIff` | internal/syncd/history.go:14-45 | what history stores leaves a gap-free cache gap-free if and only if that is so or nothing was stored, and then the cache is the newest posts, by so many more |
| `Paging.HistoryTornIff` | internal/syncd/history.go:32-35 | what a page stored in part leaves of a gap-free cache, with its exact condition |
| `Paging.Daemon.LoadHistoryBehind` | internal/syncd/history.go:14-45 | the loop itself over a gap-free cache, whatever comes in front meanwhile: gap-free afterwards if and only if the oldest row abuts on the cache or nothing was loaded; after a failure of the store, if and only if moreover the part of the page that is in is its newest |
| `Paging.AnchorSkips` | internal/syncd/history.go:47-57 | a gap-free cache with an older row, cached by an edit and soft-deleted since, in which history leaves a hole |
| `Restart.RestartIff` | internal/syncd/backfill.go:120-128 | a block stored over an older one leaves the channel gap-free from its newest post on if and only if it reaches down to the older one |
| `Restart.BackfillOver` | internal/syncd/backfill.go:95-118 | the backfill loop over an old cache, while the list grows at the front: gap-free under exactly that condition, so surely when no more came in all than the window has, and never when more had come before |
| `Restart.BackfillKeeps` | internal/syncd/daemon.go:72-93 | a backfill, step by step among posts, ingests and loads of history: once it is as deep as its window, and that holds what was gained, the invariant holds again and only posts made since it began are missing |
| `Restart.LoopBackfills` | internal/syncd/backfill.go:95-118 | the pages of the loop make such a backfill while the list grows at the front, by at most two pages between calls |
| `Restart.RestartRestoresGapFreedom` | internal/syncd/daemon.go:72-93 | over whole runs: with no more posts gained than the window has, a restart, its backfill among everything else that goes on, and its reconcile leave the cache gap-free at every quiet moment of the connection |
| `Restart.ShortWindowLeavesHole` | internal/syncd/reconcile.go:46-52 | with more, the cache is not gap-free at any moment of any run of the backfill, new and edited posts, ingests, reconnects, lost events, reconciles and history loads, and the cursor moves past every page stored |
| `Restart.ShortWindowExists` | internal/syncd/backfill.go:120-128 | such a start: 202 posts of which only the oldest is cached, and none unread |
| `Users.MissingOnce` | internal/syncd/daemon.go:195-210 | the missing ids are the non-empty ones without a row, each once |
| `Users.MissingUserIDs` | internal/syncd/daemon.go:195-210 | the loop with its seen set computes just that, in order of appearance |
| `Users.ChunkStrings` | internal/syncd/daemon.go:224-240 | the chunks joined are the input, none is empty or too long, and all but the last are full |
| `Users.EnsureUsers` | internal/syncd/daemon.go:174-193 | rows are only added, for ids asked for and as the server has them, also on failure; it succeeds exactly when every call of 100 ids was served and no statement failed, and then every known id asked for has its row |
| `Counts.TotalCountsPosts` | internal/syncd/handlers.go:43-60 | between listings a known channel's total rises by exactly its number of posted events, whatever ingests and pages repeat them |
| `Counts.TotalStabilizes` | internal/syncd/reconcile.go:34-45 | from any state and under any interleaving the total ends as the last listed total plus the posts announced since |
| `Counts.ReadingStabilizes` | internal/syncd/reconcile.go:39-44 | likewise the read position ends as last listed, unless viewed since |
| `Counts.ViewedReading` | internal/store/write.go:202-211 | if viewed since, it is the total of that moment, and only later posts are unread |
| `Counts.ViewsNeverFail` | internal/store/write.go:202-211 | when member rows come after their channels' no viewed event ever writes NULL |
| `Reconcile.ProgramFirst` | internal/syncd/reconcile.go:20-45 | the statements of every listing do come in that order |
| `Reconcile.ViewsNeverFailInTheDaemon` | internal/syncd/daemon.go:72-93 | so from an empty database no viewed event fails, over every interleaving of listings, cut short anywhere, with events and ingests |
| `Counts.DeliveriesCommute` | internal/syncd/ipcserver.go:55-75 | order and repetition of ingests, echoes and pages carrying one version of each post leave one posts table |
| `Handlers.Handlers.HandlePosted` | internal/syncd/handlers.go:43-60 | upsert and count bump happen both or not at all; then the author is fetched if it is not cached, and a failure of that is reported with the post kept; it succeeds exactly when no statement and no due call failed |
| `Handlers.Handlers.SavePosted` | internal/syncd/handlers.go:48-55 | the transaction alone, its begin and commit with it: the tables are as after both statements, or as before exactly when one of the statements failed |
| `Handlers.Handlers.HandlePostEdited` | internal/syncd/handlers.go:62-68 | an edit upserts without counting, and keeps the index agreeing; a failure leaves the row wholly old or wholly new, and files and reactions as they were or begun |
| `Handlers.Handlers.HandlePostDeleted` | internal/syncd/handlers.go:70-80 | a deletion marks the row, dated now when the payload has no date, and keeps the index agreeing |
| `Handlers.Handlers.HandleReaction` | internal/syncd/handlers.go:82-92 | a reaction event adds or removes its own row only |
| `Handlers.Handlers.HandleChannelsViewed` | internal/syncd/handlers.go:97-114 | every channel of the map, or the one of an older payload, is marked at its own total and no other position changes, or some of them are when a statement fails |
| `Handlers.Handlers.HandleIngestPost` | internal/syncd/ipcserver.go:55-75 | an ingest upserts without counting and without moving a cursor, and refuses a body without an id; its author is fetched, and a failure of that goes unnoticed |
| `Handlers.Handlers.HandleSeen` | internal/syncd/ipcserver.go:77-95 | the global mark moves to the given time, or to now when none is given |
| `Reconcile.Reconciler.CatchUp` | internal/syncd/reconcile.go:46-62 | a skipped channel is one whose newest time synced is no older than its last post; otherwise the newest 60 posts are stored and the cursor moves over them, and it fails exactly when a statement or the fetch does, the cursor staying |
| `Reconcile.Reconciler.Reconcile` | internal/syncd/reconcile.go:16-70 | a pass that ends well leaves channels and members as its listing statements leave them, from any cache, and, channels listed once, every channel up to date: one whose last post is newer than its cursor was fetched, each of its newest 60 posts is in with its create time as stored before, and the cursor reaches from the oldest to the newest of them; the cursor of any other is unchanged; one that fails does so for a statement, a listing, the authors or a due fetch that failed, and leaves what a first part of the listing statements and of the turns leave, with part of one more page |
| `Reconcile.PassBrings` | internal/syncd/reconcile.go:33-64 | and nothing else has changed: no row goes, no post that was not served differs, no cursor of an unlisted channel moves |
| `Reconcile.NoneLeftBehind` | internal/syncd/reconcile.go:33-64 | however often a channel is listed, as direct channels are with every team, after the pass it is synced as far as each listing said, or has the newest 60 posts served in it |
| `Reconcile.ListedRows` | internal/syncd/reconcile.go:33-45 | after the listing statements of a pass the rows of each channel are those of its last listing, column by column, the team of a channel without one being the listing team |
| `Reconcile.IndexHolds` | internal/syncd/reconcile.go:31 | of several member entries of a channel the last counts |
| `Rejoin.TurnReconciles` | internal/syncd/reconcile.go:46-62 | one channel's turn is the reconcile step of the protocol, followed by the upserts of its page and the cursor update: a possible run from the state that shows the tables before it to one that shows the tables after |
| `Timestamp.CivilOf` | internal/format/format.go:57-62 | the date and time of a second, through the proleptic Gregorian calendar, valid and with that second |
| `Timestamp.CivilRoundTrip` | internal/format/format.go:57-62 | every date and time from year 1 to 9999 is that of its own second |
| `Timestamp.EpochCounts` | internal/format/format.go:57-62 | seconds count from the day that comes after all days of the years before 1970, counted month by month |
| `Timestamp.EpochStarts` | internal/format/format.go:57-62 | second 0 is 1970-01-01 00:00:00 |
| `Timestamp.KnownMonths` | internal/format/format.go:57-62 | the days before each month of a common year, and which years leap |
| `Timestamp.TextRead` | internal/format/format.go:57-62 | the text is year, month, day, hour, minute and second in four and two digits, with '-', 'T', ':' and 'Z' at their places |
| `Timestamp.EpochText` | internal/format/format.go:57-62 | every millisecond of second 1 reads "1970-01-01T00:00:01Z" |
| `Timestamp.LeapDayText` | internal/format/format.go:57-62 | every millisecond of second 1709210096 reads "2024-02-29T12:34:56Z" |
| `Timestamp.TimestampOrder` | internal/format/format.go:57-62 | comparing the texts compares the instants: the ordering property of section 5.1 of RFC 3339 for the form of section 5.6 |
| `Timestamp.NoOverflowIff` | internal/format/format.go:57-62 | the text shows the millisecond's own second if and only if its nanoseconds fit an int64 |
| `Timestamp.TimestampSortsBySecond` | internal/cli/unread.go:118-120 | up to that bound texts sort by second, and the empty text of a missing time sorts before all |
| `Timestamp.SameTextIff` | internal/format/format.go:57-62 | up to it two times read the same if and only if they are of one second |
| `Timestamp.OverflowSortsFirst` | internal/format/format.go:57-62 | one millisecond past the bound the order breaks |
| `Unread.ComputeUnreadRows` | internal/cli/unread.go:136-182 | each channel gets the row of its first entry with posts to read, and no other row is there: unread is total minus read count, mentions the member's, the time that of the channel's last post; the loop with its seen set gives them in the stable order of recency |
| `Unread.UnreadRowsLocal` | internal/cli/unread.go:69-122 | one row for each membership with unread posts in a channel that is not deleted, with the same four fields from the channel and member tables, and no other |
| `Unread.RowsByRecency` | internal/cli/unread.go:178-180 | the rows are sorted by last activity to the second, channels without one last |
| `Unread.SnapshotHolds` | internal/syncd/reconcile.go:34-45 | after the listing statements of a snapshot, from any cache, every entry's numbers are in the tables |
| `Unread.UnreadAgrees` | internal/cli/unread.go:69-122 | after an undisturbed reconcile a row of the listed memberships is computed from the cache if and only if it is computed live |
| `Unread.UnreadReportsAgree` | internal/cli/unread.go:136-182 | with no other membership cached, both reports sort the same rows, and are the same list in whatever order the rows come if and only if no two rows show the same time |
| `Reader.ChannelPosts` | internal/store/read.go:16-58 | the channel's rows, each once, and the oldest create time among them |
| `Answers.LoadPosts` | internal/store/read.go:16-69 | the same rows, each with just its own files and reactions attached |
| `Reader.GapFreeIsPrefix` | internal/cli/messages.go:146-163 | a gap-free cache holds exactly the newest posts, as many as it holds |
| `Reader.CoveredWindow` | internal/cli/messages.go:146-163 | a request the test accepts is covered: the whole window is cached, or the limit is |
| `Reader.CachedEqualsLiveIff` | internal/cli/messages.go:87-100 | for every gap-free cache and accepted request the cached selection equals the live one, post by post, if and only if the limit fits one page or the window has no more posts than the page |
| `Reader.MessagesLocal` | internal/cli/messages.go:118-183 | the cache answers exactly when it covers the request and knows every author of the selection from its rows; what it shows is of the channel, not deleted, as asked for, in order, and nothing newer is left out |
| `Reader.RunMessages` | internal/cli/messages.go:52-111 | without the cache the answer is the posts of the server's newest n at or after the time, cut to the limit, newest kept, oldest first, with n the limit, but 200 for a limit that is not positive or above 200 or with --since; with a gap-free cache and a limit of one page it is the same whichever path gave it |
| `Reader.LivePageShown` | internal/cli/messages.go:87-100 | the live selection for every limit and time, read off the server's list |
| `Reader.WholeChannelShown` | internal/cli/messages.go:87-100 | without a limit, or with one above 200, a channel of at most 200 posts is shown whole, oldest first |
| `Reader.CachedShown` | internal/cli/messages.go:146-163 | a gap-free cache shows the newest posts it holds, likewise |
| `Reader.OneBeyondThePage` | internal/cli/messages.go:87-100 | a channel of 201 posts, all cached: the cached selection of 201 differs from the live one |
| `Answers.CachedShowsLive` | internal/cli/messages.go:113-117 | under the same conditions, with author names, files and reactions held as the server sends them, the enriched posts from the cache are those from the server, up to the order of a post's files |
| `Answers.EnrichPosts` | internal/cli/messages.go:306-319 | the loop shows each post field by field, with "@" and the author's name, or "unknown" when it is missing, and skips nil entries |
| `Answers.FirstPage` | internal/syncd/backfill.go:138-147 | a page stored whole for posts without stored files and reactions is held as it was sent |
| `Enrich.EnrichPost` | internal/format/format.go:112-186 | the field updates and counting loops give, field by field, thread, reply, message, counts, files, bot and names, with the create time as text; a missing post gives the empty one |
| `Enrich.AttachFiles` | internal/store/read.go:71-89 | each loaded post gets its own file rows, each once |
| `Enrich.AttachReactions` | internal/store/read.go:91-109 | each loaded post gets its own reaction rows, each once |
| `Enrich.TallyCounts` | internal/format/format.go:166-178 | the counting loop gives for each emoji the number of its reactions, and only those |
| `Enrich.RoundTripIff` | internal/store/read.go:11-69 | storing a post and loading it enriches to the same up to file order if and only if the row keeps the create time and no file or reaction of an earlier version is left over |
| `Enrich.FileOrderIff` | internal/store/read.go:71-89 | every order the query may give shows just what was sent if and only if the post has at most one file |
| `Enrich.LeftOverFileShows` | internal/store/read.go:71-89 | an edit that removes a post's only file: the loaded post still shows it |
| `Enrich.ViewAgreesIff` | internal/store/views.sql:47-81 | the view agrees with enrichment on thread, reply, files, bot flag and reaction counts, and on reply count, bot name and message exactly under the stated conditions |
| `Enrich.ViewDiffers` | internal/store/views.sql:47-81 | a post for each of the three differences |
| `Inbox.New` | internal/cli/inbox.go:45-70 | the rows are the earliest undeleted posts by others after the later of cursor and --since, each once, by create time, as many as the limit lets through and at most 5000; one left out had no room and is none older |
| `Inbox.CutIff` | internal/cli/inbox.go:62-70 | marking up to the last row listed leaves nothing out if and only if no unlisted post shares its create time |
| `Inbox.ListMarkIff` | internal/cli/inbox.go:62-110 | in a run, a list and its mark are complete if and only if the list was not cut at such a tie |
| `Inbox.TieLosesAPost` | internal/cli/inbox.go:62-70 | two posts of one millisecond and a limit of one: the second is never listed |
| `Inbox.DistinctTimesNoTie` | internal/cli/inbox.go:62-70 | with distinct create times no list is cut at a tie |
| `Inbox.ExactlyOnce` | internal/cli/inbox.go:45-70 | over any run of listing and marking, with posts arriving in time, edits, deletions and restorations, and no list cut at a tie, marked rows never go back in time, none comes twice, and none up to the cursor is left out |
| `Inbox.RoundsDrain` | internal/cli/query.go:126-130 | rounds of listing and marking empty the inbox despite limit and cap, and have listed all of it if and only if no round was cut at a tie |
| `Inbox.ArrivalIff` | internal/cli/inbox.go:62-70 | after an arrival and a mark the marked rows are complete if and only if the post is later than all listed before, not one to list, or from before the start |
| `Inbox.ShownAtReads` | internal/cli/inbox.go:64-65 | the beginning of the shown second is the earliest time that reads like the post's |
| `Inbox.ShownSecondIff` | internal/cli/inbox.go:62-110 | marking at the second shown by the last row loses nothing unlisted unless a tie was cut at its very beginning, lists the rest of that second again, and leaves less to list if and only if the first row is not of that rest |
| `Inbox.ShownSecondStalls` | internal/cli/inbox.go:62-110 | a whole list within that rest answers again, so such marking gets nowhere |
| `Inbox.SeenNowIff` | internal/cli/inbox.go:80-110 | marking up to now leaves nothing out if and only if no post was made after the last row listed and before now |
| `Freshness.SyncTable.InitSyncState` | internal/store/syncstate.go:28-40 | a start resets the row field by field and keeps only the two times it does not name |
| `Freshness.SyncTable.Heartbeat` | internal/store/syncstate.go:44-47 | a beat changes the heartbeat of an existing row and nothing else |
| `Freshness.SyncTable.Start` | internal/syncd/daemon.go:72-88 | whichever statement fails, the row says done only after this process's own reset and own backfill |
| `Freshness.ListenOnce` | internal/syncd/daemon.go:132-148 | a connection, its events and its end change the row's connection, beat, error and last event, and neither whose row it is nor whether its backfill is done |
| `Freshness.OpenFreshLocalCache` | internal/cli/localcache.go:17-34 | the cache is used exactly when there is a row, its heartbeat is set, not in the future and less than 30 seconds old, its process is alive, its backfill is done, no flag forbids it, and the file opens |
| `Freshness.StepKeeps` | internal/syncd/lifecycle.go:42-59 | with the lock, the row always speaks of the process that reset it: its pid, its backfill, its heartbeats |
| `Freshness.GateIsSound` | internal/cli/localcache.go:17-34 | over all runs with crashes and restarts, row, clock and processes read at different times: an accepted row names a live process that finished its own backfill after its own reset and beat less than 30 seconds before |
| `Freshness.GateExact` | internal/cli/localcache.go:17-34 | in a reachable state the gate accepts if and only if that holds |
| `Freshness.OneWriter` | internal/syncd/lifecycle.go:42-59 | never two daemons at work |
| `Freshness.PidReuseFoolsTheGate` | internal/syncd/lifecycle.go:103-109 | a run with a pid used twice in which the gate takes another process for the daemon |
| `Migrate.Database.Apply` | internal/store/migrate.go:40-56 | one migration with its version bump happens wholly or not at all, wherever it is cut short |
| `Migrate.Database.Migrate` | internal/store/migrate.go:35-59 | an open applies what is missing in order until something fails, and reports success exactly when nothing did |
| `Migrate.AppliedOnceInOrder` | internal/store/migrate.go:35-59 | over any sequence of opens by older and newer builds, interrupted anywhere, the applied migrations are exactly the first `user_version` of the list |
| `Migrate.UninterruptedOpenFinishes` | internal/store/migrate.go:35-59 | an undisturbed open reaches max(version, list length), and another changes nothing |
| `Watch.Watcher.Pass` | internal/cli/watch.go:90-104 | the idle timer has fired exactly when a silence as long as the timeout has passed since it was last set |
| `Watch.Watcher.Receive` | internal/cli/watch.go:119-158 | one select: the end of the stream when that is taken, and then timer and caller told apart; else a dropped connection, an event shown at its time or filtered out, the limit, or an error of the output |
| `Watch.Watcher.Consume` | internal/cli/watch.go:118-160 | on one connection every event before the end is shown or filtered out; the signal it ends with gives the verdict, and no signal before it found the stream over with nothing else to take |
| `Watch.Watcher.RunWatch` | internal/cli/watch.go:162-177 | the output is the filtered concatenation of all connections, each line at its time, or its first lines, as many as the limit when that ended it; it goes on exactly while neither timer nor caller ended it before, and ends no later than in the turn in which one did; exit code 4 only after a silence of the whole timeout and not when the caller cancelled, a write error only when a wanted event could not be written |
| `Watch.ClockIsLatest` | internal/cli/watch.go:118-177 | the clock of these statements is at the latest time told, and what comes on a connection after its ping timeout is not told |
| `Watch.FilteredCounts` | internal/cli/watch.go:131-140 | an event is shown as often as it comes, unless its kind, its channel or, without --include-self, who caused it filters it out: the user of its post or reaction, else of its data or scope |
| `Watch.OneConnectionAtATime` | internal/wsutil/wsutil.go:52-79 | at no moment are two connections open, and after any number of attempts none is |
| `Watch.ClosedOnceAndNext` | internal/wsutil/wsutil.go:52-79 | each connection is closed once, before the next dial |
| `Thread.EnsurePostPresent` | internal/cli/thread.go:113-123 | the post is appended unless one with its id is there |
| `Thread.SplitThreadPosts` | internal/cli/thread.go:168-200 | root and replies as the two loops and the fallback choose them |
| `Thread.CandidateChosen` | internal/cli/thread.go:168-180 | the first loop chooses a root wherever there is one: none behind it has the asked-for id or is older, and each before it is newer unless the asked-for one comes in between |
| `Thread.FindById` | internal/cli/thread.go:181-188 | the fallback finds the first post with the id, or none is there |
| `Thread.SelectThreadPosts` | internal/cli/thread.go:125-166 | filter, sort, truncation and final sort compute the selection function |
| `Thread.ThreadOrderIndependent` | internal/cli/thread.go:125-200 | for a thread with one root and distinct ids the input order does not matter |
| `Thread.ThreadIsRootAndNewest` | internal/cli/thread.go:125-200 | the output is the root and the newest replies of the window that fit, strictly increasing by time and id |
| `Thread.ThreadShows` | internal/cli/thread.go:125-200 | of any list of posts: the root, and with it, oldest first, posts of the window that are not the root; one is left out only when the limit is full, and then is none newer than a reply shown |
| `Hits.FilterPostHitsSince` | internal/cli/search_helpers.go:62-73 | compacting into the slice it reads gives the filtered hits in front |
| `Hits.FilterKeeps` | internal/cli/search_helpers.go:62-73 | the filter keeps exactly the hits at or after the time, each as often as it comes |
| `Hits.FilterKeepsOrder` | internal/cli/search_helpers.go:62-73 | the kept hits come in the order of the input |
| `Hits.DedupeSortLimitPostHits` | internal/cli/search_helpers.go:75-102 | sorting and compacting in place computes the deduplication function and touches nothing behind the slice |
| `Hits.DedupeIsNewestOfEach` | internal/cli/search_helpers.go:75-102 | newest first, distinct non-empty ids, a newest hit of each, as many as there are ids up to the limit |
| `Hits.DedupeKeepsNewestIds` | internal/cli/search_helpers.go:75-102 | no id cut off by the limit has a hit newer than one kept |
| `Hits.SearchShows` | internal/cli/search.go:86-87 | filter and dedupe together: newest first, distinct ids, each shown hit at or after the time and a newest of its id |
| `Hits.SearchLeavesOut` | internal/cli/search.go:86-87 | a hit that may be shown is left out with its id only when the limit is full of hits none older |

## Left out

- The Mattermost SDK, HTTP, WebSocket framing, TLS, the Unix socket and backoff: a call finds the server as it is, or
  fails.
- JSON, the tokenizer of SQLite, SQL text and its indexes: a statement is its effect on typed tables.
- Display names, usernames in the output, and the team column of direct messages listed under several teams.
- Channels the user has left stay in the cache; claims about unread counts are about the listed channels.
- The wording of most errors in `last_error`, `ws_connected` and `last_reconcile_at`, which no reader decides on.
- `WaitFresh`, `Stop` and `Spawn`: polling and signals; a process may start and end at any step of the model.
- Status events, files on disk, rendering, flags and configuration.
- Go's time to run a timer: the idle timer of `watch` fires at its deadline.
- ProtocolRuns.ReconnectRestoresGapFreedom: is about runs of benign steps (`Protocol.Benign`), because others lose gap-freedom, under the conditions in `Gaps` and `Restart`. Benign means: no post is edited or deleted while a page that carries it is being stored; on a connected stream no post older than everything fetched is edited; off it no cached post is edited or deleted; a connection does not drop with news of a live row unapplied, and no handler fails on the last news of one; ingests carry current versions from the covered range; pages are stored whole, and start behind a covered post or at the top. A page behind an earlier one needs nothing more; one from the top reaches down to what was synced before, or has nothing missing behind it. While the connection lasts no handler fails on the only news of a missing post; after such a failure the next reconcile is the one the theorem is about.
- Restart.RestartRestoresGapFreedom: is about backfills whose pages join, as they do while the list grows by at most two pages between calls (`Restart.LoopBackfills`); posts deleted between two pages are treated by `Gaps.DeletionsUnderPagingIff`.
- Restart.ShortWindowLeavesHole: is about runs without deletions and without a later backfill with a longer window; either may close the hole, as may an edit or ingest of the post in it.
- Reconcile.Reconciler.Reconcile: does not model the team rows and the time of the last pass, which nothing here reads.
- Unread.ComputeUnreadRows: does not model a row's names, labels, team and reference, which are display.
- Unread.UnreadRowsLocal: does not model the team filter and the names of a row.
- Reader.ChannelPosts: returns posts without their files and reactions; `Answers.LoadPosts` is the whole.
- Reader.CachedEqualsLiveIff: leaves out deleted posts, for which the command always goes to the server.
- Reader.RunMessages: selects posts; `Answers.CachedShowsLive` compares what is shown of them.
- Paging.Daemon.LoadHistory: counts a failing lookup of the oldest row among the failures of the store.
- Answers.CachedShowsLive: does not give the order of a post's files, which the cache does not keep (`Enrich.FileOrderIff`).
- Watch.Watcher.RunWatch: takes what a connection brings as ending with its channel closed; a connection still up is told by its events so far.
