# LingoLift core in Dafny

LingoLift is a language-learning app: lessons (text, audio, PDF, Markdown
notes) carry flashcards that are reviewed on an SM-2 style spaced-repetition
schedule and kept in step between devices and a Go server. This project
models the parts of it that decide what happens to the data:

- the scheduler of the desktop client (`Srs`);
- the local lesson store with its two tombstone tables (`LocalStore`) and
  the change collectors (`Changes`);
- the two client sync variants: the merge-based web client (`WebSync`) and
  the local-first app (`AppSync`);
- the server's sync handler (`ServerSync`), card handlers
  (`CardHandlers`) and lesson handlers with tag parsing (`LessonHandlers`)
  over a two-table database (`ServerModels`), and the authentication
  middleware (`Auth`);
- the app's sync request building (`Api`);
- the web client's review queue (`ReviewQueue`);
- the app's vocabulary page (`Vocabulary`);
- the desktop client's lesson list, month grouping, global review, URL
  resolution and word adding (`DesktopApp`);
- the app's Markdown renderer (`Markdown`) and edge-swipe rule (`Swipe`).

Shared pieces: `Wrappers` (Option, Result), `Strings` (split/join, the
JavaScript and Go whitespace trims, ASCII lower-casing, code-point order,
decimal printing), `Seqs` (filter, map, stable sort, indexing a read by
key) and `Types` (the client wire types).

Code that updates state in place is modelled by classes: the local store,
the server database, the review session, the vocabulary page, the desktop
views and the swipe tracker. Their methods state their whole new state,
usually as a specification function of the old one, and the lemmas prove
what the code promises about those functions. Pure code (the scheduler,
merges, filters, the tokenizer, the authentication decision) is modelled
by functions.

Clocks, randomness and the network are parameters. A clock reading is
an argument (`now`); where the code reads the clock once per loop pass, as
the app's downstream lesson deletions do, the argument is a function from
the pass number to the reading. A shuffle takes a sequence of picks, and the mixed orientation
takes a coin. Fresh ids are arguments too. The transport is a function
from request to `Result`.

Behaviours of the code that the lemmas state as they are:

- the server applies modified cards before progress with strict `>`, so
  the app's progress for a card it also sends as modified is dropped
  (`ServerSync.ModifiedShadowsProgress`);
- a merged web lesson holds all server cards plus all local user cards,
  so an accepted user card appears twice (`WebSync.AcceptedUserCardDuplicated`);
- the app adopts returned lessons after its card-deletion pass, so a card
  both deleted and returned survives (`AppSync.AdoptedAfterDeletion`);
- AGAIN re-queues the card as it was before the rating
  (`ReviewQueue.StaleCardRequeued`);
- month keys sort as strings, so "2024-9" comes before "2024-12"
  (`DesktopApp.SeptemberBeforeDecember`);
- a created card revives a soft-deleted row with the same id
  (`ServerSync.CreatedRevivesDeleted`);
- the vocabulary page adds to its own copy of the lesson, which can put
  back a card deleted since the page loaded (`Vocabulary.AddRestoresDeletedCard`);
- a lone `*` in a Markdown line renders as an empty italic
  (`Markdown.LoneStarVanishes`).

Where the repository's prose and its code disagree, the model follows the
code:

- A GOOD review leaves the ease factor unchanged (delta 0), so the first
  GOOD review of a new card keeps efactor 2.5. A worked example in the
  prose gives 2.6 (`Srs.ThreeReviewScenario`).
- `resolveUrl` adds a '/' only when the url does not start with one. A url
  starting with "//" therefore keeps both slashes.
- The lesson model in `server/internal/models/models.go` has no
  `LastUpdated` field, yet the handlers write it and the sync query reads
  it. The model's `LessonRow` has it.
- An empty selected tag is falsy in JavaScript, so it filters nothing in
  the vocabulary page and the desktop filters.

## Model

| member | source | states |
|---|---|---|
| Srs.CreateInitialSrsState | desktop/frontend/services/srs.ts:12-18 | the initial state is interval 0, repetition 0, efactor 2.5, due and stamped at `now` |
| Srs.NewCard | desktop/frontend/services/srs.ts:12-18 | a new card keeps its id, text and origin and carries the initial state |
| Srs.EfactorDeltaValues | desktop/frontend/services/srs.ts:28-36 | the ease-factor deltas are −0.14 (HARD), 0 (GOOD) and +0.1 (EASY) |
| Srs.CalculateNextReview | desktop/frontend/services/srs.ts:24-70 | AGAIN resets repetition and interval to 0 and is due now, keeping efactor; other grades floor the new efactor at 1.3, add one repetition, set the interval to 1, 6 or round(interval × efactor), and schedule `now + interval` days; text, id and origin are copied and lastUpdated is now |
| Srs.InitialScheduled | desktop/frontend/services/srs.ts:12-18 | a new card satisfies the schedule invariant (efactor ≥ 1.3, repetition 0 iff interval 0, repetition 1 iff interval 1, interval ≥ 6 from the second repetition) |
| Srs.ReviewKeepsScheduled | desktop/frontend/services/srs.ts:24-70 | any review of a card on the invariant keeps it on the invariant |
| Srs.ReviewsFromNewCard | desktop/frontend/services/srs.ts:12-50 | from a new card, under any sequence of grades and times, efactor stays ≥ 1.3 and repetition is 0 exactly when the interval is 0 |
| Srs.ReviewAllScheduled | desktop/frontend/services/srs.ts:24-70 | any sequence of reviews keeps the invariant |
| Srs.ThreeReviewScenario | desktop/frontend/services/srs.ts:24-70 | GOOD, GOOD, EASY from the initial state give intervals 1, 6, 16 and efactors 2.5, 2.5, 2.6 |
| Srs.PreviewDays | desktop/frontend/services/srs.ts:73-85 | the preview has no day count exactly for AGAIN, and HARD previews at least one day |
| Srs.GetNextReviewText | desktop/frontend/services/srs.ts:73-85 | the label is "< 1m" exactly for AGAIN |
| Srs.PreviewMatchesGood | desktop/frontend/services/srs.ts:42-50 | on a scheduled card, the GOOD preview equals the interval a GOOD review gives |
| Srs.PreviewOrdered | desktop/frontend/services/srs.ts:73-85 | previews are ordered HARD ≤ GOOD ≤ EASY |
| Srs.PreviewDiffersForHard | desktop/frontend/services/srs.ts:28-50 | the HARD preview (12 days) differs from the HARD review (14 days) for a card at interval 6, efactor 2.5 |
| Types.ProgressOf | app/types.ts:50-57 | the progress record names the card and carries its interval, repetition, efactor, next review and timestamp |
| Types.WithProgress | server/web/services/sync.ts:86-100 | taking a progress record changes the five schedule fields and keeps id, text and origin |
| Types.LessonEntries | app/pages/Vocabulary.tsx:47-50 | one (lessonId, card) pair per card of the lesson, in order |
| Types.EntriesMembership | app/pages/Vocabulary.tsx:47-50 | a pair is in the flattening iff some lesson with that id holds the card |
| Types.EntriesLength | app/pages/Vocabulary.tsx:47-50 | the flattening has one pair per card |
| Seqs.FindBy | app/services/sync.ts:96-97 | the index of the first element with the key (a card by id here, a lesson by id in app/pages/Vocabulary.tsx:70-72), or none when no element has it |
| Types.CardIds | app/services/sync.ts:79 | the ids of the cards, in order |
| LocalStore.Store.constructor | app/services/db.ts:7-27 | an empty store with watermark 0 |
| LocalStore.Store.SaveLesson | app/services/db.ts:29-38 | an upsert by id; tombstones and watermark unchanged |
| LocalStore.Store.GetLesson | app/services/db.ts:51-60 | the stored lesson with that id, none when absent |
| LocalStore.Store.GetAllLessons | app/services/db.ts:40-49 | each stored lesson exactly once, indexed by id back to the table |
| LocalStore.Store.DeleteLesson | app/services/db.ts:62-76 | removes the lesson and records its tombstone at `now`, also for an absent id |
| LocalStore.Store.SaveDeletedCardId | app/services/db.ts:94-103 | records or re-stamps the card tombstone at `now`, nothing else |
| LocalStore.Store.GetDeletedLessonIds | app/services/db.ts:78-92 | exactly the lesson ids with a tombstone newer than `since`, each once |
| LocalStore.Store.GetDeletedCardIds | app/services/db.ts:105-117 | exactly the card ids with a tombstone newer than `since`, each once |
| LocalStore.Store.SetLastSyncTime | server/web/services/sync.ts:11-13 | sets the watermark only |
| LocalStore.Store.ResetSyncTime | app/services/sync.ts:117-119 | sets the watermark back to 0, so the next sync sends `lastSyncTimestamp` 0 |
| LocalStore.DeletedSince | app/services/db.ts:88 | the ids whose tombstone is strictly newer than `since` |
| LocalStore.TombstonesSince | app/services/db.ts:78-92 | the tombstone filter over a full read of the table: the same ids as the strict `>` filter, without duplicates |
| LocalStore.TombstoneReported | app/services/db.ts:62-76 | a tombstone stamped after the watermark is reported, and no other report is lost |
| LocalStore.KeyedReadIndex | app/services/db.ts:40-49 | a read holding each row once, keyed by id, indexes back to the table |
| LocalStore.ReadEntryIndexed | app/services/db.ts:40-49 | a lesson found in such a read is the table's row |
| LocalStore.SavedAllKeys | app/services/db.ts:29-38 | saving a list adds exactly its ids to the table |
| LocalStore.SavedAllLast | app/services/db.ts:29-38 | the last save of an id wins |
| LocalStore.SavedAllGrows | app/services/db.ts:29-38 | saving never removes a lesson |
| LocalStore.SavedAllUntouched | app/services/db.ts:29-38 | ids not saved keep their lessons |
| LocalStore.SavedAllValid | app/services/db.ts:29-38 | saving keeps every row under its own id |
| Changes.ChangedMembership | app/services/sync.ts:16-40 | a pair is changed iff a lesson holds the card and it was touched after the watermark |
| Changes.CollectAppChanges | app/services/sync.ts:16-40 | the app's loop puts every changed card in modified and progress, and the user-made ones also in created |
| Changes.CollectWebChanges | server/web/services/sync.ts:27-45 | the web loop puts changed user cards in created and the other changed cards in progress |
| Changes.CollectAppLesson | app/services/sync.ts:17-39 | the inner loop extends the three app lists by exactly the changed cards of one lesson |
| Changes.VisitAppCard | app/services/sync.ts:18-38 | one card is pushed onto created (if user-made and changed), modified and progress (if changed) |
| Changes.CollectWebLesson | server/web/services/sync.ts:28-44 | the inner loop extends the two web lists by the changed cards of one lesson |
| Changes.VisitWebCard | server/web/services/sync.ts:29-43 | a changed card is pushed as created when user-made, else as progress |
| Changes.AppStep | app/services/sync.ts:16-40 | one more card extends each app list by that card exactly when it is changed (and user-made for created) |
| Changes.WebStep | server/web/services/sync.ts:27-45 | one more card extends one web list by that card exactly when it is changed |
| Changes.AppCreatedAlsoModified | app/services/sync.ts:19-31 | a created card is also sent as modified and as progress |
| Changes.WebChangesPartition | server/web/services/sync.ts:27-45 | each changed card lands in exactly one web bucket |
| Changes.UnchangedNotSent | app/services/sync.ts:16-40 | a card not touched after the watermark is not sent |
| WebSync.MergeCard | server/web/services/sync.ts:77-104 | text from the server; progress from the remote record when there is no local card or it is strictly newer, else from the local card, else the server's card |
| WebSync.MergeCardNewest | server/web/services/sync.ts:86-100 | the merged card is at least as new as the local and remote versions and equal to one of them |
| WebSync.MergeCardsShape | server/web/services/sync.ts:77-110 | merged cards are the merged server cards in server order, then the local user cards in local order, with no de-duplication |
| WebSync.MergeLessonShape | server/web/services/sync.ts:112-124 | every field from the server lesson, blobs from the local one (none without it), server cards verbatim for a new lesson |
| WebSync.UserCardsKept | server/web/services/sync.ts:108-110 | a local user card is in the merged lesson |
| WebSync.AcceptedUserCardDuplicated | server/web/services/sync.ts:108-110 | a user card the server also returns appears twice |
| WebSync.CollectRequest | server/web/services/sync.ts:20-52 | the request carries the watermark and exactly the changed cards in their buckets |
| WebSync.ApplyResponse | server/web/services/sync.ts:66-130 | each returned lesson is saved merged, then the watermark becomes the server's timestamp; tombstones untouched |
| WebSync.SyncLessons | server/web/services/sync.ts:18-136 | the request carries the watermark, the changed user cards as created and the progress of the other changed cards; on failure nothing changes; on success the merged lessons are saved and only then the watermark advances |
| WebSync.ChangedFromTable | server/web/services/sync.ts:27-45 | the changes of a full read are the changes of the table |
| WebSync.SyncKeepsLessons | server/web/services/sync.ts:66-127 | local lessons absent from the response are neither removed nor changed |
| AppSync.PatchLessonEffect | app/services/sync.ts:92-107 | a progress update changes only the first card with its id, only when strictly newer, only its five schedule fields, and never makes a card older |
| AppSync.StaleProgressIgnored | app/services/sync.ts:96-99 | a progress record not newer than the card changes nothing |
| AppSync.PatchIdempotent | app/services/sync.ts:92-107 | applying a progress record twice is applying it once |
| AppSync.PruneEffect | app/services/sync.ts:75-84 | card deletion keeps exactly the cards whose id is not listed |
| AppSync.ApplyAllProgressKeys | app/services/sync.ts:92-107 | progress patching neither adds nor removes lessons |
| AppSync.AfterSyncKeys | app/services/sync.ts:65-89 | after a sync the device holds its lessons less the deleted ones, plus every returned lesson |
| AppSync.ApplyAllProgressIds | app/services/sync.ts:92-107 | progress patching keeps every lesson's card ids in place |
| AppSync.AdoptedAfterDeletion | app/services/sync.ts:75-89 | every card of a returned lesson is on the device after the sync, even one listed as deleted |
| AppSync.RewrittenAll | app/services/sync.ts:75-84 | a pass rewriting each lesson of a full read rewrites the table |
| AppSync.RewriteStep | app/services/sync.ts:75-84 | one more lesson of the read rewritten keeps the pass invariant |
| AppSync.StampEach | app/services/db.ts:62-76 | the tombstones after step A: the old ones plus every listed id, each listed id stamped with the reading of a deletion call for that id, the others unchanged |
| AppSync.DeleteLessons | app/services/sync.ts:65-72 | step A removes the listed lessons and stamps the k-th listed id's tombstone with the k-th clock reading |
| AppSync.DeleteCards | app/services/sync.ts:75-84 | step B prunes the listed card ids from every lesson |
| AppSync.SaveLessons | app/services/sync.ts:87-89 | step C saves each returned lesson verbatim |
| AppSync.ApplyProgress | app/services/sync.ts:92-107 | one remote progress record patched into every lesson |
| AppSync.ApplyAllRemoteProgress | app/services/sync.ts:92-107 | step D applies the records in order |
| AppSync.CollectRequest | app/services/sync.ts:8-57 | the request carries the watermark, exactly the tombstones newer than it, and the three change lists of a full read |
| AppSync.SyncLessons | app/services/sync.ts:7-115 | the request carries the watermark, the tombstones newer than it and the created, modified and progress lists of a full read; on failure nothing changes; on success steps A–D run in order and only then the watermark becomes the server's timestamp |
| ServerModels.Database.constructor | server/internal/models/models.go:19-81 | empty lesson and card tables |
| ServerModels.RowOfCard | server/internal/handlers/sync.go:51-63 | a client card decoded into a live row of the given lesson, reading back as the same card |
| ServerModels.RowProgress | server/internal/handlers/sync.go:172-181 | the reported progress of a row is the progress of its client card |
| ServerModels.LoadLesson | server/internal/handlers/sync.go:129 | a lesson with exactly its live cards, each once (distinct ids) |
| ServerModels.LoadLessons | server/internal/handlers/sync.go:129-145 | every row with exactly its live cards, each once, in order |
| ServerModels.LessonsWhere | server/internal/handlers/lesson.go:196-214 | every lesson row satisfying the condition, each once (distinct ids), with its live cards each once |
| ServerSync.CreatedStepEffect | server/internal/handlers/sync.go:26-65 | a created card is skipped unless its lesson is the user's; a new id is inserted under that lesson; a known id of the user's is overwritten only when strictly newer, keeping its lesson |
| ServerSync.CreatedRevivesDeleted | server/internal/handlers/sync.go:50-55 | overwriting a soft-deleted row with a created card makes it live again |
| ServerSync.CreatedStepConfined | server/internal/handlers/sync.go:26-65 | a created card touches only the user's rows and never makes a row older |
| ServerSync.ModifiedStepEffect | server/internal/handlers/sync.go:68-83 | a modified card changes only front, back and lastUpdated of the user's card, only when strictly newer |
| ServerSync.ProgressStepEffect | server/internal/handlers/sync.go:107-122 | a progress record changes only the five schedule fields of the user's card, only when strictly newer |
| ServerSync.CreatedAllConfined | server/internal/handlers/sync.go:26-65 | step A touches only the user's rows and never makes a row older |
| ServerSync.ModifiedAllConfined | server/internal/handlers/sync.go:68-83 | step B likewise, and adds no row |
| ServerSync.ProgressAllConfined | server/internal/handlers/sync.go:107-122 | step D likewise, and adds no row |
| ServerSync.DeleteCardRowsEffect | server/internal/handlers/sync.go:86-95 | listed cards of the user get `deleted_at = last_updated = now`; rows stay |
| ServerSync.DeleteLessonRowsEffect | server/internal/handlers/sync.go:98-104 | listed lessons of the user get `deleted_at = now`; other lessons and all cards stay |
| ServerSync.SameOwners | server/internal/handlers/sync.go:98-104 | a soft lesson deletion keeps the ownership the card steps rely on |
| ServerSync.UpstreamConfined | server/internal/handlers/sync.go:22-122 | the whole upstream half touches only the requesting user's rows |
| ServerSync.ModifiedShadowsProgress | server/internal/handlers/sync.go:76-81 | a card sent both as modified and as progress with one timestamp keeps its old schedule |
| ServerSync.SentLessons | server/internal/handlers/sync.go:125-146 | the lessons sent down, each once: all live ones at watermark 0, else live ones created, updated or holding a live card updated after it |
| ServerSync.RowIds | server/internal/handlers/sync.go:151-164 | the ids of the rows, in order |
| ServerSync.DeletedLessonIds | server/internal/handlers/sync.go:148-154 | exactly the user's lessons deleted after the watermark |
| ServerSync.DeletedCardIds | server/internal/handlers/sync.go:156-164 | exactly the user's cards deleted after the watermark |
| ServerSync.RemoteProgress | server/internal/handlers/sync.go:166-182 | exactly the progress of the user's live cards updated after the watermark |
| ServerSync.ApplyCreatedCards | server/internal/handlers/sync.go:26-65 | the loop of step A |
| ServerSync.ApplyModifiedCards | server/internal/handlers/sync.go:68-83 | the loop of step B |
| ServerSync.ApplyProgressUpdates | server/internal/handlers/sync.go:107-122 | the loop of step D |
| ServerSync.SyncHandler | server/internal/handlers/sync.go:14-209 | 400 for an undecodable body; otherwise 200 after the upstream steps, with the server time and lists describing the new tables, each lesson and each of its cards once |
| ServerSync.OwnProgressEchoed | server/internal/handlers/sync.go:166-182 | a card this request wrote is reported back as remote progress |
| ServerSync.FullSyncSendsAllLive | server/internal/handlers/sync.go:127-130 | at watermark 0 exactly the user's live lessons are sent |
| CardHandlers.Normalize | server/internal/handlers/card.go:22-44 | a missing id is replaced, lastUpdated is the server's `now`, interval 0 forces the initial schedule, a non-zero interval keeps the client's |
| CardHandlers.CreatedCardScheduled | server/internal/handlers/card.go:39-44 | a card created with interval 0 is on the scheduler's invariant |
| CardHandlers.CreateCard | server/internal/handlers/card.go:14-51 | 400 for no body or no lesson id, 404 for a lesson not the user's, 500 for a taken id, else 201 and the card inserted |
| CardHandlers.DeleteCard | server/internal/handlers/card.go:53-70 | the user's card soft-deleted at `now`; 200 even when no row matched |
| CardHandlers.UpdateCard | server/internal/handlers/card.go:72-98 | 400 for a bad body; else front, back and `now` written to the user's card, and 200 even when no row matched |
| CardHandlers.UpdateTextEffect | server/internal/handlers/card.go:84-91 | an update touches only the user's named card, only its text and timestamp |
| CardHandlers.DeletedCardHidden | server/internal/handlers/card.go:56-63 | a deleted card is no longer live and is reported deleted to older watermarks |
| LessonHandlers.ParseTags | server/internal/handlers/lesson.go:87-95 | split on ',' then each piece trimmed in place |
| LessonHandlers.TagsCount | server/internal/handlers/lesson.go:87-95 | as many tags as commas plus one, none holding a comma |
| LessonHandlers.TagsRoundTrip | server/web/pages/CreateLesson.tsx:37 | parsing the client's `join(", ")` of comma-free trimmed tags gives the tags back |
| LessonHandlers.JoinCons | server/web/pages/CreateLesson.tsx:37 | joining two or more tags puts ", " after the first |
| LessonHandlers.SplitSpaceFirst | server/internal/handlers/lesson.go:91 | splitting text after a space puts the space on the first piece |
| LessonHandlers.MapCons | server/internal/handlers/lesson.go:92-94 | prefixing each tag with a space, first tag apart |
| LessonHandlers.SplitJoined | server/internal/handlers/lesson.go:91 | splitting the joined tags gives the first tag and the others each after a space |
| LessonHandlers.TrimSpaceBefore | server/internal/handlers/lesson.go:93 | trimming " t" gives a trimmed t |
| LessonHandlers.TrimPieces | server/internal/handlers/lesson.go:92-94 | trimming those pieces gives the tags |
| LessonHandlers.CreateLesson | server/internal/handlers/lesson.go:18-103 | 400 iff the form fails or has no title; 500 iff an upload or the insert fails; else 201 with a lesson of the caller created and updated at `now`, its upload URLs and parsed tags |
| LessonHandlers.UpdateLesson | server/internal/handlers/lesson.go:105-183 | 404 iff the lesson is not the caller's; 400 for a bad form; 500 for a failed upload; else the title kept when empty, description and markdown overwritten, empty tags cleared to [], lastUpdated `now` |
| LessonHandlers.DeleteLesson | server/internal/handlers/lesson.go:185-194 | the caller's lesson soft-deleted at `now` |
| LessonHandlers.RestoreLesson | server/internal/handlers/lesson.go:216-224 | the caller's lesson's deletion time set back to 0 |
| LessonHandlers.GetLessons | server/internal/handlers/lesson.go:196-204 | exactly the caller's live lessons, each once, with their live cards each once |
| LessonHandlers.GetDeletedLessons | server/internal/handlers/lesson.go:206-214 | exactly the caller's deleted lessons, each once, with their live cards each once |
| LessonHandlers.DeleteRestoreRoundTrip | server/internal/handlers/lesson.go:185-224 | delete moves a listed lesson to the trash, and restore gives back the original table |
| LessonHandlers.ListingsPartition | server/internal/handlers/lesson.go:196-214 | each of the caller's lessons is in exactly one of list and trash |
| LessonHandlers.FirstSyncSendsListed | server/internal/handlers/sync.go:127-130 | a first sync sends exactly the listed lessons |
| LessonHandlers.UpdatedLessonSent | server/internal/handlers/sync.go:142-145 | an updated lesson is sent to every older watermark |
| Auth.Authenticate | server/internal/middleware/auth.go:13-48 | an aborted request gets 401; a let-through request runs as a key owner or an existing user |
| Auth.BearerKeyExact | server/internal/middleware/auth.go:16-22 | a key is taken iff the header is exactly "Bearer " + key with no space in the key |
| Auth.AuthenticateCases | server/internal/middleware/auth.go:16-46 | a stored key wins over any cookie; any other header falls through to the cookie, accepted iff non-empty and an existing user; else 401 |
| Auth.LowerCaseSchemeIgnored | server/internal/middleware/auth.go:18-19 | the scheme is case-sensitive: "bearer k" is ignored |
| Api.ServerUrl | app/services/api.ts:5-7 | the server address is never empty |
| Api.SyncUrlShape | app/services/api.ts:27-30 | one trailing '/' is dropped, then "/api/sync" is appended |
| Api.DefaultSyncUrl | app/services/api.ts:5-7 | an unset or empty address posts to "http://localhost:8080/api/sync" |
| Api.Headers | app/services/api.ts:13-19 | the JSON content type always comes first |
| Api.AuthorizationSent | app/services/api.ts:13-19 | an Authorization header is sent iff the key is non-empty, as "Bearer " + key |
| Api.StoredKeyAuthenticates | app/services/api.ts:13-19 | the header the client builds for a stored key passes the server's middleware as the key's owner |
| Api.PerformBiDirectionalSync | app/services/api.ts:24-45 | success iff the fetch succeeds with a 2xx status and a decodable body, whose value is returned |
| Api.SyncFailures | app/services/api.ts:36-44 | a transport error is passed on; a non-2xx status fails with a message naming it |
| ReviewQueue.NextMode | server/web/components/FlashcardGame.tsx:53-62 | toggling always changes the mode |
| ReviewQueue.ModeCycle | server/web/components/FlashcardGame.tsx:53-62 | standard → reverse → mixed → standard, a cycle of three |
| ReviewQueue.Shuffle | server/web/components/FlashcardGame.tsx:37 | the shuffled queue is a permutation of its input |
| ReviewQueue.RequeueShape | server/web/components/FlashcardGame.tsx:96-99 | AGAIN keeps the length and multiset and puts the head at index min(n−1, 3), shifting the cards before it |
| ReviewQueue.Session.constructor | server/web/components/FlashcardGame.tsx:31-45 | the queue is a permutation of exactly the due cards, the counter is 0, not finished, mode mixed |
| ReviewQueue.Session.Load | server/web/components/FlashcardGame.tsx:31-45 | a new card list restarts the session on its due cards |
| ReviewQueue.Session.Rate | server/web/components/FlashcardGame.tsx:80-113 | an empty queue changes nothing; otherwise the head's review is saved, AGAIN re-queues it with the counter unchanged, other grades drop it and count it, and finished iff the queue is empty |
| ReviewQueue.Session.ToggleMode | server/web/components/FlashcardGame.tsx:47-62 | the next mode, with the orientation it selects |
| ReviewQueue.Session.RestartAll | server/web/components/FlashcardGame.tsx:115-122 | the queue becomes a permutation of all cards, due or not, counter 0 |
| ReviewQueue.AgainNeverFinishes | server/web/components/FlashcardGame.tsx:109-111 | after AGAIN the queue is not empty |
| ReviewQueue.StaleCardRequeued | server/web/components/FlashcardGame.tsx:84-99 | the re-queued card is the pre-rating one, not the reviewed one |
| Vocabulary.EditedKeepsSchedule | app/pages/Vocabulary.tsx:101-103 | an edit changes only text and timestamp |
| Vocabulary.WithoutCardEffect | app/pages/Vocabulary.tsx:75 | deleting drops every card of that id from the lesson and keeps the others |
| Vocabulary.AddRestoresDeletedCard | app/pages/Vocabulary.tsx:112-137 | adding to the page's stale lesson copy keeps a card deleted since the copy was taken |
| Vocabulary.ContainsEmpty | app/pages/Vocabulary.tsx:146-148 | the empty search is a substring of everything |
| Vocabulary.EmptyFilterListsAll | app/pages/Vocabulary.tsx:139-149 | no tag and an empty search list every card |
| Vocabulary.FilteredCardsMembership | app/pages/Vocabulary.tsx:139-149 | with a tag, a card passes iff its lesson has the tag and the lowered search occurs in its lowered front or back |
| Vocabulary.Flatten | app/pages/Vocabulary.tsx:47-50 | the loop yields one pair per card in lesson then card order |
| Vocabulary.CollectTags | app/pages/Vocabulary.tsx:51 | exactly the tags of some lesson |
| Vocabulary.SortedTags | app/pages/Vocabulary.tsx:54 | the tags sorted, without duplicates, nothing lost |
| Vocabulary.Page.constructor | app/pages/Vocabulary.tsx:21-33 | an empty page |
| Vocabulary.Page.LoadCards | app/pages/Vocabulary.tsx:39-64 | the page holds a full read, its flattening, its sorted distinct tags, and selects the first lesson |
| Vocabulary.Page.Delete | app/pages/Vocabulary.tsx:66-83 | an unknown lesson changes nothing; otherwise the card is dropped from that lesson, tombstoned at `now`, and dropped from the page's list |
| Vocabulary.Page.StartEdit | app/pages/Vocabulary.tsx:85-89 | the entry is being edited and the dialog texts start as its card's front and back |
| Vocabulary.Page.SetEditText | app/pages/Vocabulary.tsx:237-241 | the typed texts become the dialog texts; nothing else changes |
| Vocabulary.Page.SaveEdit | app/pages/Vocabulary.tsx:91-110 | no edit, a missing lesson or a missing card changes nothing; otherwise the first such card gets the dialog texts and `now`, in the store and the list, and the edit ends |
| Vocabulary.Page.AddCard | app/pages/Vocabulary.tsx:112-137 | with a selected lesson and non-blank text, one new user card is appended to the page's copy, which is saved; otherwise nothing changes |
| Vocabulary.AddedCardIsNew | app/pages/Vocabulary.tsx:114-127 | the added card is user-made, interval 0, repetition 0, efactor 2.5, and due |
| DesktopApp.NewerFirstOrder | desktop/frontend/App.tsx:63 | newest-first by creation time is a total preorder |
| DesktopApp.LessonDueEntries | desktop/frontend/App.tsx:73-81 | a lesson's due pairs are as many as its due cards |
| DesktopApp.DueCountIsGlobalReviewSize | desktop/frontend/App.tsx:73-81 | the list's due count equals the size of the global review's due list |
| DesktopApp.CountDue | desktop/frontend/App.tsx:73-81 | the nested loop counts the cards with `nextReview ≤ now` |
| DesktopApp.CountLessonDue | desktop/frontend/App.tsx:76-78 | the inner loop counts one lesson's due cards |
| DesktopApp.DueTagsStep | desktop/frontend/App.tsx:451-462 | one more lesson adds its tags exactly when it holds a due card |
| DesktopApp.LessonList.constructor | desktop/frontend/App.tsx:51-58 | an empty list with due count 0 |
| DesktopApp.LessonList.LoadLessons | desktop/frontend/App.tsx:60-88 | the lessons of the store, newest first, with their sorted distinct tags and due count |
| DesktopApp.SortLessons | desktop/frontend/App.tsx:63 | sorted newest first and a permutation |
| DesktopApp.FilteredLessonsMembership | desktop/frontend/App.tsx:127-139 | a tag excludes lessons without it; a blank query matches all; else the lowered untrimmed query occurs in the title or a tag |
| DesktopApp.FindGroup | desktop/frontend/App.tsx:121 | the group holding the key, or none |
| DesktopApp.AddToDistinct | desktop/frontend/App.tsx:121-122 | adding a lesson keeps keys distinct |
| DesktopApp.AddToOldGroup | desktop/frontend/App.tsx:122 | an existing group gains the lesson at its end |
| DesktopApp.AddToNewGroup | desktop/frontend/App.tsx:121 | a new key gets a group holding the lesson |
| DesktopApp.AddToCovers | desktop/frontend/App.tsx:118-123 | every lesson seen has a group |
| DesktopApp.GroupsCorrect | desktop/frontend/App.tsx:116-123 | groups have distinct keys, each holds exactly the lessons of its key in list order, and every lesson has one |
| DesktopApp.AddToGrouped | desktop/frontend/App.tsx:118-123 | one more lesson keeps the grouping correct |
| DesktopApp.LaterKeyFirstOrder | desktop/frontend/App.tsx:124 | descending key order is a total preorder |
| DesktopApp.GroupLessonsByMonthCorrect | desktop/frontend/App.tsx:116-125 | the month groups partition the lessons by key and come in descending string order of key |
| DesktopApp.PermutedGroups | desktop/frontend/App.tsx:124 | sorting the groups keeps the grouping correct |
| DesktopApp.PermutedDistinctKeys | desktop/frontend/App.tsx:124 | sorting the groups keeps keys distinct |
| DesktopApp.SeptemberBeforeDecember | desktop/frontend/App.tsx:120-124 | "2024-9" is shown before "2024-12" |
| DesktopApp.GlobalReview.constructor | desktop/frontend/App.tsx:430-438 | an empty global review |
| DesktopApp.GlobalReview.LoadData | desktop/frontend/App.tsx:440-470 | the map of all lessons, the due cards, with their lessons, of a full read that holds each lesson once, and the tags of lessons holding a due card; the table is keyed by lesson id |
| DesktopApp.GlobalReview.UpdateGlobalCard | desktop/frontend/App.tsx:472-492 | no lesson id or an unknown one changes nothing; otherwise the same-id cards of that lesson are replaced in the map and the store; the table stays keyed by id |
| DesktopApp.DueCards | desktop/frontend/App.tsx:447-464 | the loop collects exactly the due pairs and the tags of lessons with a due card |
| DesktopApp.LessonDueCards | desktop/frontend/App.tsx:451-459 | one lesson's due pairs, and whether it has one |
| DesktopApp.DueEntriesExist | desktop/frontend/App.tsx:451-462 | a lesson has due pairs iff it has a due card |
| DesktopApp.ReplaceCardEffect | desktop/frontend/App.tsx:479-481 | the update replaces exactly the cards with its id, in place |
| DesktopApp.GlobalFilteredCards | desktop/frontend/App.tsx:494-499 | no tag lists every due card; a tag keeps exactly those whose lesson carries it |
| DesktopApp.ResolveUrl | desktop/frontend/App.tsx:587-592 | no address exactly for the empty url |
| DesktopApp.ResolveRelative | desktop/frontend/App.tsx:587-592 | a relative url, with or without a leading '/', gets the server address less one trailing '/', then one '/' |
| DesktopApp.NotStartsWith | desktop/frontend/App.tsx:589 | a url whose first character differs does not start with the prefix |
| DesktopApp.ResolveUpload | desktop/frontend/App.tsx:587-592 | an "/uploads/…" URL from the server resolves against the server address |
| DesktopApp.LessonView.constructor | desktop/frontend/App.tsx:596-600 | the view holds the loaded lesson |
| DesktopApp.LessonView.AddWord | desktop/frontend/App.tsx:631-645 | no lesson or blank text changes nothing; otherwise a new user card is appended and the lesson saved |
| DesktopApp.AddedWord | desktop/frontend/App.tsx:633-645 | the lesson gains one card at its end, user-made, due, with the initial state |
| Markdown.Close | app/components/Markdown.tsx:15 | a found end lies past the opening and ends with the delimiter's last character |
| Markdown.CloseFound | app/components/Markdown.tsx:15 | the lazy `.*?` ends at the first closing delimiter, with no line terminator before it |
| Markdown.MatchAt | app/components/Markdown.tsx:15 | a match at a position starts and ends with the same star or backtick and spans at least two characters |
| Markdown.SplitFrom | app/components/Markdown.tsx:15 | the split alternates text and matches, so it has an odd number of pieces |
| Markdown.SplitFromConcat | app/components/Markdown.tsx:15 | the pieces concatenate to the text |
| Markdown.SplitInlineConcat | app/components/Markdown.tsx:15 | splitting a line loses and adds no character |
| Markdown.SplitFromMatches | app/components/Markdown.tsx:15 | every second piece is a delimited match |
| Markdown.RenderParts | app/components/Markdown.tsx:16-29 | one inline per piece, in order |
| Markdown.MatchedPiecesStyled | app/components/Markdown.tsx:15-29 | a matched piece never renders as plain text |
| Markdown.CloseAfterPlain | app/components/Markdown.tsx:15 | over star-free text the scan ends at the first closing delimiter |
| Markdown.WholeMatch | app/components/Markdown.tsx:15 | a line that is one match splits into that match between two empty texts |
| Markdown.BoldBeforeItalic | app/components/Markdown.tsx:15-23 | "**x**" renders as bold x, stripping two characters per side, never as italic |
| Markdown.BoldMatch | app/components/Markdown.tsx:15 | the bold alternative matches all of "**x**" |
| Markdown.ItalicPiece | app/components/Markdown.tsx:15-25 | "*x*" renders as italic x, stripping one character per side |
| Markdown.ItalicMatch | app/components/Markdown.tsx:15 | the bold alternative fails on "*x*" and the italic one matches all of it |
| Markdown.ItalicRender | app/components/Markdown.tsx:20-22 | a piece starting with one star is italic, not bold |
| Markdown.ParseWhole | app/components/Markdown.tsx:15-29 | a line that is one match renders as that piece between two empty texts |
| Markdown.LoneStarVanishes | app/components/Markdown.tsx:20-25 | a lone "*" renders as an empty italic |
| Markdown.RenderLines | app/components/Markdown.tsx:33-69 | one block per line, in order |
| Markdown.Render | app/components/Markdown.tsx:10 | empty content renders nothing |
| Markdown.RenderBlocks | app/components/Markdown.tsx:33-46 | as many blocks as '\n' plus one, each the rendering of its line |
| Markdown.RenderLineCases | app/components/Markdown.tsx:46-69 | on the trimmed line: "- " gives a list item and "# " a header of the rest; a blank line a spacer; else a paragraph of the untrimmed line |
| Markdown.ListBeforeHeader | app/components/Markdown.tsx:48-61 | "- " is tested before "# " |
| Swipe.DecideCases | app/hooks/useSwipeNavigation.ts:16-37 | back iff dx > 50, abs(dy) < 50 and start x < 50; forward iff dx < −50, abs(dy) < 50 and start x > width − 50; no navigation without both thresholds |
| Swipe.Mirror | app/hooks/useSwipeNavigation.ts:30-36 | mirroring a touch across the screen swaps back and forward |
| Swipe.FractionalEdge | app/hooks/useSwipeNavigation.ts:16-37 | on fractional coordinates the edge tests are strict: a start at 49.5 goes back, one at 50 does not, and likewise against width − 50 |
| Swipe.BothEdges | app/hooks/useSwipeNavigation.ts:30-37 | on a narrow screen a start near both edges still yields one navigation, chosen by direction |
| Swipe.Tracker.constructor | app/hooks/useSwipeNavigation.ts:7-9 | the start is (0, 0) before any touch |
| Swipe.Tracker.TouchStart | app/hooks/useSwipeNavigation.ts:11-14 | records the touch start |
| Swipe.Tracker.TouchEnd | app/hooks/useSwipeNavigation.ts:16-37 | the navigation the decision rule gives for the recorded start |

## Left out

- Rendering, styling, dialogs (confirm, alert), navigation calls and the animation delay before the queue advances are not modelled; only the state they act on is.
- IndexedDB, localStorage, fetch, GORM and gin are replaced by the store and database classes and a transport function. A failing write inside a sync, and database errors other than a taken primary key, are not modelled.
- `getAllLessons` and the server queries return rows in an order the model leaves open: each row once, any order.
- Concurrent syncs and overlapping UI actions are not modelled; each sync, handler and rating is one atomic step.
- Clocks: each Go handler reads one `now`. The Go code reads the clock up to three times per request. In the app's sync, each local lesson deletion reads the clock itself (`clock(k)` for the k-th); the model does not require the readings to be non-decreasing.
- Randomness (shuffles, the mixed orientation, UUIDs) is supplied as parameters.
- IEEE-754 rounding is not modelled. Touch coordinates in `Swipe` are exact reals, so the swipe differences carry no rounding. The ease factor is an exact real, and `Math.round` is floor(x + 0.5).
- `toLowerCase` is ASCII-only. `trim` and `TrimSpace` remove the full ECMAScript and Go `unicode.IsSpace` white-space sets, U+0085 (Go only), U+2028 and U+3000 included.
- `Strings.Le`: the tag sort and the month-key `localeCompare` are modelled as code-point order on `char`. JavaScript's default sort compares UTF-16 code units, which differs from code-point order for characters outside the BMP against U+E000–U+FFFF, and `localeCompare` uses locale collation; for month keys made of ASCII digits and '-' the orders agree.
- 64-bit integer overflow of timestamps and intervals is not modelled.
- File uploads write to disk; only the resulting "/uploads/…" URL and whether the save succeeded are modelled.
- The conversion of a creation time to a year and month is a parameter of the grouping (the key function), since it depends on the time zone.
- JSON decoding is a parameter: a body either decodes (`Some`) or not (`None`). The error message of a failed decode is not modelled.
- `DesktopApp.GlobalReview.LoadData`: cards are returned as (lessonId, card) pairs instead of card objects tagged with a `_lessonId` property.
- `DesktopApp.LessonList.LoadLessons`: the store read is stated up to permutation of the table, not in IndexedDB key order.
- The desktop client's store is modelled with the same store class as the app. The server address the desktop resolves against is a parameter.
- API keys map to their owners; the uniqueness the database enforces on keys is assumed by using a map.
- The server's web client store (`server/web/services/db.ts`) is modelled by the same class as the app's store. The web sync never touches tombstones.
- The web client's copies of the list, review and vocabulary logic are not modelled separately; they repeat the rules modelled once here.
