/**
 * The local-first app's bidirectional sync. Upstream it sends every card
 * changed since the watermark (as created, modified and progress) and the
 * ids deleted locally since then; downstream it applies, in this order, the
 * server's lesson deletions, its card deletions, the lessons it returned and
 * its reported progress, and finally moves the watermark to the server's
 * clock. Each local deletion of a downstream lesson reads the local clock
 * itself, so `clock(k)` is the reading of the k-th deletion.
 */
module AppSync {
  import opened Types
  import opened Wrappers
  import Seqs
  import Changes
  import LocalStore

  // ----- Specification of the downstream steps -----

  /** Step A on the table: the listed lessons are gone. */
  function RemoveAll(m: map<string, Lesson>, ids: seq<string>): map<string, Lesson> {
    m - (set id | id in ids)
  }

  /**
   * Step A on the lesson tombstones: the k-th deleteLesson call reads the
   * clock itself and stamps `ids[k]` with `clock(k)`; a repeated id keeps
   * its last stamp.
   */
  function StampEach(t: map<string, int>, ids: seq<string>, clock: nat -> int): (r: map<string, int>)
    ensures forall id :: id in r <==> id in t || id in ids
    ensures forall id :: id in t && id !in ids ==> r[id] == t[id]
    ensures forall id :: id in ids ==> exists k :: 0 <= k < |ids| && ids[k] == id && r[id] == clock(k)
  {
    if |ids| == 0 then t
    else
      var init := ids[..|ids| - 1];
      var r := StampEach(t, init, clock)[ids[|ids| - 1] := clock(|ids| - 1)];
      assert forall id :: id in ids <==> id in init || id == ids[|ids| - 1] by {
        assert ids == init + [ids[|ids| - 1]];
      }
      r
  }

  /** One more deletion call stamps its id with the next clock reading. */
  lemma StampEachSnoc(t: map<string, int>, ids: seq<string>, x: string, clock: nat -> int)
    ensures StampEach(t, ids + [x], clock) == StampEach(t, ids, clock)[x := clock(|ids|)]
  {
    assert (ids + [x])[..|ids|] == ids;
  }

  /** One more deletion call removes its id from the table. */
  lemma RemoveAllSnoc(m: map<string, Lesson>, ids: seq<string>, x: string)
    ensures RemoveAll(m, ids + [x]) == RemoveAll(m, ids) - {x}
  {
    assert (set id | id in ids + [x]) == (set id | id in ids) + {x};
  }

  /** Every lesson rewritten by `f`. */
  function MapLessons(m: map<string, Lesson>, f: Lesson -> Lesson): map<string, Lesson> {
    map id | id in m :: f(m[id])
  }

  /** The card filter of step B: cards whose id is listed are dropped. */
  function PruneLesson(ids: seq<string>): Lesson -> Lesson {
    (l: Lesson) => l.(flashcards := Seqs.Filter(l.flashcards, (c: Flashcard) => c.id !in ids))
  }

  /**
   * Step D for one lesson: the first card carrying the update's id takes the
   * update's five progress fields when the update is strictly newer.
   */
  function PatchLesson(l: Lesson, p: CardProgress): Lesson {
    match Seqs.FindBy(l.flashcards, CardKey, p.cardId)
    case None => l
    case Some(k) =>
      if p.lastUpdated > l.flashcards[k].lastUpdated
      then l.(flashcards := l.flashcards[k := WithProgress(l.flashcards[k], p)])
      else l
  }

  function Patch(p: CardProgress): Lesson -> Lesson {
    (l: Lesson) => PatchLesson(l, p)
  }

  /** Step D: the updates applied one after another to every lesson. */
  function ApplyAllProgress(m: map<string, Lesson>, ps: seq<CardProgress>): map<string, Lesson> {
    if |ps| == 0 then m
    else MapLessons(ApplyAllProgress(m, ps[..|ps| - 1]), Patch(ps[|ps| - 1]))
  }

  /** The table after a successful sync: steps A, B, C and D in that order. */
  function AfterSync(m: map<string, Lesson>, u: Updates): map<string, Lesson> {
    var afterA := RemoveAll(m, u.deletedLessonIds);
    var afterB := MapLessons(afterA, PruneLesson(u.deletedCardIds));
    var afterC := LocalStore.SavedAll(afterB, u.lessons);
    ApplyAllProgress(afterC, u.remoteProgress)
  }

  // ----- Properties of the downstream steps -----

  /**
   * A progress update touches only the first card with its id, only when it is
   * strictly newer, and never makes any card older; the lesson keeps its
   * fields, its card count and its card ids.
   */
  lemma PatchLessonEffect(l: Lesson, p: CardProgress)
    ensures var r := PatchLesson(l, p);
      && r.(flashcards := l.flashcards) == l
      && |r.flashcards| == |l.flashcards|
      && (forall k :: 0 <= k < |l.flashcards| ==> r.flashcards[k].id == l.flashcards[k].id)
      && (forall k :: 0 <= k < |l.flashcards| ==> r.flashcards[k].lastUpdated >= l.flashcards[k].lastUpdated)
      && (forall k :: 0 <= k < |l.flashcards| && r.flashcards[k] != l.flashcards[k] ==>
            Seqs.FindBy(l.flashcards, CardKey, p.cardId) == Some(k) && p.lastUpdated > l.flashcards[k].lastUpdated
            && ProgressOf(r.flashcards[k]) == p.(cardId := l.flashcards[k].id))
  {
  }

  /** A progress update not newer than the card it names leaves the lesson as it is. */
  lemma StaleProgressIgnored(l: Lesson, p: CardProgress, k: nat)
    requires Seqs.FindBy(l.flashcards, CardKey, p.cardId) == Some(k)
    requires p.lastUpdated <= l.flashcards[k].lastUpdated
    ensures PatchLesson(l, p) == l
  {
  }

  /** Applying the same progress update twice is the same as applying it once. */
  lemma PatchIdempotent(l: Lesson, p: CardProgress)
    ensures PatchLesson(PatchLesson(l, p), p) == PatchLesson(l, p)
  {
    match Seqs.FindBy(l.flashcards, CardKey, p.cardId)
    case None =>
    case Some(k) =>
      if p.lastUpdated > l.flashcards[k].lastUpdated {
        var r := PatchLesson(l, p);
        var cards := l.flashcards[k := WithProgress(l.flashcards[k], p)];
        assert forall j :: 0 <= j < |cards| ==> cards[j].id == l.flashcards[j].id;
        assert Seqs.FindBy(cards, CardKey, p.cardId) == Some(k);
      }
  }

  /** After step B no remaining card carries a deleted id, and every other card is still there. */
  lemma PruneEffect(l: Lesson, ids: seq<string>)
    ensures var r := PruneLesson(ids)(l);
      && r.id == l.id
      && (forall c :: c in r.flashcards <==> c in l.flashcards && c.id !in ids)
  {
  }

  /** Step D never removes or adds a lesson. */
  lemma {:induction false} ApplyAllProgressKeys(m: map<string, Lesson>, ps: seq<CardProgress>)
    ensures ApplyAllProgress(m, ps).Keys == m.Keys
  {
    if |ps| > 0 {
      ApplyAllProgressKeys(m, ps[..|ps| - 1]);
    }
  }

  /**
   * After a successful sync the device holds exactly the lessons it held,
   * less those the server reported deleted, plus every lesson the server
   * returned; a returned lesson survives even when it is also listed as
   * deleted, because step C runs after step A.
   */
  lemma AfterSyncKeys(m: map<string, Lesson>, u: Updates)
    ensures AfterSync(m, u).Keys == (m.Keys - set id | id in u.deletedLessonIds) + set l | l in u.lessons :: l.id
  {
    var afterA := RemoveAll(m, u.deletedLessonIds);
    var afterB := MapLessons(afterA, PruneLesson(u.deletedCardIds));
    LocalStore.SavedAllKeys(afterB, u.lessons);
    ApplyAllProgressKeys(LocalStore.SavedAll(afterB, u.lessons), u.remoteProgress);
  }

  /** Two versions of a lesson hold cards with the same ids at the same places. */
  ghost predicate SameCardIds(a: Lesson, b: Lesson) {
    |a.flashcards| == |b.flashcards| && forall k :: 0 <= k < |a.flashcards| ==> a.flashcards[k].id == b.flashcards[k].id
  }

  /** Step D keeps every lesson's card ids in place. */
  lemma {:induction false} ApplyAllProgressIds(m: map<string, Lesson>, ps: seq<CardProgress>, id: string)
    requires id in m
    ensures id in ApplyAllProgress(m, ps) && SameCardIds(ApplyAllProgress(m, ps)[id], m[id])
  {
    if |ps| > 0 {
      ApplyAllProgressIds(m, ps[..|ps| - 1], id);
      var prev := ApplyAllProgress(m, ps[..|ps| - 1]);
      assert ApplyAllProgress(m, ps)[id] == PatchLesson(prev[id], ps[|ps| - 1]);
      PatchLessonEffect(prev[id], ps[|ps| - 1]);
    }
  }

  /**
   * A returned lesson is adopted as sent, after the card-deletion pass: each
   * of its cards is on the device after the sync, even one whose id the same
   * response lists in deletedCardIds.
   */
  lemma AdoptedAfterDeletion(m: map<string, Lesson>, u: Updates, i: nat)
    requires i < |u.lessons|
    requires forall j :: i < j < |u.lessons| ==> u.lessons[j].id != u.lessons[i].id
    ensures u.lessons[i].id in AfterSync(m, u)
    ensures SameCardIds(AfterSync(m, u)[u.lessons[i].id], u.lessons[i])
  {
    var afterA := RemoveAll(m, u.deletedLessonIds);
    var afterB := MapLessons(afterA, PruneLesson(u.deletedCardIds));
    var afterC := LocalStore.SavedAll(afterB, u.lessons);
    LocalStore.SavedAllLast(afterB, u.lessons, i);
    ApplyAllProgressIds(afterC, u.remoteProgress, u.lessons[i].id);
  }

  // ----- The imperative steps, each proved against its specification -----

  /** The table part of a pass over a full read: lessons before `i` rewritten by `f`, the rest untouched. */
  ghost predicate RewrittenUpTo(cur: map<string, Lesson>, table: map<string, Lesson>, all: seq<Lesson>, i: nat, f: Lesson -> Lesson)
    requires i <= |all|
    requires forall k :: 0 <= k < |all| ==> all[k].id in table
  {
    && cur.Keys == table.Keys
    && (forall k :: 0 <= k < i ==> cur[all[k].id] == f(all[k]))
    && (forall k :: i <= k < |all| ==> cur[all[k].id] == all[k])
  }

  /** A pass that rewrote every lesson of a full read rewrote the whole table. */
  lemma RewrittenAll(cur: map<string, Lesson>, table: map<string, Lesson>, all: seq<Lesson>, f: Lesson -> Lesson)
    requires forall k :: 0 <= k < |all| ==> all[k].id in table
    requires Seqs.IndexBy(all, LessonKey) == table
    requires RewrittenUpTo(cur, table, all, |all|, f)
    ensures cur == MapLessons(table, f)
  {
    forall id | id in table ensures cur[id] == f(table[id]) {
      Seqs.IndexByValue(all, LessonKey, id);
      var k :| 0 <= k < |all| && all[k] == table[id];
    }
    Seqs.MapExtensional(cur, MapLessons(table, f));
  }

  /** One more lesson of the read rewritten. */
  lemma RewriteStep(cur: map<string, Lesson>, table: map<string, Lesson>, all: seq<Lesson>, i: nat, f: Lesson -> Lesson)
    requires i < |all|
    requires forall k :: 0 <= k < |all| ==> all[k].id in table
    requires forall j, k :: 0 <= j < k < |all| ==> all[j].id != all[k].id
    requires RewrittenUpTo(cur, table, all, i, f)
    ensures RewrittenUpTo(cur[all[i].id := f(all[i])], table, all, i + 1, f)
  {
  }

  /** Step A: deleteLesson for every listed id, each call reading the clock. */
  method DeleteLessons(store: LocalStore.Store, ids: seq<string>, clock: nat -> int)
    requires store.Valid()
    modifies store
    ensures store.Valid()
    ensures store.lessons == RemoveAll(old(store.lessons), ids)
    ensures store.deletedLessons == StampEach(old(store.deletedLessons), ids, clock)
    ensures store.deletedCards == old(store.deletedCards) && store.lastSync == old(store.lastSync)
  {
    var i := 0;
    while i < |ids|
      invariant 0 <= i <= |ids|
      invariant store.Valid()
      invariant store.lessons == RemoveAll(old(store.lessons), ids[..i])
      invariant store.deletedLessons == StampEach(old(store.deletedLessons), ids[..i], clock)
      invariant store.deletedCards == old(store.deletedCards) && store.lastSync == old(store.lastSync)
    {
      assert ids[..i + 1] == ids[..i] + [ids[i]];
      StampEachSnoc(old(store.deletedLessons), ids[..i], ids[i], clock);
      RemoveAllSnoc(old(store.lessons), ids[..i], ids[i]);
      store.DeleteLesson(ids[i], clock(i));
      i := i + 1;
    }
    assert ids[..i] == ids;
  }

  /** Step B: every lesson loses the listed cards; a lesson is written back only when it lost one. */
  method DeleteCards(store: LocalStore.Store, ids: seq<string>)
    requires store.Valid()
    modifies store
    ensures store.Valid()
    ensures store.lessons == MapLessons(old(store.lessons), PruneLesson(ids))
    ensures store.deletedLessons == old(store.deletedLessons) && store.deletedCards == old(store.deletedCards)
    ensures store.lastSync == old(store.lastSync)
  {
    var allLessons := store.GetAllLessons();
    ghost var table := store.lessons;
    var i := 0;
    while i < |allLessons|
      invariant 0 <= i <= |allLessons|
      invariant store.Valid()
      invariant RewrittenUpTo(store.lessons, table, allLessons, i, PruneLesson(ids))
      invariant store.deletedLessons == old(store.deletedLessons) && store.deletedCards == old(store.deletedCards)
      invariant store.lastSync == old(store.lastSync)
    {
      var lesson := allLessons[i];
      var originalLen := |lesson.flashcards|;
      var kept := Seqs.Filter(lesson.flashcards, (c: Flashcard) => c.id !in ids);
      var pruned := lesson.(flashcards := kept);
      assert pruned == PruneLesson(ids)(lesson);
      RewriteStep(store.lessons, table, allLessons, i, PruneLesson(ids));
      if |kept| != originalLen {
        store.SaveLesson(pruned);
      } else {
        Seqs.FilterSameLength(lesson.flashcards, (c: Flashcard) => c.id !in ids);
        assert store.lessons[lesson.id := pruned] == store.lessons;
      }
      i := i + 1;
    }
    RewrittenAll(store.lessons, table, allLessons, PruneLesson(ids));
  }

  /** Step C: saveLesson for every returned lesson, in order. */
  method SaveLessons(store: LocalStore.Store, lessons: seq<Lesson>)
    requires store.Valid()
    modifies store
    ensures store.Valid()
    ensures store.lessons == LocalStore.SavedAll(old(store.lessons), lessons)
    ensures store.deletedLessons == old(store.deletedLessons) && store.deletedCards == old(store.deletedCards)
    ensures store.lastSync == old(store.lastSync)
  {
    var i := 0;
    while i < |lessons|
      invariant 0 <= i <= |lessons|
      invariant store.Valid()
      invariant store.lessons == LocalStore.SavedAll(old(store.lessons), lessons[..i])
      invariant store.deletedLessons == old(store.deletedLessons) && store.deletedCards == old(store.deletedCards)
      invariant store.lastSync == old(store.lastSync)
    {
      assert lessons[..i + 1][..i] == lessons[..i];
      store.SaveLesson(lessons[i]);
      i := i + 1;
    }
    assert lessons[..i] == lessons;
  }

  /** Step D for one update: a fresh full read, and every lesson holding the card is patched and written back. */
  method ApplyProgress(store: LocalStore.Store, update: CardProgress)
    requires store.Valid()
    modifies store
    ensures store.Valid()
    ensures store.lessons == MapLessons(old(store.lessons), Patch(update))
    ensures store.deletedLessons == old(store.deletedLessons) && store.deletedCards == old(store.deletedCards)
    ensures store.lastSync == old(store.lastSync)
  {
    var allLessons := store.GetAllLessons();
    ghost var table := store.lessons;
    var i := 0;
    while i < |allLessons|
      invariant 0 <= i <= |allLessons|
      invariant store.Valid()
      invariant RewrittenUpTo(store.lessons, table, allLessons, i, Patch(update))
      invariant store.deletedLessons == old(store.deletedLessons) && store.deletedCards == old(store.deletedCards)
      invariant store.lastSync == old(store.lastSync)
    {
      var lesson := allLessons[i];
      RewriteStep(store.lessons, table, allLessons, i, Patch(update));
      var found := Seqs.FindBy(lesson.flashcards, CardKey, update.cardId);
      if found.Some? {
        var card := lesson.flashcards[found.value];
        if update.lastUpdated > card.lastUpdated {
          var patched := lesson.(flashcards := lesson.flashcards[found.value := WithProgress(card, update)]);
          assert patched == Patch(update)(lesson);
          store.SaveLesson(patched);
        } else {
          assert store.lessons[lesson.id := Patch(update)(lesson)] == store.lessons;
        }
      } else {
        assert store.lessons[lesson.id := Patch(update)(lesson)] == store.lessons;
      }
      i := i + 1;
    }
    RewrittenAll(store.lessons, table, allLessons, Patch(update));
  }

  /** Step D: the updates in the order received. */
  method ApplyAllRemoteProgress(store: LocalStore.Store, updates: seq<CardProgress>)
    requires store.Valid()
    modifies store
    ensures store.Valid()
    ensures store.lessons == ApplyAllProgress(old(store.lessons), updates)
    ensures store.deletedLessons == old(store.deletedLessons) && store.deletedCards == old(store.deletedCards)
    ensures store.lastSync == old(store.lastSync)
  {
    var i := 0;
    while i < |updates|
      invariant 0 <= i <= |updates|
      invariant store.Valid()
      invariant store.lessons == ApplyAllProgress(old(store.lessons), updates[..i])
      invariant store.deletedLessons == old(store.deletedLessons) && store.deletedCards == old(store.deletedCards)
      invariant store.lastSync == old(store.lastSync)
    {
      assert updates[..i + 1][..i] == updates[..i];
      ApplyProgress(store, updates[i]);
      i := i + 1;
    }
    assert updates[..i] == updates;
  }

  /**
   * The request of syncLessons (app): the watermark, every card changed since
   * it three ways, and the tombstones newer than it.
   */
  method CollectRequest(store: LocalStore.Store) returns (request: SyncRequest)
    requires store.Valid()
    ensures request.lastSyncTimestamp == store.lastSync
    ensures forall id :: id in request.changes.deletedLessonIds <==> id in LocalStore.DeletedSince(store.deletedLessons, store.lastSync)
    ensures forall id :: id in request.changes.deletedCardIds <==> id in LocalStore.DeletedSince(store.deletedCards, store.lastSync)
    ensures exists all: seq<Lesson> ::
      && Seqs.IndexBy(all, LessonKey) == store.lessons && |all| == |store.lessons|
      && request.changes.createdCards == Seqs.Filter(Changes.Changed(all, store.lastSync), Changes.IsUserEntry)
      && request.changes.modifiedCards == Seqs.Map(Changes.Changed(all, store.lastSync), Changes.EntryCard)
      && request.changes.progressUpdates == Seqs.Map(Changes.Changed(all, store.lastSync), Changes.EntryProgress)
  {
    var lastSync := store.lastSync;
    var lessons := store.GetAllLessons();
    var created, modified, progress := Changes.CollectAppChanges(lessons, lastSync);
    var deletedCardIds := store.GetDeletedCardIds(lastSync);
    var deletedLessonIds := store.GetDeletedLessonIds(lastSync);
    request := SyncRequest(lastSync, Changes(created, modified, deletedCardIds, deletedLessonIds, progress));
  }

  /**
   * syncLessons (app): the request goes out through `send` (the HTTP
   * exchange, which may fail); on success steps A to D run and the
   * watermark moves to the server's clock; on failure nothing changes and
   * the error is passed on.
   */
  method SyncLessons(store: LocalStore.Store, send: SyncRequest -> Result<SyncResponse, string>, clock: nat -> int)
    returns (request: SyncRequest, outcome: Result<SyncResponse, string>)
    requires store.Valid()
    modifies store
    ensures store.Valid()
    ensures request.lastSyncTimestamp == old(store.lastSync)
    ensures forall id :: id in request.changes.deletedLessonIds <==> id in LocalStore.DeletedSince(old(store.deletedLessons), old(store.lastSync))
    ensures forall id :: id in request.changes.deletedCardIds <==> id in LocalStore.DeletedSince(old(store.deletedCards), old(store.lastSync))
    ensures exists all: seq<Lesson> ::
      && Seqs.IndexBy(all, LessonKey) == old(store.lessons) && |all| == |old(store.lessons)|
      && request.changes.createdCards == Seqs.Filter(Changes.Changed(all, old(store.lastSync)), Changes.IsUserEntry)
      && request.changes.modifiedCards == Seqs.Map(Changes.Changed(all, old(store.lastSync)), Changes.EntryCard)
      && request.changes.progressUpdates == Seqs.Map(Changes.Changed(all, old(store.lastSync)), Changes.EntryProgress)
    ensures outcome == send(request)
    ensures outcome.Failure? ==>
      && store.lessons == old(store.lessons) && store.deletedLessons == old(store.deletedLessons)
      && store.lastSync == old(store.lastSync)
    ensures outcome.Success? ==>
      && store.lessons == AfterSync(old(store.lessons), outcome.value.updates)
      && store.deletedLessons == StampEach(old(store.deletedLessons), outcome.value.updates.deletedLessonIds, clock)
      && store.lastSync == outcome.value.serverTimestamp
    ensures store.deletedCards == old(store.deletedCards)
  {
    request := CollectRequest(store);
    outcome := send(request);
    if outcome.Success? {
      var data := outcome.value;
      DeleteLessons(store, data.updates.deletedLessonIds, clock);
      DeleteCards(store, data.updates.deletedCardIds);
      SaveLessons(store, data.updates.lessons);
      ApplyAllRemoteProgress(store, data.updates.remoteProgress);
      store.SetLastSyncTime(data.serverTimestamp);
    }
  }
}
