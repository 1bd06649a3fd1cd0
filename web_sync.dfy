/**
 * The web client's bidirectional sync: it sends its changed cards, then
 * rebuilds every lesson the server returns, taking text from the server and
 * progress from whichever of the device's copy and the server's reported
 * progress was touched last, and keeps the device's user-made cards and
 * downloaded media.
 */
module WebSync {
  import opened Types
  import opened Wrappers
  import Seqs
  import Changes
  import LocalStore

  function CardId(c: Flashcard): string { c.id }
  function ProgressCardId(p: CardProgress): string { p.cardId }

  predicate IsUserCard(c: Flashcard) { c.isUserCreated }

  /**
   * One server card merged with the device's copy and the server's reported
   * progress: the text always comes from the server, the five progress
   * fields from the reported progress when the device has no copy or an
   * older one, otherwise from the device, and otherwise stay the server's.
   */
  function MergeCard(server: Flashcard, local: Option<Flashcard>, remote: Option<CardProgress>): (r: Flashcard)
    ensures r.id == server.id && r.front == server.front && r.back == server.back
    ensures r.isUserCreated == server.isUserCreated
    ensures remote.Some? && (local.None? || remote.value.lastUpdated > local.value.lastUpdated) ==>
      ProgressOf(r) == remote.value.(cardId := server.id)
    ensures local.Some? && !(remote.Some? && remote.value.lastUpdated > local.value.lastUpdated) ==>
      ProgressOf(r) == ProgressOf(local.value).(cardId := server.id)
    ensures local.None? && remote.None? ==> r == server
  {
    if remote.Some? && (local.None? || remote.value.lastUpdated > local.value.lastUpdated) then
      WithProgress(server, remote.value)
    else if local.Some? then
      WithProgress(server, ProgressOf(local.value))
    else
      server
  }

  /**
   * Newest progress wins: the merged card is at least as recent as the
   * device's copy and as the reported progress, and equals one of them.
   */
  lemma MergeCardNewest(server: Flashcard, local: Option<Flashcard>, remote: Option<CardProgress>)
    requires local.Some? || remote.Some?
    ensures var r := MergeCard(server, local, remote);
      && (local.Some? ==> r.lastUpdated >= local.value.lastUpdated)
      && (remote.Some? ==> r.lastUpdated >= remote.value.lastUpdated)
      && ((local.Some? && r.lastUpdated == local.value.lastUpdated) || (remote.Some? && r.lastUpdated == remote.value.lastUpdated))
  {
  }

  /** The merged card list of a lesson the device already holds. */
  function MergeCards(server: Lesson, local: Lesson, progress: map<string, CardProgress>): seq<Flashcard>
  {
    var localCards := Seqs.IndexBy(local.flashcards, CardId);
    Seqs.Map(server.flashcards,
             (sc: Flashcard) => MergeCard(sc, Seqs.Lookup(localCards, sc.id), Seqs.Lookup(progress, sc.id)))
    + Seqs.Filter(local.flashcards, IsUserCard)
  }

  /**
   * The merged cards of a lesson the device holds: the server's cards in the
   * server's order, each merged with the device's copy of that id and the
   * reported progress for it, followed by the device's user-made cards.
   */
  lemma MergeCardsShape(server: Lesson, local: Lesson, progress: map<string, CardProgress>)
    ensures var cards := MergeCards(server, local, progress);
      && |cards| == |server.flashcards| + |Seqs.Filter(local.flashcards, IsUserCard)|
      && (forall k :: 0 <= k < |server.flashcards| ==>
            cards[k] == MergeCard(server.flashcards[k],
                                  Seqs.Lookup(Seqs.IndexBy(local.flashcards, CardId), server.flashcards[k].id),
                                  Seqs.Lookup(progress, server.flashcards[k].id)))
      && cards[|server.flashcards|..] == Seqs.Filter(local.flashcards, IsUserCard)
  {
  }

  /**
   * One server lesson as stored after the sync: the server's fields, the
   * device's downloaded media, and the merged cards (the server's cards
   * unchanged when the device has no copy of the lesson).
   */
  function MergeLesson(server: Lesson, local: Option<Lesson>, progress: map<string, CardProgress>): Lesson
  {
    var cards := if local.Some? then MergeCards(server, local.value, progress) else server.flashcards;
    server.(audioBlob := if local.Some? then local.value.audioBlob else None,
            pdfBlob := if local.Some? then local.value.pdfBlob else None,
            flashcards := cards)
  }

  /**
   * A merged lesson keeps every server field except the media, which come
   * from the device's copy (absent for a new lesson), and the cards.
   */
  lemma MergeLessonShape(server: Lesson, local: Option<Lesson>, progress: map<string, CardProgress>)
    ensures var r := MergeLesson(server, local, progress);
      && r.(audioBlob := server.audioBlob, pdfBlob := server.pdfBlob, flashcards := server.flashcards) == server
      && r.audioBlob == (if local.Some? then local.value.audioBlob else None)
      && r.pdfBlob == (if local.Some? then local.value.pdfBlob else None)
      && (local.None? ==> r.flashcards == server.flashcards)
      && (local.Some? ==> r.flashcards == MergeCards(server, local.value, progress))
  {
  }

  /** Every user-made card of the device's copy survives the merge. */
  lemma UserCardsKept(server: Lesson, local: Lesson, progress: map<string, CardProgress>, c: Flashcard)
    requires c in local.flashcards && c.isUserCreated
    ensures c in MergeLesson(server, Some(local), progress).flashcards
  {
    var cards := MergeCards(server, local, progress);
    MergeCardsShape(server, local, progress);
    assert c in cards[|server.flashcards|..];
  }

  /**
   * A user-made card the server has already accepted comes back inside the
   * server's lesson and is kept again from the device's copy: after the
   * merge the lesson lists that card id twice.
   */
  lemma AcceptedUserCardDuplicated(server: Lesson, local: Lesson, progress: map<string, CardProgress>, c: Flashcard, k: nat)
    requires c in local.flashcards && c.isUserCreated
    requires k < |server.flashcards| && server.flashcards[k].id == c.id
    ensures var cards := MergeLesson(server, Some(local), progress).flashcards;
      exists i, j :: 0 <= i < j < |cards| && cards[i].id == c.id && cards[j].id == c.id
  {
    var cards := MergeLesson(server, Some(local), progress).flashcards;
    MergeCardsShape(server, local, progress);
    var tail := cards[|server.flashcards|..];
    assert c in tail;
    var t :| 0 <= t < |tail| && tail[t] == c;
    assert cards[|server.flashcards| + t] == c;
    assert cards[k].id == c.id;
  }

  /** The lessons written back, one per server lesson, each merged against the device's table as it was before the sync. */
  function MergeAll(serverLessons: seq<Lesson>, local: map<string, Lesson>, progress: map<string, CardProgress>): seq<Lesson>
  {
    Seqs.Map(serverLessons, (sl: Lesson) => MergeLesson(sl, Seqs.Lookup(local, sl.id), progress))
  }

  /** A card of the table was changed since `since` (the pairs the collectors pick). */
  ghost predicate ChangedIn(table: map<string, Lesson>, since: int, e: NewUserCard) {
    e.lessonId in table && e.card in table[e.lessonId].flashcards && e.card.lastUpdated > since
  }

  /**
   * The request half of syncLessons (web): the table is read in full and its
   * changed cards are split into user-made cards, sent as created, and all
   * others, sent as progress.
   */
  method CollectRequest(store: LocalStore.Store) returns (localLessons: seq<Lesson>, request: WebSyncRequest)
    requires store.Valid()
    ensures Seqs.IndexBy(localLessons, LessonKey) == store.lessons && |localLessons| == |store.lessons|
    ensures request.lastSyncTimestamp == store.lastSync
    ensures forall e :: e in request.changes.createdCards <==>
      ChangedIn(store.lessons, store.lastSync, e) && e.card.isUserCreated
    ensures forall p :: p in request.changes.progressUpdates <==>
      exists e :: ChangedIn(store.lessons, store.lastSync, e) && !e.card.isUserCreated && ProgressOf(e.card) == p
  {
    var lastSync := store.lastSync;
    localLessons := store.GetAllLessons();
    var created, progress := Changes.CollectWebChanges(localLessons, lastSync);
    ChangedFromTable(localLessons, store.lessons, lastSync);
    forall p ensures p in progress <==>
      exists e :: ChangedIn(store.lessons, lastSync, e) && !e.card.isUserCreated && ProgressOf(e.card) == p
    {
      Seqs.MapMembership(Seqs.Filter(Changes.Changed(localLessons, lastSync), Changes.IsServerEntry), Changes.EntryProgress, p);
    }
    request := WebSyncRequest(lastSync, WebChanges(created, progress));
  }

  /**
   * The response half of syncLessons (web): every returned lesson is merged
   * against the lessons read before the request and saved, then the
   * watermark moves to the server's clock.
   */
  method ApplyResponse(store: LocalStore.Store, localLessons: seq<Lesson>, response: WebSyncResponse)
    requires store.Valid()
    requires Seqs.IndexBy(localLessons, LessonKey) == store.lessons
    modifies store
    ensures store.Valid()
    ensures store.lessons == LocalStore.SavedAll(old(store.lessons),
      MergeAll(response.updates.lessons, old(store.lessons), Seqs.IndexBy(response.updates.remoteProgress, ProgressCardId)))
    ensures store.lastSync == response.serverTimestamp
    ensures store.deletedLessons == old(store.deletedLessons) && store.deletedCards == old(store.deletedCards)
  {
    var localLessonMap := Seqs.IndexBy(localLessons, LessonKey);
    var remoteProgressMap := Seqs.IndexBy(response.updates.remoteProgress, ProgressCardId);
    ghost var merged := MergeAll(response.updates.lessons, localLessonMap, remoteProgressMap);
    var i := 0;
    while i < |response.updates.lessons|
      invariant 0 <= i <= |response.updates.lessons|
      invariant store.Valid()
      invariant store.lessons == LocalStore.SavedAll(localLessonMap, merged[..i])
      invariant store.deletedLessons == old(store.deletedLessons) && store.deletedCards == old(store.deletedCards)
    {
      var serverLesson := response.updates.lessons[i];
      var localLesson := Seqs.Lookup(localLessonMap, serverLesson.id);
      var mergedLesson := MergeLesson(serverLesson, localLesson, remoteProgressMap);
      assert mergedLesson == merged[i];
      assert merged[..i + 1][..i] == merged[..i];
      store.SaveLesson(mergedLesson);
      i := i + 1;
    }
    assert merged[..i] == merged;
    store.SetLastSyncTime(response.serverTimestamp);
  }

  /**
   * syncLessons (web): sends the collected changes through `send` (the HTTP
   * exchange, which may fail) and, on success, applies the response. On
   * failure nothing is written and the error is passed on.
   */
  method SyncLessons(store: LocalStore.Store, send: WebSyncRequest -> Result<WebSyncResponse, string>)
    returns (request: WebSyncRequest, outcome: Result<WebSyncResponse, string>)
    requires store.Valid()
    modifies store
    ensures store.Valid()
    ensures request.lastSyncTimestamp == old(store.lastSync)
    ensures forall e :: e in request.changes.createdCards <==>
      ChangedIn(old(store.lessons), old(store.lastSync), e) && e.card.isUserCreated
    ensures forall p :: p in request.changes.progressUpdates <==>
      exists e :: ChangedIn(old(store.lessons), old(store.lastSync), e) && !e.card.isUserCreated && ProgressOf(e.card) == p
    ensures outcome == send(request)
    ensures outcome.Failure? ==> store.lessons == old(store.lessons) && store.lastSync == old(store.lastSync)
    ensures outcome.Success? ==>
      && store.lessons == LocalStore.SavedAll(old(store.lessons),
           MergeAll(outcome.value.updates.lessons, old(store.lessons),
                    Seqs.IndexBy(outcome.value.updates.remoteProgress, ProgressCardId)))
      && store.lastSync == outcome.value.serverTimestamp
    ensures store.deletedLessons == old(store.deletedLessons) && store.deletedCards == old(store.deletedCards)
  {
    var localLessons;
    localLessons, request := CollectRequest(store);
    outcome := send(request);
    if outcome.Success? {
      ApplyResponse(store, localLessons, outcome.value);
    }
  }

  /** The changed pairs drawn from a full read of the table are exactly the table's changed cards. */
  lemma ChangedFromTable(all: seq<Lesson>, table: map<string, Lesson>, since: int)
    requires Seqs.IndexBy(all, LessonKey) == table
    requires forall i, j :: 0 <= i < j < |all| ==> all[i].id != all[j].id
    ensures forall e :: e in Changes.Changed(all, since) <==> ChangedIn(table, since, e)
  {
    forall e ensures e in Changes.Changed(all, since) <==> ChangedIn(table, since, e)
    {
      Changes.ChangedMembership(all, since, e);
      if e.lessonId in table && e.card in table[e.lessonId].flashcards {
        Seqs.IndexByValue(all, LessonKey, e.lessonId);
      }
      if exists l :: l in all && l.id == e.lessonId && e.card in l.flashcards {
        var l :| l in all && l.id == e.lessonId && e.card in l.flashcards;
        var i :| 0 <= i < |all| && all[i] == l;
        assert forall j :: i < j < |all| ==> LessonKey(all[j]) != LessonKey(all[i]);
        Seqs.IndexByLast(all, LessonKey, i);
      }
    }
  }

  /**
   * The web sync never removes a lesson from the device: every lesson id
   * present before a successful sync is present after it, and a lesson the
   * server did not return is left exactly as it was.
   */
  lemma SyncKeepsLessons(table: map<string, Lesson>, serverLessons: seq<Lesson>, progress: map<string, CardProgress>, id: string)
    requires id in table
    ensures id in LocalStore.SavedAll(table, MergeAll(serverLessons, table, progress))
    ensures (forall l :: l in serverLessons ==> l.id != id) ==>
      LocalStore.SavedAll(table, MergeAll(serverLessons, table, progress))[id] == table[id]
  {
    var merged := MergeAll(serverLessons, table, progress);
    LocalStore.SavedAllGrows(table, merged, id);
    if forall l :: l in serverLessons ==> l.id != id {
      forall k | 0 <= k < |merged| ensures merged[k].id != id {
        MergeLessonShape(serverLessons[k], Seqs.Lookup(table, serverLessons[k].id), progress);
        assert serverLessons[k] in serverLessons;
      }
      LocalStore.SavedAllUntouched(table, merged, id);
    }
  }
}
