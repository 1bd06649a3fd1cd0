/**
 * The client-side records and sync wire messages: the Flashcard, Lesson and
 * sync interfaces of the local-first app, and the narrower request and
 * response of the web client.
 */
module Types {
  import opened Wrappers

  /** A media file cached on the device; its bytes are never inspected. */
  datatype Blob = Blob(bytes: seq<int>)

  /**
   * A flashcard. `isUserCreated` is optional in the source and only tested
   * for truthiness, so an absent flag is `false`.
   */
  datatype Flashcard = Flashcard(
    id: string,
    front: string,
    back: string,
    isUserCreated: bool,
    interval: int,
    repetition: int,
    efactor: real,
    nextReview: int,
    lastUpdated: int)

  /** A lesson; `userId` is present only in the web client's lessons. */
  datatype Lesson = Lesson(
    id: string,
    userId: Option<string>,
    title: string,
    description: Option<string>,
    createdAt: int,
    tags: Option<seq<string>>,
    audioUrl: Option<string>,
    pdfUrl: Option<string>,
    markdownContent: Option<string>,
    audioBlob: Option<Blob>,
    pdfBlob: Option<Blob>,
    flashcards: seq<Flashcard>)

  /** The five spaced-repetition fields of one card, as exchanged during sync. */
  datatype CardProgress = CardProgress(
    cardId: string,
    interval: int,
    repetition: int,
    efactor: real,
    nextReview: int,
    lastUpdated: int)

  /** A card paired with the lesson that holds it. */
  datatype NewUserCard = NewUserCard(lessonId: string, card: Flashcard)

  datatype Changes = Changes(
    createdCards: seq<NewUserCard>,
    modifiedCards: seq<Flashcard>,
    deletedCardIds: seq<string>,
    deletedLessonIds: seq<string>,
    progressUpdates: seq<CardProgress>)

  /** The local-first app's sync request. */
  datatype SyncRequest = SyncRequest(lastSyncTimestamp: int, changes: Changes)

  datatype Updates = Updates(
    lessons: seq<Lesson>,
    deletedLessonIds: seq<string>,
    remoteProgress: seq<CardProgress>,
    deletedCardIds: seq<string>)

  /** The local-first app's view of the sync response. */
  datatype SyncResponse = SyncResponse(serverTimestamp: int, updates: Updates)

  datatype WebChanges = WebChanges(createdCards: seq<NewUserCard>, progressUpdates: seq<CardProgress>)

  /** The web client's narrower sync request: no modified cards, no deletions. */
  datatype WebSyncRequest = WebSyncRequest(lastSyncTimestamp: int, changes: WebChanges)

  datatype WebUpdates = WebUpdates(lessons: seq<Lesson>, remoteProgress: seq<CardProgress>)

  /** The web client's view of the sync response. */
  datatype WebSyncResponse = WebSyncResponse(serverTimestamp: int, updates: WebUpdates)

  /** The key of the lessons table. */
  function LessonKey(l: Lesson): string { l.id }

  /** The progress record a client sends for a card. */
  function ProgressOf(c: Flashcard): (p: CardProgress)
    ensures p.cardId == c.id && p.lastUpdated == c.lastUpdated
    ensures p.interval == c.interval && p.repetition == c.repetition
    ensures p.efactor == c.efactor && p.nextReview == c.nextReview
  {
    CardProgress(c.id, c.interval, c.repetition, c.efactor, c.nextReview, c.lastUpdated)
  }

  /** `card` with its five SRS fields taken from `p`; id, front, back and the flag stay. */
  function WithProgress(card: Flashcard, p: CardProgress): (r: Flashcard)
    ensures r.id == card.id && r.front == card.front && r.back == card.back
    ensures r.isUserCreated == card.isUserCreated
    ensures ProgressOf(r) == p.(cardId := card.id)
  {
    card.(interval := p.interval, repetition := p.repetition, efactor := p.efactor,
          nextReview := p.nextReview, lastUpdated := p.lastUpdated)
  }

  /** Every (lesson id, card) pair, in lesson order and then card order. */
  function Entries(lessons: seq<Lesson>): seq<NewUserCard> {
    if |lessons| == 0 then []
    else Entries(lessons[..|lessons| - 1]) + LessonEntries(lessons[|lessons| - 1])
  }

  /** Flattening one more lesson appends its pairs. */
  lemma EntriesSnoc(ls: seq<Lesson>, l: Lesson)
    ensures Entries(ls + [l]) == Entries(ls) + LessonEntries(l)
  {
    assert (ls + [l])[..|ls|] == ls;
  }

  /** The flattening of one more lesson of a prefix. */
  lemma EntriesPrefixStep(lessons: seq<Lesson>, i: nat)
    requires i < |lessons|
    ensures Entries(lessons[..i + 1]) == Entries(lessons[..i]) + LessonEntries(lessons[i])
  {
    assert lessons[..i + 1] == lessons[..i] + [lessons[i]];
    EntriesSnoc(lessons[..i], lessons[i]);
  }

  lemma EntriesWhole(lessons: seq<Lesson>)
    ensures Entries(lessons[..|lessons|]) == Entries(lessons)
  {
    assert lessons[..|lessons|] == lessons;
  }

  function LessonEntries(l: Lesson): (r: seq<NewUserCard>)
    ensures |r| == |l.flashcards|
    ensures forall k :: 0 <= k < |r| ==> r[k] == NewUserCard(l.id, l.flashcards[k])
  {
    seq(|l.flashcards|, k requires 0 <= k < |l.flashcards| => NewUserCard(l.id, l.flashcards[k]))
  }

  /** Each pair of the flattening comes from a lesson holding that card, and each such card is listed. */
  lemma {:induction false} EntriesMembership(lessons: seq<Lesson>, e: NewUserCard)
    ensures e in Entries(lessons) <==>
      exists l :: l in lessons && l.id == e.lessonId && e.card in l.flashcards
  {
    if |lessons| > 0 {
      var init, last := lessons[..|lessons| - 1], lessons[|lessons| - 1];
      EntriesMembership(init, e);
      assert lessons == init + [last];
      if e in LessonEntries(last) {
        var k :| 0 <= k < |last.flashcards| && LessonEntries(last)[k] == e;
        assert last.flashcards[k] == e.card;
      }
      if last.id == e.lessonId && e.card in last.flashcards {
        var k :| 0 <= k < |last.flashcards| && last.flashcards[k] == e.card;
        assert LessonEntries(last)[k] == e;
      }
    }
  }

  /** The flattening has exactly one pair per card. */
  lemma {:induction false} EntriesLength(lessons: seq<Lesson>)
    ensures |Entries(lessons)| == CardCount(lessons)
  {
    if |lessons| > 0 {
      EntriesLength(lessons[..|lessons| - 1]);
    }
  }

  /** Total number of cards across the lessons. */
  function CardCount(lessons: seq<Lesson>): nat {
    if |lessons| == 0 then 0
    else CardCount(lessons[..|lessons| - 1]) + |lessons[|lessons| - 1].flashcards|
  }

  predicate IsDue(c: Flashcard, now: int) {
    c.nextReview <= now
  }

  /** The key cards are looked up by. */
  function CardKey(c: Flashcard): string { c.id }

  /** The ids of a card sequence, in order. */
  function CardIds(cards: seq<Flashcard>): (r: seq<string>)
    ensures |r| == |cards| && forall k :: 0 <= k < |cards| ==> r[k] == cards[k].id
  {
    seq(|cards|, k requires 0 <= k < |cards| => cards[k].id)
  }
}
