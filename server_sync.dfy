/**
 * The server side of the sync protocol (SyncHandler). Upstream, in order:
 * created cards (A), modified card text (B), card deletions (C), lesson
 * deletions (C2) and progress updates (D), each entry skipped unless the
 * requesting user owns the lesson or card it names, every overwrite guarded
 * by a strictly newer `lastUpdated`. Downstream: the lessons, tombstones and
 * card progress changed since the client's watermark. The handler reads the
 * clock once, as `now`.
 */
module ServerSync {
  import opened Wrappers
  import opened Types
  import opened ServerModels
  import Seqs

  // ----- Upstream, one entry at a time -----

  /**
   * Step A for one entry: an unknown card is inserted under the entry's
   * lesson; a known card is overwritten when the client's copy is strictly
   * newer, keeping its own lesson. The entry is skipped unless the user owns
   * the entry's lesson and, for a known card, the card's lesson.
   */
  function CreatedStep(lessons: map<string, LessonRow>, cards: map<string, CardRow>, user: string, e: NewUserCard): map<string, CardRow> {
    if !OwnsLesson(lessons, e.lessonId, user) then cards
    else if e.card.id in cards then
      var existing := cards[e.card.id];
      if !OwnsLesson(lessons, existing.lessonId, user) then cards
      else if e.card.lastUpdated > existing.lastUpdated then cards[e.card.id := RowOfCard(e.card, existing.lessonId)]
      else cards
    else cards[e.card.id := RowOfCard(e.card, e.lessonId)]
  }

  /** Step B for one entry: front, back and lastUpdated from a strictly newer client copy of an owned card. */
  function ModifiedStep(lessons: map<string, LessonRow>, cards: map<string, CardRow>, user: string, m: Flashcard): map<string, CardRow> {
    if OwnsCard(lessons, cards, m.id, user) && m.lastUpdated > cards[m.id].lastUpdated
    then cards[m.id := cards[m.id].(front := m.front, back := m.back, lastUpdated := m.lastUpdated)]
    else cards
  }

  /** Step D for one entry: the five SRS fields from a strictly newer progress record of an owned card. */
  function ProgressStep(lessons: map<string, LessonRow>, cards: map<string, CardRow>, user: string, p: CardProgress): map<string, CardRow> {
    if OwnsCard(lessons, cards, p.cardId, user) && p.lastUpdated > cards[p.cardId].lastUpdated
    then cards[p.cardId := cards[p.cardId].(interval := p.interval, repetition := p.repetition, efactor := p.efactor,
                                            nextReview := p.nextReview, lastUpdated := p.lastUpdated)]
    else cards
  }

  function CreatedAll(lessons: map<string, LessonRow>, cards: map<string, CardRow>, user: string, es: seq<NewUserCard>): map<string, CardRow> {
    if |es| == 0 then cards
    else CreatedStep(lessons, CreatedAll(lessons, cards, user, es[..|es| - 1]), user, es[|es| - 1])
  }

  function ModifiedAll(lessons: map<string, LessonRow>, cards: map<string, CardRow>, user: string, ms: seq<Flashcard>): map<string, CardRow> {
    if |ms| == 0 then cards
    else ModifiedStep(lessons, ModifiedAll(lessons, cards, user, ms[..|ms| - 1]), user, ms[|ms| - 1])
  }

  function ProgressAll(lessons: map<string, LessonRow>, cards: map<string, CardRow>, user: string, ps: seq<CardProgress>): map<string, CardRow> {
    if |ps| == 0 then cards
    else ProgressStep(lessons, ProgressAll(lessons, cards, user, ps[..|ps| - 1]), user, ps[|ps| - 1])
  }

  /** Step C (and DeleteCardHandler): the listed owned cards are stamped deleted, and updated, at `now`. */
  function DeleteCardRows(lessons: map<string, LessonRow>, cards: map<string, CardRow>, user: string, ids: seq<string>, now: int): map<string, CardRow> {
    map id | id in cards :: if id in ids && OwnsLesson(lessons, cards[id].lessonId, user) then cards[id].(deletedAt := now, lastUpdated := now) else cards[id]
  }

  /** Step C2 (and DeleteLessonHandler): the listed owned lessons are stamped deleted at `now`; their cards stay as they are. */
  function DeleteLessonRows(lessons: map<string, LessonRow>, user: string, ids: seq<string>, now: int): map<string, LessonRow> {
    map id | id in lessons :: if id in ids && lessons[id].userId == user then lessons[id].(deletedAt := now) else lessons[id]
  }

  datatype Tables = Tables(lessons: map<string, LessonRow>, cards: map<string, CardRow>)

  /** The tables after the upstream half of one sync request. */
  function Upstream(t: Tables, user: string, ch: Changes, now: int): Tables {
    var afterA := CreatedAll(t.lessons, t.cards, user, ch.createdCards);
    var afterB := ModifiedAll(t.lessons, afterA, user, ch.modifiedCards);
    var afterC := if |ch.deletedCardIds| > 0 then DeleteCardRows(t.lessons, afterB, user, ch.deletedCardIds, now) else afterB;
    var lessons := if |ch.deletedLessonIds| > 0 then DeleteLessonRows(t.lessons, user, ch.deletedLessonIds, now) else t.lessons;
    Tables(lessons, ProgressAll(lessons, afterC, user, ch.progressUpdates))
  }

  // ----- Properties of the upstream half -----

  /**
   * `after` is confined to `user`'s part of the cards table: no row is
   * removed or moved to another lesson, rows of lessons the user does not own
   * are untouched, and new rows appear only in lessons the user owns.
   */
  ghost predicate Confined(lessons: map<string, LessonRow>, before: map<string, CardRow>, after: map<string, CardRow>, user: string) {
    && (forall id :: id in before ==> id in after && after[id].lessonId == before[id].lessonId)
    && (forall id :: id in before && !OwnsLesson(lessons, before[id].lessonId, user) ==> after[id] == before[id])
    && (forall id :: id in after && id !in before ==> OwnsLesson(lessons, after[id].lessonId, user))
  }

  /** No card's lastUpdated went backwards. */
  ghost predicate NeverOlder(before: map<string, CardRow>, after: map<string, CardRow>) {
    forall id :: id in before ==> id in after && after[id].lastUpdated >= before[id].lastUpdated
  }

  /** What one step A entry does, case by case. */
  lemma CreatedStepEffect(lessons: map<string, LessonRow>, cards: map<string, CardRow>, user: string, e: NewUserCard)
    ensures var r := CreatedStep(lessons, cards, user, e);
      && (OwnsLesson(lessons, e.lessonId, user) && e.card.id !in cards ==>
            r == cards[e.card.id := RowOfCard(e.card, e.lessonId)])
      && (e.card.id in cards && r != cards ==>
            OwnsLesson(lessons, e.lessonId, user) && OwnsLesson(lessons, cards[e.card.id].lessonId, user)
            && e.card.lastUpdated > cards[e.card.id].lastUpdated
            && r == cards[e.card.id := RowOfCard(e.card, cards[e.card.id].lessonId)])
      && (!OwnsLesson(lessons, e.lessonId, user) ==> r == cards)
  {
  }

  /**
   * A created entry revives a soft-deleted card: the client's copy carries no
   * deletion time, and an overwrite replaces the whole row.
   */
  lemma CreatedRevivesDeleted(lessons: map<string, LessonRow>, cards: map<string, CardRow>, user: string, e: NewUserCard)
    requires OwnsLesson(lessons, e.lessonId, user) && OwnsCard(lessons, cards, e.card.id, user)
    requires cards[e.card.id].deletedAt > 0
    requires e.card.lastUpdated > cards[e.card.id].lastUpdated
    ensures CreatedStep(lessons, cards, user, e)[e.card.id].deletedAt == 0
  {
  }

  lemma CreatedStepConfined(lessons: map<string, LessonRow>, cards: map<string, CardRow>, user: string, e: NewUserCard)
    ensures Confined(lessons, cards, CreatedStep(lessons, cards, user, e), user)
    ensures NeverOlder(cards, CreatedStep(lessons, cards, user, e))
  {
  }

  /** Step B changes only the text and the timestamp of the card it names. */
  lemma ModifiedStepEffect(lessons: map<string, LessonRow>, cards: map<string, CardRow>, user: string, m: Flashcard)
    ensures var r := ModifiedStep(lessons, cards, user, m);
      && r.Keys == cards.Keys
      && (forall id :: id in cards && id != m.id ==> r[id] == cards[id])
      && (m.id in cards ==> r[m.id].(front := cards[m.id].front, back := cards[m.id].back, lastUpdated := cards[m.id].lastUpdated) == cards[m.id])
      && (m.id in cards && r[m.id] != cards[m.id] ==> OwnsCard(lessons, cards, m.id, user) && r[m.id].lastUpdated == m.lastUpdated > cards[m.id].lastUpdated)
    ensures Confined(lessons, cards, ModifiedStep(lessons, cards, user, m), user)
    ensures NeverOlder(cards, ModifiedStep(lessons, cards, user, m))
  {
  }

  /** Step D changes only the five SRS fields of the card it names. */
  lemma ProgressStepEffect(lessons: map<string, LessonRow>, cards: map<string, CardRow>, user: string, p: CardProgress)
    ensures var r := ProgressStep(lessons, cards, user, p);
      && r.Keys == cards.Keys
      && (forall id :: id in cards && id != p.cardId ==> r[id] == cards[id])
      && (p.cardId in cards ==> r[p.cardId].(interval := cards[p.cardId].interval, repetition := cards[p.cardId].repetition,
            efactor := cards[p.cardId].efactor, nextReview := cards[p.cardId].nextReview,
            lastUpdated := cards[p.cardId].lastUpdated) == cards[p.cardId])
      && (p.cardId in cards && r[p.cardId] != cards[p.cardId] ==>
            OwnsCard(lessons, cards, p.cardId, user) && RowProgress(r[p.cardId]) == p.(cardId := cards[p.cardId].id) && p.lastUpdated > cards[p.cardId].lastUpdated)
    ensures Confined(lessons, cards, ProgressStep(lessons, cards, user, p), user)
    ensures NeverOlder(cards, ProgressStep(lessons, cards, user, p))
  {
  }

  lemma {:induction false} CreatedAllConfined(lessons: map<string, LessonRow>, cards: map<string, CardRow>, user: string, es: seq<NewUserCard>)
    ensures Confined(lessons, cards, CreatedAll(lessons, cards, user, es), user)
    ensures NeverOlder(cards, CreatedAll(lessons, cards, user, es))
  {
    if |es| > 0 {
      var mid := CreatedAll(lessons, cards, user, es[..|es| - 1]);
      CreatedAllConfined(lessons, cards, user, es[..|es| - 1]);
      CreatedStepConfined(lessons, mid, user, es[|es| - 1]);
    }
  }

  lemma {:induction false} ModifiedAllConfined(lessons: map<string, LessonRow>, cards: map<string, CardRow>, user: string, ms: seq<Flashcard>)
    ensures Confined(lessons, cards, ModifiedAll(lessons, cards, user, ms), user)
    ensures NeverOlder(cards, ModifiedAll(lessons, cards, user, ms))
    ensures ModifiedAll(lessons, cards, user, ms).Keys == cards.Keys
  {
    if |ms| > 0 {
      var mid := ModifiedAll(lessons, cards, user, ms[..|ms| - 1]);
      ModifiedAllConfined(lessons, cards, user, ms[..|ms| - 1]);
      ModifiedStepEffect(lessons, mid, user, ms[|ms| - 1]);
    }
  }

  lemma {:induction false} ProgressAllConfined(lessons: map<string, LessonRow>, cards: map<string, CardRow>, user: string, ps: seq<CardProgress>)
    ensures Confined(lessons, cards, ProgressAll(lessons, cards, user, ps), user)
    ensures NeverOlder(cards, ProgressAll(lessons, cards, user, ps))
    ensures ProgressAll(lessons, cards, user, ps).Keys == cards.Keys
  {
    if |ps| > 0 {
      var mid := ProgressAll(lessons, cards, user, ps[..|ps| - 1]);
      ProgressAllConfined(lessons, cards, user, ps[..|ps| - 1]);
      ProgressStepEffect(lessons, mid, user, ps[|ps| - 1]);
    }
  }

  /** Soft deletion keeps every row; a deleted card is stamped at `now` in both timestamps. */
  lemma DeleteCardRowsEffect(lessons: map<string, LessonRow>, cards: map<string, CardRow>, user: string, ids: seq<string>, now: int)
    ensures var r := DeleteCardRows(lessons, cards, user, ids, now);
      && r.Keys == cards.Keys
      && (forall id :: id in cards && id in ids && OwnsLesson(lessons, cards[id].lessonId, user) ==>
            r[id] == cards[id].(deletedAt := now, lastUpdated := now))
      && Confined(lessons, cards, r, user)
      && (forall id :: id in cards && id !in ids ==> r[id] == cards[id])
  {
  }

  /** Lesson deletion keeps every lesson row and its owner, and only stamps the listed owned ones. */
  lemma DeleteLessonRowsEffect(lessons: map<string, LessonRow>, user: string, ids: seq<string>, now: int)
    ensures var r := DeleteLessonRows(lessons, user, ids, now);
      && r.Keys == lessons.Keys
      && (forall id :: id in lessons ==> r[id].userId == lessons[id].userId)
      && (forall id :: id in lessons && id in ids && lessons[id].userId == user ==> r[id] == lessons[id].(deletedAt := now))
      && (forall id :: id in lessons && (id !in ids || lessons[id].userId != user) ==> r[id] == lessons[id])
  {
  }

  /** Ownership is decided by lesson ids and owners, which lesson deletion keeps. */
  lemma SameOwners(a: map<string, LessonRow>, b: map<string, LessonRow>, before: map<string, CardRow>, after: map<string, CardRow>, user: string)
    requires a.Keys == b.Keys && forall id :: id in a ==> a[id].userId == b[id].userId
    requires Confined(b, before, after, user)
    ensures Confined(a, before, after, user)
  {
  }

  /**
   * One sync request changes nothing outside the requesting user's data:
   * rows of other users' lessons, and those lessons themselves, are as
   * they were, and no row of either table is removed.
   */
  lemma UpstreamConfined(t: Tables, user: string, ch: Changes, now: int)
    ensures var r := Upstream(t, user, ch, now);
      && Confined(t.lessons, t.cards, r.cards, user)
      && r.lessons.Keys == t.lessons.Keys
      && (forall id :: id in t.lessons && t.lessons[id].userId != user ==> r.lessons[id] == t.lessons[id])
  {
    var afterA := CreatedAll(t.lessons, t.cards, user, ch.createdCards);
    var afterB := ModifiedAll(t.lessons, afterA, user, ch.modifiedCards);
    var afterC := if |ch.deletedCardIds| > 0 then DeleteCardRows(t.lessons, afterB, user, ch.deletedCardIds, now) else afterB;
    var lessons := Upstream(t, user, ch, now).lessons;
    CreatedAllConfined(t.lessons, t.cards, user, ch.createdCards);
    ModifiedAllConfined(t.lessons, afterA, user, ch.modifiedCards);
    DeleteCardRowsEffect(t.lessons, afterB, user, ch.deletedCardIds, now);
    DeleteLessonRowsEffect(t.lessons, user, ch.deletedLessonIds, now);
    ProgressAllConfined(lessons, afterC, user, ch.progressUpdates);
    SameOwners(t.lessons, lessons, afterC, ProgressAll(lessons, afterC, user, ch.progressUpdates), user);
  }

  /**
   * Step B runs before step D and copies the client's timestamp, so when the
   * client sends the same card as modified and as progress with one
   * timestamp, the progress is not applied: the row keeps its old SRS fields.
   */
  lemma ModifiedShadowsProgress(lessons: map<string, LessonRow>, cards: map<string, CardRow>, user: string, c: Flashcard)
    requires OwnsCard(lessons, cards, c.id, user)
    requires c.lastUpdated > cards[c.id].lastUpdated
    ensures var r := ProgressStep(lessons, ModifiedStep(lessons, cards, user, c), user, ProgressOf(c));
      && r[c.id].lastUpdated == c.lastUpdated
      && r[c.id].interval == cards[c.id].interval && r[c.id].repetition == cards[c.id].repetition
      && r[c.id].efactor == cards[c.id].efactor && r[c.id].nextReview == cards[c.id].nextReview
  {
  }

  // ----- Downstream queries -----

  /** The live card rows of lesson `lessonId` touched after `ts`. */
  predicate HasFreshCard(cards: map<string, CardRow>, lessonId: string, ts: int) {
    exists c :: c in cards.Values && c.lessonId == lessonId && c.lastUpdated > ts && c.deletedAt == 0
  }

  /**
   * The lessons sent down: with no watermark every live lesson of the user;
   * otherwise the live ones created or updated after it, or holding a live
   * card updated after it.
   */
  function SentLesson(cards: map<string, CardRow>, user: string, ts: int): LessonRow -> bool {
    (l: LessonRow) =>
      l.userId == user && l.deletedAt == 0 &&
      (ts == 0 || l.createdAt > ts || l.lastUpdated > ts || HasFreshCard(cards, l.id, ts))
  }

  function DeletedLessonRow(user: string, ts: int): LessonRow -> bool {
    (l: LessonRow) => l.userId == user && l.deletedAt > ts
  }

  function DeletedCardRow(lessons: map<string, LessonRow>, user: string, ts: int): CardRow -> bool {
    (c: CardRow) => OwnsLesson(lessons, c.lessonId, user) && c.deletedAt > ts
  }

  function FreshCardRow(lessons: map<string, LessonRow>, user: string, ts: int): CardRow -> bool {
    (c: CardRow) => OwnsLesson(lessons, c.lessonId, user) && c.lastUpdated > ts && c.deletedAt == 0
  }

  /** The response's updates describe the tables: which lessons, tombstones and progress records it must carry. */
  ghost predicate Describes(lessons: map<string, LessonRow>, cards: map<string, CardRow>, user: string, ts: int, u: Updates) {
    && (forall i :: 0 <= i < |u.lessons| ==>
          u.lessons[i].id in lessons && SentLesson(cards, user, ts)(lessons[u.lessons[i].id])
          && u.lessons[i] == WireLesson(lessons[u.lessons[i].id], u.lessons[i].flashcards))
    && (forall id :: id in lessons && SentLesson(cards, user, ts)(lessons[id]) ==>
          exists i :: 0 <= i < |u.lessons| && u.lessons[i].id == id)
    && (forall i, c :: 0 <= i < |u.lessons| ==>
          (c in u.lessons[i].flashcards <==> exists row :: row in cards.Values && LiveCardOf(u.lessons[i].id)(row) && WireCard(row) == c))
    && (forall i, j :: 0 <= i < j < |u.lessons| ==> u.lessons[i].id != u.lessons[j].id)
    && (forall i :: 0 <= i < |u.lessons| ==> DistinctCards(u.lessons[i].flashcards))
    && (forall id :: id in u.deletedLessonIds <==> id in lessons && DeletedLessonRow(user, ts)(lessons[id]))
    && (forall id :: id in u.deletedCardIds <==> id in cards && DeletedCardRow(lessons, user, ts)(cards[id]))
    && (forall p :: p in u.remoteProgress <==> p.cardId in cards && FreshCardRow(lessons, user, ts)(cards[p.cardId]) && p == RowProgress(cards[p.cardId]))
  }

  /** The lessons to send, each with its live cards. */
  method SentLessons(db: Database, user: string, ts: int) returns (r: seq<Lesson>)
    requires db.Valid()
    ensures forall i :: 0 <= i < |r| ==>
      r[i].id in db.lessons && SentLesson(db.cards, user, ts)(db.lessons[r[i].id])
      && r[i] == WireLesson(db.lessons[r[i].id], r[i].flashcards)
    ensures forall id :: id in db.lessons && SentLesson(db.cards, user, ts)(db.lessons[id]) ==>
      exists i :: 0 <= i < |r| && r[i].id == id
    ensures forall i, c :: 0 <= i < |r| ==>
      (c in r[i].flashcards <==> exists row :: row in db.cards.Values && LiveCardOf(r[i].id)(row) && WireCard(row) == c)
    ensures forall i, j :: 0 <= i < j < |r| ==> r[i].id != r[j].id
    ensures forall i :: 0 <= i < |r| ==> DistinctCards(r[i].flashcards)
  {
    r := LessonsWhere(db, SentLesson(db.cards, user, ts));
  }

  /** `make([]string, len(rows))` filled by index with each row's id. */
  method RowIds<T>(rows: seq<T>, id: T -> string) returns (ids: seq<string>)
    ensures |ids| == |rows| && forall k :: 0 <= k < |rows| ==> ids[k] == id(rows[k])
  {
    var a := new string[|rows|](_ => "");
    var i := 0;
    while i < |rows|
      invariant 0 <= i <= |rows|
      invariant forall k :: 0 <= k < i ==> a[k] == id(rows[k])
    {
      a[i] := id(rows[i]);
      i := i + 1;
    }
    ids := a[..];
  }

  method DeletedLessonIds(db: Database, user: string, ts: int) returns (ids: seq<string>)
    requires db.Valid()
    ensures forall id :: id in ids <==> id in db.lessons && DeletedLessonRow(user, ts)(db.lessons[id])
  {
    var rows, _ := Seqs.Select(db.lessons, DeletedLessonRow(user, ts));
    ids := RowIds(rows, (l: LessonRow) => l.id);
    forall id ensures id in ids <==> id in db.lessons && DeletedLessonRow(user, ts)(db.lessons[id]) {
      if id in db.lessons && DeletedLessonRow(user, ts)(db.lessons[id]) {
        assert db.lessons[id] in db.lessons.Values;
        var k :| 0 <= k < |rows| && rows[k] == db.lessons[id];
        assert ids[k] == id;
      }
      if id in ids {
        var k :| 0 <= k < |ids| && ids[k] == id;
        assert rows[k] in rows;
      }
    }
  }

  method DeletedCardIds(db: Database, user: string, ts: int) returns (ids: seq<string>)
    requires db.Valid()
    ensures forall id :: id in ids <==> id in db.cards && DeletedCardRow(db.lessons, user, ts)(db.cards[id])
  {
    var rows, _ := Seqs.Select(db.cards, DeletedCardRow(db.lessons, user, ts));
    ids := RowIds(rows, (c: CardRow) => c.id);
    forall id ensures id in ids <==> id in db.cards && DeletedCardRow(db.lessons, user, ts)(db.cards[id]) {
      if id in db.cards && DeletedCardRow(db.lessons, user, ts)(db.cards[id]) {
        assert db.cards[id] in db.cards.Values;
        var k :| 0 <= k < |rows| && rows[k] == db.cards[id];
        assert ids[k] == id;
      }
      if id in ids {
        var k :| 0 <= k < |ids| && ids[k] == id;
        assert rows[k] in rows;
      }
    }
  }

  /** The progress of every owned live card touched after `ts`, appended one by one. */
  method RemoteProgress(db: Database, user: string, ts: int) returns (progress: seq<CardProgress>)
    requires db.Valid()
    ensures forall p :: p in progress <==>
      p.cardId in db.cards && FreshCardRow(db.lessons, user, ts)(db.cards[p.cardId]) && p == RowProgress(db.cards[p.cardId])
  {
    var rows, _ := Seqs.Select(db.cards, FreshCardRow(db.lessons, user, ts));
    progress := [];
    var i := 0;
    while i < |rows|
      invariant 0 <= i <= |rows|
      invariant |progress| == i && forall k :: 0 <= k < i ==> progress[k] == RowProgress(rows[k])
    {
      progress := progress + [RowProgress(rows[i])];
      i := i + 1;
    }
    forall p ensures p in progress <==>
      p.cardId in db.cards && FreshCardRow(db.lessons, user, ts)(db.cards[p.cardId]) && p == RowProgress(db.cards[p.cardId])
    {
      if p.cardId in db.cards && FreshCardRow(db.lessons, user, ts)(db.cards[p.cardId]) && p == RowProgress(db.cards[p.cardId]) {
        assert db.cards[p.cardId] in db.cards.Values;
        var k :| 0 <= k < |rows| && rows[k] == db.cards[p.cardId];
        assert progress[k] == p;
      }
      if p in progress {
        var k :| 0 <= k < |progress| && progress[k] == p;
        assert rows[k] in rows;
      }
    }
  }

  // ----- The upstream steps, each proved against its specification -----

  method ApplyCreatedCards(db: Database, user: string, es: seq<NewUserCard>)
    requires db.Valid()
    modifies db
    ensures db.Valid()
    ensures db.lessons == old(db.lessons)
    ensures db.cards == CreatedAll(old(db.lessons), old(db.cards), user, es)
  {
    var i := 0;
    while i < |es|
      invariant 0 <= i <= |es|
      invariant db.Valid() && db.lessons == old(db.lessons)
      invariant db.cards == CreatedAll(old(db.lessons), old(db.cards), user, es[..i])
    {
      assert es[..i + 1][..i] == es[..i];
      var e := es[i];
      if e.lessonId in db.lessons && db.lessons[e.lessonId].userId == user {
        var card := RowOfCard(e.card, e.lessonId);
        if card.id in db.cards {
          var existing := db.cards[card.id];
          if existing.lessonId in db.lessons && db.lessons[existing.lessonId].userId == user {
            if card.lastUpdated > existing.lastUpdated {
              card := card.(id := existing.id, lessonId := existing.lessonId);
              db.cards := db.cards[card.id := card];
            }
          }
        } else {
          db.cards := db.cards[card.id := card];
        }
      }
      i := i + 1;
    }
    assert es[..i] == es;
  }

  method ApplyModifiedCards(db: Database, user: string, ms: seq<Flashcard>)
    requires db.Valid()
    modifies db
    ensures db.Valid()
    ensures db.lessons == old(db.lessons)
    ensures db.cards == ModifiedAll(old(db.lessons), old(db.cards), user, ms)
  {
    var i := 0;
    while i < |ms|
      invariant 0 <= i <= |ms|
      invariant db.Valid() && db.lessons == old(db.lessons)
      invariant db.cards == ModifiedAll(old(db.lessons), old(db.cards), user, ms[..i])
    {
      assert ms[..i + 1][..i] == ms[..i];
      var modified := ms[i];
      if modified.id in db.cards && db.cards[modified.id].lessonId in db.lessons
         && db.lessons[db.cards[modified.id].lessonId].userId == user {
        var card := db.cards[modified.id];
        if modified.lastUpdated > card.lastUpdated {
          card := card.(front := modified.front, back := modified.back, lastUpdated := modified.lastUpdated);
          db.cards := db.cards[card.id := card];
        }
      }
      i := i + 1;
    }
    assert ms[..i] == ms;
  }

  method ApplyProgressUpdates(db: Database, user: string, ps: seq<CardProgress>)
    requires db.Valid()
    modifies db
    ensures db.Valid()
    ensures db.lessons == old(db.lessons)
    ensures db.cards == ProgressAll(old(db.lessons), old(db.cards), user, ps)
  {
    var i := 0;
    while i < |ps|
      invariant 0 <= i <= |ps|
      invariant db.Valid() && db.lessons == old(db.lessons)
      invariant db.cards == ProgressAll(old(db.lessons), old(db.cards), user, ps[..i])
    {
      assert ps[..i + 1][..i] == ps[..i];
      var progress := ps[i];
      if progress.cardId in db.cards && db.cards[progress.cardId].lessonId in db.lessons
         && db.lessons[db.cards[progress.cardId].lessonId].userId == user {
        var card := db.cards[progress.cardId];
        if progress.lastUpdated > card.lastUpdated {
          card := card.(interval := progress.interval, repetition := progress.repetition, efactor := progress.efactor,
                        nextReview := progress.nextReview, lastUpdated := progress.lastUpdated);
          db.cards := db.cards[card.id := card];
        }
      }
      i := i + 1;
    }
    assert ps[..i] == ps;
  }

  /**
   * SyncHandler: a body that does not decode gives 400 and changes nothing;
   * otherwise the upstream steps run in order and the response carries the
   * downstream updates and the server's clock.
   */
  method SyncHandler(db: Database, user: string, body: Option<SyncRequest>, now: int)
    returns (status: int, response: Option<SyncResponse>)
    requires db.Valid()
    modifies db
    ensures db.Valid()
    ensures body.None? ==> status == 400 && response.None? && db.lessons == old(db.lessons) && db.cards == old(db.cards)
    ensures body.Some? ==>
      && status == 200 && response.Some?
      && Tables(db.lessons, db.cards) == Upstream(Tables(old(db.lessons), old(db.cards)), user, body.value.changes, now)
      && response.value.serverTimestamp == now
      && Describes(db.lessons, db.cards, user, body.value.lastSyncTimestamp, response.value.updates)
  {
    if body.None? {
      return 400, None;
    }
    var req := body.value;
    ApplyCreatedCards(db, user, req.changes.createdCards);
    ApplyModifiedCards(db, user, req.changes.modifiedCards);
    if |req.changes.deletedCardIds| > 0 {
      db.cards := DeleteCardRows(db.lessons, db.cards, user, req.changes.deletedCardIds, now);
    }
    if |req.changes.deletedLessonIds| > 0 {
      db.lessons := DeleteLessonRows(db.lessons, user, req.changes.deletedLessonIds, now);
    }
    ApplyProgressUpdates(db, user, req.changes.progressUpdates);

    var ts := req.lastSyncTimestamp;
    var lessons := SentLessons(db, user, ts);
    var deletedLessonIds := DeletedLessonIds(db, user, ts);
    var deletedCardIds := DeletedCardIds(db, user, ts);
    var remoteProgress := RemoteProgress(db, user, ts);
    status := 200;
    response := Some(SyncResponse(now, Updates(lessons, deletedLessonIds, remoteProgress, deletedCardIds)));
  }

  /**
   * Progress accepted from this very request is reported back when it is
   * newer than the request's watermark and the card is live: the client
   * receives its own update as remote progress.
   */
  lemma OwnProgressEchoed(lessons: map<string, LessonRow>, cards: map<string, CardRow>, user: string, ts: int, u: Updates, id: string)
    requires Describes(lessons, cards, user, ts, u)
    requires OwnsCard(lessons, cards, id, user) && cards[id].id == id
    requires cards[id].deletedAt == 0 && cards[id].lastUpdated > ts
    ensures RowProgress(cards[id]) in u.remoteProgress
  {
  }

  /** With no watermark the response carries every live lesson of the user, and only those. */
  lemma FullSyncSendsAllLive(lessons: map<string, LessonRow>, cards: map<string, CardRow>, user: string, u: Updates, id: string)
    requires Describes(lessons, cards, user, 0, u)
    requires id in lessons
    ensures (exists i :: 0 <= i < |u.lessons| && u.lessons[i].id == id) <==> lessons[id].userId == user && lessons[id].deletedAt == 0
  {
    if exists i :: 0 <= i < |u.lessons| && u.lessons[i].id == id {
      var i :| 0 <= i < |u.lessons| && u.lessons[i].id == id;
      assert SentLesson(cards, user, 0)(lessons[u.lessons[i].id]);
    }
  }
}
