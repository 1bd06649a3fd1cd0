/**
 * The server's two tables and its ownership rule. A lesson row belongs to a
 * user; a card row belongs to a lesson and through it to that lesson's user.
 * Deletion is soft: `deletedAt` is 0 for a live row and the deletion time
 * otherwise. Lesson rows carry `lastUpdated`, which the handlers write and
 * the sync query reads.
 */
module ServerModels {
  import opened Wrappers
  import Types
  import Seqs

  datatype LessonRow = LessonRow(
    id: string,
    userId: string,
    title: string,
    description: string,
    createdAt: int,
    lastUpdated: int,
    audioUrl: string,
    pdfUrl: string,
    markdownContent: string,
    tags: Option<seq<string>>,
    deletedAt: int)

  datatype CardRow = CardRow(
    id: string,
    lessonId: string,
    front: string,
    back: string,
    isUserCreated: bool,
    interval: int,
    repetition: int,
    efactor: real,
    nextReview: int,
    lastUpdated: int,
    deletedAt: int)

  /** The lessons and flashcards tables, each keyed by its primary key `id`. */
  class Database {
    var lessons: map<string, LessonRow>
    var cards: map<string, CardRow>

    ghost predicate Valid()
      reads this
    {
      && (forall id :: id in lessons ==> lessons[id].id == id)
      && (forall id :: id in cards ==> cards[id].id == id)
    }

    constructor ()
      ensures Valid()
      ensures lessons == map[] && cards == map[]
    {
      lessons, cards := map[], map[];
    }
  }

  /** `WHERE id = ? AND user_id = ?` on the lessons table finds a row. */
  predicate OwnsLesson(lessons: map<string, LessonRow>, lessonId: string, user: string) {
    lessonId in lessons && lessons[lessonId].userId == user
  }

  /** The card joined with its lesson belongs to `user`. */
  predicate OwnsCard(lessons: map<string, LessonRow>, cards: map<string, CardRow>, cardId: string, user: string) {
    cardId in cards && OwnsLesson(lessons, cards[cardId].lessonId, user)
  }

  /**
   * A client card decoded into a row of lesson `lessonId`. The client's card
   * has no deletion time, so the decoded row is live.
   */
  function RowOfCard(c: Types.Flashcard, lessonId: string): (r: CardRow)
    ensures r.id == c.id && r.lessonId == lessonId && r.deletedAt == 0
    ensures WireCard(r) == c
  {
    CardRow(c.id, lessonId, c.front, c.back, c.isUserCreated, c.interval, c.repetition,
            c.efactor, c.nextReview, c.lastUpdated, 0)
  }

  /** A card row as a client reads it; the lesson id and deletion time are not in the client's type. */
  function WireCard(r: CardRow): Types.Flashcard {
    Types.Flashcard(r.id, r.front, r.back, r.isUserCreated, r.interval, r.repetition,
                    r.efactor, r.nextReview, r.lastUpdated)
  }

  /** A lesson row with its preloaded cards as a client reads it. */
  function WireLesson(l: LessonRow, cards: seq<Types.Flashcard>): Types.Lesson {
    Types.Lesson(l.id, Some(l.userId), l.title, Some(l.description), l.createdAt, l.tags,
                 Some(l.audioUrl), Some(l.pdfUrl), Some(l.markdownContent), None, None, cards)
  }

  /** The progress record the server reports for a card row. */
  function RowProgress(r: CardRow): (p: Types.CardProgress)
    ensures p == Types.ProgressOf(WireCard(r))
  {
    Types.CardProgress(r.id, r.interval, r.repetition, r.efactor, r.nextReview, r.lastUpdated)
  }

  /** `Preload("Flashcards", "deleted_at = 0")`: the live cards of lesson `lessonId`. */
  function LiveCardOf(lessonId: string): CardRow -> bool {
    (c: CardRow) => c.lessonId == lessonId && c.deletedAt == 0
  }

  /** No two cards of a loaded lesson share an id: each card row is read once. */
  ghost predicate DistinctCards(cs: seq<Types.Flashcard>) {
    forall i, j :: 0 <= i < j < |cs| ==> cs[i].id != cs[j].id
  }

  /** Every card row is stored under its own id. */
  ghost predicate KeyedCards(cards: map<string, CardRow>) {
    forall id :: id in cards ==> cards[id].id == id
  }

  /**
   * A lesson with its live cards, loaded the way GORM's Preload does: each
   * live card row once, in an order the database chooses.
   */
  method LoadLesson(cards: map<string, CardRow>, l: LessonRow) returns (r: Types.Lesson)
    requires KeyedCards(cards)
    ensures r == WireLesson(l, r.flashcards)
    ensures forall c :: c in r.flashcards <==> exists row :: row in cards.Values && LiveCardOf(l.id)(row) && WireCard(row) == c
    ensures DistinctCards(r.flashcards)
  {
    var rows, picked := Seqs.Select(cards, LiveCardOf(l.id));
    var live := Seqs.Map(rows, WireCard);
    forall i | 0 <= i < |live| ensures live[i].id == picked[i] {
      assert live[i].id == rows[i].id == cards[picked[i]].id;
    }
    forall c ensures c in live <==> exists row :: row in cards.Values && LiveCardOf(l.id)(row) && WireCard(row) == c {
      Seqs.MapMembership(rows, WireCard, c);
    }
    r := WireLesson(l, live);
  }

  /** Every row of `rows` loaded with its live cards, in order. */
  method LoadLessons(cards: map<string, CardRow>, rows: seq<LessonRow>) returns (r: seq<Types.Lesson>)
    requires KeyedCards(cards)
    ensures |r| == |rows|
    ensures forall i :: 0 <= i < |rows| ==> DistinctCards(r[i].flashcards)
    ensures forall i :: 0 <= i < |rows| ==> r[i] == WireLesson(rows[i], r[i].flashcards)
    ensures forall i, c :: 0 <= i < |rows| ==>
      (c in r[i].flashcards <==> exists row :: row in cards.Values && LiveCardOf(rows[i].id)(row) && WireCard(row) == c)
  {
    r := [];
    var i := 0;
    while i < |rows|
      invariant 0 <= i <= |rows|
      invariant |r| == i
      invariant forall k :: 0 <= k < i ==> DistinctCards(r[k].flashcards)
      invariant forall k :: 0 <= k < i ==> r[k] == WireLesson(rows[k], r[k].flashcards)
      invariant forall k, c :: 0 <= k < i ==>
        (c in r[k].flashcards <==> exists row :: row in cards.Values && LiveCardOf(rows[k].id)(row) && WireCard(row) == c)
    {
      var l := LoadLesson(cards, rows[i]);
      r := r + [l];
      i := i + 1;
    }
  }

  /**
   * `Preload("Flashcards", "deleted_at = 0").Where(...).Find(&lessons)`:
   * every lesson row satisfying `p`, once, with its live cards once each, in an order
   * the database chooses.
   */
  method LessonsWhere(db: Database, p: LessonRow -> bool) returns (r: seq<Types.Lesson>)
    requires db.Valid()
    ensures forall i :: 0 <= i < |r| ==>
      r[i].id in db.lessons && p(db.lessons[r[i].id]) && r[i] == WireLesson(db.lessons[r[i].id], r[i].flashcards)
    ensures forall id :: id in db.lessons && p(db.lessons[id]) ==> exists i :: 0 <= i < |r| && r[i].id == id
    ensures forall i, c :: 0 <= i < |r| ==>
      (c in r[i].flashcards <==> exists row :: row in db.cards.Values && LiveCardOf(r[i].id)(row) && WireCard(row) == c)
    ensures forall i, j :: 0 <= i < j < |r| ==> r[i].id != r[j].id
    ensures forall i :: 0 <= i < |r| ==> DistinctCards(r[i].flashcards)
  {
    var rows, picked := Seqs.Select(db.lessons, p);
    r := LoadLessons(db.cards, rows);
    forall i | 0 <= i < |r| ensures r[i].id == picked[i] {
      assert r[i].id == rows[i].id == db.lessons[picked[i]].id;
    }
    forall i | 0 <= i < |r| ensures r[i].id in db.lessons && db.lessons[r[i].id] == rows[i] {
      assert rows[i] in rows;
      var key :| key in db.lessons && db.lessons[key] == rows[i];
    }
    forall id | id in db.lessons && p(db.lessons[id]) ensures exists i :: 0 <= i < |r| && r[i].id == id {
      assert db.lessons[id] in db.lessons.Values;
      var i :| 0 <= i < |rows| && rows[i] == db.lessons[id];
      assert r[i].id == id;
    }
  }
}
