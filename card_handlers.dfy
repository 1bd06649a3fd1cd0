/**
 * The card endpoints: create a card in a lesson the caller owns, soft-delete
 * a card, and change a card's text. Delete and update are single UPDATE
 * statements scoped to the caller's lessons; they succeed even when no row
 * matches.
 */
module CardHandlers {
  import opened Wrappers
  import opened ServerModels
  import ServerSync
  import Srs
  import Types

  /** HTTP status codes the handlers answer with. */
  const StatusOk := 200
  const StatusCreated := 201
  const StatusBadRequest := 400
  const StatusNotFound := 404
  const StatusInternalError := 500

  /** The JSON body of an update: the new text of the card. */
  datatype CardText = CardText(front: string, back: string)

  /**
   * The decoded body of a creation as it is stored: a missing id replaced by
   * a fresh one, the server's clock as last update, and a zero interval
   * forcing the schedule of a new card.
   */
  function Normalize(body: CardRow, freshId: string, now: int): (r: CardRow)
    ensures r.id == (if body.id == "" then freshId else body.id)
    ensures r.lessonId == body.lessonId && r.front == body.front && r.back == body.back
    ensures r.isUserCreated == body.isUserCreated && r.deletedAt == body.deletedAt
    ensures r.lastUpdated == now
    ensures body.interval == 0 ==> Srs.StateOf(WireCard(r)) == Srs.CreateInitialSrsState(now)
    ensures body.interval != 0 ==>
      r.interval == body.interval && r.repetition == body.repetition
      && r.efactor == body.efactor && r.nextReview == body.nextReview
  {
    var withId := if body.id == "" then body.(id := freshId) else body;
    var stamped := withId.(lastUpdated := now);
    if stamped.interval == 0
    then stamped.(interval := 0, repetition := 0, efactor := 2.5, nextReview := now)
    else stamped
  }

  /** A card created with a zero interval starts on the scheduler's invariant. */
  lemma CreatedCardScheduled(body: CardRow, freshId: string, now: int)
    requires body.interval == 0
    ensures Srs.Scheduled(WireCard(Normalize(body, freshId, now)))
  {
  }

  /**
   * CreateCardHandler: 400 for a body that does not decode or names no
   * lesson, 404 when the caller does not own the lesson, 500 when the id is
   * taken, else 201 with the stored card.
   */
  method CreateCard(db: Database, user: string, body: Option<CardRow>, freshId: string, now: int)
    returns (status: int, created: Option<CardRow>)
    requires db.Valid()
    modifies db
    ensures db.Valid()
    ensures db.lessons == old(db.lessons)
    ensures status != StatusCreated ==> created.None? && db.cards == old(db.cards)
    ensures body.None? ==> status == StatusBadRequest
    ensures body.Some? ==>
      var card := Normalize(body.value, freshId, now);
      && (card.lessonId == "" ==> status == StatusBadRequest)
      && (card.lessonId != "" && !OwnsLesson(db.lessons, card.lessonId, user) ==> status == StatusNotFound)
      && (card.lessonId != "" && OwnsLesson(db.lessons, card.lessonId, user) && card.id in old(db.cards) ==>
            status == StatusInternalError)
      && (card.lessonId != "" && OwnsLesson(db.lessons, card.lessonId, user) && card.id !in old(db.cards) ==>
            status == StatusCreated && created == Some(card) && db.cards == old(db.cards)[card.id := card])
  {
    if body.None? {
      return StatusBadRequest, None;
    }
    var card := body.value;
    if card.id == "" {
      card := card.(id := freshId);
    }
    if card.lessonId == "" {
      return StatusBadRequest, None;
    }
    if !(card.lessonId in db.lessons && db.lessons[card.lessonId].userId == user) {
      return StatusNotFound, None;
    }
    card := card.(lastUpdated := now);
    if card.interval == 0 {
      card := card.(interval := 0, repetition := 0, efactor := 2.5, nextReview := now);
    }
    if card.id in db.cards {
      return StatusInternalError, None;
    }
    db.cards := db.cards[card.id := card];
    return StatusCreated, Some(card);
  }

  /** DeleteCardHandler: the same soft deletion as a sync request listing one id; always 200. */
  method DeleteCard(db: Database, user: string, id: string, now: int) returns (status: int)
    requires db.Valid()
    modifies db
    ensures db.Valid()
    ensures status == StatusOk
    ensures db.lessons == old(db.lessons)
    ensures db.cards == ServerSync.DeleteCardRows(old(db.lessons), old(db.cards), user, [id], now)
  {
    db.cards := ServerSync.DeleteCardRows(db.lessons, db.cards, user, [id], now);
    status := StatusOk;
  }

  /** The cards table after `UPDATE flashcards SET front, back, last_updated WHERE id = ? AND` the caller owns the lesson. */
  function UpdateText(lessons: map<string, LessonRow>, cards: map<string, CardRow>, user: string, id: string, text: CardText, now: int): map<string, CardRow> {
    map k | k in cards :: if k == id && OwnsLesson(lessons, cards[k].lessonId, user) then cards[k].(front := text.front, back := text.back, lastUpdated := now) else cards[k]
  }

  /** UpdateCardHandler: 400 for a body that does not decode, else the text update and 200. */
  method UpdateCard(db: Database, user: string, id: string, body: Option<CardText>, now: int) returns (status: int)
    requires db.Valid()
    modifies db
    ensures db.Valid()
    ensures db.lessons == old(db.lessons)
    ensures body.None? ==> status == StatusBadRequest && db.cards == old(db.cards)
    ensures body.Some? ==> status == StatusOk && db.cards == UpdateText(old(db.lessons), old(db.cards), user, id, body.value, now)
  {
    if body.None? {
      return StatusBadRequest;
    }
    db.cards := UpdateText(db.lessons, db.cards, user, id, body.value, now);
    status := StatusOk;
  }

  /**
   * An update touches only the named card of the caller, and only its text
   * and timestamp: its schedule, its lesson and its deletion time stay, so
   * an update never revives a deleted card.
   */
  lemma UpdateTextEffect(lessons: map<string, LessonRow>, cards: map<string, CardRow>, user: string, id: string, text: CardText, now: int)
    ensures var r := UpdateText(lessons, cards, user, id, text, now);
      && r.Keys == cards.Keys
      && (forall k :: k in cards && (k != id || !OwnsLesson(lessons, cards[k].lessonId, user)) ==> r[k] == cards[k])
      && (id in cards && OwnsLesson(lessons, cards[id].lessonId, user) ==>
            r[id].front == text.front && r[id].back == text.back && r[id].lastUpdated == now
            && Srs.StateOf(WireCard(r[id])).(lastUpdated := cards[id].lastUpdated) == Srs.StateOf(WireCard(cards[id]))
            && r[id].lessonId == cards[id].lessonId && r[id].deletedAt == cards[id].deletedAt)
  {
  }

  /**
   * After a deletion at a positive time the card is no longer live, so no
   * lesson listing or sync preloads it, and the next sync reports its id as
   * deleted to any client whose watermark is older than the deletion.
   */
  lemma DeletedCardHidden(lessons: map<string, LessonRow>, cards: map<string, CardRow>, user: string, id: string, now: int, ts: int)
    requires OwnsCard(lessons, cards, id, user)
    requires now > 0 && ts < now
    ensures var r := ServerSync.DeleteCardRows(lessons, cards, user, [id], now);
      && id in r
      && !LiveCardOf(r[id].lessonId)(r[id])
      && ServerSync.DeletedCardRow(lessons, user, ts)(r[id])
  {
  }
}
