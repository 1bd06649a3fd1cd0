/**
 * The app's vocabulary page: every card of every stored lesson in one
 * list, with a tag filter and a text search, and three edits that write
 * through to the local store: delete a card (leaving a card tombstone),
 * change a card's text, and add a card to a lesson.
 */
module Vocabulary {
  import opened Wrappers
  import opened Types
  import LocalStore
  import Seqs
  import Srs
  import Strings

  /** The lesson carries tag `t`. */
  predicate HasTag(l: Lesson, t: string) {
    l.tags.Some? && t in l.tags.value
  }

  /** Every card of `l` except those with id `cardId`. */
  function WithoutCard(l: Lesson, cardId: string): Lesson {
    l.(flashcards := Seqs.Filter(l.flashcards, (c: Flashcard) => c.id != cardId))
  }

  /** The page's list with every entry of card `cardId` dropped, whatever its lesson. */
  function WithoutEntries(cards: seq<NewUserCard>, cardId: string): seq<NewUserCard> {
    Seqs.Filter(cards, (e: NewUserCard) => e.card.id != cardId)
  }

  /** The card with new text, stamped `now`. */
  function Edited(c: Flashcard, front: string, back: string, now: int): Flashcard {
    c.(front := front, back := back, lastUpdated := now)
  }

  /** An edit changes the text and timestamp only: id, origin and schedule stay. */
  lemma EditedKeepsSchedule(c: Flashcard, front: string, back: string, now: int)
    ensures var e := Edited(c, front, back, now);
      && e.id == c.id && e.isUserCreated == c.isUserCreated
      && e.front == front && e.back == back && e.lastUpdated == now
      && Srs.StateOf(e).(lastUpdated := c.lastUpdated) == Srs.StateOf(c)
  {
  }

  /** The list entry shown for `card` after an edit: the entry's lesson with the edited card. */
  function ReplaceEntry(card: Flashcard): NewUserCard -> NewUserCard {
    (e: NewUserCard) => if e.card.id == card.id then e.(card := card) else e
  }

  /** The lesson with `card` appended at the end. */
  function WithCard(l: Lesson, card: Flashcard): Lesson {
    l.(flashcards := l.flashcards + [card])
  }

  /** Deleting removes every card with the id from the lesson and keeps the others in order. */
  lemma WithoutCardEffect(l: Lesson, cardId: string)
    ensures var r := WithoutCard(l, cardId);
      && r.id == l.id
      && (forall c :: c in r.flashcards <==> c in l.flashcards && c.id != cardId)
      && (forall c :: c in l.flashcards ==> c.id == cardId || c in r.flashcards)
  {
  }

  /**
   * The page adds a card to its own copy of the lesson, read when the page
   * was loaded, and stores that copy: a card deleted since the page was
   * loaded is written back into the store.
   */
  lemma AddRestoresDeletedCard(page: Lesson, deleted: Flashcard, added: Flashcard)
    requires deleted in page.flashcards
    ensures deleted !in WithoutCard(page, deleted.id).flashcards
    ensures deleted in WithCard(page, added).flashcards
  {
    WithoutCardEffect(page, deleted.id);
  }

  /** Whether a card passes the tag and search filter; an empty tag counts as no tag. */
  function Passes(lessons: seq<Lesson>, selectedTag: Option<string>, search: string): NewUserCard -> bool {
    (e: NewUserCard) =>
      && (selectedTag.Some? && selectedTag.value != "" ==>
            var k := Seqs.FindBy(lessons, LessonKey, e.lessonId);
            k.Some? && HasTag(lessons[k.value], selectedTag.value))
      && (Strings.Contains(Strings.Lower(e.card.front), Strings.Lower(search))
          || Strings.Contains(Strings.Lower(e.card.back), Strings.Lower(search)))
  }

  /** filteredCards. */
  function FilteredCards(cards: seq<NewUserCard>, lessons: seq<Lesson>, selectedTag: Option<string>, search: string): seq<NewUserCard> {
    Seqs.Filter(cards, Passes(lessons, selectedTag, search))
  }

  lemma ContainsEmpty(s: string)
    ensures Strings.Contains(s, "")
  {
  }

  /** With no tag selected and an empty search box every card is listed. */
  lemma EmptyFilterListsAll(cards: seq<NewUserCard>, lessons: seq<Lesson>, selectedTag: Option<string>)
    requires selectedTag.None? || selectedTag.value == ""
    ensures FilteredCards(cards, lessons, selectedTag, "") == cards
  {
    forall e | e in cards ensures Passes(lessons, selectedTag, "")(e) {
      ContainsEmpty(Strings.Lower(e.card.front));
    }
    Seqs.FilterAll(cards, Passes(lessons, selectedTag, ""));
  }

  /**
   * A listed card is one whose lesson (the first of that id) has the
   * selected tag, and whose front or back contains the search text, letter
   * case aside.
   */
  lemma FilteredCardsMembership(cards: seq<NewUserCard>, lessons: seq<Lesson>, tag: string, search: string, e: NewUserCard)
    requires tag != ""
    ensures e in FilteredCards(cards, lessons, Some(tag), search) <==>
      && e in cards
      && (exists k :: 0 <= k < |lessons| && lessons[k].id == e.lessonId && HasTag(lessons[k], tag)
                      && forall j :: 0 <= j < k ==> lessons[j].id != e.lessonId)
      && (Strings.Contains(Strings.Lower(e.card.front), Strings.Lower(search))
          || Strings.Contains(Strings.Lower(e.card.back), Strings.Lower(search)))
  {
    var k := Seqs.FindBy(lessons, LessonKey, e.lessonId);
    if k.Some? {
      forall k' | 0 <= k' < |lessons| && lessons[k'].id == e.lessonId && forall j :: 0 <= j < k' ==> lessons[j].id != e.lessonId
        ensures k' == k.value
      {
      }
    }
  }

  /** The forEach over lessons and their cards that builds the page's list. */
  method Flatten(all: seq<Lesson>) returns (allCards: seq<NewUserCard>)
    ensures allCards == Entries(all)
  {
    allCards := [];
    var i := 0;
    while i < |all|
      invariant 0 <= i <= |all|
      invariant allCards == Entries(all[..i])
    {
      var l := all[i];
      var j := 0;
      while j < |l.flashcards|
        invariant 0 <= j <= |l.flashcards|
        invariant allCards == Entries(all[..i]) + LessonEntries(l)[..j]
      {
        assert LessonEntries(l)[..j + 1] == LessonEntries(l)[..j] + [NewUserCard(l.id, l.flashcards[j])];
        allCards := allCards + [NewUserCard(l.id, l.flashcards[j])];
        j := j + 1;
      }
      assert LessonEntries(l)[..j] == LessonEntries(l);
      assert all[..i + 1][..i] == all[..i];
      i := i + 1;
    }
    assert all[..i] == all;
  }

  /** The Set the tags of all lessons are added to. */
  method CollectTags(all: seq<Lesson>) returns (tags: set<string>)
    ensures forall t :: t in tags <==> exists l :: l in all && HasTag(l, t)
  {
    tags := {};
    var i := 0;
    while i < |all|
      invariant 0 <= i <= |all|
      invariant forall t :: t in tags <==> exists k :: 0 <= k < i && HasTag(all[k], t)
    {
      if all[i].tags.Some? {
        tags := tags + set t | t in all[i].tags.value;
      }
      i := i + 1;
    }
    forall t | t in tags ensures exists l :: l in all && HasTag(l, t) {
      var k :| 0 <= k < i && HasTag(all[k], t);
      assert all[k] in all;
    }
  }

  /** `Array.from(tags).sort()`: the tags once each, in code-point order. */
  method SortedTags(tags: set<string>) returns (r: seq<string>)
    ensures Seqs.SortedBy(r, Strings.Le) && Seqs.NoDuplicates(r)
    ensures forall t :: t in r <==> t in tags
  {
    var tagList := Seqs.Enumerate(tags);
    Seqs.StringOrder();
    Seqs.SortBySorted(tagList, Strings.Le);
    r := Seqs.SortBy(tagList, Strings.Le);
    Seqs.PermutationNoDuplicates(tagList, r);
    forall t ensures t in r <==> t in tags {
      assert t in r <==> t in multiset(tagList);
    }
  }

  class Page {
    /** The lessons as last loaded; the add step updates its lesson here too. */
    var lessons: seq<Lesson>
    /** The listed (lesson id, card) pairs. */
    var cards: seq<NewUserCard>
    var availableTags: seq<string>
    var selectedLessonId: string
    var editingCard: Option<NewUserCard>
    /** The texts in the edit dialog. */
    var editFront: string
    var editBack: string

    constructor ()
      ensures lessons == [] && cards == [] && availableTags == [] && selectedLessonId == "" && editingCard.None?
      ensures editFront == "" && editBack == ""
    {
      lessons, cards, availableTags, selectedLessonId, editingCard := [], [], [], "", None;
      editFront, editBack := "", "";
    }

    /** startEdit: the entry is being edited, and the dialog starts from its card's text. */
    method StartEdit(item: NewUserCard)
      modifies this
      ensures editingCard == Some(item) && editFront == item.card.front && editBack == item.card.back
      ensures lessons == old(lessons) && cards == old(cards) && availableTags == old(availableTags)
      ensures selectedLessonId == old(selectedLessonId)
    {
      editingCard := Some(item);
      editFront := item.card.front;
      editBack := item.card.back;
    }

    /** The dialog's onChange handlers: the typed texts replace the edit texts. */
    method SetEditText(front: string, back: string)
      modifies this
      ensures editFront == front && editBack == back
      ensures editingCard == old(editingCard) && lessons == old(lessons) && cards == old(cards)
      ensures availableTags == old(availableTags) && selectedLessonId == old(selectedLessonId)
    {
      editFront, editBack := front, back;
    }

    /**
     * loadCards: every stored lesson, one entry per card in lesson order
     * then card order, the tags of all lessons once each in code-point
     * order, and the first lesson preselected for adding.
     */
    method LoadCards(store: LocalStore.Store)
      requires store.Valid()
      modifies this
      ensures Seqs.IndexBy(lessons, LessonKey) == store.lessons && |lessons| == |store.lessons|
      ensures cards == Entries(lessons)
      ensures Seqs.SortedBy(availableTags, Strings.Le) && Seqs.NoDuplicates(availableTags)
      ensures forall t :: t in availableTags <==> exists l :: l in lessons && HasTag(l, t)
      ensures selectedLessonId == (if |lessons| > 0 then lessons[0].id else old(selectedLessonId))
      ensures editingCard == old(editingCard) && editFront == old(editFront) && editBack == old(editBack)
    {
      var all := store.GetAllLessons();
      lessons := all;
      cards := Flatten(all);
      var tags := CollectTags(all);
      availableTags := SortedTags(tags);
      if |all| > 0 {
        selectedLessonId := all[0].id;
      }
    }

    /**
     * handleDelete: the stored lesson loses every card with the id and a
     * card tombstone stamped `now` is recorded; the list drops the card's
     * entries. An unknown lesson changes nothing and records no tombstone.
     */
    method Delete(store: LocalStore.Store, lessonId: string, cardId: string, now: int)
      requires store.Valid()
      modifies store, this
      ensures store.Valid()
      ensures lessons == old(lessons) && editingCard == old(editingCard) && selectedLessonId == old(selectedLessonId)
      ensures availableTags == old(availableTags) && editFront == old(editFront) && editBack == old(editBack)
      ensures store.deletedLessons == old(store.deletedLessons) && store.lastSync == old(store.lastSync)
      ensures lessonId !in old(store.lessons) ==>
        store.lessons == old(store.lessons) && store.deletedCards == old(store.deletedCards) && cards == old(cards)
      ensures lessonId in old(store.lessons) ==>
        && store.lessons == old(store.lessons)[lessonId := WithoutCard(old(store.lessons)[lessonId], cardId)]
        && store.deletedCards == old(store.deletedCards)[cardId := now]
        && cards == WithoutEntries(old(cards), cardId)
    {
      var found := store.GetLesson(lessonId);
      if found.None? {
        return;
      }
      var lesson := found.value;
      lesson := lesson.(flashcards := Seqs.Filter(lesson.flashcards, (c: Flashcard) => c.id != cardId));
      store.SaveLesson(lesson);
      store.SaveDeletedCardId(cardId, now);
      cards := WithoutEntries(cards, cardId);
    }

    /**
     * handleSaveEdit: the first card with the edited card's id in the stored
     * lesson gets the dialog's texts and the time `now`; the list shows the edited
     * card for every entry of that id. Without an edit in progress, a stored
     * lesson or the card, nothing changes.
     */
    method SaveEdit(store: LocalStore.Store, now: int)
      requires store.Valid()
      modifies store, this
      ensures store.Valid()
      ensures lessons == old(lessons) && selectedLessonId == old(selectedLessonId) && availableTags == old(availableTags)
      ensures editFront == old(editFront) && editBack == old(editBack)
      ensures store.deletedLessons == old(store.deletedLessons) && store.deletedCards == old(store.deletedCards)
      ensures store.lastSync == old(store.lastSync)
      ensures var e := old(editingCard);
        if e.Some? && e.value.lessonId in old(store.lessons)
           && Seqs.FindBy(old(store.lessons)[e.value.lessonId].flashcards, CardKey, e.value.card.id).Some?
        then
          var l := old(store.lessons)[e.value.lessonId];
          var k := Seqs.FindBy(l.flashcards, CardKey, e.value.card.id).value;
          var card := Edited(l.flashcards[k], old(editFront), old(editBack), now);
          && store.lessons == old(store.lessons)[l.id := l.(flashcards := l.flashcards[k := card])]
          && cards == Seqs.Map(old(cards), ReplaceEntry(card))
          && editingCard.None?
        else
          store.lessons == old(store.lessons) && cards == old(cards) && editingCard == old(editingCard)
    {
      if editingCard.None? {
        return;
      }
      var found := store.GetLesson(editingCard.value.lessonId);
      if found.None? {
        return;
      }
      var lesson := found.value;
      var k := Seqs.FindBy(lesson.flashcards, CardKey, editingCard.value.card.id);
      if k.None? {
        return;
      }
      var card := lesson.flashcards[k.value];
      card := card.(front := editFront, back := editBack, lastUpdated := now);
      lesson := lesson.(flashcards := lesson.flashcards[k.value := card]);
      store.SaveLesson(lesson);
      cards := Seqs.Map(cards, ReplaceEntry(card));
      editingCard := None;
    }

    /**
     * handleAddCard: with a lesson selected and a front and back that are
     * not blank, a new user card with the initial schedule is appended to
     * the page's copy of the selected lesson, that copy is stored, and the
     * card is listed last. Otherwise, or when the page holds no such lesson,
     * nothing changes.
     */
    method AddCard(store: LocalStore.Store, newFront: string, newBack: string, freshId: string, now: int)
      requires store.Valid()
      modifies store, this
      ensures store.Valid()
      ensures selectedLessonId == old(selectedLessonId) && editingCard == old(editingCard) && availableTags == old(availableTags)
      ensures editFront == old(editFront) && editBack == old(editBack)
      ensures store.deletedLessons == old(store.deletedLessons) && store.deletedCards == old(store.deletedCards)
      ensures store.lastSync == old(store.lastSync)
      ensures var k := Seqs.FindBy(old(lessons), LessonKey, selectedLessonId);
        if selectedLessonId != "" && !Strings.IsBlank(newFront) && !Strings.IsBlank(newBack) && k.Some?
        then
          var card := Srs.NewCard(freshId, newFront, newBack, true, now);
          var updated := WithCard(old(lessons)[k.value], card);
          && lessons == old(lessons)[k.value := updated]
          && store.lessons == old(store.lessons)[selectedLessonId := updated]
          && cards == old(cards) + [NewUserCard(selectedLessonId, card)]
        else
          lessons == old(lessons) && store.lessons == old(store.lessons) && cards == old(cards)
    {
      if selectedLessonId == "" || Strings.IsBlank(newFront) || Strings.IsBlank(newBack) {
        return;
      }
      var k := Seqs.FindBy(lessons, LessonKey, selectedLessonId);
      if k.None? {
        return;
      }
      AppendCard(store, k.value, Srs.NewCard(freshId, newFront, newBack, true, now));
    }

    /** The append step of handleAddCard for the page's lesson at index `i`. */
    method AppendCard(store: LocalStore.Store, i: nat, card: Flashcard)
      requires store.Valid() && i < |lessons|
      modifies store, this
      ensures store.Valid()
      ensures selectedLessonId == old(selectedLessonId) && editingCard == old(editingCard) && availableTags == old(availableTags)
      ensures editFront == old(editFront) && editBack == old(editBack)
      ensures store.deletedLessons == old(store.deletedLessons) && store.deletedCards == old(store.deletedCards)
      ensures store.lastSync == old(store.lastSync)
      ensures var updated := WithCard(old(lessons)[i], card);
        && lessons == old(lessons)[i := updated]
        && store.lessons == old(store.lessons)[updated.id := updated]
        && cards == old(cards) + [NewUserCard(updated.id, card)]
    {
      var lesson := WithCard(lessons[i], card);
      lessons := lessons[i := lesson];
      store.SaveLesson(lesson);
      cards := cards + [NewUserCard(lesson.id, card)];
    }
  }

  /** An added card is a user card that has never been reviewed and is due at once. */
  lemma AddedCardIsNew(freshId: string, front: string, back: string, now: int)
    ensures var c := Srs.NewCard(freshId, front, back, true, now);
      c.isUserCreated && c.interval == 0 && c.repetition == 0 && c.efactor == 2.5 && IsDue(c, now)
  {
  }
}
