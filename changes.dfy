/**
 * The upstream half of a client sync: walking every lesson's cards and
 * collecting those changed since the watermark. The local-first app sends
 * each changed card three ways (as created when user-made, as modified, as
 * progress); the web client sends user-made cards as created and all other
 * changed cards as progress.
 */
module Changes {
  import opened Types
  import Seqs

  /** The card of a (lesson id, card) pair was touched strictly after `since`. */
  function After(since: int): NewUserCard -> bool {
    (e: NewUserCard) => e.card.lastUpdated > since
  }

  predicate IsUserEntry(e: NewUserCard) {
    e.card.isUserCreated
  }

  predicate IsServerEntry(e: NewUserCard) {
    !e.card.isUserCreated
  }

  function EntryCard(e: NewUserCard): Flashcard {
    e.card
  }

  function EntryProgress(e: NewUserCard): CardProgress {
    ProgressOf(e.card)
  }

  /** Every card changed since `since`, with its lesson's id, in traversal order. */
  function Changed(lessons: seq<Lesson>, since: int): seq<NewUserCard> {
    Seqs.Filter(Entries(lessons), After(since))
  }

  /** A pair is reported changed exactly when some lesson holds that card and it was touched after `since`. */
  lemma ChangedMembership(lessons: seq<Lesson>, since: int, e: NewUserCard)
    ensures e in Changed(lessons, since) <==>
      e.card.lastUpdated > since && exists l :: l in lessons && l.id == e.lessonId && e.card in l.flashcards
  {
    EntriesMembership(lessons, e);
  }

  /** The app's created list after traversing the pairs `s`. */
  function AppCreated(s: seq<NewUserCard>, since: int): seq<NewUserCard> {
    Seqs.Filter(Seqs.Filter(s, After(since)), IsUserEntry)
  }

  /** The app's modified list after traversing the pairs `s`. */
  function AppModified(s: seq<NewUserCard>, since: int): seq<Flashcard> {
    Seqs.Map(Seqs.Filter(s, After(since)), EntryCard)
  }

  /** The app's progress list after traversing the pairs `s`. */
  function AppProgress(s: seq<NewUserCard>, since: int): seq<CardProgress> {
    Seqs.Map(Seqs.Filter(s, After(since)), EntryProgress)
  }

  /** The web client's progress list after traversing the pairs `s`. */
  function WebProgress(s: seq<NewUserCard>, since: int): seq<CardProgress> {
    Seqs.Map(Seqs.Filter(Seqs.Filter(s, After(since)), IsServerEntry), EntryProgress)
  }

  /** The app's collector (sync.ts in the app): three lists built in one pass over all cards. */
  method CollectAppChanges(lessons: seq<Lesson>, since: int)
    returns (created: seq<NewUserCard>, modified: seq<Flashcard>, progress: seq<CardProgress>)
    ensures created == Seqs.Filter(Changed(lessons, since), IsUserEntry)
    ensures modified == Seqs.Map(Changed(lessons, since), EntryCard)
    ensures progress == Seqs.Map(Changed(lessons, since), EntryProgress)
  {
    created, modified, progress := [], [], [];
    ghost var done: seq<NewUserCard> := [];
    var i := 0;
    while i < |lessons|
      invariant 0 <= i <= |lessons|
      invariant done == Entries(lessons[..i])
      invariant created == AppCreated(done, since)
      invariant modified == AppModified(done, since)
      invariant progress == AppProgress(done, since)
    {
      created, modified, progress := CollectAppLesson(lessons[i], since, done, created, modified, progress);
      EntriesPrefixStep(lessons, i);
      done := done + LessonEntries(lessons[i]);
      i := i + 1;
    }
    EntriesWhole(lessons);
  }

  /** The app's inner loop over one lesson's cards, extending the lists built from the pairs `done`. */
  method CollectAppLesson(lesson: Lesson, since: int, ghost done: seq<NewUserCard>,
                          created0: seq<NewUserCard>, modified0: seq<Flashcard>, progress0: seq<CardProgress>)
    returns (created: seq<NewUserCard>, modified: seq<Flashcard>, progress: seq<CardProgress>)
    requires created0 == AppCreated(done, since)
    requires modified0 == AppModified(done, since)
    requires progress0 == AppProgress(done, since)
    ensures created == AppCreated(done + LessonEntries(lesson), since)
    ensures modified == AppModified(done + LessonEntries(lesson), since)
    ensures progress == AppProgress(done + LessonEntries(lesson), since)
  {
    created, modified, progress := created0, modified0, progress0;
    ghost var entries := LessonEntries(lesson);
    ghost var cur := done;
    var j := 0;
    while j < |lesson.flashcards|
      invariant 0 <= j <= |lesson.flashcards|
      invariant cur == done + entries[..j]
      invariant created == AppCreated(cur, since)
      invariant modified == AppModified(cur, since)
      invariant progress == AppProgress(cur, since)
    {
      var e := NewUserCard(lesson.id, lesson.flashcards[j]);
      Seqs.SnocSlice(done, entries, j);
      created, modified, progress := VisitAppCard(e, since, cur, created, modified, progress);
      cur := cur + [e];
      j := j + 1;
    }
    assert entries[..j] == entries;
  }

  /** The body of the app's inner loop: one card pushed onto the lists it belongs to. */
  method VisitAppCard(e: NewUserCard, since: int, ghost cur: seq<NewUserCard>,
                      created0: seq<NewUserCard>, modified0: seq<Flashcard>, progress0: seq<CardProgress>)
    returns (created: seq<NewUserCard>, modified: seq<Flashcard>, progress: seq<CardProgress>)
    requires created0 == AppCreated(cur, since)
    requires modified0 == AppModified(cur, since)
    requires progress0 == AppProgress(cur, since)
    ensures created == AppCreated(cur + [e], since)
    ensures modified == AppModified(cur + [e], since)
    ensures progress == AppProgress(cur + [e], since)
  {
    created, modified, progress := created0, modified0, progress0;
    var card := e.card;
    AppStep(cur, e, since);
    if card.isUserCreated && card.lastUpdated > since {
      created := created + [e];
    }
    if card.lastUpdated > since {
      modified := modified + [card];
    }
    if card.lastUpdated > since {
      progress := progress + [ProgressOf(card)];
    }
  }

  /** The web client's collector (sync.ts on the web): created or progress, never both. */
  method CollectWebChanges(lessons: seq<Lesson>, since: int)
    returns (created: seq<NewUserCard>, progress: seq<CardProgress>)
    ensures created == Seqs.Filter(Changed(lessons, since), IsUserEntry)
    ensures progress == Seqs.Map(Seqs.Filter(Changed(lessons, since), IsServerEntry), EntryProgress)
  {
    created, progress := [], [];
    ghost var done: seq<NewUserCard> := [];
    var i := 0;
    while i < |lessons|
      invariant 0 <= i <= |lessons|
      invariant done == Entries(lessons[..i])
      invariant created == AppCreated(done, since)
      invariant progress == WebProgress(done, since)
    {
      created, progress := CollectWebLesson(lessons[i], since, done, created, progress);
      EntriesPrefixStep(lessons, i);
      done := done + LessonEntries(lessons[i]);
      i := i + 1;
    }
    EntriesWhole(lessons);
  }

  /** The web client's inner loop over one lesson's cards. */
  method CollectWebLesson(lesson: Lesson, since: int, ghost done: seq<NewUserCard>,
                          created0: seq<NewUserCard>, progress0: seq<CardProgress>)
    returns (created: seq<NewUserCard>, progress: seq<CardProgress>)
    requires created0 == AppCreated(done, since)
    requires progress0 == WebProgress(done, since)
    ensures created == AppCreated(done + LessonEntries(lesson), since)
    ensures progress == WebProgress(done + LessonEntries(lesson), since)
  {
    created, progress := created0, progress0;
    ghost var entries := LessonEntries(lesson);
    ghost var cur := done;
    var j := 0;
    while j < |lesson.flashcards|
      invariant 0 <= j <= |lesson.flashcards|
      invariant cur == done + entries[..j]
      invariant created == AppCreated(cur, since)
      invariant progress == WebProgress(cur, since)
    {
      var e := NewUserCard(lesson.id, lesson.flashcards[j]);
      Seqs.SnocSlice(done, entries, j);
      created, progress := VisitWebCard(e, since, cur, created, progress);
      cur := cur + [e];
      j := j + 1;
    }
    assert entries[..j] == entries;
  }

  /** The body of the web client's inner loop: a changed card is pushed as created or as progress. */
  method VisitWebCard(e: NewUserCard, since: int, ghost cur: seq<NewUserCard>,
                      created0: seq<NewUserCard>, progress0: seq<CardProgress>)
    returns (created: seq<NewUserCard>, progress: seq<CardProgress>)
    requires created0 == AppCreated(cur, since)
    requires progress0 == WebProgress(cur, since)
    ensures created == AppCreated(cur + [e], since)
    ensures progress == WebProgress(cur + [e], since)
  {
    created, progress := created0, progress0;
    var fc := e.card;
    WebStep(cur, e, since);
    if fc.lastUpdated > since {
      if fc.isUserCreated {
        created := created + [e];
      } else {
        progress := progress + [ProgressOf(fc)];
      }
    }
  }

  /** How the app's three lists grow when the traversal reaches one more card. */
  lemma AppStep(done: seq<NewUserCard>, e: NewUserCard, since: int)
    ensures AppCreated(done + [e], since) == AppCreated(done, since) + (if e.card.isUserCreated && e.card.lastUpdated > since then [e] else [])
    ensures AppModified(done + [e], since) == AppModified(done, since) + (if e.card.lastUpdated > since then [e.card] else [])
    ensures AppProgress(done + [e], since) == AppProgress(done, since) + (if e.card.lastUpdated > since then [ProgressOf(e.card)] else [])
  {
    var ch := Seqs.Filter(done, After(since));
    assert After(since)(e) == (e.card.lastUpdated > since);
    Seqs.FilterSnoc(done, e, After(since));
    if e.card.lastUpdated > since {
      Seqs.FilterSnoc(ch, e, IsUserEntry);
      Seqs.MapSnoc(ch, e, EntryCard);
      Seqs.MapSnoc(ch, e, EntryProgress);
    } else {
      assert ch + [] == ch;
    }
  }

  /** How the web client's two lists grow when the traversal reaches one more card. */
  lemma WebStep(done: seq<NewUserCard>, e: NewUserCard, since: int)
    ensures AppCreated(done + [e], since) == AppCreated(done, since) + (if e.card.isUserCreated && e.card.lastUpdated > since then [e] else [])
    ensures WebProgress(done + [e], since) == WebProgress(done, since) + (if !e.card.isUserCreated && e.card.lastUpdated > since then [ProgressOf(e.card)] else [])
  {
    AppStep(done, e, since);
    var ch := Seqs.Filter(done, After(since));
    assert After(since)(e) == (e.card.lastUpdated > since);
    Seqs.FilterSnoc(done, e, After(since));
    if e.card.lastUpdated > since {
      Seqs.FilterSnoc(ch, e, IsServerEntry);
      if !e.card.isUserCreated {
        Seqs.MapSnoc(Seqs.Filter(ch, IsServerEntry), e, EntryProgress);
      } else {
        assert Seqs.Filter(ch, IsServerEntry) + [] == Seqs.Filter(ch, IsServerEntry);
      }
    } else {
      assert ch + [] == ch;
    }
  }

  /**
   * In the app's request every created card is also listed as modified and
   * carries a progress record: the server sees a new card up to three times.
   */
  lemma AppCreatedAlsoModified(lessons: seq<Lesson>, since: int, e: NewUserCard)
    requires e in Seqs.Filter(Changed(lessons, since), IsUserEntry)
    ensures e.card in Seqs.Map(Changed(lessons, since), EntryCard)
    ensures ProgressOf(e.card) in Seqs.Map(Changed(lessons, since), EntryProgress)
  {
    var ch := Changed(lessons, since);
    var k :| 0 <= k < |ch| && ch[k] == e;
    assert Seqs.Map(ch, EntryCard)[k] == e.card;
    assert Seqs.Map(ch, EntryProgress)[k] == ProgressOf(e.card);
  }

  /** The web client's two lists split the changed cards between them: each goes to exactly one. */
  lemma {:induction false} WebChangesPartition(s: seq<NewUserCard>)
    ensures |Seqs.Filter(s, IsUserEntry)| + |Seqs.Filter(s, IsServerEntry)| == |s|
  {
    if |s| > 0 {
      WebChangesPartition(s[..|s| - 1]);
    }
  }

  /** A card untouched since the watermark is never sent upstream. */
  lemma UnchangedNotSent(lessons: seq<Lesson>, since: int, lessonId: string, c: Flashcard)
    requires c.lastUpdated <= since
    ensures NewUserCard(lessonId, c) !in Changed(lessons, since)
  {
  }
}
