/**
 * The rules of the desktop client's screens: the lesson list (newest
 * first, with its tags and the number of due cards), its filter and its
 * grouping by month; the global review of every due card and the saving
 * of a reviewed card; the address a lesson's media is fetched from; and
 * adding a word to a lesson.
 */
module DesktopApp {
  import opened Wrappers
  import opened Types
  import LocalStore
  import Seqs
  import Srs
  import Strings
  import Api
  import Vocabulary
  import LessonHandlers

  // ----- Lesson list -----

  /** `(a, b) => b.createdAt - a.createdAt`: newer lessons first. */
  function NewerFirst(a: Lesson, b: Lesson): bool {
    a.createdAt >= b.createdAt
  }

  lemma NewerFirstOrder()
    ensures Seqs.TotalPreorder(NewerFirst)
  {
  }

  function DueAt(now: int): Flashcard -> bool {
    (c: Flashcard) => IsDue(c, now)
  }

  /** The number of cards due at `now` across the lessons. */
  function DueCount(lessons: seq<Lesson>, now: int): nat {
    if |lessons| == 0 then 0
    else DueCount(lessons[..|lessons| - 1], now) + |Seqs.Filter(lessons[|lessons| - 1].flashcards, DueAt(now))|
  }

  /** A pair of the flattening whose card is due. */
  function DueEntry(now: int): NewUserCard -> bool {
    (e: NewUserCard) => IsDue(e.card, now)
  }

  /** Counting a lesson's due cards counts its due pairs. */
  lemma {:induction false} LessonDueEntries(l: Lesson, now: int)
    ensures |Seqs.Filter(LessonEntries(l), DueEntry(now))| == |Seqs.Filter(l.flashcards, DueAt(now))|
    decreases |l.flashcards|
  {
    var n := |l.flashcards|;
    if n > 0 {
      var l0 := l.(flashcards := l.flashcards[..n - 1]);
      var x := l.flashcards[n - 1];
      var e := NewUserCard(l.id, x);
      LessonDueEntries(l0, now);
      assert l.flashcards == l0.flashcards + [x];
      EntriesOfSnoc(l0, x);
      assert LessonEntries(l) == LessonEntries(l0) + [e];
      Seqs.FilterSnoc(LessonEntries(l0), e, DueEntry(now));
      Seqs.FilterSnoc(l0.flashcards, x, DueAt(now));
      assert DueEntry(now)(e) == DueAt(now)(x);
    }
  }

  /** Appending a card to a lesson appends its pair to the lesson's entries. */
  lemma EntriesOfSnoc(l: Lesson, x: Flashcard)
    ensures LessonEntries(l.(flashcards := l.flashcards + [x])) == LessonEntries(l) + [NewUserCard(l.id, x)]
  {
    var l' := l.(flashcards := l.flashcards + [x]);
    Seqs.Extensional(LessonEntries(l'), LessonEntries(l) + [NewUserCard(l.id, x)]);
  }

  /** The due count on the lesson list is the number of cards the global review offers. */
  lemma {:induction false} DueCountIsGlobalReviewSize(lessons: seq<Lesson>, now: int)
    ensures DueCount(lessons, now) == |Seqs.Filter(Entries(lessons), DueEntry(now))|
  {
    if |lessons| > 0 {
      var init, last := lessons[..|lessons| - 1], lessons[|lessons| - 1];
      DueCountIsGlobalReviewSize(init, now);
      LessonDueEntries(last, now);
      Seqs.FilterConcat(Entries(init), LessonEntries(last), DueEntry(now));
    }
  }

  /** Counts the due cards with a loop over lessons and their cards. */
  method CountDue(data: seq<Lesson>, now: int) returns (dueCount: nat)
    ensures dueCount == DueCount(data, now)
  {
    dueCount := 0;
    var i := 0;
    while i < |data|
      invariant 0 <= i <= |data|
      invariant dueCount == DueCount(data[..i], now)
    {
      var n := CountLessonDue(data[i].flashcards, now);
      DueCountSnoc(data[..i], data[i], now);
      assert data[..i + 1] == data[..i] + [data[i]];
      dueCount := dueCount + n;
      i := i + 1;
    }
    assert data[..i] == data;
  }

  /** The inner loop of the count: the due cards of one lesson. */
  method CountLessonDue(cards: seq<Flashcard>, now: int) returns (n: nat)
    ensures n == |Seqs.Filter(cards, DueAt(now))|
  {
    n := 0;
    var j := 0;
    while j < |cards|
      invariant 0 <= j <= |cards|
      invariant n == |Seqs.Filter(cards[..j], DueAt(now))|
    {
      Seqs.FilterSnoc(cards[..j], cards[j], DueAt(now));
      assert cards[..j + 1] == cards[..j] + [cards[j]];
      if cards[j].nextReview <= now {
        n := n + 1;
      }
      j := j + 1;
    }
    assert cards[..j] == cards;
  }

  lemma DueCountSnoc(ls: seq<Lesson>, l: Lesson, now: int)
    ensures DueCount(ls + [l], now) == DueCount(ls, now) + |Seqs.Filter(l.flashcards, DueAt(now))|
  {
    assert (ls + [l])[..|ls|] == ls;
  }

  class LessonList {
    var lessons: seq<Lesson>
    var availableTags: seq<string>
    var totalDue: nat

    constructor ()
      ensures lessons == [] && availableTags == [] && totalDue == 0
    {
      lessons, availableTags, totalDue := [], [], 0;
    }

    /**
     * loadLessons: the stored lessons newest first, the tags of all of them
     * once each in code-point order, and the number of cards due at `now`.
     */
    method LoadLessons(store: LocalStore.Store, now: int)
      requires store.Valid()
      modifies this
      ensures Seqs.SortedBy(lessons, NewerFirst)
      ensures exists all :: Seqs.IndexBy(all, LessonKey) == store.lessons && |all| == |store.lessons| && multiset(lessons) == multiset(all)
      ensures Seqs.SortedBy(availableTags, Strings.Le) && Seqs.NoDuplicates(availableTags)
      ensures forall t :: t in availableTags <==> exists l :: l in lessons && Vocabulary.HasTag(l, t)
      ensures totalDue == DueCount(lessons, now)
    {
      var data := store.GetAllLessons();
      var sorted := SortLessons(data);
      lessons := sorted;
      var tags := Vocabulary.CollectTags(sorted);
      availableTags := Vocabulary.SortedTags(tags);
      totalDue := CountDue(sorted, now);
    }
  }

  /** `data.sort(...)`: the same lessons, newest first, ties in their first order. */
  method SortLessons(data: seq<Lesson>) returns (r: seq<Lesson>)
    ensures Seqs.SortedBy(r, NewerFirst) && multiset(r) == multiset(data)
  {
    NewerFirstOrder();
    Seqs.SortBySorted(data, NewerFirst);
    r := Seqs.SortBy(data, NewerFirst);
  }

  /** Whether a lesson passes the tag and search filter of the list. */
  function LessonPasses(selectedTag: Option<string>, searchQuery: string): Lesson -> bool {
    (l: Lesson) =>
      && (selectedTag.Some? && selectedTag.value != "" ==> Vocabulary.HasTag(l, selectedTag.value))
      && (Strings.JsTrim(searchQuery) == ""
          || Strings.Contains(Strings.Lower(l.title), Strings.Lower(searchQuery))
          || (l.tags.Some? && exists t :: t in l.tags.value && Strings.Contains(Strings.Lower(t), Strings.Lower(searchQuery))))
  }

  /** filteredLessons. */
  function FilteredLessons(lessons: seq<Lesson>, selectedTag: Option<string>, searchQuery: string): seq<Lesson> {
    Seqs.Filter(lessons, LessonPasses(selectedTag, searchQuery))
  }

  /**
   * A blank query (after trimming) filters by tag alone; otherwise the
   * query, lower-cased but not trimmed, must occur in the title or a tag.
   */
  lemma FilteredLessonsMembership(lessons: seq<Lesson>, selectedTag: Option<string>, query: string, l: Lesson)
    ensures Strings.IsBlank(query) && (selectedTag.None? || selectedTag.value == "") ==>
      FilteredLessons(lessons, selectedTag, query) == lessons
    ensures l in FilteredLessons(lessons, selectedTag, query) <==>
      && l in lessons
      && (selectedTag.Some? && selectedTag.value != "" ==> Vocabulary.HasTag(l, selectedTag.value))
      && (Strings.IsBlank(query)
          || Strings.Contains(Strings.Lower(l.title), Strings.Lower(query))
          || (l.tags.Some? && exists t :: t in l.tags.value && Strings.Contains(Strings.Lower(t), Strings.Lower(query))))
  {
    if Strings.IsBlank(query) && (selectedTag.None? || selectedTag.value == "") {
      Seqs.FilterAll(lessons, LessonPasses(selectedTag, query));
    }
  }

  // ----- Grouping by month -----

  /** `${year}-${month}`, the month unpadded. */
  function MonthKey(year: int, month: nat): string {
    Strings.IntToString(year) + "-" + Strings.NatToString(month)
  }

  datatype Group = Group(key: string, lessons: seq<Lesson>)

  /** The index of the group with key `k`, if there is one. */
  function FindGroup(gs: seq<Group>, k: string): (r: Option<nat>)
    ensures r.Some? ==> r.value < |gs| && gs[r.value].key == k
    ensures r.None? ==> forall i :: 0 <= i < |gs| ==> gs[i].key != k
  {
    if |gs| == 0 then None
    else if gs[|gs| - 1].key == k then Some(|gs| - 1)
    else FindGroup(gs[..|gs| - 1], k)
  }

  /** The groups object, in the order its keys were first used. */
  function Groups(lessons: seq<Lesson>, keyOf: Lesson -> string): seq<Group> {
    if |lessons| == 0 then []
    else AddTo(Groups(lessons[..|lessons| - 1], keyOf), lessons[|lessons| - 1], keyOf)
  }

  /** `groups[key].push(lesson)`, creating the group at the end when the key is new. */
  function AddTo(gs: seq<Group>, l: Lesson, keyOf: Lesson -> string): seq<Group> {
    match FindGroup(gs, keyOf(l))
    case Some(i) => gs[i := gs[i].(lessons := gs[i].lessons + [l])]
    case None => gs + [Group(keyOf(l), [l])]
  }

  function HasKey(keyOf: Lesson -> string, k: string): Lesson -> bool {
    (l: Lesson) => keyOf(l) == k
  }

  ghost predicate DistinctKeys(gs: seq<Group>) {
    forall i, j :: 0 <= i < j < |gs| ==> gs[i].key != gs[j].key
  }

  /** Each group holds, in list order, exactly the lessons with its key, and is not empty. */
  ghost predicate Holds(gs: seq<Group>, lessons: seq<Lesson>, keyOf: Lesson -> string) {
    forall i :: 0 <= i < |gs| ==> gs[i].lessons == Seqs.Filter(lessons, HasKey(keyOf, gs[i].key)) && gs[i].lessons != []
  }

  /** Every lesson's key has a group. */
  ghost predicate Covers(gs: seq<Group>, lessons: seq<Lesson>, keyOf: Lesson -> string) {
    forall l :: l in lessons ==> exists i :: 0 <= i < |gs| && gs[i].key == keyOf(l)
  }

  ghost predicate GroupedBy(gs: seq<Group>, lessons: seq<Lesson>, keyOf: Lesson -> string) {
    DistinctKeys(gs) && Holds(gs, lessons, keyOf) && Covers(gs, lessons, keyOf)
  }

  lemma AddToDistinct(gs: seq<Group>, l: Lesson, keyOf: Lesson -> string)
    requires DistinctKeys(gs)
    ensures DistinctKeys(AddTo(gs, l, keyOf)) && |AddTo(gs, l, keyOf)| >= |gs|
    ensures forall i :: 0 <= i < |gs| ==> AddTo(gs, l, keyOf)[i].key == gs[i].key
  {
  }

  /** An existing group gains the lesson exactly when the lesson has its key. */
  lemma AddToOldGroup(gs: seq<Group>, init: seq<Lesson>, l: Lesson, keyOf: Lesson -> string, i: nat)
    requires DistinctKeys(gs) && i < |gs|
    requires gs[i].lessons == Seqs.Filter(init, HasKey(keyOf, gs[i].key)) && gs[i].lessons != []
    ensures var g := AddTo(gs, l, keyOf)[i];
      g.lessons == Seqs.Filter(init + [l], HasKey(keyOf, g.key)) && g.lessons != []
  {
    var k := gs[i].key;
    var p := HasKey(keyOf, k);
    Seqs.FilterSnoc(init, l, p);
    var r := AddTo(gs, l, keyOf);
    match FindGroup(gs, keyOf(l))
    case Some(f) =>
      if f == i {
        assert r[i] == Group(k, gs[i].lessons + [l]);
        assert p(l);
      } else {
        assert r[i] == gs[i];
        assert !p(l);
      }
    case None =>
      assert r[i] == gs[i];
      assert !p(l);
  }

  /** A new group holds the lesson alone, since no earlier lesson had its key. */
  lemma AddToNewGroup(gs: seq<Group>, init: seq<Lesson>, l: Lesson, keyOf: Lesson -> string)
    requires Covers(gs, init, keyOf)
    requires FindGroup(gs, keyOf(l)).None?
    ensures var g := AddTo(gs, l, keyOf)[|gs|];
      g.lessons == Seqs.Filter(init + [l], HasKey(keyOf, g.key)) && g.lessons != []
  {
    var k := keyOf(l);
    var p := HasKey(keyOf, k);
    var none := Seqs.Filter(init, p);
    forall x | x in init ensures !p(x) {
      var i :| 0 <= i < |gs| && gs[i].key == keyOf(x);
      assert gs[i].key != k;
    }
    Seqs.FilterNone(init, p);
    Seqs.FilterSnoc(init, l, p);
    assert AddTo(gs, l, keyOf)[|gs|] == Group(k, [l]);
    assert p(l);
  }

  lemma AddToCovers(gs: seq<Group>, init: seq<Lesson>, l: Lesson, keyOf: Lesson -> string)
    requires Covers(gs, init, keyOf)
    ensures Covers(AddTo(gs, l, keyOf), init + [l], keyOf)
  {
    var r := AddTo(gs, l, keyOf);
    forall x | x in init + [l] ensures exists i :: 0 <= i < |r| && r[i].key == keyOf(x) {
      if x in init {
        var i :| 0 <= i < |gs| && gs[i].key == keyOf(x);
        assert r[i].key == keyOf(x);
      } else {
        match FindGroup(gs, keyOf(l))
        case Some(i) => assert r[i].key == keyOf(l);
        case None => assert r[|gs|].key == keyOf(l);
      }
    }
  }

  lemma {:induction false} GroupsCorrect(lessons: seq<Lesson>, keyOf: Lesson -> string)
    ensures GroupedBy(Groups(lessons, keyOf), lessons, keyOf)
  {
    if |lessons| > 0 {
      var init, l := lessons[..|lessons| - 1], lessons[|lessons| - 1];
      assert lessons == init + [l];
      GroupsCorrect(init, keyOf);
      AddToGrouped(Groups(init, keyOf), init, l, keyOf);
    }
  }

  /** Adding one lesson to a grouping of the earlier lessons groups them all. */
  lemma AddToGrouped(gs: seq<Group>, init: seq<Lesson>, l: Lesson, keyOf: Lesson -> string)
    requires GroupedBy(gs, init, keyOf)
    ensures GroupedBy(AddTo(gs, l, keyOf), init + [l], keyOf)
  {
    var r := AddTo(gs, l, keyOf);
    AddToDistinct(gs, l, keyOf);
    AddToLength(gs, l, keyOf);
    forall i | 0 <= i < |r|
      ensures r[i].lessons == Seqs.Filter(init + [l], HasKey(keyOf, r[i].key)) && r[i].lessons != []
    {
      if i < |gs| {
        AddToOldGroup(gs, init, l, keyOf, i);
      } else {
        AddToNewGroup(gs, init, l, keyOf);
      }
    }
    assert Holds(r, init + [l], keyOf);
    AddToCovers(gs, init, l, keyOf);
  }

  lemma AddToLength(gs: seq<Group>, l: Lesson, keyOf: Lesson -> string)
    ensures FindGroup(gs, keyOf(l)).Some? ==> |AddTo(gs, l, keyOf)| == |gs|
    ensures FindGroup(gs, keyOf(l)).None? ==> |AddTo(gs, l, keyOf)| == |gs| + 1
  {
  }

  /** `b[0].localeCompare(a[0])`: groups with the larger key first. */
  function LaterKeyFirst(a: Group, b: Group): bool {
    Strings.Le(b.key, a.key)
  }

  lemma LaterKeyFirstOrder()
    ensures Seqs.TotalPreorder(LaterKeyFirst)
  {
    Seqs.StringOrder();
    forall a: Group, b: Group ensures LaterKeyFirst(a, b) || LaterKeyFirst(b, a) {
      assert Strings.Le(b.key, a.key) || Strings.Le(a.key, b.key);
    }
    forall a: Group, b: Group, c: Group | LaterKeyFirst(a, b) && LaterKeyFirst(b, c) ensures LaterKeyFirst(a, c) {
      Strings.LeTransitive(c.key, b.key, a.key);
    }
  }

  /** groupLessonsByMonth: the groups, keys in descending string order. */
  function GroupLessonsByMonth(lessons: seq<Lesson>, keyOf: Lesson -> string): seq<Group> {
    Seqs.SortBy(Groups(lessons, keyOf), LaterKeyFirst)
  }

  /** The month groups partition the lessons by key and come in descending key order. */
  lemma GroupLessonsByMonthCorrect(lessons: seq<Lesson>, keyOf: Lesson -> string)
    ensures var gs := GroupLessonsByMonth(lessons, keyOf);
      && Seqs.SortedBy(gs, LaterKeyFirst)
      && (forall i :: 0 <= i < |gs| ==> gs[i].lessons == Seqs.Filter(lessons, HasKey(keyOf, gs[i].key)) && gs[i].lessons != [])
      && (forall l :: l in lessons ==> exists i :: 0 <= i < |gs| && gs[i].key == keyOf(l))
      && (forall i, j :: 0 <= i < j < |gs| ==> gs[i].key != gs[j].key)
  {
    var groups := Groups(lessons, keyOf);
    GroupsCorrect(lessons, keyOf);
    LaterKeyFirstOrder();
    Seqs.SortBySorted(groups, LaterKeyFirst);
    PermutedGroups(groups, Seqs.SortBy(groups, LaterKeyFirst), lessons, keyOf);
  }

  /** Reordering the groups keeps them a grouping of the lessons. */
  lemma PermutedGroups(groups: seq<Group>, gs: seq<Group>, lessons: seq<Lesson>, keyOf: Lesson -> string)
    requires multiset(gs) == multiset(groups) && GroupedBy(groups, lessons, keyOf)
    ensures GroupedBy(gs, lessons, keyOf)
  {
    forall i | 0 <= i < |gs| ensures gs[i].lessons == Seqs.Filter(lessons, HasKey(keyOf, gs[i].key)) && gs[i].lessons != [] {
      assert gs[i] in multiset(groups);
      var j :| 0 <= j < |groups| && groups[j] == gs[i];
    }
    forall l | l in lessons ensures exists i :: 0 <= i < |gs| && gs[i].key == keyOf(l) {
      var i :| 0 <= i < |groups| && groups[i].key == keyOf(l);
      assert groups[i] in multiset(gs);
      var j :| 0 <= j < |gs| && gs[j] == groups[i];
    }
    PermutedDistinctKeys(groups, gs);
  }

  lemma PermutedDistinctKeys(groups: seq<Group>, gs: seq<Group>)
    requires multiset(gs) == multiset(groups) && DistinctKeys(groups)
    ensures DistinctKeys(gs)
  {
    assert Seqs.NoDuplicates(groups);
    Seqs.PermutationNoDuplicates(groups, gs);
    forall i, j | 0 <= i < j < |gs| ensures gs[i].key != gs[j].key {
      assert gs[i] in multiset(groups) && gs[j] in multiset(groups);
      var i' :| 0 <= i' < |groups| && groups[i'] == gs[i];
      var j' :| 0 <= j' < |groups| && groups[j'] == gs[j];
      assert gs[i] != gs[j];
    }
  }

  /**
   * Month keys sort as strings, not as dates: a September group is listed
   * before the December group of the same year, although December is later.
   */
  lemma SeptemberBeforeDecember(gs: seq<Group>, i: nat, j: nat)
    requires Seqs.SortedBy(gs, LaterKeyFirst)
    requires i < |gs| && j < |gs|
    requires gs[i].key == MonthKey(2024, 9) && gs[j].key == MonthKey(2024, 12)
    ensures i < j
  {
    assert Strings.NatToString(2024) == "2024";
    assert Strings.NatToString(12) == "12";
    assert MonthKey(2024, 9) == "2024-9" && MonthKey(2024, 12) == "2024-12";
    assert !Strings.Le("2024-9", "2024-12") by {
      assert "2024-9"[5] == '9' && "2024-12"[5] == '1';
      assert "2024-9"[..5] == "2024-12"[..5];
    }
  }

  // ----- Global review -----

  class GlobalReview {
    var lessonsMap: map<string, Lesson>
    /** The due cards, each with the id of the lesson holding it. */
    var allCards: seq<NewUserCard>
    var availableTags: seq<string>

    /** Every lesson of the page's table is stored under its own id. */
    ghost predicate Valid()
      reads this
    {
      forall id :: id in lessonsMap ==> lessonsMap[id].id == id
    }

    constructor ()
      ensures Valid()
      ensures lessonsMap == map[] && allCards == [] && availableTags == []
    {
      lessonsMap, allCards, availableTags := map[], [], [];
    }

    /**
     * loadData: every card due at `now`, tagged with its lesson, in lesson
     * then card order; only lessons holding a due card contribute tags.
     */
    method LoadData(store: LocalStore.Store, now: int)
      requires store.Valid()
      modifies this
      ensures Valid()
      ensures lessonsMap == store.lessons
      ensures exists all ::
        Seqs.IndexBy(all, LessonKey) == store.lessons && |all| == |store.lessons|
        && allCards == Seqs.Filter(Entries(all), DueEntry(now))
      ensures Seqs.SortedBy(availableTags, Strings.Le) && Seqs.NoDuplicates(availableTags)
      ensures forall t :: t in availableTags <==>
        exists l :: l in store.lessons.Values && Vocabulary.HasTag(l, t) && HasDueCard(l, now)
    {
      var lessons := store.GetAllLessons();
      var cards, tags := DueCards(lessons, now);
      lessonsMap := Seqs.IndexBy(lessons, LessonKey);
      allCards := cards;
      availableTags := Vocabulary.SortedTags(tags);
      forall t ensures t in availableTags <==>
        exists l :: l in store.lessons.Values && Vocabulary.HasTag(l, t) && HasDueCard(l, now)
      {
        if l :| l in store.lessons.Values && Vocabulary.HasTag(l, t) && HasDueCard(l, now) {
          var id :| id in store.lessons && store.lessons[id] == l;
          Seqs.IndexByKeys(lessons, LessonKey, id);
          var x :| x in lessons && x.id == id;
        }
        if t in tags {
          var l :| l in lessons && Vocabulary.HasTag(l, t) && HasDueCard(l, now);
          assert l in store.lessons.Values;
        }
      }
    }

    /**
     * handleUpdateGlobalCard: a reviewed card replaces every card of its id
     * in its own lesson, in the page's table and in the store. Without a
     * lesson id, or for a lesson not in the table, nothing changes.
     */
    method UpdateGlobalCard(store: LocalStore.Store, lessonId: string, updated: Flashcard)
      requires Valid() && store.Valid()
      modifies this, store
      ensures Valid() && store.Valid()
      ensures allCards == old(allCards) && availableTags == old(availableTags)
      ensures store.deletedLessons == old(store.deletedLessons) && store.deletedCards == old(store.deletedCards)
      ensures store.lastSync == old(store.lastSync)
      ensures lessonId == "" || lessonId !in old(lessonsMap) ==>
        lessonsMap == old(lessonsMap) && store.lessons == old(store.lessons)
      ensures lessonId != "" && lessonId in old(lessonsMap) ==>
        var l := ReplaceCard(old(lessonsMap)[lessonId], updated);
        lessonsMap == old(lessonsMap)[lessonId := l] && store.lessons == old(store.lessons)[lessonId := l]
    {
      if lessonId == "" {
        return;
      }
      if lessonId !in lessonsMap {
        return;
      }
      var lesson := lessonsMap[lessonId];
      var updatedLesson := lesson.(flashcards := Seqs.Map(lesson.flashcards, (c: Flashcard) => if c.id == updated.id then updated else c));
      lessonsMap := lessonsMap[lessonId := updatedLesson];
      store.SaveLesson(updatedLesson);
    }
  }

  /** The lesson holds a card due at `now`. */
  predicate HasDueCard(l: Lesson, now: int) {
    exists c :: c in l.flashcards && IsDue(c, now)
  }

  /** `tags` are exactly the tags of the lessons in `ls` that hold a due card. */
  ghost predicate DueTags(tags: set<string>, ls: seq<Lesson>, now: int) {
    forall t :: t in tags <==> exists k :: 0 <= k < |ls| && Vocabulary.HasTag(ls[k], t) && HasDueCard(ls[k], now)
  }

  lemma DueTagsStep(tags: set<string>, ls: seq<Lesson>, l: Lesson, now: int)
    requires DueTags(tags, ls, now)
    ensures DueTags(if HasDueCard(l, now) && l.tags.Some? then tags + (set t | t in l.tags.value) else tags, ls + [l], now)
  {
    var tags' := if HasDueCard(l, now) && l.tags.Some? then tags + (set t | t in l.tags.value) else tags;
    var ls' := ls + [l];
    forall t ensures t in tags' <==> exists k :: 0 <= k < |ls'| && Vocabulary.HasTag(ls'[k], t) && HasDueCard(ls'[k], now) {
      if t in tags {
        var k :| 0 <= k < |ls| && Vocabulary.HasTag(ls[k], t) && HasDueCard(ls[k], now);
        assert ls'[k] == ls[k];
      }
      if k :| 0 <= k < |ls'| && Vocabulary.HasTag(ls'[k], t) && HasDueCard(ls'[k], now) {
        if k < |ls| {
          assert ls'[k] == ls[k];
        } else {
          assert ls'[k] == l;
        }
      }
      assert ls'[|ls|] == l;
    }
  }

  lemma DueTagsAll(tags: set<string>, ls: seq<Lesson>, now: int)
    requires DueTags(tags, ls, now)
    ensures forall t :: t in tags <==> exists l :: l in ls && Vocabulary.HasTag(l, t) && HasDueCard(l, now)
  {
    forall t ensures t in tags <==> exists l :: l in ls && Vocabulary.HasTag(l, t) && HasDueCard(l, now) {
      if t in tags {
        var k :| 0 <= k < |ls| && Vocabulary.HasTag(ls[k], t) && HasDueCard(ls[k], now);
        assert ls[k] in ls;
      }
      if l :| l in ls && Vocabulary.HasTag(l, t) && HasDueCard(l, now) {
        var k :| 0 <= k < |ls| && ls[k] == l;
      }
    }
  }

  /** The forEach of loadData: the due cards with their lessons, and the tags of lessons holding one. */
  method DueCards(lessons: seq<Lesson>, now: int) returns (cards: seq<NewUserCard>, tags: set<string>)
    ensures cards == Seqs.Filter(Entries(lessons), DueEntry(now))
    ensures forall t :: t in tags <==> exists l :: l in lessons && Vocabulary.HasTag(l, t) && HasDueCard(l, now)
  {
    cards := [];
    tags := {};
    var i := 0;
    while i < |lessons|
      invariant 0 <= i <= |lessons|
      invariant cards == Seqs.Filter(Entries(lessons[..i]), DueEntry(now))
      invariant DueTags(tags, lessons[..i], now)
    {
      var l := lessons[i];
      var due, hasDue := LessonDueCards(l, now);
      cards := cards + due;
      DueFilterStep(lessons, i, now);
      assert lessons[..i + 1] == lessons[..i] + [l];
      DueTagsStep(tags, lessons[..i], l, now);
      if hasDue && l.tags.Some? {
        tags := tags + set t | t in l.tags.value;
      }
      i := i + 1;
    }
    assert lessons[..i] == lessons;
    DueTagsAll(tags, lessons, now);
  }

  /** One more lesson extends the due pairs by its own due pairs. */
  lemma DueFilterStep(lessons: seq<Lesson>, i: nat, now: int)
    requires i < |lessons|
    ensures Seqs.Filter(Entries(lessons[..i + 1]), DueEntry(now))
      == Seqs.Filter(Entries(lessons[..i]), DueEntry(now)) + Seqs.Filter(LessonEntries(lessons[i]), DueEntry(now))
  {
    assert lessons[..i + 1] == lessons[..i] + [lessons[i]];
    EntriesSnoc(lessons[..i], lessons[i]);
    Seqs.FilterConcat(Entries(lessons[..i]), LessonEntries(lessons[i]), DueEntry(now));
  }

  /** The inner forEach of loadData: the due cards of one lesson, and whether there is one. */
  method LessonDueCards(l: Lesson, now: int) returns (due: seq<NewUserCard>, hasDue: bool)
    ensures due == Seqs.Filter(LessonEntries(l), DueEntry(now))
    ensures hasDue <==> HasDueCard(l, now)
  {
    due := [];
    hasDue := false;
    var j := 0;
    while j < |l.flashcards|
      invariant 0 <= j <= |l.flashcards|
      invariant due == Seqs.Filter(LessonEntries(l)[..j], DueEntry(now))
      invariant hasDue <==> due != []
    {
      var e := NewUserCard(l.id, l.flashcards[j]);
      assert LessonEntries(l)[..j + 1] == LessonEntries(l)[..j] + [e];
      Seqs.FilterSnoc(LessonEntries(l)[..j], e, DueEntry(now));
      if l.flashcards[j].nextReview <= now {
        due := due + [e];
        hasDue := true;
      }
      j := j + 1;
    }
    assert LessonEntries(l)[..j] == LessonEntries(l);
    DueEntriesExist(l, now);
  }

  /** A lesson has a due pair exactly when it holds a due card. */
  lemma DueEntriesExist(l: Lesson, now: int)
    ensures Seqs.Filter(LessonEntries(l), DueEntry(now)) != [] <==> HasDueCard(l, now)
  {
    var f := Seqs.Filter(LessonEntries(l), DueEntry(now));
    if f != [] {
      assert f[0] in f;
      var k :| 0 <= k < |LessonEntries(l)| && LessonEntries(l)[k] == f[0];
      assert l.flashcards[k] in l.flashcards;
    }
    if HasDueCard(l, now) {
      var c :| c in l.flashcards && IsDue(c, now);
      var k :| 0 <= k < |l.flashcards| && l.flashcards[k] == c;
      assert LessonEntries(l)[k] in LessonEntries(l);
    }
  }

  /** The lesson with every card of the updated card's id replaced by it. */
  function ReplaceCard(l: Lesson, updated: Flashcard): Lesson {
    l.(flashcards := Seqs.Map(l.flashcards, (c: Flashcard) => if c.id == updated.id then updated else c))
  }

  /** A global update touches only the cards of that id, in place, and keeps the lesson's length. */
  lemma ReplaceCardEffect(l: Lesson, updated: Flashcard)
    ensures var r := ReplaceCard(l, updated);
      && r.id == l.id && |r.flashcards| == |l.flashcards|
      && (forall k :: 0 <= k < |l.flashcards| && l.flashcards[k].id != updated.id ==> r.flashcards[k] == l.flashcards[k])
      && (forall k :: 0 <= k < |l.flashcards| && l.flashcards[k].id == updated.id ==> r.flashcards[k] == updated)
  {
  }

  /** A due card whose lesson, looked up in the session's map, carries tag `t`. */
  function InTaggedLesson(lessonsMap: map<string, Lesson>, t: string): NewUserCard -> bool {
    (e: NewUserCard) => e.lessonId in lessonsMap && Vocabulary.HasTag(lessonsMap[e.lessonId], t)
  }

  /**
   * The global review's filteredCards: every due card when no tag (or the
   * empty tag) is selected, else the due cards of lessons carrying the tag,
   * in their order.
   */
  function GlobalFilteredCards(allCards: seq<NewUserCard>, lessonsMap: map<string, Lesson>, selectedTag: Option<string>): (r: seq<NewUserCard>)
    ensures selectedTag.None? || selectedTag.value == "" ==> r == allCards
    ensures forall e :: e in r <==>
      e in allCards && (selectedTag.Some? && selectedTag.value != "" ==>
                          e.lessonId in lessonsMap && Vocabulary.HasTag(lessonsMap[e.lessonId], selectedTag.value))
  {
    if selectedTag.Some? && selectedTag.value != "" then Seqs.Filter(allCards, InTaggedLesson(lessonsMap, selectedTag.value))
    else allCards
  }

  // ----- Lesson view -----

  /**
   * resolveUrl: no address for an empty url; an absolute ("http…") or blob
   * url as it is; otherwise the server address without one trailing '/',
   * a '/' unless the url starts with one, and the url.
   */
  function ResolveUrl(url: string, serverUrl: string): (r: Option<string>)
    ensures r.None? <==> url == ""
  {
    if url == "" then None
    else if Strings.StartsWith(url, "http") || Strings.StartsWith(url, "blob:") then Some(url)
    else Some(Api.StripTrailingSlash(serverUrl) + (if Strings.StartsWith(url, "/") then "" else "/") + url)
  }

  /**
   * A relative url is joined to the server address with exactly one '/'
   * between them when neither side doubles it; in particular an upload
   * address the server hands out resolves under the server.
   */
  lemma ResolveRelative(url: string, serverUrl: string, path: string)
    requires url == "/" + path || url == path
    requires path != "" && path[0] != '/' && !Strings.StartsWith(path, "http") && !Strings.StartsWith(path, "blob:")
    ensures ResolveUrl(url, serverUrl) == Some(Api.StripTrailingSlash(serverUrl) + "/" + path)
  {
    if url == "/" + path {
      assert url[..1] == "/";
      NotStartsWith(url, "http");
      NotStartsWith(url, "blob:");
      assert Api.StripTrailingSlash(serverUrl) + "" + url == Api.StripTrailingSlash(serverUrl) + "/" + path;
    } else {
      NotStartsWith(url, "/");
    }
  }

  /** A string does not start with a prefix whose first character differs from its own. */
  lemma NotStartsWith(s: string, prefix: string)
    requires |s| > 0 && |prefix| > 0 && s[0] != prefix[0]
    ensures !Strings.StartsWith(s, prefix)
  {
    if |prefix| <= |s| {
      assert s[..|prefix|][0] == s[0];
    }
  }

  lemma ResolveUpload(stem: string, ext: string, serverUrl: string)
    ensures ResolveUrl(LessonHandlers.UploadUrl(stem, ext), serverUrl)
      == Some(Api.StripTrailingSlash(serverUrl) + LessonHandlers.UploadUrl(stem, ext))
  {
    var url := LessonHandlers.UploadUrl(stem, ext);
    assert url[0] == '/';
    assert url[..1] == "/";
    NotStartsWith(url, "http");
    NotStartsWith(url, "blob:");
    assert Api.StripTrailingSlash(serverUrl) + "" + url == Api.StripTrailingSlash(serverUrl) + url;
  }

  class LessonView {
    /** The lesson on screen, once loaded. */
    var lesson: Option<Lesson>

    constructor (lesson: Option<Lesson>)
      ensures this.lesson == lesson
    {
      this.lesson := lesson;
    }

    /**
     * handleAddWord: with a lesson on screen and a front and back that are
     * not blank, a new user card with the initial schedule is appended to
     * it, shown and stored; otherwise nothing changes.
     */
    method AddWord(store: LocalStore.Store, newFront: string, newBack: string, freshId: string, now: int)
      requires store.Valid()
      modifies this, store
      ensures store.Valid()
      ensures store.deletedLessons == old(store.deletedLessons) && store.deletedCards == old(store.deletedCards)
      ensures store.lastSync == old(store.lastSync)
      ensures old(lesson).None? || Strings.IsBlank(newFront) || Strings.IsBlank(newBack) ==>
        lesson == old(lesson) && store.lessons == old(store.lessons)
      ensures old(lesson).Some? && !Strings.IsBlank(newFront) && !Strings.IsBlank(newBack) ==>
        var updated := Vocabulary.WithCard(old(lesson).value, Srs.NewCard(freshId, newFront, newBack, true, now));
        lesson == Some(updated) && store.lessons == old(store.lessons)[updated.id := updated]
    {
      if lesson.None? || Strings.IsBlank(newFront) || Strings.IsBlank(newBack) {
        return;
      }
      var newCard := Srs.NewCard(freshId, newFront, newBack, true, now);
      var updatedLesson := lesson.value.(flashcards := lesson.value.flashcards + [newCard]);
      lesson := Some(updatedLesson);
      store.SaveLesson(updatedLesson);
    }
  }

  /** An added word keeps the lesson's cards and adds one new, due user card at the end. */
  lemma AddedWord(l: Lesson, freshId: string, front: string, back: string, now: int)
    ensures var r := Vocabulary.WithCard(l, Srs.NewCard(freshId, front, back, true, now));
      && r.id == l.id && |r.flashcards| == |l.flashcards| + 1
      && r.flashcards[..|l.flashcards|] == l.flashcards
      && r.flashcards[|l.flashcards|].isUserCreated && IsDue(r.flashcards[|l.flashcards|], now)
      && Srs.StateOf(r.flashcards[|l.flashcards|]) == Srs.CreateInitialSrsState(now)
  {
  }
}
