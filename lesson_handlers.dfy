/**
 * The lesson endpoints: create and update from a multipart form, soft
 * delete, restore, and the two listings (live lessons and the trash), plus
 * the comma-separated tag field both forms carry. An uploaded file is
 * reduced to whether it could be saved and the extension of its name.
 */
module LessonHandlers {
  import opened Wrappers
  import opened ServerModels
  import ServerSync
  import Strings
  import Seqs
  import Types

  const StatusOk := 200
  const StatusCreated := 201
  const StatusBadRequest := 400
  const StatusNotFound := 404
  const StatusInternalError := 500

  /** An optional file field of the form: absent, or a file with its extension and whether writing it succeeded. */
  datatype Upload = NoFile | File(ext: string, saved: bool)

  /** The text fields of the form; a field the client left out reads as "". */
  datatype LessonForm = LessonForm(title: string, description: string, markdown: string, tags: string)

  // ----- Tags -----

  /** The tag list a non-empty tag field is parsed into: split on every ',' and each piece trimmed. */
  function TagsOf(s: string): seq<string> {
    Seqs.Map(Strings.Split(s, ','), Strings.GoTrimSpace)
  }

  /** strings.Split, then strings.TrimSpace on each element in place. */
  method ParseTags(s: string) returns (tags: seq<string>)
    ensures tags == TagsOf(s)
  {
    tags := Strings.Split(s, ',');
    ghost var parts := tags;
    var i := 0;
    while i < |tags|
      invariant 0 <= i <= |tags| && |tags| == |parts|
      invariant forall k :: 0 <= k < i ==> tags[k] == Strings.GoTrimSpace(parts[k])
      invariant forall k :: i <= k < |tags| ==> tags[k] == parts[k]
    {
      tags := tags[i := Strings.GoTrimSpace(tags[i])];
      i := i + 1;
    }
  }

  /** Empty pieces are kept: there is one tag more than there are commas, and none contains a comma. */
  lemma TagsCount(s: string)
    ensures |TagsOf(s)| == Strings.Count(s, ',') + 1
    ensures forall t :: t in TagsOf(s) ==> ',' !in t
  {
    Strings.SplitParts(s, ',');
    forall t | t in TagsOf(s) ensures ',' !in t {
      var k :| 0 <= k < |TagsOf(s)| && TagsOf(s)[k] == t;
      var piece := Strings.Split(s, ',')[k];
      assert piece in Strings.Split(s, ',');
      var start := Strings.TrimStart(piece, Strings.IsGoSpace);
      assert forall c :: c in start ==> c in piece;
    }
  }

  /** A tag that survives trimming unchanged. */
  predicate Trimmed(t: string) {
    t == [] || (!Strings.IsGoSpace(t[0]) && !Strings.IsGoSpace(t[|t| - 1]))
  }

  function SpaceBefore(t: string): string {
    " " + t
  }

  /** Joining two or more tags puts a comma and a space after the first. */
  lemma JoinCons(ts: seq<string>)
    requires |ts| >= 2
    ensures Strings.Join(ts, ", ") == ts[0] + [','] + (" " + Strings.Join(ts[1..], ", "))
  {
  }

  /** A leading space sticks to the first piece. */
  lemma SplitSpaceFirst(rest: string)
    ensures Strings.Split(" " + rest, ',') == [" " + Strings.Split(rest, ',')[0]] + Strings.Split(rest, ',')[1..]
  {
    assert (" " + rest)[1..] == rest;
  }

  lemma MapCons(ts: seq<string>)
    requires |ts| >= 1
    ensures Seqs.Map(ts, SpaceBefore) == [SpaceBefore(ts[0])] + Seqs.Map(ts[1..], SpaceBefore)
  {
  }

  /** The pieces of a ", "-joined list: the first tag, then every other tag after a space. */
  lemma {:induction false} SplitJoined(ts: seq<string>)
    requires |ts| >= 1
    requires forall t :: t in ts ==> ',' !in t
    ensures Strings.Split(Strings.Join(ts, ", "), ',') == [ts[0]] + Seqs.Map(ts[1..], SpaceBefore)
  {
    if |ts| == 1 {
      Strings.SplitNoSep(ts[0], ',');
    } else {
      var rest := Strings.Join(ts[1..], ", ");
      JoinCons(ts);
      assert ts[0] in ts;
      Strings.SplitAt(ts[0], ',', " " + rest);
      SplitSpaceFirst(rest);
      assert forall t :: t in ts[1..] ==> t in ts;
      SplitJoined(ts[1..]);
      assert ts[1..][1..] == ts[2..];
      MapCons(ts[1..]);
    }
  }

  /** A space in front of a trimmed tag is all that TrimSpace removes. */
  lemma TrimSpaceBefore(t: string)
    requires Trimmed(t)
    ensures Strings.GoTrimSpace(SpaceBefore(t)) == t
  {
    assert SpaceBefore(t)[1..] == t;
    assert Strings.TrimStart(SpaceBefore(t), Strings.IsGoSpace) == Strings.TrimStart(t, Strings.IsGoSpace);
    Strings.TrimUntrimmed(t, Strings.IsGoSpace);
  }

  /**
   * Tags joined with ", " (as the lesson form sends them) parse back to the
   * same list, provided no tag contains a comma or has surrounding space.
   */
  lemma TagsRoundTrip(ts: seq<string>)
    requires |ts| >= 1
    requires forall t :: t in ts ==> ',' !in t && Trimmed(t)
    ensures TagsOf(Strings.Join(ts, ", ")) == ts
  {
    SplitJoined(ts);
    var pieces := [ts[0]] + Seqs.Map(ts[1..], SpaceBefore);
    forall k | 1 <= k < |ts| ensures pieces[k] == SpaceBefore(ts[k]) {
      assert pieces[k] == Seqs.Map(ts[1..], SpaceBefore)[k - 1];
    }
    forall k | 0 <= k < |ts| ensures Trimmed(ts[k]) {
      assert ts[k] in ts;
    }
    TrimPieces(ts, pieces);
  }

  /** Trimming the pieces of a joined list gives back the tags. */
  lemma TrimPieces(ts: seq<string>, pieces: seq<string>)
    requires |pieces| == |ts| >= 1 && pieces[0] == ts[0]
    requires forall k :: 1 <= k < |ts| ==> pieces[k] == SpaceBefore(ts[k])
    requires forall k :: 0 <= k < |ts| ==> Trimmed(ts[k])
    ensures Seqs.Map(pieces, Strings.GoTrimSpace) == ts
  {
    forall k | 0 <= k < |ts| ensures Strings.GoTrimSpace(pieces[k]) == ts[k] {
      if k == 0 {
        Strings.TrimUntrimmed(ts[0], Strings.IsGoSpace);
      } else {
        TrimSpaceBefore(ts[k]);
      }
    }
    Seqs.MapPointwise(pieces, Strings.GoTrimSpace, ts);
  }

  // ----- Uploads -----

  /** The public URL of a saved upload named `stem` followed by the file's extension. */
  function UploadUrl(stem: string, ext: string): string {
    "/uploads/" + stem + ext
  }

  /** The URL field after an upload step: kept when no file came, the file's URL when it was saved. */
  function AfterUpload(current: string, f: Upload, stem: string): string {
    match f
    case NoFile => current
    case File(ext, _) => UploadUrl(stem, ext)
  }

  predicate UploadFailed(f: Upload) {
    f.File? && !f.saved
  }

  // ----- Handlers -----

  /**
   * CreateLessonHandler: 400 for a form that does not parse or has no title,
   * 500 when an upload cannot be saved or the new id is taken, else 201 with
   * the stored lesson.
   */
  method CreateLesson(db: Database, user: string, form: Option<LessonForm>, audio: Upload, pdf: Upload, freshId: string, now: int)
    returns (status: int, created: Option<LessonRow>)
    requires db.Valid()
    modifies db
    ensures db.Valid()
    ensures db.cards == old(db.cards)
    ensures status != StatusCreated ==> created.None? && db.lessons == old(db.lessons)
    ensures status == StatusBadRequest <==> form.None? || form.value.title == ""
    ensures status == StatusInternalError <==>
      form.Some? && form.value.title != "" && (UploadFailed(audio) || UploadFailed(pdf) || freshId in old(db.lessons))
    ensures status == StatusCreated ==>
      && created.Some? && db.lessons == old(db.lessons)[freshId := created.value]
      && var l := created.value;
      && l.id == freshId && l.userId == user && l.createdAt == now && l.lastUpdated == now && l.deletedAt == 0
      && l.title == form.value.title && l.description == form.value.description
      && l.markdownContent == form.value.markdown
      && l.audioUrl == AfterUpload("", audio, freshId + "_audio")
      && l.pdfUrl == AfterUpload("", pdf, freshId + "_pdf")
      && l.tags == (if form.value.tags == "" then None else Some(TagsOf(form.value.tags)))
  {
    if form.None? {
      return StatusBadRequest, None;
    }
    var title := form.value.title;
    var description := form.value.description;
    if title == "" {
      return StatusBadRequest, None;
    }
    var lesson := LessonRow(freshId, user, title, description, now, now, "", "", "", None, 0);
    if audio.File? {
      if !audio.saved {
        return StatusInternalError, None;
      }
      lesson := lesson.(audioUrl := "/uploads/" + (freshId + "_audio" + audio.ext));
    }
    if pdf.File? {
      if !pdf.saved {
        return StatusInternalError, None;
      }
      lesson := lesson.(pdfUrl := "/uploads/" + (freshId + "_pdf" + pdf.ext));
    }
    var markdownContent := form.value.markdown;
    if markdownContent != "" {
      lesson := lesson.(markdownContent := markdownContent);
    }
    var tagsStr := form.value.tags;
    if tagsStr != "" {
      var tags := ParseTags(tagsStr);
      lesson := lesson.(tags := Some(tags));
    }
    if lesson.id in db.lessons {
      return StatusInternalError, None;
    }
    db.lessons := db.lessons[lesson.id := lesson];
    return StatusCreated, Some(lesson);
  }

  /**
   * UpdateLessonHandler: 404 unless the caller owns the lesson (deleted or
   * not), 400 for a form that does not parse, 500 when an upload cannot be
   * saved; otherwise 200 with the saved lesson. An empty title keeps the old
   * one; description and markdown are always overwritten; an empty tag field
   * clears the tags. Uploaded files are named with the lesson id and the
   * clock in seconds, `nowSeconds`.
   */
  method UpdateLesson(db: Database, user: string, id: string, form: Option<LessonForm>, audio: Upload, pdf: Upload,
                      now: int, nowSeconds: int)
    returns (status: int, updated: Option<LessonRow>)
    requires db.Valid()
    modifies db
    ensures db.Valid()
    ensures db.cards == old(db.cards)
    ensures status != StatusOk ==> updated.None? && db.lessons == old(db.lessons)
    ensures status == StatusNotFound <==> !OwnsLesson(old(db.lessons), id, user)
    ensures status == StatusBadRequest <==> OwnsLesson(old(db.lessons), id, user) && form.None?
    ensures status == StatusInternalError <==>
      OwnsLesson(old(db.lessons), id, user) && form.Some? && (UploadFailed(audio) || UploadFailed(pdf))
    ensures status == StatusOk ==>
      && updated.Some? && db.lessons == old(db.lessons)[id := updated.value]
      && var before, l, f := old(db.lessons)[id], updated.value, form.value;
      && l.id == id && l.userId == before.userId && l.createdAt == before.createdAt && l.deletedAt == before.deletedAt
      && l.title == (if f.title == "" then before.title else f.title)
      && l.description == f.description && l.markdownContent == f.markdown
      && l.audioUrl == AfterUpload(before.audioUrl, audio, id + "_audio_" + Strings.IntToString(nowSeconds))
      && l.pdfUrl == AfterUpload(before.pdfUrl, pdf, id + "_pdf_" + Strings.IntToString(nowSeconds))
      && l.tags == Some(if f.tags == "" then [] else TagsOf(f.tags))
      && l.lastUpdated == now
  {
    if !(id in db.lessons && db.lessons[id].userId == user) {
      return StatusNotFound, None;
    }
    var lesson := db.lessons[id];
    if form.None? {
      return StatusBadRequest, None;
    }
    var title := form.value.title;
    var description := form.value.description;
    if title != "" {
      lesson := lesson.(title := title);
    }
    lesson := lesson.(description := description);
    if audio.File? {
      if !audio.saved {
        return StatusInternalError, None;
      }
      lesson := lesson.(audioUrl := "/uploads/" + (id + "_audio_" + Strings.IntToString(nowSeconds) + audio.ext));
    }
    if pdf.File? {
      if !pdf.saved {
        return StatusInternalError, None;
      }
      lesson := lesson.(pdfUrl := "/uploads/" + (id + "_pdf_" + Strings.IntToString(nowSeconds) + pdf.ext));
    }
    lesson := lesson.(markdownContent := form.value.markdown);
    var tagsStr := form.value.tags;
    if tagsStr != "" {
      var tags := ParseTags(tagsStr);
      lesson := lesson.(tags := Some(tags));
    } else {
      lesson := lesson.(tags := Some([]));
    }
    lesson := lesson.(lastUpdated := now);
    db.lessons := db.lessons[id := lesson];
    return StatusOk, Some(lesson);
  }

  /** DeleteLessonHandler: the caller's lesson gets `deleted_at = now`; its cards stay; always 200. */
  method DeleteLesson(db: Database, user: string, id: string, now: int) returns (status: int)
    requires db.Valid()
    modifies db
    ensures db.Valid()
    ensures status == StatusOk && db.cards == old(db.cards)
    ensures db.lessons == ServerSync.DeleteLessonRows(old(db.lessons), user, [id], now)
  {
    db.lessons := ServerSync.DeleteLessonRows(db.lessons, user, [id], now);
    status := StatusOk;
  }

  /** RestoreLessonHandler: the same statement with `deleted_at = 0`; always 200. */
  method RestoreLesson(db: Database, user: string, id: string) returns (status: int)
    requires db.Valid()
    modifies db
    ensures db.Valid()
    ensures status == StatusOk && db.cards == old(db.cards)
    ensures db.lessons == ServerSync.DeleteLessonRows(old(db.lessons), user, [id], 0)
  {
    db.lessons := ServerSync.DeleteLessonRows(db.lessons, user, [id], 0);
    status := StatusOk;
  }

  /** A lesson the live listing shows. */
  function Listed(user: string): LessonRow -> bool {
    (l: LessonRow) => l.userId == user && l.deletedAt == 0
  }

  /** A lesson the trash listing shows. */
  function Trashed(user: string): LessonRow -> bool {
    (l: LessonRow) => l.userId == user && l.deletedAt > 0
  }

  /** GetLessonsHandler: the caller's live lessons with their live cards. */
  method GetLessons(db: Database, user: string) returns (status: int, r: seq<Types.Lesson>)
    requires db.Valid()
    ensures status == StatusOk
    ensures forall i :: 0 <= i < |r| ==>
      r[i].id in db.lessons && Listed(user)(db.lessons[r[i].id]) && r[i] == WireLesson(db.lessons[r[i].id], r[i].flashcards)
    ensures forall id :: id in db.lessons && Listed(user)(db.lessons[id]) ==> exists i :: 0 <= i < |r| && r[i].id == id
    ensures forall i, c :: 0 <= i < |r| ==>
      (c in r[i].flashcards <==> exists row :: row in db.cards.Values && LiveCardOf(r[i].id)(row) && WireCard(row) == c)
    ensures forall i, j :: 0 <= i < j < |r| ==> r[i].id != r[j].id
    ensures forall i :: 0 <= i < |r| ==> DistinctCards(r[i].flashcards)
  {
    r := LessonsWhere(db, Listed(user));
    status := StatusOk;
  }

  /** GetDeletedLessonsHandler: the caller's soft-deleted lessons with their live cards. */
  method GetDeletedLessons(db: Database, user: string) returns (status: int, r: seq<Types.Lesson>)
    requires db.Valid()
    ensures status == StatusOk
    ensures forall i :: 0 <= i < |r| ==>
      r[i].id in db.lessons && Trashed(user)(db.lessons[r[i].id]) && r[i] == WireLesson(db.lessons[r[i].id], r[i].flashcards)
    ensures forall id :: id in db.lessons && Trashed(user)(db.lessons[id]) ==> exists i :: 0 <= i < |r| && r[i].id == id
    ensures forall i, c :: 0 <= i < |r| ==>
      (c in r[i].flashcards <==> exists row :: row in db.cards.Values && LiveCardOf(r[i].id)(row) && WireCard(row) == c)
    ensures forall i, j :: 0 <= i < j < |r| ==> r[i].id != r[j].id
    ensures forall i :: 0 <= i < |r| ==> DistinctCards(r[i].flashcards)
  {
    r := LessonsWhere(db, Trashed(user));
    status := StatusOk;
  }

  // ----- Properties of the lesson lifecycle -----

  /**
   * Deleting a live lesson at a positive time moves it from the listing to
   * the trash, and restoring it gives back the table as it was.
   */
  lemma DeleteRestoreRoundTrip(lessons: map<string, LessonRow>, user: string, id: string, now: int)
    requires forall k :: k in lessons ==> lessons[k].id == k
    requires id in lessons && Listed(user)(lessons[id])
    requires now > 0
    ensures var deleted := ServerSync.DeleteLessonRows(lessons, user, [id], now);
      && Trashed(user)(deleted[id]) && !Listed(user)(deleted[id])
      && ServerSync.DeleteLessonRows(deleted, user, [id], 0) == lessons
  {
    var deleted := ServerSync.DeleteLessonRows(lessons, user, [id], now);
    var restored := ServerSync.DeleteLessonRows(deleted, user, [id], 0);
    assert deleted[id] == lessons[id].(deletedAt := now);
    Seqs.MapExtensional(restored, lessons);
  }

  /** Each of the caller's lessons is in exactly one of the two listings, given deletion times are never negative. */
  lemma ListingsPartition(l: LessonRow, user: string)
    requires l.userId == user && l.deletedAt >= 0
    ensures Listed(user)(l) != Trashed(user)(l)
  {
  }

  /** The first sync of a device (watermark 0) sends exactly the lessons the live listing shows. */
  lemma FirstSyncSendsListed(cards: map<string, CardRow>, user: string, l: LessonRow)
    ensures ServerSync.SentLesson(cards, user, 0)(l) == Listed(user)(l)
  {
  }

  /**
   * An edit made through the update endpoint reaches every client whose
   * watermark is older than the edit, provided the lesson is live.
   */
  lemma UpdatedLessonSent(cards: map<string, CardRow>, user: string, l: LessonRow, ts: int)
    requires l.userId == user && l.deletedAt == 0 && l.lastUpdated > ts
    ensures ServerSync.SentLesson(cards, user, ts)(l)
  {
  }
}
