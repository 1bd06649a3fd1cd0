/**
 * The client's on-device database: a lessons table keyed by lesson id, two
 * tombstone tables recording when a lesson or a card was deleted locally,
 * and the sync watermark kept beside them (0 while no sync has succeeded).
 */
module LocalStore {
  import opened Types
  import opened Wrappers
  import Seqs

  class Store {
    /** Lesson table, keyed by `id`. */
    var lessons: map<string, Lesson>
    /** Lesson tombstones: id to deletion time. */
    var deletedLessons: map<string, int>
    /** Card tombstones: id to deletion time. */
    var deletedCards: map<string, int>
    /** Time of the last successful sync as the server reported it; 0 when unset. */
    var lastSync: int

    /** The lessons table is keyed by the lesson's own id. */
    ghost predicate Valid()
      reads this
    {
      forall id :: id in lessons ==> lessons[id].id == id
    }

    constructor ()
      ensures Valid()
      ensures lessons == map[] && deletedLessons == map[] && deletedCards == map[] && lastSync == 0
    {
      lessons, deletedLessons, deletedCards, lastSync := map[], map[], map[], 0;
    }

    /** saveLesson: insert or replace the lesson under its id. */
    method SaveLesson(l: Lesson)
      requires Valid()
      modifies this
      ensures Valid()
      ensures lessons == old(lessons)[l.id := l]
      ensures deletedLessons == old(deletedLessons) && deletedCards == old(deletedCards) && lastSync == old(lastSync)
    {
      lessons := lessons[l.id := l];
    }

    /** getLesson: the lesson stored under `id`, if any. */
    function GetLesson(id: string): (r: Option<Lesson>)
      reads this
      requires Valid()
      ensures r.Some? <==> id in lessons
      ensures r.Some? ==> r.value.id == id && r.value == lessons[id]
    {
      if id in lessons then Some(lessons[id]) else None
    }

    /**
     * getAllLessons: every stored lesson once, in an order the store chooses;
     * keying the result by lesson id gives back the table.
     */
    method GetAllLessons() returns (r: seq<Lesson>)
      requires Valid()
      ensures |r| == |lessons|
      ensures Seqs.IndexBy(r, LessonKey) == lessons
      ensures forall i :: 0 <= i < |r| ==> r[i].id in lessons && lessons[r[i].id] == r[i]
      ensures forall i, j :: 0 <= i < j < |r| ==> r[i].id != r[j].id
    {
      var keys := Seqs.Enumerate(lessons.Keys);
      r := [];
      var i := 0;
      while i < |keys|
        invariant 0 <= i <= |keys|
        invariant |r| == i
        invariant forall k :: 0 <= k < i ==> r[k] == lessons[keys[k]] && r[k].id == keys[k]
      {
        r := r + [lessons[keys[i]]];
        i := i + 1;
      }
      forall id | id in lessons ensures exists k :: 0 <= k < |r| && r[k].id == id {
        var k :| 0 <= k < |keys| && keys[k] == id;
        assert r[k].id == id;
      }
      KeyedReadIndex(r, lessons);
    }

    /** deleteLesson: remove the lesson and record a tombstone stamped `now`. */
    method DeleteLesson(id: string, now: int)
      requires Valid()
      modifies this
      ensures Valid()
      ensures lessons == old(lessons) - {id}
      ensures deletedLessons == old(deletedLessons)[id := now]
      ensures deletedCards == old(deletedCards) && lastSync == old(lastSync)
    {
      lessons := lessons - {id};
      deletedLessons := deletedLessons[id := now];
    }

    /** saveDeletedCardId: record a card tombstone stamped `now`. */
    method SaveDeletedCardId(id: string, now: int)
      modifies this
      ensures deletedCards == old(deletedCards)[id := now]
      ensures lessons == old(lessons) && deletedLessons == old(deletedLessons) && lastSync == old(lastSync)
    {
      deletedCards := deletedCards[id := now];
    }

    /** getDeletedLessonIds: the lessons deleted strictly after `since`, each once. */
    method GetDeletedLessonIds(since: int) returns (ids: seq<string>)
      ensures forall id :: id in ids <==> id in DeletedSince(deletedLessons, since)
      ensures Seqs.NoDuplicates(ids)
    {
      ids := TombstonesSince(deletedLessons, since);
    }

    /** getDeletedCardIds: the cards deleted strictly after `since`, each once. */
    method GetDeletedCardIds(since: int) returns (ids: seq<string>)
      ensures forall id :: id in ids <==> id in DeletedSince(deletedCards, since)
      ensures Seqs.NoDuplicates(ids)
    {
      ids := TombstonesSince(deletedCards, since);
    }

    /** setLastSyncTime: record the watermark of a successful sync. */
    method SetLastSyncTime(ts: int)
      modifies this
      ensures lastSync == ts
      ensures lessons == old(lessons) && deletedLessons == old(deletedLessons) && deletedCards == old(deletedCards)
    {
      lastSync := ts;
    }

    /** resetSyncTime: forget the watermark, so the next sync is a full one. */
    method ResetSyncTime()
      modifies this
      ensures lastSync == 0
      ensures lessons == old(lessons) && deletedLessons == old(deletedLessons) && deletedCards == old(deletedCards)
    {
      lastSync := 0;
    }
  }

  /** Keying a full read of a table by lesson id gives back the table. */
  lemma KeyedReadIndex(r: seq<Lesson>, table: map<string, Lesson>)
    requires forall i :: 0 <= i < |r| ==> r[i].id in table && table[r[i].id] == r[i]
    requires forall i, j :: 0 <= i < j < |r| ==> r[i].id != r[j].id
    requires forall id :: id in table ==> exists k :: 0 <= k < |r| && r[k].id == id
    ensures Seqs.IndexBy(r, LessonKey) == table
  {
    var m := Seqs.IndexBy(r, LessonKey);
    forall id | id in table ensures id in m && m[id] == table[id] {
      ReadEntryIndexed(r, table, id);
    }
    forall id | id in m ensures id in table {
      Seqs.IndexByKeys(r, LessonKey, id);
    }
    Seqs.MapExtensional(m, table);
  }

  lemma ReadEntryIndexed(r: seq<Lesson>, table: map<string, Lesson>, id: string)
    requires forall i :: 0 <= i < |r| ==> r[i].id in table && table[r[i].id] == r[i]
    requires forall i, j :: 0 <= i < j < |r| ==> r[i].id != r[j].id
    requires exists k :: 0 <= k < |r| && r[k].id == id
    ensures id in Seqs.IndexBy(r, LessonKey) && Seqs.IndexBy(r, LessonKey)[id] == table[id]
  {
    var k :| 0 <= k < |r| && r[k].id == id;
    assert forall j :: k < j < |r| ==> LessonKey(r[j]) != LessonKey(r[k]);
    Seqs.IndexByLast(r, LessonKey, k);
  }

  /** The ids whose tombstone is newer than `since`. */
  function DeletedSince(tombstones: map<string, int>, since: int): (r: set<string>)
    ensures forall id :: id in r <==> id in tombstones && tombstones[id] > since
  {
    set id | id in tombstones && tombstones[id] > since
  }

  /** A tombstone table read back in full and filtered on its timestamp. */
  method TombstonesSince(tombstones: map<string, int>, since: int) returns (ids: seq<string>)
    ensures forall id :: id in ids <==> id in DeletedSince(tombstones, since)
    ensures Seqs.NoDuplicates(ids)
  {
    var all := Seqs.Enumerate(tombstones.Keys);
    ids := Seqs.Filter(all, id => id in tombstones && tombstones[id] > since);
    Seqs.FilterNoDuplicates(all, id => id in tombstones && tombstones[id] > since);
  }

  /** A tombstone once written is reported by every later query made with an older watermark. */
  lemma TombstoneReported(tombstones: map<string, int>, id: string, now: int, since: int)
    requires since < now
    ensures id in DeletedSince(tombstones[id := now], since)
    ensures forall other :: other in DeletedSince(tombstones, since) && other != id ==>
      other in DeletedSince(tombstones[id := now], since)
  {
  }

  /** The lessons table after `saveLesson` of each of `ls` in turn. */
  function SavedAll(m: map<string, Lesson>, ls: seq<Lesson>): map<string, Lesson>
  {
    if |ls| == 0 then m
    else SavedAll(m, ls[..|ls| - 1])[ls[|ls| - 1].id := ls[|ls| - 1]]
  }

  /** Saving a batch adds exactly the batch's ids to the table's keys. */
  lemma {:induction false} SavedAllKeys(m: map<string, Lesson>, ls: seq<Lesson>)
    ensures SavedAll(m, ls).Keys == m.Keys + set l | l in ls :: l.id
  {
    if |ls| > 0 {
      var init := ls[..|ls| - 1];
      SavedAllKeys(m, init);
      assert ls == init + [ls[|ls| - 1]];
    }
  }

  /** After saving a batch, a lesson id holds the last lesson of the batch with that id. */
  lemma {:induction false} SavedAllLast(m: map<string, Lesson>, ls: seq<Lesson>, i: nat)
    requires i < |ls|
    requires forall j :: i < j < |ls| ==> ls[j].id != ls[i].id
    ensures ls[i].id in SavedAll(m, ls) && SavedAll(m, ls)[ls[i].id] == ls[i]
  {
    if i < |ls| - 1 {
      SavedAllLast(m, ls[..|ls| - 1], i);
    }
  }

  /** Saving never removes a lesson id. */
  lemma {:induction false} SavedAllGrows(m: map<string, Lesson>, ls: seq<Lesson>, id: string)
    requires id in m
    ensures id in SavedAll(m, ls)
  {
    if |ls| > 0 {
      SavedAllGrows(m, ls[..|ls| - 1], id);
    }
  }

  /** An id the batch does not mention keeps its old lesson, or stays absent. */
  lemma {:induction false} SavedAllUntouched(m: map<string, Lesson>, ls: seq<Lesson>, id: string)
    requires forall k :: 0 <= k < |ls| ==> ls[k].id != id
    ensures id in SavedAll(m, ls) <==> id in m
    ensures id in m ==> SavedAll(m, ls)[id] == m[id]
  {
    if |ls| > 0 {
      SavedAllUntouched(m, ls[..|ls| - 1], id);
    }
  }

  /** Saving keeps the table keyed by lesson id. */
  lemma {:induction false} SavedAllValid(m: map<string, Lesson>, ls: seq<Lesson>)
    requires forall id :: id in m ==> m[id].id == id
    ensures forall id :: id in SavedAll(m, ls) ==> SavedAll(m, ls)[id].id == id
  {
    if |ls| > 0 {
      SavedAllValid(m, ls[..|ls| - 1]);
    }
  }
}
