/**
 * The review session of the web client's flashcard game: a queue of the
 * cards due at the start, shuffled; each rating takes the head off, and an
 * AGAIN puts the card back a few places further on. The shuffles and the
 * mixed orientation draw on randomness, which enters as parameters: the
 * index picks of a shuffle and the coin of a mixed orientation.
 */
module ReviewQueue {
  import opened Wrappers
  import Types
  import Srs
  import Seqs

  datatype Mode = Standard | Reverse | Mixed

  /** handleToggleMode: standard, then reverse, then mixed, then standard again. */
  function NextMode(m: Mode): (n: Mode)
    ensures n != m
  {
    match m
    case Standard => Reverse
    case Reverse => Mixed
    case Mixed => Standard
  }

  /** Three toggles come back to the starting mode, and each mode is reached from exactly one. */
  lemma ModeCycle(m: Mode, m': Mode)
    ensures NextMode(NextMode(NextMode(m))) == m
    ensures NextMode(m) == NextMode(m') ==> m == m'
  {
  }

  /** determineNextOrientation: whether the next card shows its back first. */
  function Orientation(m: Mode, coin: bool): bool {
    match m
    case Standard => false
    case Reverse => true
    case Mixed => coin
  }

  /** The session's due filter: cards whose review time has come. */
  function DueAt(now: int): Types.Flashcard -> bool {
    (c: Types.Flashcard) => Types.IsDue(c, now)
  }

  /**
   * A shuffle: repeatedly moves the element at `picks[i]` (taken modulo what
   * is left, 0 once the picks run out) to the output. Whatever the picks,
   * the output is a permutation of the input.
   */
  method Shuffle<T>(s: seq<T>, picks: seq<nat>) returns (out: seq<T>)
    ensures multiset(out) == multiset(s)
  {
    out := [];
    var rest := s;
    var i := 0;
    while |rest| > 0
      invariant multiset(out) + multiset(rest) == multiset(s)
      decreases |rest|
    {
      var j := (if i < |picks| then picks[i] else 0) % |rest|;
      assert rest == rest[..j] + [rest[j]] + rest[j + 1..];
      out := out + [rest[j]];
      rest := rest[..j] + rest[j + 1..];
      i := i + 1;
    }
  }

  /** The queue after an AGAIN: the head moves to index min(n - 1, 3), the cards it passes move up by one. */
  function Requeue<T>(q: seq<T>): seq<T>
    requires |q| > 0
  {
    var rest := q[1..];
    var k := if |rest| < 3 then |rest| else 3;
    rest[..k] + [q[0]] + rest[k..]
  }

  /** An AGAIN keeps every card of the queue, puts the head at min(n - 1, 3) and leaves the tail beyond it in place. */
  lemma RequeueShape<T>(q: seq<T>)
    requires |q| > 0
    ensures var r := Requeue(q); var k := if |q| - 1 < 3 then |q| - 1 else 3;
      && |r| == |q|
      && multiset(r) == multiset(q)
      && r[k] == q[0]
      && (forall i :: 0 <= i < k ==> r[i] == q[i + 1])
      && (forall i :: k < i < |q| ==> r[i] == q[i])
  {
    var rest := q[1..];
    assert q == [q[0]] + rest;
    var k := if |rest| < 3 then |rest| else 3;
    assert rest == rest[..k] + rest[k..];
  }

  class Session {
    /** The cards the game was opened with. */
    var cards: seq<Types.Flashcard>
    var queue: seq<Types.Flashcard>
    var completedSession: nat
    var finished: bool
    var isFlipped: bool
    var mode: Mode
    var isCurrentReversed: bool

    /** The session never reports itself finished while cards are waiting. */
    ghost predicate Valid()
      reads this
    {
      finished ==> queue == []
    }

    /** The game opened on `cards` at time `now`: the effect that fills the queue, in mixed mode. */
    constructor (cards: seq<Types.Flashcard>, now: int, picks: seq<nat>, coin: bool)
      ensures Valid()
      ensures this.cards == cards && mode == Mixed && isCurrentReversed == coin
      ensures multiset(queue) == multiset(Seqs.Filter(cards, DueAt(now)))
      ensures completedSession == 0 && !finished && !isFlipped
    {
      this.cards := cards;
      mode := Mixed;
      var due := Seqs.Filter(cards, DueAt(now));
      var shuffled := Shuffle(due, picks);
      queue := shuffled;
      completedSession := 0;
      finished := false;
      isFlipped := false;
      isCurrentReversed := Orientation(Mixed, coin);
    }

    /** The same effect when the game is handed new cards; the mode stays and the orientation is drawn as if mixed. */
    method Load(newCards: seq<Types.Flashcard>, now: int, picks: seq<nat>, coin: bool)
      modifies this
      ensures Valid()
      ensures cards == newCards && mode == old(mode) && isCurrentReversed == coin
      ensures multiset(queue) == multiset(Seqs.Filter(newCards, DueAt(now)))
      ensures completedSession == 0 && !finished && !isFlipped
    {
      cards := newCards;
      var due := Seqs.Filter(newCards, DueAt(now));
      queue := Shuffle(due, picks);
      finished := false;
      completedSession := 0;
      isFlipped := false;
      isCurrentReversed := Orientation(Mixed, coin);
    }

    /**
     * handleRate: with an empty queue nothing happens. Otherwise the head is
     * reviewed (the updated card is handed back for saving), then taken off
     * the queue; an AGAIN puts the pre-review head back at min(n - 1, 3)
     * instead of counting it. The session is finished once the queue is
     * empty.
     */
    method Rate(grade: Srs.Grade, now: int, coin: bool) returns (saved: Option<Types.Flashcard>)
      requires Valid()
      modifies this
      ensures Valid()
      ensures cards == old(cards) && mode == old(mode)
      ensures old(queue) == [] ==>
        saved.None? && queue == old(queue) && completedSession == old(completedSession)
        && finished == old(finished) && isFlipped == old(isFlipped) && isCurrentReversed == old(isCurrentReversed)
      ensures old(queue) != [] ==>
        && saved == Some(Srs.CalculateNextReview(old(queue)[0], grade, now))
        && !isFlipped && isCurrentReversed == Orientation(mode, coin)
        && (grade == Srs.Again ==> queue == Requeue(old(queue)) && completedSession == old(completedSession))
        && (grade != Srs.Again ==> queue == old(queue)[1..] && completedSession == old(completedSession) + 1)
        && (finished <==> queue == [])
    {
      if |queue| == 0 {
        return None;
      }
      var currentCard := queue[0];
      var updatedCard := Srs.CalculateNextReview(currentCard, grade, now);
      saved := Some(updatedCard);
      isFlipped := false;
      var newQueue := queue[1..];
      if grade == Srs.Again {
        var reInsertIndex := if |newQueue| < 3 then |newQueue| else 3;
        newQueue := newQueue[..reInsertIndex] + [currentCard] + newQueue[reInsertIndex..];
      } else {
        completedSession := completedSession + 1;
      }
      queue := newQueue;
      isCurrentReversed := Orientation(mode, coin);
      if |newQueue| == 0 {
        finished := true;
      }
    }

    /** handleToggleMode: the next mode of the cycle, and an orientation drawn for it. */
    method ToggleMode(coin: bool)
      modifies this
      ensures mode == NextMode(old(mode)) && isCurrentReversed == Orientation(mode, coin)
      ensures cards == old(cards) && queue == old(queue) && completedSession == old(completedSession)
      ensures finished == old(finished) && isFlipped == old(isFlipped)
    {
      mode := NextMode(mode);
      isCurrentReversed := Orientation(mode, coin);
    }

    /** handleRestartAll: every card is queued again, due or not, and the counter starts over. */
    method RestartAll(picks: seq<nat>, coin: bool)
      modifies this
      ensures Valid()
      ensures multiset(queue) == multiset(cards) && cards == old(cards)
      ensures !finished && completedSession == 0
      ensures mode == old(mode) && isCurrentReversed == Orientation(mode, coin) && isFlipped == old(isFlipped)
    {
      queue := Shuffle(cards, picks);
      finished := false;
      completedSession := 0;
      isCurrentReversed := Orientation(mode, coin);
    }
  }

  /** An AGAIN never ends a session: the queue keeps its length, so it is not empty. */
  lemma AgainNeverFinishes(q: seq<Types.Flashcard>)
    requires |q| > 0
    ensures |Requeue(q)| == |q| > 0
  {
    RequeueShape(q);
  }

  /**
   * The card put back after an AGAIN is the one shown, not the reviewed
   * one: unless it was last updated at the very moment of the review, its
   * queued copy still has the old schedule and timestamp.
   */
  lemma StaleCardRequeued(q: seq<Types.Flashcard>, now: int)
    requires |q| > 0 && q[0].lastUpdated != now
    ensures var k := if |q| - 1 < 3 then |q| - 1 else 3;
      Requeue(q)[k] != Srs.CalculateNextReview(q[0], Srs.Again, now)
  {
    RequeueShape(q);
  }
}
