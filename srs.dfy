/**
 * The spaced-repetition scheduler, a variant of SuperMemo SM-2: a pure map
 * from (card, grade, now) to the card's next schedule, the initial schedule
 * of a new card and the interval preview shown on the rating buttons.
 * The ease factor is an exact real; Math.round(x) is floor(x + 0.5).
 */
module Srs {
  import opened Types
  import opened Wrappers
  import Strings

  /** The user's rating of one recall, ordinal 0..3 in the source. */
  datatype Grade = Again | Hard | Good | Easy

  /** Milliseconds in a day (24 * 60 * 60 * 1000). */
  const DayMs: int := 86_400_000

  /** The ease factor below which no rating can push a card. */
  const MinEfactor: real := 1.3

  /** The ease factor of a new card. */
  const InitialEfactor: real := 2.5

  /** The five scheduling fields of a card. */
  datatype SrsState = SrsState(interval: int, repetition: int, efactor: real, nextReview: int, lastUpdated: int)

  /** Schedule of a new card: never reviewed and due at once. */
  function CreateInitialSrsState(now: int): (s: SrsState)
    ensures s.interval == 0 && s.repetition == 0 && s.efactor == InitialEfactor
    ensures s.nextReview == now && s.lastUpdated == now
  {
    SrsState(0, 0, 2.5, now, now)
  }

  /** A card carrying the initial schedule, as the card-adding screens build it. */
  function NewCard(id: string, front: string, back: string, isUserCreated: bool, now: int): (c: Flashcard)
    ensures c.id == id && c.front == front && c.back == back && c.isUserCreated == isUserCreated
    ensures StateOf(c) == CreateInitialSrsState(now)
  {
    var s := CreateInitialSrsState(now);
    Flashcard(id, front, back, isUserCreated, s.interval, s.repetition, s.efactor, s.nextReview, s.lastUpdated)
  }

  function StateOf(c: Flashcard): SrsState {
    SrsState(c.interval, c.repetition, c.efactor, c.nextReview, c.lastUpdated)
  }

  /** SM-2 quality score: HARD 3, GOOD 4, EASY 5 (AGAIN keeps the initial 0). */
  function Quality(g: Grade): int {
    match g
    case Again => 0
    case Hard => 3
    case Good => 4
    case Easy => 5
  }

  /** Math.round for the non-negative products it is applied to. */
  function Round(x: real): int {
    (x + 0.5).Floor
  }

  /** `Math.round(interval * efactor)`: the interval after the second repetition. */
  function Scaled(interval: int, efactor: real): int {
    Round(interval as real * efactor)
  }

  /** The change SM-2 makes to the ease factor for a passing grade. */
  function EfactorDelta(g: Grade): real
    requires g != Again
  {
    var q := Quality(g) as real;
    0.1 - (5.0 - q) * (0.08 + (5.0 - q) * 0.02)
  }

  /** The three passing grades move the ease factor by -0.14, 0 and +0.1. */
  lemma EfactorDeltaValues()
    ensures EfactorDelta(Hard) == -0.14
    ensures EfactorDelta(Good) == 0.0
    ensures EfactorDelta(Easy) == 0.1
  {
  }

  function Max(a: real, b: real): real {
    if a < b then b else a
  }

  /** calculateNextReview: the card after a review graded `grade` at time `now`. */
  function CalculateNextReview(card: Flashcard, grade: Grade, now: int): (r: Flashcard)
    ensures r.id == card.id && r.front == card.front && r.back == card.back
    ensures r.isUserCreated == card.isUserCreated
    ensures r.lastUpdated == now
    ensures grade == Again ==>
      r.repetition == 0 && r.interval == 0 && r.nextReview == now && r.efactor == card.efactor
    ensures grade == Hard ==> r.efactor == Max(MinEfactor, card.efactor - 0.14)
    ensures grade == Good ==> r.efactor == Max(MinEfactor, card.efactor)
    ensures grade == Easy ==> r.efactor == Max(MinEfactor, card.efactor + 0.1)
    ensures grade != Again ==> r.repetition == card.repetition + 1
    ensures grade != Again ==>
      (r.interval == if r.repetition == 1 then 1
                     else if r.repetition == 2 then 6
                     else Scaled(card.interval, r.efactor))
    ensures grade != Again ==> r.nextReview == now + r.interval * DayMs
  {
    var efactor :=
      if grade != Again then
        var e := card.efactor + (0.1 - (5 - Quality(grade)) as real * (0.08 + (5 - Quality(grade)) as real * 0.02));
        if e < 1.3 then 1.3 else e
      else card.efactor;
    var repetition := if grade == Again then 0 else card.repetition + 1;
    var interval :=
      if grade == Again then 0
      else if repetition == 1 then 1
      else if repetition == 2 then 6
      else Scaled(card.interval, efactor);
    var nextReview := if grade == Again then now else now + interval * 24 * 60 * 60 * 1000;
    card.(interval := interval, repetition := repetition, efactor := efactor,
          nextReview := nextReview, lastUpdated := now)
  }

  /**
   * The schedule invariant of every card that started from the initial state:
   * the ease factor never drops below 1.3, and the repetition count determines
   * the interval's range (0 only at repetition 0, 1 exactly at repetition 1,
   * at least 6 afterwards).
   */
  ghost predicate Scheduled(c: Flashcard) {
    && c.efactor >= MinEfactor
    && c.repetition >= 0
    && (c.repetition == 0 <==> c.interval == 0)
    && (c.repetition == 1 <==> c.interval == 1)
    && (c.repetition >= 2 ==> c.interval >= 6)
  }

  lemma InitialScheduled(id: string, front: string, back: string, isUserCreated: bool, now: int)
    ensures Scheduled(NewCard(id, front, back, isUserCreated, now))
  {
  }

  /** One review of any grade keeps the schedule invariant. */
  lemma ReviewKeepsScheduled(c: Flashcard, grade: Grade, now: int)
    requires Scheduled(c)
    ensures Scheduled(CalculateNextReview(c, grade, now))
  {
    var r := CalculateNextReview(c, grade, now);
    if grade != Again && r.repetition >= 3 {
      assert c.interval >= 6;
      assert c.interval as real * r.efactor >= 6.0 * 1.3 by {
        MulMono(c.interval as real, 6.0, r.efactor, 1.3);
      }
    }
  }

  lemma MulMono(a: real, a0: real, b: real, b0: real)
    requires a >= a0 >= 0.0 && b >= b0 >= 0.0
    ensures a * b >= a0 * b0
  {
    assert a * b >= a0 * b;
    assert a0 * b >= a0 * b0;
  }

  /** The card after a sequence of reviews, the i-th graded grades[i] at times[i]. */
  function ReviewAll(c: Flashcard, grades: seq<Grade>, times: seq<int>): Flashcard
    requires |grades| == |times|
    decreases |grades|
  {
    if |grades| == 0 then c
    else ReviewAll(CalculateNextReview(c, grades[0], times[0]), grades[1..], times[1..])
  }

  /**
   * From a new card, under any sequence of grades, the ease factor stays at or
   * above 1.3 and repetition is 0 exactly when the interval is 0.
   */
  lemma {:induction false} ReviewsFromNewCard(id: string, front: string, back: string, isUserCreated: bool,
                                             created: int, grades: seq<Grade>, times: seq<int>)
    requires |grades| == |times|
    ensures var c := ReviewAll(NewCard(id, front, back, isUserCreated, created), grades, times);
      c.efactor >= MinEfactor && (c.repetition == 0 <==> c.interval == 0)
  {
    InitialScheduled(id, front, back, isUserCreated, created);
    ReviewAllScheduled(NewCard(id, front, back, isUserCreated, created), grades, times);
  }

  lemma {:induction false} ReviewAllScheduled(c: Flashcard, grades: seq<Grade>, times: seq<int>)
    requires |grades| == |times|
    requires Scheduled(c)
    ensures Scheduled(ReviewAll(c, grades, times))
    decreases |grades|
  {
    if |grades| > 0 {
      ReviewKeepsScheduled(c, grades[0], times[0]);
      ReviewAllScheduled(CalculateNextReview(c, grades[0], times[0]), grades[1..], times[1..]);
    }
  }

  /** Three reviews of a new card: GOOD, GOOD, EASY give intervals 1, 6 and 16 days. */
  lemma ThreeReviewScenario(c: Flashcard, t0: int, t1: int, t2: int)
    requires StateOf(c) == CreateInitialSrsState(t0)
    ensures var r1 := CalculateNextReview(c, Good, t0);
      && r1.interval == 1 && r1.repetition == 1 && r1.efactor == 2.5 && r1.nextReview == t0 + DayMs
      && var r2 := CalculateNextReview(r1, Good, t1);
      && r2.interval == 6 && r2.repetition == 2 && r2.efactor == 2.5
      && var r3 := CalculateNextReview(r2, Easy, t2);
      && r3.interval == 16 && r3.repetition == 3 && r3.efactor == 2.6
  {
    var r2 := CalculateNextReview(CalculateNextReview(c, Good, t0), Good, t1);
    assert r2.efactor + 0.1 == 2.6;
    assert Round(6.0 * 2.6) == 16;
  }

  /** The interval the rating buttons preview; None stands for AGAIN's "< 1m". */
  function PreviewDays(currentInterval: int, grade: Grade, currentEfactor: real): (r: Option<int>)
    ensures grade == Again <==> r.None?
    ensures grade == Hard ==> r.value >= 1
  {
    if grade == Again then None
    else
      var nextInt :=
        if currentInterval == 0 then 1
        else if currentInterval == 1 then 6
        else Scaled(currentInterval, currentEfactor);
      if grade == Hard then Some(if 1 < (nextInt as real * 0.8).Floor then (nextInt as real * 0.8).Floor else 1)
      else if grade == Easy then Some((nextInt as real * 1.3).Floor)
      else Some(nextInt)
  }

  /** getNextReviewText: "< 1m" for AGAIN, otherwise the previewed day count followed by 'd'. */
  function GetNextReviewText(currentInterval: int, grade: Grade, currentEfactor: real): (t: string)
    ensures grade == Again <==> t == "< 1m"
  {
    match PreviewDays(currentInterval, grade, currentEfactor)
    case None => "< 1m"
    case Some(d) =>
      var t := Strings.IntToString(d) + "d";
      assert t[|t| - 1] == 'd';
      t
  }

  lemma PreviewGoodLater(currentInterval: int, g: Grade, currentEfactor: real)
    requires g == Good && currentInterval >= 2
    ensures PreviewDays(currentInterval, g, currentEfactor) == Some(Scaled(currentInterval, currentEfactor))
  {
  }

  /**
   * For a card on its normal schedule, the GOOD preview is exactly the interval
   * the scheduler then assigns, although the preview looks at the interval and
   * the scheduler at the repetition count.
   */
  lemma PreviewMatchesGood(c: Flashcard, now: int)
    requires Scheduled(c)
    ensures PreviewDays(c.interval, Good, c.efactor) == Some(CalculateNextReview(c, Good, now).interval)
  {
    if c.repetition >= 2 {
      var g := Good;
      var p := PreviewDays(c.interval, g, c.efactor);
      var r := CalculateNextReview(c, g, now);
      GoodIntervalLater(c, g, now);
      PreviewGoodLater(c.interval, g, c.efactor);
      assert p == Some(r.interval);
    } else {
      GoodIntervalEarly(c, now);
    }
  }

  lemma GoodIntervalLater(c: Flashcard, g: Grade, now: int)
    requires g == Good && c.repetition >= 2 && c.efactor >= MinEfactor
    ensures CalculateNextReview(c, g, now).interval == Scaled(c.interval, c.efactor)
  {
    var r := CalculateNextReview(c, g, now);
    assert r.efactor == Max(MinEfactor, c.efactor) == c.efactor;
    assert r.repetition >= 3;
  }

  lemma GoodIntervalEarly(c: Flashcard, now: int)
    requires Scheduled(c) && c.repetition < 2
    ensures PreviewDays(c.interval, Good, c.efactor) == Some(CalculateNextReview(c, Good, now).interval)
  {
    if c.repetition == 1 {
      assert c.interval == 1 && CalculateNextReview(c, Good, now).interval == 6;
    } else {
      assert c.interval == 0 && CalculateNextReview(c, Good, now).interval == 1;
    }
  }

  /**
   * The previews are ordered as the buttons are: HARD never promises more
   * days than GOOD, and EASY never fewer.
   */
  lemma PreviewOrdered(currentInterval: int, currentEfactor: real)
    requires currentInterval >= 0 && currentEfactor >= MinEfactor
    ensures PreviewDays(currentInterval, Hard, currentEfactor).value
         <= PreviewDays(currentInterval, Good, currentEfactor).value
         <= PreviewDays(currentInterval, Easy, currentEfactor).value
  {
    var b := PreviewDays(currentInterval, Good, currentEfactor).value;
    if currentInterval >= 2 {
      MulMono(currentInterval as real, 2.0, currentEfactor, 1.3);
    }
    assert b >= 1;
    assert (b as real * 0.8).Floor <= b;
    assert (b as real * 1.3).Floor >= b;
  }

  /** For HARD the preview and the scheduler disagree: 12 days previewed, 14 scheduled. */
  lemma PreviewDiffersForHard(c: Flashcard, now: int)
    requires c.interval == 6 && c.repetition == 2 && c.efactor == 2.5
    ensures PreviewDays(c.interval, Hard, c.efactor) == Some(12)
    ensures CalculateNextReview(c, Hard, now).interval == 14
  {
    assert Round(6.0 * 2.5) == 15;
    assert (15.0 * 0.8).Floor == 12;
    assert Round(6.0 * 2.36) == 14;
  }
}
