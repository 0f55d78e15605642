/** A student's progress through a course, after backend/src/models/Progress.js: the lessons
    completed so far and the completion percentage that the pre-save hook recomputes from
    the course's lesson count. */
module ProgressModel {
  import opened Prelude
  import opened Primitives
  import opened CourseModel

  /** One entry of `lessons_completed`; an absent quiz score is `undefined`. */
  datatype LessonCompletion = LessonCompletion(chapterId: Id, lessonIndex: real, contentCompleted: bool,
                                               quizScore: Option<real>, completedAt: int)

  // ---------------------------------------------------------------------------
  // The two sums

  /** The number of lessons over all chapters. */
  function LessonCount(chapters: seq<Chapter>): nat
  {
    if chapters == [] then 0 else |chapters[0].lessons| + LessonCount(chapters[1..])
  }

  lemma {:induction false} LessonCountAppend(a: seq<Chapter>, b: seq<Chapter>)
    ensures LessonCount(a + b) == LessonCount(a) + LessonCount(b)
  {
    if a == [] {
      assert a + b == b;
    } else {
      assert (a + b)[1..] == a[1..] + b;
      LessonCountAppend(a[1..], b);
    }
  }

  /** The items to complete: every lesson has a content part and a quiz part. */
  function TotalItems(chapters: seq<Chapter>): nat
  {
    LessonCount(chapters) * 2
  }

  /** There is nothing to complete exactly when no chapter has a lesson. */
  lemma {:induction false} TotalItemsZero(chapters: seq<Chapter>)
    ensures TotalItems(chapters) == 0 <==> forall i :: 0 <= i < |chapters| ==> chapters[i].lessons == []
  {
    if chapters != [] {
      TotalItemsZero(chapters[1..]);
      assert forall i :: 1 <= i < |chapters| ==> chapters[i] == chapters[1..][i - 1];
    }
  }

  /** An entry counts its viewed content and its recorded quiz score. */
  function ItemsOf(e: LessonCompletion): nat
  {
    (if e.contentCompleted then 1 else 0) + (if e.quizScore.Some? then 1 else 0)
  }

  function CompletedItems(entries: seq<LessonCompletion>): nat
  {
    if entries == [] then 0 else ItemsOf(entries[0]) + CompletedItems(entries[1..])
  }

  /** Each entry counts for at most two items, and only fully finished entries count two. */
  lemma {:induction false} CompletedItemsBound(entries: seq<LessonCompletion>)
    ensures CompletedItems(entries) <= 2 * |entries|
    ensures CompletedItems(entries) == 2 * |entries| <==>
              forall i :: 0 <= i < |entries| ==> entries[i].contentCompleted && entries[i].quizScore.Some?
  {
    if entries != [] {
      CompletedItemsBound(entries[1..]);
      assert forall i :: 1 <= i < |entries| ==> entries[i] == entries[1..][i - 1];
    }
  }

  /** Recording one more entry adds its items. */
  lemma {:induction false} CompletedItemsAppend(entries: seq<LessonCompletion>, e: LessonCompletion)
    ensures CompletedItems(entries + [e]) == CompletedItems(entries) + ItemsOf(e)
  {
    if entries == [] {
      assert entries + [e] == [e];
    } else {
      assert (entries + [e])[1..] == entries[1..] + [e];
      CompletedItemsAppend(entries[1..], e);
    }
  }

  // ---------------------------------------------------------------------------
  // Math.round((completed / total) * 100)

  /** The percentage rounded to the nearest integer, halves upwards: 100·completed/total
      lies in [r - 1/2, r + 1/2), written without division as below. It lies within 0..100
      when no more items are completed than exist. */
  function RoundedPercentage(completed: nat, total: nat): (r: nat)
    requires total > 0
    ensures 2 * total * r <= 200 * completed + total < 2 * total * (r + 1)
    ensures completed <= total ==> r <= 100
  {
    var r := (200 * completed + total) / (2 * total);
    RoundingBounds(completed, total, r);
    r
  }

  lemma RoundingBounds(completed: nat, total: nat, r: nat)
    requires total > 0 && r == (200 * completed + total) / (2 * total)
    ensures 2 * total * r <= 200 * completed + total < 2 * total * (r + 1)
    ensures completed <= total ==> r <= 100
  {
    NearestFromDivision(200 * completed + total, 2 * total, r);
    if completed <= total && r > 100 {
      MulMonotone(2 * total, 101, r);
      assert false;
    }
  }

  /** In exact arithmetic: 100·completed/total is within one half of the result, with
      halves rounded upwards, as Math.round does. */
  lemma RoundedPercentageIsNearest(completed: nat, total: nat)
    requires total > 0
    ensures var r := RoundedPercentage(completed, total) as real;
            r - 0.5 <= 100.0 * (completed as real) / (total as real) < r + 0.5
  {
    var ri := RoundedPercentage(completed, total);
    CastMul(2 * total, ri);
    CastMul(2 * total, ri + 1);
    CastMul(200, completed);
    NearestReal(ri as real, completed as real, total as real);
  }

  lemma NearestReal(r: real, c: real, t: real)
    requires t > 0.0 && 2.0 * t * r <= 200.0 * c + t < 2.0 * t * (r + 1.0)
    ensures r - 0.5 <= 100.0 * c / t < r + 0.5
  {
    var x := 100.0 * c / t;
    assert x * t == 100.0 * c;
    assert 2.0 * t * r == 2.0 * (r * t) && 2.0 * t * (r + 1.0) == 2.0 * (r * t) + 2.0 * t;
    Bracket(r * t, x * t, t, c);
    assert (r - 0.5) * t == r * t - 0.5 * t && (r + 0.5) * t == r * t + 0.5 * t;
    RealCancel(r - 0.5, x, t);
    RealCancelStrict(x, r + 0.5, t);
  }

  lemma Bracket(rt: real, xt: real, t: real, c: real)
    requires 2.0 * rt <= 200.0 * c + t < 2.0 * rt + 2.0 * t && xt == 100.0 * c
    ensures rt - 0.5 * t <= xt < rt + 0.5 * t
  {
  }

  lemma CastMul(a: int, b: int)
    ensures (a * b) as real == (a as real) * (b as real)
  {
  }

  lemma RealCancel(a: real, b: real, t: real)
    requires t > 0.0 && a * t <= b * t
    ensures a <= b
  {
    assert (b - a) * t >= 0.0;
  }

  lemma RealCancelStrict(a: real, b: real, t: real)
    requires t > 0.0 && a * t < b * t
    ensures a < b
  {
    assert (b - a) * t > 0.0;
  }

  /** The quotient brackets the dividend. */
  lemma NearestFromDivision(n: nat, d: nat, q: nat)
    requires d > 0 && q == n / d
    ensures d * q <= n < d * (q + 1)
  {
    var m := n % d;
    assert n == d * q + m && 0 <= m < d;
    assert d * (q + 1) == d * q + d;
  }

  lemma MulMonotone(d: nat, x: nat, y: nat)
    requires x <= y
    ensures d * x <= d * y
  {
    assert d * y == d * x + d * (y - x);
  }

  /** More completed items never lower the percentage. */
  lemma RoundedPercentageMonotone(c1: nat, c2: nat, total: nat)
    requires total > 0 && c1 <= c2
    ensures RoundedPercentage(c1, total) <= RoundedPercentage(c2, total)
  {
    var q1, q2 := RoundedPercentage(c1, total), RoundedPercentage(c2, total);
    if q1 > q2 {
      MulMonotone(2 * total, q2 + 1, q1);
      assert false;
    }
  }

  /** The computation does not clamp: with repeated entries for the single lesson of a course
      the percentage goes past 100. */
  lemma PercentageNotClamped()
    ensures RoundedPercentage(4, 2) == 200
  {
  }

  // ---------------------------------------------------------------------------
  // Schema bounds

  /** The paths the schema's min/max validators reject: a quiz score or the percentage
      outside 0..100. */
  function ProgressErrors(entries: seq<LessonCompletion>, percentage: real): (r: seq<string>)
    ensures r == [] <==> 0.0 <= percentage <= 100.0
                         && forall i :: 0 <= i < |entries| && entries[i].quizScore.Some? ==>
                              0.0 <= entries[i].quizScore.value <= 100.0
  {
    AllErrors(entries, (e: LessonCompletion) =>
                Check(e.quizScore.Some? && !(0.0 <= e.quizScore.value <= 100.0), "quiz_score"))
    + Check(!(0.0 <= percentage <= 100.0), "percentage_completed")
  }

  // ---------------------------------------------------------------------------
  // The progress object

  class Progress {
    const userId: Id
    const courseId: Id
    var lessonsCompleted: seq<LessonCompletion>
    var percentageCompleted: real

    constructor (userId: Id, courseId: Id)
      ensures this.userId == userId && this.courseId == courseId
      ensures lessonsCompleted == [] && percentageCompleted == 0.0
    {
      this.userId := userId;
      this.courseId := courseId;
      lessonsCompleted := [];
      percentageCompleted := 0.0;
    }

    /** calculatePercentage, given the course that `findById(course_id)` found: no course
        leaves the percentage as it was, a course without lessons sets it to 0, and otherwise
        it becomes the rounded share of completed items. */
    method CalculatePercentage(course: Option<CourseDoc>)
      modifies this`percentageCompleted
      ensures course.None? ==> percentageCompleted == old(percentageCompleted)
      ensures course.Some? && TotalItems(course.value.chapters) == 0 ==> percentageCompleted == 0.0
      ensures course.Some? && TotalItems(course.value.chapters) > 0 ==>
                percentageCompleted
                == RoundedPercentage(CompletedItems(lessonsCompleted), TotalItems(course.value.chapters)) as real
      ensures course.Some? && CompletedItems(lessonsCompleted) <= TotalItems(course.value.chapters) ==>
                0.0 <= percentageCompleted <= 100.0
    {
      if course.None? {
        return;
      }
      var total := TotalItems(course.value.chapters);
      if total == 0 {
        percentageCompleted := 0.0;
        return;
      }
      var completed := CompletedItems(lessonsCompleted);
      percentageCompleted := RoundedPercentage(completed, total) as real;
    }
  }
}
