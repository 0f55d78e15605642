/** The Course document of backend/models/Course.js: the validators of its nested schemas
    (question, quiz, video, document, content, lesson, chapter, review, course), the
    enrolment and review list mutators and the average rating. Numbers are JavaScript
    numbers, modelled as reals; a required string is missing when absent or empty. */
module CourseModel {
  import opened Prelude
  import opened Primitives

  // ---------------------------------------------------------------------------
  // Documents

  datatype Question = Question(questionText: string, options: seq<string>, correctAnswerIndex: Option<real>,
                               explanation: string, imageUrl: Option<string>)

  datatype Quiz = Quiz(quizTitle: string, questions: seq<Question>)

  datatype Video = Video(videoUrl: string, description: string)

  datatype Document = Document(docUrl: string, description: string)

  datatype Content = Content(video: Option<Video>, document: Option<Document>)

  datatype Lesson = Lesson(content: Option<Content>, quiz: Option<Quiz>)

  datatype Chapter = Chapter(chapterTitle: string, lessons: seq<Lesson>)

  datatype Review = Review(userId: Id, rating: Option<real>, comment: Option<string>, createdAt: int)

  datatype CourseDoc = CourseDoc(title: string, description: string, price: Option<real>, categories: seq<string>,
                                 teacherId: Option<Id>, studentsEnrolled: seq<Id>, chapters: seq<Chapter>,
                                 reviews: seq<Review>)

  // ---------------------------------------------------------------------------
  // Validation: every schema's messages, nested documents' messages after their parent's

  /** The messages of the documents of a list, in order; none exactly when every document
      has none. */
  function AllErrors<T>(xs: seq<T>, errors: T -> seq<string>): (r: seq<string>)
    ensures r == [] <==> forall i :: 0 <= i < |xs| ==> errors(xs[i]) == []
  {
    if xs == [] then []
    else
      var rest := AllErrors(xs[1..], errors);
      assert forall i :: 1 <= i < |xs| ==> xs[i] == xs[1..][i - 1];
      errors(xs[0]) + rest
  }

  /** At least two options and an answer index that points into them. */
  function QuestionErrors(q: Question): (r: seq<string>)
    ensures r == [] <==> q.questionText != "" && |q.options| >= 2 && q.correctAnswerIndex.Some?
                         && 0.0 <= q.correctAnswerIndex.value < |q.options| as real && q.explanation != ""
  {
    Check(q.questionText == "", "Question text is required")
    + Check(|q.options| < 2, "At least 2 options are required")
    + (match q.correctAnswerIndex
       case None => ["Correct answer index is required"]
       case Some(v) => Check(!(0.0 <= v < |q.options| as real), "Correct answer index must be valid"))
    + Check(q.explanation == "", "Explanation is required")
  }

  function QuizErrors(z: Quiz): (r: seq<string>)
    ensures r == [] <==> z.quizTitle != "" && |z.questions| >= 1
                         && forall i :: 0 <= i < |z.questions| ==> QuestionErrors(z.questions[i]) == []
  {
    Check(z.quizTitle == "", "Quiz title is required")
    + Check(|z.questions| < 1, "At least one question is required")
    + AllErrors(z.questions, QuestionErrors)
  }

  function VideoErrors(v: Video): (r: seq<string>)
    ensures r == [] <==> v.videoUrl != "" && v.description != ""
  {
    Check(v.videoUrl == "", "Video URL is required") + Check(v.description == "", "Video description is required")
  }

  function DocumentErrors(d: Document): (r: seq<string>)
    ensures r == [] <==> d.docUrl != "" && d.description != ""
  {
    Check(d.docUrl == "", "Document URL is required") + Check(d.description == "", "Document description is required")
  }

  function PartErrors(c: Content): seq<string>
  {
    (match c.video case None => [] case Some(v) => VideoErrors(v))
    + (match c.document case None => [] case Some(d) => DocumentErrors(d))
  }

  const ContentRuleMessage: string := "Content must contain either a video, document, or both"

  /** The content schema's messages as written: the video-or-document rule is passed in the
      schema OPTIONS object, where Mongoose has no `validate` option, so it never runs; only
      the present video and document are checked. */
  function ContentErrorsAsWritten(c: Content): (r: seq<string>)
    ensures r == [] <==> (c.video.Some? ==> VideoErrors(c.video.value) == [])
                         && (c.document.Some? ==> DocumentErrors(c.document.value) == [])
  {
    PartErrors(c)
  }

  /** The content schema's messages with the rule in force: a video, a document or both. */
  function ContentErrors(c: Content): (r: seq<string>)
    ensures r == [] <==> (c.video.Some? || c.document.Some?)
                         && (c.video.Some? ==> VideoErrors(c.video.value) == [])
                         && (c.document.Some? ==> DocumentErrors(c.document.value) == [])
    ensures ContentErrorsAsWritten(c) != [] ==> r != []
  {
    PartErrors(c) + Check(c.video.None? && c.document.None?, ContentRuleMessage)
  }

  /** A lesson whose content is empty passes validation as written, and fails with the
      content rule. */
  lemma EmptyContentAcceptedAsWritten(z: Quiz)
    requires QuizErrors(z) == []
    ensures LessonErrorsAsWritten(Lesson(Some(Content(None, None)), Some(z))) == []
    ensures LessonErrors(Lesson(Some(Content(None, None)), Some(z))) == [ContentRuleMessage]
  {
  }

  /** Both sub-documents are required. */
  function LessonErrorsAsWritten(l: Lesson): (r: seq<string>)
    ensures r == [] <==> l.content.Some? && ContentErrorsAsWritten(l.content.value) == []
                         && l.quiz.Some? && QuizErrors(l.quiz.value) == []
  {
    (match l.content case None => ["Path `content` is required."] case Some(c) => ContentErrorsAsWritten(c))
    + (match l.quiz case None => ["Path `quiz` is required."] case Some(z) => QuizErrors(z))
  }

  function LessonErrors(l: Lesson): (r: seq<string>)
    ensures r == [] <==> l.content.Some? && ContentErrors(l.content.value) == []
                         && l.quiz.Some? && QuizErrors(l.quiz.value) == []
  {
    (match l.content case None => ["Path `content` is required."] case Some(c) => ContentErrors(c))
    + (match l.quiz case None => ["Path `quiz` is required."] case Some(z) => QuizErrors(z))
  }

  /** A chapter's messages, each lesson checked by `lessonErrors`. */
  function ChapterErrorsBy(ch: Chapter, lessonErrors: Lesson -> seq<string>): (r: seq<string>)
    ensures r == [] <==> ch.chapterTitle != "" && |ch.lessons| >= 1
                         && forall i :: 0 <= i < |ch.lessons| ==> lessonErrors(ch.lessons[i]) == []
  {
    Check(ch.chapterTitle == "", "Chapter title is required")
    + Check(|ch.lessons| < 1, "At least one lesson is required")
    + AllErrors(ch.lessons, lessonErrors)
  }

  /** The chapter schema as written: its lessons are held to the content schema without
      the content rule. */
  function ChapterErrors(ch: Chapter): (r: seq<string>)
    ensures r == [] <==> ch.chapterTitle != "" && |ch.lessons| >= 1
                         && forall i :: 0 <= i < |ch.lessons| ==> LessonErrorsAsWritten(ch.lessons[i]) == []
  {
    ChapterErrorsBy(ch, LessonErrorsAsWritten)
  }

  /** The chapter schema with the content rule in force; it admits no chapter the schema
      as written refuses. */
  function ChapterErrorsCorrected(ch: Chapter): (r: seq<string>)
    ensures r == [] <==> ch.chapterTitle != "" && |ch.lessons| >= 1
                         && forall i :: 0 <= i < |ch.lessons| ==> LessonErrors(ch.lessons[i]) == []
    ensures r == [] ==> ChapterErrors(ch) == []
  {
    ChapterErrorsBy(ch, LessonErrors)
  }

  /** A chapter whose only lesson has empty content is saved as written and refused with
      the content rule. */
  lemma EmptyContentChapterAcceptedAsWritten(title: string, z: Quiz)
    requires title != "" && QuizErrors(z) == []
    ensures ChapterErrors(Chapter(title, [Lesson(Some(Content(None, None)), Some(z))])) == []
    ensures ChapterErrorsCorrected(Chapter(title, [Lesson(Some(Content(None, None)), Some(z))])) != []
  {
  }

  const MinRating: real := 1.0
  const MaxRating: real := 5.0

  function ReviewErrors(rv: Review): (r: seq<string>)
    ensures r == [] <==> rv.rating.Some? && MinRating <= rv.rating.value <= MaxRating
  {
    match rv.rating
    case None => ["Rating is required"]
    case Some(v) =>
      Check(v < MinRating, "Rating must be at least 1") + Check(v > MaxRating, "Rating cannot be more than 5")
  }

  /** The course's own fields: trimmed title and description present, a price that is
      given and not negative, a category, a teacher and a chapter. Enrolment is not
      validated. */
  function CourseFieldErrors(c: CourseDoc): (r: seq<string>)
    ensures r == [] <==> c.title != "" && c.description != "" && c.price.Some? && c.price.value >= 0.0
                         && |c.categories| > 0 && c.teacherId.Some? && |c.chapters| > 0
  {
    Check(c.title == "", "Course title is required")
    + Check(c.description == "", "Course description is required")
    + (match c.price case None => ["Price is required"] case Some(v) => Check(v < 0.0, "Price cannot be negative"))
    + Check(|c.categories| == 0, "At least one category is required")
    + Check(c.teacherId.None?, "Path `teacher_id` is required.")
    + Check(|c.chapters| == 0, "At least one chapter is required")
  }

  /** Every chapter passes its validators. */
  predicate ChaptersValid(chapters: seq<Chapter>)
  {
    forall i :: 0 <= i < |chapters| ==> ChapterErrors(chapters[i]) == []
  }

  /** Every review passes its validators. */
  predicate ReviewsValid(reviews: seq<Review>)
  {
    forall i :: 0 <= i < |reviews| ==> ReviewErrors(reviews[i]) == []
  }

  /** A course is valid when its own fields are and all its chapters and reviews are. */
  function CourseErrors(c: CourseDoc): (r: seq<string>)
    ensures r == [] <==> CourseFieldErrors(c) == [] && ChaptersValid(c.chapters) && ReviewsValid(c.reviews)
  {
    var fields := CourseFieldErrors(c);
    var chapters := AllErrors(c.chapters, ChapterErrors);
    var reviews := AllErrors(c.reviews, ReviewErrors);
    EmptyConcat3(fields, chapters, reviews);
    ChaptersPass(c.chapters);
    ReviewsPass(c.reviews);
    fields + chapters + reviews
  }

  lemma ChaptersPass(chapters: seq<Chapter>)
    ensures AllErrors(chapters, ChapterErrors) == [] <==> ChaptersValid(chapters)
  {
  }

  lemma ReviewsPass(reviews: seq<Review>)
    ensures AllErrors(reviews, ReviewErrors) == [] <==> ReviewsValid(reviews)
  {
  }

  lemma EmptyConcat3(a: seq<string>, b: seq<string>, c: seq<string>)
    ensures a + b + c == [] <==> a == [] && b == [] && c == []
  {
    assert |a + b + c| == |a| + |b| + |c|;
  }

  // ---------------------------------------------------------------------------
  // averageRating

  function RatingSum(reviews: seq<Review>): real
  {
    if reviews == [] then 0.0
    else (if reviews[0].rating.Some? then reviews[0].rating.value else 0.0) + RatingSum(reviews[1..])
  }

  /** The average of the ratings before toFixed(1): 0 without reviews. */
  function AverageRating(reviews: seq<Review>): (r: real)
    ensures reviews == [] ==> r == 0.0
  {
    if |reviews| == 0 then 0.0 else RatingSum(reviews) / (|reviews| as real)
  }

  lemma {:induction false} RatingSumBounds(reviews: seq<Review>)
    requires forall i :: 0 <= i < |reviews| ==> ReviewErrors(reviews[i]) == []
    ensures MinRating * (|reviews| as real) <= RatingSum(reviews) <= MaxRating * (|reviews| as real)
  {
    if reviews != [] {
      assert forall i :: 1 <= i < |reviews| ==> reviews[1..][i - 1] == reviews[i];
      RatingSumBounds(reviews[1..]);
    }
  }

  /** With at least one review and only valid ratings, the average lies between 1 and 5. */
  lemma AverageRatingBounds(reviews: seq<Review>)
    requires |reviews| > 0
    requires forall i :: 0 <= i < |reviews| ==> ReviewErrors(reviews[i]) == []
    ensures MinRating <= AverageRating(reviews) <= MaxRating
  {
    RatingSumBounds(reviews);
    var n := |reviews| as real;
    assert MinRating * n <= RatingSum(reviews) <= MaxRating * n;
    assert AverageRating(reviews) == RatingSum(reviews) / n;
  }

  // ---------------------------------------------------------------------------
  // The course object and its two list mutators

  /** At most one review per user. */
  predicate OneReviewPerUser(reviews: seq<Review>)
  {
    forall i, j :: 0 <= i < j < |reviews| ==> reviews[i].userId != reviews[j].userId
  }

  predicate HasReviewBy(reviews: seq<Review>, userId: Id)
  {
    exists i :: 0 <= i < |reviews| && reviews[i].userId == userId
  }

  /** A truthy comment: given and not empty. */
  function StoredComment(comment: Option<string>): (r: Option<string>)
    ensures r.Some? <==> !Falsy(comment)
    ensures r.Some? ==> r == comment
  {
    if Falsy(comment) then None else comment
  }

  class Course {
    const title: string
    const description: string
    const price: Option<real>
    const categories: seq<string>
    const teacherId: Option<Id>
    const chapters: seq<Chapter>
    var studentsEnrolled: seq<Id>
    var reviews: seq<Review>

    function Doc(): CourseDoc
      reads this
    {
      CourseDoc(title, description, price, categories, teacherId, studentsEnrolled, chapters, reviews)
    }

    /** new Course({...}): title and description trimmed, no students, no reviews. */
    constructor (title: string, description: string, price: Option<real>, categories: seq<string>,
                 teacherId: Option<Id>, chapters: seq<Chapter>)
      ensures Doc() == CourseDoc(Trim(title), Trim(description), price, categories, teacherId, [], chapters, [])
    {
      this.title := Trim(title);
      this.description := Trim(description);
      this.price := price;
      this.categories := categories;
      this.teacherId := teacherId;
      this.chapters := chapters;
      studentsEnrolled := [];
      reviews := [];
    }

    /** save(): the schema validation's outcome; the object is not changed. */
    function SaveOutcome(): (r: Outcome<seq<string>>)
      reads this
      ensures r.Pass? <==> CourseErrors(Doc()) == []
    {
      var errors := CourseErrors(Doc());
      if errors == [] then Pass else Fail(errors)
    }

    /** enrollStudent: a student already on the list is refused and nothing changes;
        otherwise the student is appended and the course saved. The list stays free of
        duplicates. */
    method EnrollStudent(studentId: Id) returns (out: Outcome<seq<string>>)
      modifies this`studentsEnrolled
      ensures studentId in old(studentsEnrolled) ==>
                out == Fail(["Student already enrolled"]) && studentsEnrolled == old(studentsEnrolled)
      ensures studentId !in old(studentsEnrolled) ==>
                studentsEnrolled == old(studentsEnrolled) + [studentId] && out == SaveOutcome()
      ensures Distinct(old(studentsEnrolled)) ==> Distinct(studentsEnrolled)
      ensures studentId in studentsEnrolled
    {
      if studentId in studentsEnrolled {
        return Fail(["Student already enrolled"]);
      }
      AppendFreshDistinct(studentsEnrolled, studentId);
      studentsEnrolled := studentsEnrolled + [studentId];
      out := SaveOutcome();
    }

    /** addReview: a user who already reviewed (ids compared as strings, i.e. by value) is
        refused and nothing changes; otherwise one review is appended, with the comment only
        when it is truthy, and the course saved, which rejects a rating outside 1..5. */
    method AddReview(userId: Id, rating: Option<real>, comment: Option<string>, now: int)
      returns (out: Outcome<seq<string>>)
      modifies this`reviews
      ensures HasReviewBy(old(reviews), userId) ==>
                out == Fail(["User has already reviewed this course"]) && reviews == old(reviews)
      ensures !HasReviewBy(old(reviews), userId) ==>
                reviews == old(reviews) + [Review(userId, rating, StoredComment(comment), now)]
                && out == SaveOutcome()
      ensures OneReviewPerUser(old(reviews)) ==> OneReviewPerUser(reviews)
      ensures HasReviewBy(reviews, userId)
    {
      if HasReviewBy(reviews, userId) {
        return Fail(["User has already reviewed this course"]);
      }
      var review := Review(userId, rating, StoredComment(comment), now);
      AppendedReviewKeepsOnePerUser(reviews, review);
      reviews := reviews + [review];
      out := SaveOutcome();
    }
  }

  /** A review by a user without one keeps one review per user, and the user has one after. */
  lemma AppendedReviewKeepsOnePerUser(reviews: seq<Review>, rv: Review)
    requires !HasReviewBy(reviews, rv.userId)
    ensures OneReviewPerUser(reviews) ==> OneReviewPerUser(reviews + [rv])
    ensures HasReviewBy(reviews + [rv], rv.userId)
  {
    assert (reviews + [rv])[|reviews|] == rv;
  }

  /** Appending a review to valid reviews keeps them valid exactly when its rating is in 1..5. */
  lemma AppendedReviewValid(reviews: seq<Review>, rv: Review)
    requires forall i :: 0 <= i < |reviews| ==> ReviewErrors(reviews[i]) == []
    ensures AllErrors(reviews + [rv], ReviewErrors) == [] <==> rv.rating.Some? && MinRating <= rv.rating.value <= MaxRating
  {
    AllErrorsAppend(reviews, rv, ReviewErrors);
  }

  /** A list with one more document has no messages exactly when the list and the document
      have none. */
  lemma AllErrorsAppend<T>(xs: seq<T>, x: T, errors: T -> seq<string>)
    ensures AllErrors(xs + [x], errors) == [] <==> AllErrors(xs, errors) == [] && errors(x) == []
  {
    var ys := xs + [x];
    assert forall i :: 0 <= i < |xs| ==> ys[i] == xs[i];
    assert ys[|xs|] == x;
  }

  /** A review with a rating outside 1..5 is appended in memory but the save rejects it;
      one inside is saved when the rest of the course is valid. */
  lemma ReviewRatingDecidesSave(c: CourseDoc, userId: Id, rating: real, comment: Option<string>, now: int)
    requires CourseErrors(c) == []
    ensures CourseErrors(c.(reviews := c.reviews + [Review(userId, Some(rating), StoredComment(comment), now)])) == []
            <==> MinRating <= rating <= MaxRating
  {
    var rv := Review(userId, Some(rating), StoredComment(comment), now);
    var c2 := c.(reviews := c.reviews + [rv]);
    assert CourseErrors(c) == CourseFieldErrors(c) + AllErrors(c.chapters, ChapterErrors) + AllErrors(c.reviews, ReviewErrors);
    assert CourseErrors(c2) == CourseFieldErrors(c) + AllErrors(c.chapters, ChapterErrors) + AllErrors(c2.reviews, ReviewErrors);
    AppendedReviewValid(c.reviews, rv);
  }

}
