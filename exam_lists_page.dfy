/** The exam question list page: searching and filtering the questions, deleting and replacing
    a question by id, the publish guard, and the attempt link. */
module ExamListsPage {
  import opened Wrappers
  import opened Text
  import opened Lists

  datatype ListQuestion = ListQuestion(
    id: string,
    text: string,
    kind: string,
    difficulty: string,
    marks: int,
    options: seq<string>,
    correctAnswer: string,
    explanation: string)

  datatype ListExam = ListExam(
    id: string,
    name: string,
    subject: string,
    status: string,
    publishStatus: string,
    questionsCount: int)

  const All := "all"

  /* ---------------- search and filters ---------------- */

  /** The three tests of the filter: the search text in the lower-cased text or id, and each
      select either "all" or equal to the question's value. */
  predicate Matches(q: ListQuestion, query: string, typeFilter: string, difficultyFilter: string)
  {
    var needle := ToLower(query);
    (Contains(ToLower(q.text), needle) || Contains(ToLower(q.id), needle)) &&
    (typeFilter == All || q.kind == typeFilter) &&
    (difficultyFilter == All || q.difficulty == difficultyFilter)
  }

  function Filtered(questions: seq<ListQuestion>, query: string, typeFilter: string, difficultyFilter: string): seq<ListQuestion>
  {
    Keep(questions, q => Matches(q, query, typeFilter, difficultyFilter))
  }

  /** The list shown keeps exactly the matching questions, in their original order. */
  lemma FilteredExact(questions: seq<ListQuestion>, query: string, typeFilter: string, difficultyFilter: string)
    ensures var shown := Filtered(questions, query, typeFilter, difficultyFilter);
            Subsequence(shown, questions) &&
            (forall i :: 0 <= i < |shown| ==> Matches(shown[i], query, typeFilter, difficultyFilter)) &&
            (forall i :: 0 <= i < |questions| && Matches(questions[i], query, typeFilter, difficultyFilter) ==> questions[i] in shown)
  {
    KeepSubsequence(questions, q => Matches(q, query, typeFilter, difficultyFilter));
  }

  /** With an empty search and both selects on "all", every question is shown. */
  lemma NoFilterShowsAll(questions: seq<ListQuestion>)
    ensures Filtered(questions, "", All, All) == questions
  {
    forall i | 0 <= i < |questions| ensures Matches(questions[i], "", All, All) {
      ContainsEmpty(ToLower(questions[i].text));
    }
    KeepAll(questions, q => Matches(q, "", All, All));
  }

  /** The search ignores case in the query. */
  lemma QueryCaseIgnored(q: ListQuestion, query: string, typeFilter: string, difficultyFilter: string)
    ensures Matches(q, query, typeFilter, difficultyFilter) == Matches(q, ToLower(query), typeFilter, difficultyFilter)
  {
    ToLowerIdempotent(query);
  }

  lemma {:induction false} ToLowerIdempotent(s: string)
    ensures ToLower(ToLower(s)) == ToLower(s)
  {
    if s != [] {
      ToLowerIdempotent(s[1..]);
      assert ToLower(s)[1..] == ToLower(s[1..]);
    }
  }

  /* ---------------- delete and edit ---------------- */

  function NotWithId(id: string): ListQuestion -> bool
  {
    (q: ListQuestion) => q.id != id
  }

  function WithId(id: string): ListQuestion -> bool
  {
    (q: ListQuestion) => q.id == id
  }

  /** `handleDelete`: `questions.filter(q => q.id !== id)`. */
  function Deleted(questions: seq<ListQuestion>, id: string): seq<ListQuestion>
  {
    Keep(questions, NotWithId(id))
  }

  /** No question with that id is left, every other question stays, in order, and what was
      removed is exactly the questions with that id. */
  lemma DeletedExact(questions: seq<ListQuestion>, id: string)
    ensures var rest := Deleted(questions, id);
            Subsequence(rest, questions) &&
            (forall i :: 0 <= i < |rest| ==> rest[i].id != id) &&
            (forall i :: 0 <= i < |questions| && questions[i].id != id ==> questions[i] in rest) &&
            multiset(rest) + multiset(Keep(questions, WithId(id))) == multiset(questions)
  {
    KeepSubsequence(questions, NotWithId(id));
    KeepPartition(questions, NotWithId(id), WithId(id));
  }

  /** Deleting an id that is not in the list changes nothing. */
  lemma DeleteMissing(questions: seq<ListQuestion>, id: string)
    requires forall i :: 0 <= i < |questions| ==> questions[i].id != id
    ensures Deleted(questions, id) == questions
  {
    KeepAll(questions, NotWithId(id));
  }

  /** `handleSaveEdit`: every question with the edited one's id is replaced by it. */
  function Replaced(questions: seq<ListQuestion>, edited: ListQuestion): (r: seq<ListQuestion>)
    ensures |r| == |questions|
    ensures forall i :: 0 <= i < |questions| ==> r[i] == (if questions[i].id == edited.id then edited else questions[i])
  {
    if questions == [] then []
    else [if questions[0].id == edited.id then edited else questions[0]] + Replaced(questions[1..], edited)
  }

  function Ids(questions: seq<ListQuestion>): (r: seq<string>)
    ensures |r| == |questions| && forall i :: 0 <= i < |questions| ==> r[i] == questions[i].id
  {
    seq(|questions|, i requires 0 <= i < |questions| => questions[i].id)
  }

  /** Saving an edit keeps the ids in place, so it neither adds nor removes nor moves a question. */
  lemma ReplacedKeepsIds(questions: seq<ListQuestion>, edited: ListQuestion)
    ensures Ids(Replaced(questions, edited)) == Ids(questions)
  {
  }

  /** Saving the same edit again changes nothing. */
  lemma ReplacedIdempotent(questions: seq<ListQuestion>, edited: ListQuestion)
    ensures Replaced(Replaced(questions, edited), edited) == Replaced(questions, edited)
  {
  }

  /** After saving, deleting the edited id leaves the same list as deleting it before. */
  lemma {:induction false} ReplaceThenDelete(questions: seq<ListQuestion>, edited: ListQuestion)
    ensures Deleted(Replaced(questions, edited), edited.id) == Deleted(questions, edited.id)
  {
    if questions != [] {
      ReplaceThenDelete(questions[1..], edited);
      assert Replaced(questions, edited)[1..] == Replaced(questions[1..], edited);
    }
  }

  /* ---------------- publishing ---------------- */

  const MinQuestionsToPublish := 3
  const TooFewQuestions := "Minimum 3 questions required to publish"
  const NotCompleted := "Exam generation must be completed before publishing"

  /** `handlePublish`: the exam afterwards and the error shown, if any. */
  function Publish(exam: ListExam, questionCount: nat): (ListExam, Option<string>)
  {
    if questionCount < MinQuestionsToPublish then (exam, Some(TooFewQuestions))
    else if exam.status != "Completed" then (exam, Some(NotCompleted))
    else (exam.(publishStatus := "Published"), None)
  }

  /** Publishing goes ahead exactly for a completed exam with at least three questions; then only
      the publish status changes; otherwise nothing changes and the first failed rule is reported. */
  lemma PublishOutcome(exam: ListExam, questionCount: nat)
    ensures var (after, error) := Publish(exam, questionCount);
            (error.None? <==> questionCount >= MinQuestionsToPublish && exam.status == "Completed") &&
            (error.Some? ==> after == exam) &&
            (questionCount < MinQuestionsToPublish ==> error == Some(TooFewQuestions)) &&
            (questionCount >= MinQuestionsToPublish && exam.status != "Completed" ==> error == Some(NotCompleted)) &&
            (error.None? ==> after.publishStatus == "Published" &&
                             after.(publishStatus := exam.publishStatus) == exam)
  {
  }

  /** Publishing an exam twice is publishing it once. */
  lemma PublishIdempotent(exam: ListExam, questionCount: nat)
    ensures Publish(Publish(exam, questionCount).0, questionCount).0 == Publish(exam, questionCount).0
  {
  }

  /* ---------------- the attempt link ---------------- */

  const AttemptBase := "https://app.exam.com/attempt/"

  function AttemptLink(exam: ListExam): string
  {
    AttemptBase + exam.id
  }

  /** The link starts with the attempt address and ends with the exam id, so different ids give different links. */
  lemma AttemptLinkParts(exam: ListExam)
    ensures AttemptLink(exam)[..|AttemptBase|] == AttemptBase
    ensures AttemptLink(exam)[|AttemptBase|..] == exam.id
  {
  }

  lemma AttemptLinkInjective(a: ListExam, b: ListExam)
    requires AttemptLink(a) == AttemptLink(b)
    ensures a.id == b.id
  {
    AttemptLinkParts(a);
    AttemptLinkParts(b);
  }
}
