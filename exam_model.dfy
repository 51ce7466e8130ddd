/** The records the exam controller works on (the Mongoose schemas of exams, questions and
    published exams) and pure specifications of the controller's request handlers: who may
    act on which record, what each handler rejects, and what it writes. */
module ExamModel {
  import opened Wrappers
  import opened Text

  type ExamId = nat
  type UserId = nat
  type QuestionId = nat
  type PublishedId = nat

  /** The status field of an exam. */
  datatype Status = CREATED | PROCESSING | REVIEW | PUBLISHED

  /** Where a question came from. */
  datatype Source = AI | MANUAL

  datatype SourceFile = SourceFile(originalName: string, extractedText: string)

  datatype Exam = Exam(
    createdBy: UserId,
    subjects: seq<string>,
    numberOfQuestions: int,
    difficulty: string,
    language: string,
    files: seq<SourceFile>,
    status: Status,
    processingMessage: string)

  datatype Question = Question(
    examId: ExamId,
    text: string,
    marks: int,
    subject: string,
    difficulty: string,
    source: Source,
    isApproved: bool,
    createdBy: UserId)

  datatype PublishedQuestion = PublishedQuestion(questionId: QuestionId, text: string, marks: int)

  datatype PublishedExam = PublishedExam(
    examId: ExamId,
    questions: seq<PublishedQuestion>,
    totalMarks: int,
    publishedAt: int)

  /** An HTTP status code and the `message` of the JSON body. */
  datatype Response = Response(code: int, message: string)

  /** The exam and question collections. Question ids are handed out in increasing order,
      so that the order of ids is the order of insertion. */
  datatype Db = Db(exams: map<ExamId, Exam>, questions: map<QuestionId, Question>, nextQuestionId: QuestionId)

  /** Every stored question id is below the next id to hand out. */
  ghost predicate FreshIds(db: Db)
  {
    forall q :: q in db.questions ==> q < db.nextQuestionId
  }

  const NotFound := Response(404, "Exam not found")
  const NotOwner := Response(403, "Unauthorized: You do not own this exam")
  const QuestionNotFound := Response(404, "Question not found")
  const GenerationLocked := Response(400, "Exam is already published. AI generation is locked.")
  const AlreadyProcessing := Response(400, "Exam is already being processed.")
  const NoSyllabus := Response(400, "No syllabus text available for AI generation")
  const RegenerationLocked := Response(400, "Exam is already published. Regeneration is locked.")
  const AlreadyPublished := Response(400, "Exam is already published")
  const NothingApproved := Response(400, "No approved questions. Cannot publish exam.")

  /** The first two checks of every exam handler: the exam exists and the caller created it. */
  function ExamAccess(db: Db, id: ExamId, user: UserId): (r: Option<Response>)
    ensures r == None <==> id in db.exams && db.exams[id].createdBy == user
  {
    if id !in db.exams then Some(NotFound)
    else if db.exams[id].createdBy != user then Some(NotOwner)
    else None
  }

  /** The first checks of every question handler: the question exists, and its exam exists and was created by the caller. */
  function QuestionAccess(db: Db, q: QuestionId, user: UserId): (r: Option<Response>)
    ensures r == None <==>
      q in db.questions && db.questions[q].examId in db.exams &&
      db.exams[db.questions[q].examId].createdBy == user
  {
    if q !in db.questions then Some(QuestionNotFound)
    else if db.questions[q].examId !in db.exams || db.exams[db.questions[q].examId].createdBy != user then Some(NotOwner)
    else None
  }

  /** The extracted text of all uploaded files, joined with newlines. */
  function CombinedText(exam: Exam): string
  {
    Join(ExtractedTexts(exam.files), Newline)
  }

  const Newline := "\n"

  function ExtractedTexts(files: seq<SourceFile>): (r: seq<string>)
    ensures |r| == |files| && forall i :: 0 <= i < |files| ==> r[i] == files[i].extractedText
  {
    if files == [] then [] else [files[0].extractedText] + ExtractedTexts(files[1..])
  }

  /* ---------------- starting a generation ---------------- */

  const AcceptedMessage := "AI question generation started. You will be notified once complete."

  /** Why a generation request is refused, if it is; the checks run in this order. */
  function GenerateRejection(db: Db, id: ExamId, user: UserId): Option<Response>
  {
    if ExamAccess(db, id, user).Some? then ExamAccess(db, id, user)
    else if db.exams[id].status == PUBLISHED then Some(GenerationLocked)
    else if db.exams[id].status == PROCESSING then Some(AlreadyProcessing)
    else if IsBlank(CombinedText(db.exams[id])) then Some(NoSyllabus)
    else None
  }

  /** A request is accepted exactly when the exam exists, belongs to the caller, is neither
      published nor being processed, and its files hold at least one non-blank character. */
  lemma GenerateAcceptedIff(db: Db, id: ExamId, user: UserId)
    ensures GenerateRejection(db, id, user) == None <==>
      id in db.exams && db.exams[id].createdBy == user &&
      (db.exams[id].status == CREATED || db.exams[id].status == REVIEW) &&
      !AllWhitespace(CombinedText(db.exams[id]))
  {
    if ExamAccess(db, id, user).None? && db.exams[id].status != PUBLISHED && db.exams[id].status != PROCESSING {
      var t := CombinedText(db.exams[id]);
      BlankIffAllWhitespace(t);
      assert GenerateRejection(db, id, user) == None <==> !IsBlank(t);
    }
  }

  /** The same checks name the first failing condition: 404, then 403, then the two status conflicts, then missing text. */
  lemma GenerateRejectionOrder(db: Db, id: ExamId, user: UserId)
    ensures id !in db.exams ==> GenerateRejection(db, id, user) == Some(NotFound)
    ensures id in db.exams && db.exams[id].createdBy != user ==> GenerateRejection(db, id, user) == Some(NotOwner)
    ensures id in db.exams && db.exams[id].createdBy == user && db.exams[id].status == PUBLISHED ==>
      GenerateRejection(db, id, user) == Some(GenerationLocked)
    ensures id in db.exams && db.exams[id].createdBy == user && db.exams[id].status == PROCESSING ==>
      GenerateRejection(db, id, user) == Some(AlreadyProcessing)
    ensures id in db.exams && db.exams[id].createdBy == user && (db.exams[id].status == CREATED || db.exams[id].status == REVIEW) &&
            IsBlank(CombinedText(db.exams[id])) ==>
      GenerateRejection(db, id, user) == Some(NoSyllabus)
  {
  }

  /* ---------------- regeneration ---------------- */

  /** The questions left once the AI questions of one exam are deleted. */
  function DeleteAIQuestions(qs: map<QuestionId, Question>, id: ExamId): map<QuestionId, Question>
  {
    map q | q in qs && !(qs[q].examId == id && qs[q].source == AI) :: qs[q]
  }

  /** Deleting removes exactly the AI questions of that exam: manual questions and the
      questions of other exams stay, with the same contents; deleting twice changes nothing more. */
  lemma DeleteAIQuestionsExact(qs: map<QuestionId, Question>, id: ExamId)
    ensures forall q :: q in DeleteAIQuestions(qs, id) <==> q in qs && (qs[q].examId != id || qs[q].source == MANUAL)
    ensures forall q :: q in DeleteAIQuestions(qs, id) ==> DeleteAIQuestions(qs, id)[q] == qs[q]
    ensures DeleteAIQuestions(DeleteAIQuestions(qs, id), id) == DeleteAIQuestions(qs, id)
  {
  }

  /** The checks regeneration makes before it deletes anything. */
  function RegenerateRejection(db: Db, id: ExamId, user: UserId): Option<Response>
  {
    if ExamAccess(db, id, user).Some? then ExamAccess(db, id, user)
    else if db.exams[id].status == PUBLISHED then Some(RegenerationLocked)
    else None
  }

  /** The store after regeneration's delete step, and the answer the delegated generation check gives. */
  function Regenerate(db: Db, id: ExamId, user: UserId): (r: (Db, Option<Response>))
  {
    if RegenerateRejection(db, id, user).Some? then (db, RegenerateRejection(db, id, user))
    else
      var purged := db.(questions := DeleteAIQuestions(db.questions, id));
      (purged, GenerateRejection(purged, id, user))
  }

  /** An exam that is still being processed loses its AI questions to regeneration and the
      request is refused all the same; so does an exam without any text. */
  lemma RegenerateDeletesEvenWhenRefused(db: Db, id: ExamId, user: UserId)
    requires id in db.exams && db.exams[id].createdBy == user
    requires db.exams[id].status == PROCESSING || (db.exams[id].status != PUBLISHED && IsBlank(CombinedText(db.exams[id])))
    ensures Regenerate(db, id, user).0.questions == DeleteAIQuestions(db.questions, id)
    ensures Regenerate(db, id, user).1.Some? && Regenerate(db, id, user).1.value.code == 400
    ensures forall q :: q in Regenerate(db, id, user).0.questions ==> !(Regenerate(db, id, user).0.questions[q].examId == id && Regenerate(db, id, user).0.questions[q].source == AI)
  {
  }

  /** A published exam, a missing exam or someone else's exam keeps all its questions. */
  lemma RegenerateRefusedKeepsQuestions(db: Db, id: ExamId, user: UserId)
    requires id !in db.exams || db.exams[id].createdBy != user || db.exams[id].status == PUBLISHED
    ensures Regenerate(db, id, user).0 == db
    ensures Regenerate(db, id, user).1.Some?
  {
  }

  /* ---------------- publishing ---------------- */

  /** The approved questions of an exam among the ids below `k`, in id order. */
  function ApprovedUpTo(qs: map<QuestionId, Question>, id: ExamId, k: nat): (r: seq<QuestionId>)
    ensures forall i :: 0 <= i < |r| ==> r[i] in qs
  {
    if k == 0 then []
    else ApprovedUpTo(qs, id, k - 1) + (if k - 1 in qs && qs[k - 1].examId == id && qs[k - 1].isApproved then [k - 1] else [])
  }

  /** The approved questions of an exam, in insertion order. */
  function Approved(db: Db, id: ExamId): seq<QuestionId>
  {
    ApprovedUpTo(db.questions, id, db.nextQuestionId)
  }

  ghost predicate IsApprovedOf(qs: map<QuestionId, Question>, id: ExamId, q: QuestionId)
  {
    q in qs && qs[q].examId == id && qs[q].isApproved
  }

  lemma {:induction false} ApprovedUpToExact(qs: map<QuestionId, Question>, id: ExamId, k: nat)
    ensures forall q: QuestionId :: q in ApprovedUpTo(qs, id, k) <==> q < k && IsApprovedOf(qs, id, q)
    ensures forall i, j :: 0 <= i < j < |ApprovedUpTo(qs, id, k)| ==> ApprovedUpTo(qs, id, k)[i] < ApprovedUpTo(qs, id, k)[j]
  {
    if k > 0 {
      ApprovedUpToExact(qs, id, k - 1);
      var b := ApprovedUpTo(qs, id, k - 1);
      forall i | 0 <= i < |b| ensures b[i] < k - 1 {
        assert b[i] in b;
      }
    }
  }

  /** The list publishing reads holds every approved question of the exam, and nothing else,
      once each in increasing id order. */
  lemma ApprovedExact(db: Db, id: ExamId)
    requires FreshIds(db)
    ensures forall q: QuestionId :: q in Approved(db, id) <==> IsApprovedOf(db.questions, id, q)
    ensures forall i, j :: 0 <= i < j < |Approved(db, id)| ==> Approved(db, id)[i] < Approved(db, id)[j]
  {
    ApprovedUpToExact(db.questions, id, db.nextQuestionId);
  }

  /** The sum of the marks of the listed questions, added from the left as `reduce` does. */
  function SumMarks(qs: map<QuestionId, Question>, ids: seq<QuestionId>): int
    requires forall i :: 0 <= i < |ids| ==> ids[i] in qs
  {
    if ids == [] then 0 else SumMarks(qs, ids[..|ids| - 1]) + qs[ids[|ids| - 1]].marks
  }

  /** `totalMarks` of a publication: the marks of the approved questions, summed. */
  function TotalMarks(db: Db, id: ExamId): int
  {
    SumMarks(db.questions, Approved(db, id))
  }

  /** Approving a question. */
  function ApproveIn(qs: map<QuestionId, Question>, q: QuestionId): map<QuestionId, Question>
    requires q in qs
  {
    qs[q := qs[q].(isApproved := true)]
  }

  lemma {:induction false} ApproveAddsMarksUpTo(qs: map<QuestionId, Question>, id: ExamId, q: QuestionId, k: nat)
    requires q in qs && qs[q].examId == id && !qs[q].isApproved
    ensures
      SumMarks(ApproveIn(qs, q), ApprovedUpTo(ApproveIn(qs, q), id, k)) ==
      SumMarks(qs, ApprovedUpTo(qs, id, k)) + (if q < k then qs[q].marks else 0)
  {
    if k > 0 {
      ApproveAddsMarksUpTo(qs, id, q, k - 1);
      ApproveStep(qs, id, q, k);
    } else {
      assert ApprovedUpTo(qs, id, k) == [] && ApprovedUpTo(ApproveIn(qs, q), id, k) == [];
    }
  }

  /** One more candidate id: the difference between the two sums grows by the approved question's marks exactly when that id is the question. */
  lemma ApproveStep(qs: map<QuestionId, Question>, id: ExamId, q: QuestionId, k: nat)
    requires q in qs && qs[q].examId == id && !qs[q].isApproved && k > 0
    requires SumMarks(ApproveIn(qs, q), ApprovedUpTo(ApproveIn(qs, q), id, k - 1)) ==
             SumMarks(qs, ApprovedUpTo(qs, id, k - 1)) + (if q < k - 1 then qs[q].marks else 0)
    ensures SumMarks(ApproveIn(qs, q), ApprovedUpTo(ApproveIn(qs, q), id, k)) ==
            SumMarks(qs, ApprovedUpTo(qs, id, k)) + (if q < k then qs[q].marks else 0)
  {
    var j := k - 1;
    var qs' := ApproveIn(qs, q);
    var b, b' := ApprovedUpTo(qs, id, j), ApprovedUpTo(qs', id, j);
    var t := if j in qs && qs[j].examId == id && qs[j].isApproved then [j] else [];
    var t' := if j in qs' && qs'[j].examId == id && qs'[j].isApproved then [j] else [];
    assert ApprovedUpTo(qs, id, k) == b + t;
    assert ApprovedUpTo(qs', id, k) == b' + t';
    SumMarksAppend(qs, b, t);
    SumMarksAppend(qs', b', t');
    if j == q {
      assert t == [] && t' == [j];
    } else {
      assert t' == t;
      assert t != [] ==> qs'[j].marks == qs[j].marks;
    }
  }

  /** Adding at most one id on the right adds its marks. */
  lemma SumMarksAppend(qs: map<QuestionId, Question>, ids: seq<QuestionId>, tail: seq<QuestionId>)
    requires forall i :: 0 <= i < |ids| ==> ids[i] in qs
    requires |tail| <= 1 && forall i :: 0 <= i < |tail| ==> tail[i] in qs
    ensures SumMarks(qs, ids + tail) == SumMarks(qs, ids) + (if tail == [] then 0 else qs[tail[0]].marks)
  {
    if tail == [] {
      assert ids + tail == ids;
    } else {
      assert (ids + tail)[..|ids|] == ids;
    }
  }

  /** Approving one more question of an exam raises the marks its publication would total by
      exactly that question's marks; approving a question stored in the exam moves nothing else. */
  lemma ApproveAddsMarks(db: Db, id: ExamId, q: QuestionId)
    requires FreshIds(db) && q in db.questions && db.questions[q].examId == id && !db.questions[q].isApproved
    ensures TotalMarks(db.(questions := ApproveIn(db.questions, q)), id) == TotalMarks(db, id) + db.questions[q].marks
  {
    ApproveAddsMarksUpTo(db.questions, id, q, db.nextQuestionId);
  }

  /** The questions copied into a publication. */
  function PublishedQuestions(qs: map<QuestionId, Question>, ids: seq<QuestionId>): (r: seq<PublishedQuestion>)
    requires forall i :: 0 <= i < |ids| ==> ids[i] in qs
    ensures |r| == |ids|
    ensures forall i :: 0 <= i < |ids| ==> r[i] == PublishedQuestion(ids[i], qs[ids[i]].text, qs[ids[i]].marks)
  {
    seq(|ids|, i requires 0 <= i < |ids| => PublishedQuestion(ids[i], qs[ids[i]].text, qs[ids[i]].marks))
  }

  /** The marks of the published entries, added from the left. */
  function EntryMarks(entries: seq<PublishedQuestion>): int
  {
    if entries == [] then 0 else EntryMarks(entries[..|entries| - 1]) + entries[|entries| - 1].marks
  }

  lemma {:induction false} EntryMarksSum(qs: map<QuestionId, Question>, ids: seq<QuestionId>)
    requires forall i :: 0 <= i < |ids| ==> ids[i] in qs
    ensures EntryMarks(PublishedQuestions(qs, ids)) == SumMarks(qs, ids)
  {
    if ids != [] {
      var init := ids[..|ids| - 1];
      EntryMarksSum(qs, init);
      assert PublishedQuestions(qs, ids)[..|ids| - 1] == PublishedQuestions(qs, init);
    }
  }

  /** A publication lists each approved question of the exam, and only those, with its stored
      text and marks; the marks of its entries add up to the `totalMarks` stored beside them. */
  lemma PublicationExact(db: Db, id: ExamId)
    requires FreshIds(db)
    ensures var entries := PublishedQuestions(db.questions, Approved(db, id));
            (forall q: QuestionId :: (exists i :: 0 <= i < |entries| && entries[i].questionId == q) <==> IsApprovedOf(db.questions, id, q)) &&
            (forall i :: 0 <= i < |entries| ==>
               entries[i].questionId in db.questions &&
               entries[i].text == db.questions[entries[i].questionId].text &&
               entries[i].marks == db.questions[entries[i].questionId].marks) &&
            EntryMarks(entries) == TotalMarks(db, id)
  {
    var ids := Approved(db, id);
    var entries := PublishedQuestions(db.questions, ids);
    ApprovedExact(db, id);
    forall q: QuestionId ensures (exists i :: 0 <= i < |entries| && entries[i].questionId == q) <==> IsApprovedOf(db.questions, id, q) {
      if IsApprovedOf(db.questions, id, q) {
        assert q in ids;
        var i :| 0 <= i < |ids| && ids[i] == q;
        assert entries[i].questionId == q;
      }
      if exists i :: 0 <= i < |entries| && entries[i].questionId == q {
        var i :| 0 <= i < |entries| && entries[i].questionId == q;
        assert ids[i] == q && ids[i] in ids;
      }
    }
    EntryMarksSum(db.questions, ids);
  }

  /** Why a publish request is refused, if it is. */
  function PublishRejection(db: Db, id: ExamId, user: UserId): Option<Response>
  {
    if ExamAccess(db, id, user).Some? then ExamAccess(db, id, user)
    else if db.exams[id].status == PUBLISHED then Some(AlreadyPublished)
    else if |Approved(db, id)| == 0 then Some(NothingApproved)
    else None
  }

  /** Publishing goes ahead exactly when the caller's exam is not yet published and at least one of its questions is approved. */
  lemma PublishAcceptedIff(db: Db, id: ExamId, user: UserId)
    requires FreshIds(db)
    ensures PublishRejection(db, id, user) == None <==>
      id in db.exams && db.exams[id].createdBy == user && db.exams[id].status != PUBLISHED &&
      exists q: QuestionId :: IsApprovedOf(db.questions, id, q)
  {
    ApprovedExact(db, id);
    if exists q: QuestionId :: IsApprovedOf(db.questions, id, q) {
      var q: QuestionId :| IsApprovedOf(db.questions, id, q);
      assert q in Approved(db, id);
    }
    if |Approved(db, id)| > 0 {
      assert IsApprovedOf(db.questions, id, Approved(db, id)[0]);
    }
  }

  const DefaultClientUrl := "http://localhost:5173"
  const ChallengePath := "/challenge/"

  /** `process.env.CLIENT_URL || "http://localhost:5173"`. */
  function ClientUrl(configured: string): string
  {
    if configured == "" then DefaultClientUrl else configured
  }

  /** The link returned after publishing. */
  function ChallengeLink(configured: string, pid: PublishedId): (r: string)
    ensures r == ClientUrl(configured) + ChallengePath + NatToString(pid)
  {
    ClientUrl(configured) + ChallengePath + NatToString(pid)
  }

  /** The link starts with the client address (the local default when none is configured) and
      "/challenge/", and the rest reads back as the publication id. */
  lemma ChallengeLinkParts(configured: string, pid: PublishedId)
    ensures var base := ClientUrl(configured) + ChallengePath;
            var link := ChallengeLink(configured, pid);
            |base| <= |link| && link[..|base|] == base &&
            (configured == "" ==> base == "http://localhost:5173/challenge/") &&
            IsDigits(link[|base|..]) && DigitsValue(link[|base|..]) == pid
  {
    var base := ClientUrl(configured) + ChallengePath;
    var link := ChallengeLink(configured, pid);
    assert link == base + NatToString(pid);
    assert link[..|base|] == base && link[|base|..] == NatToString(pid);
    NatToStringRoundTrip(pid);
  }

  /** With the same client address, different publications get different links. */
  lemma ChallengeLinkInjective(configured: string, p: PublishedId, q: PublishedId)
    requires ChallengeLink(configured, p) == ChallengeLink(configured, q)
    ensures p == q
  {
    ChallengeLinkParts(configured, p);
    ChallengeLinkParts(configured, q);
  }

  /* ---------------- editing questions ---------------- */

  /** The request body fields `updateQuestion` looks at; `None` is a field the body leaves out. */
  datatype QuestionPatch = QuestionPatch(text: Option<string>, marks: Option<int>, subject: Option<string>, difficulty: Option<string>)

  /** The names in the whitelist. */
  datatype Field = TextField | MarksField | SubjectField | DifficultyField

  const AllowedFields: seq<Field> := [TextField, MarksField, SubjectField, DifficultyField]

  /** Copy one whitelisted field from the body when the body has it. */
  function ApplyField(q: Question, f: Field, patch: QuestionPatch): Question
  {
    match f
    case TextField => if patch.text.Some? then q.(text := patch.text.value) else q
    case MarksField => if patch.marks.Some? then q.(marks := patch.marks.value) else q
    case SubjectField => if patch.subject.Some? then q.(subject := patch.subject.value) else q
    case DifficultyField => if patch.difficulty.Some? then q.(difficulty := patch.difficulty.value) else q
  }

  /** The question after the fields in `fs` are copied in turn. */
  function ApplyFields(q: Question, fs: seq<Field>, patch: QuestionPatch): Question
    decreases |fs|
  {
    if fs == [] then q else ApplyFields(ApplyField(q, fs[0], patch), fs[1..], patch)
  }

  function GetOr<T>(o: Option<T>, default: T): T
  {
    if o.Some? then o.value else default
  }

  /** Running through the whitelist sets each of text, marks, subject and difficulty to the
      body's value when given, keeps it otherwise, never touches the exam, source, approval or
      creator, and applying the same body twice changes nothing more. */
  lemma PatchIsWhitelisted(q: Question, patch: QuestionPatch)
    ensures ApplyFields(q, AllowedFields, patch) ==
      q.(text := GetOr(patch.text, q.text), marks := GetOr(patch.marks, q.marks),
         subject := GetOr(patch.subject, q.subject), difficulty := GetOr(patch.difficulty, q.difficulty))
    ensures ApplyFields(ApplyFields(q, AllowedFields, patch), AllowedFields, patch) == ApplyFields(q, AllowedFields, patch)
  {
    var fs := AllowedFields;
    assert fs[1..] == [MarksField, SubjectField, DifficultyField];
    assert fs[1..][1..] == [SubjectField, DifficultyField];
    assert fs[1..][1..][1..] == [DifficultyField];
  }

  /** Why an edit, a delete or a manual addition is refused, if it is: access, then a published exam. */
  function EditRejection(db: Db, q: QuestionId, user: UserId, publishedMessage: string): Option<Response>
  {
    if QuestionAccess(db, q, user).Some? then QuestionAccess(db, q, user)
    else if db.exams[db.questions[q].examId].status == PUBLISHED then Some(Response(400, publishedMessage))
    else None
  }

  /** Why an exam-level change (manual question, bulk approval) is refused, if it is. */
  function ExamEditRejection(db: Db, id: ExamId, user: UserId, publishedMessage: string): Option<Response>
  {
    if ExamAccess(db, id, user).Some? then ExamAccess(db, id, user)
    else if db.exams[id].status == PUBLISHED then Some(Response(400, publishedMessage))
    else None
  }

  /** Approve every question of an exam. */
  function ApproveAll(qs: map<QuestionId, Question>, id: ExamId): (r: map<QuestionId, Question>)
    ensures r.Keys == qs.Keys
  {
    map q | q in qs :: if qs[q].examId == id then qs[q].(isApproved := true) else qs[q]
  }

  /** Bulk approval leaves every question of the exam approved, every other question as it was,
      and, when every question of the exam is approved, would publish them all. */
  lemma ApproveAllExact(db: Db, id: ExamId)
    requires FreshIds(db)
    ensures forall q :: q in db.questions && db.questions[q].examId == id ==> IsApprovedOf(ApproveAll(db.questions, id), id, q)
    ensures forall q :: q in db.questions && db.questions[q].examId != id ==> ApproveAll(db.questions, id)[q] == db.questions[q]
    ensures forall q: QuestionId :: q in Approved(db.(questions := ApproveAll(db.questions, id)), id) <==>
      q in db.questions && db.questions[q].examId == id
  {
    ApprovedExact(db.(questions := ApproveAll(db.questions, id)), id);
  }
}
