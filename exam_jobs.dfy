/** What one AI-generation job does to the store, as a pure function: the exam goes to
    PROCESSING, each subject in turn gets a progress message, one generator call with an even
    share of the questions and one batch insert, and the job ends in REVIEW; the first failure
    skips the remaining subjects and reverts the exam to CREATED with the error text.

    The question generator and the store's write failures are parameters (`Env`), both keyed by
    the subject index: the job is specified for every behaviour they may have, subjects that
    repeat included. The `Event` trace records what a poller and
    the generator observe: each successfully saved (status, message) pair and each call. */
module ExamJobs {
  import opened Wrappers
  import opened Text
  import opened ExamModel

  /** One question as the generator returns it (its own `source` is ignored on insert). */
  datatype Draft = Draft(text: string, marks: int, subject: string, difficulty: string, language: string, source: string)

  /** The arguments of one generator call. */
  datatype GenRequest = GenRequest(text: string, difficulty: string, subjects: seq<string>, count: int, language: string)

  /** The store writes a job makes; any of them may fail with a message. */
  datatype WriteStep = StartSave | ProgressSave(index: nat) | InsertBatch(index: nat) | CompleteSave | RecoverySave

  /** The collaborators of the worker: the question generator, given the index of the subject
      being generated and the request, and which writes fail. Keying the reply by index lets two
      subjects with equal requests get different replies. */
  datatype Env = Env(generate: (nat, GenRequest) -> Result<seq<Draft>, string>, writeError: WriteStep -> Option<string>)

  /** What a job makes observable: an exam save that went through, or a generator call. */
  datatype Event = Saved(status: Status, message: string) | Called(request: GenRequest)

  const StartMessage := "Starting AI generation..."
  const CompleteMessage := "AI generation complete."
  const ErrorPrefix := "Error: "
  const GeneratingFor := "Generating questions for "
  const CountOpen := "... ("
  const CountSlash := "/"
  const CountClose := ")"

  /** `Math.ceil(a / b)` for a positive divisor. */
  function CeilDiv(a: int, b: int): (r: int)
    requires b > 0
    ensures (r - 1) * b < a <= r * b
  {
    var q := (a + b - 1) / b;
    assert q * b + (a + b - 1) % b == a + b - 1;
    q
  }

  /** The quotas over-cover the requested total by less than one question per subject. */
  lemma QuotaCoversTotal(total: int, n: int)
    requires n > 0
    ensures total <= CeilDiv(total, n) * n < total + n
  {
    var r := CeilDiv(total, n);
    assert (r - 1) * n == r * n - n;
  }

  function ProgressMessage(subject: string, i: nat, n: nat): string
  {
    GeneratingFor + subject + CountOpen + NatToString(i + 1) + CountSlash + NatToString(n) + CountClose
  }

  /** The parts of an exam the job reads; they do not change while it runs. */
  datatype JobInput = JobInput(text: string, difficulty: string, subjects: seq<string>, numberOfQuestions: int, language: string)

  function InputOf(exam: Exam): JobInput
  {
    JobInput(CombinedText(exam), exam.difficulty, exam.subjects, exam.numberOfQuestions, exam.language)
  }

  /** The generator call for subject `i`: that subject alone and an even, rounded-up share of the questions. */
  function RequestFor(input: JobInput, i: nat): (r: GenRequest)
    requires i < |input.subjects|
    ensures r.subjects == [input.subjects[i]]
    ensures r.count == CeilDiv(input.numberOfQuestions, |input.subjects|)
    ensures r.text == input.text && r.difficulty == input.difficulty && r.language == input.language
  {
    GenRequest(input.text, input.difficulty, [input.subjects[i]], CeilDiv(input.numberOfQuestions, |input.subjects|), input.language)
  }

  /** A generated question as stored: tagged AI, not approved, owned by the exam's creator. */
  ghost predicate IsAIQuestionOf(q: Question, id: ExamId, owner: UserId)
  {
    q.examId == id && q.source == AI && !q.isApproved && q.createdBy == owner
  }

  function Tagged(id: ExamId, owner: UserId, drafts: seq<Draft>): (r: seq<Question>)
    ensures |r| == |drafts|
    ensures forall k :: 0 <= k < |r| ==> IsAIQuestionOf(r[k], id, owner)
    ensures forall k :: 0 <= k < |r| ==> r[k].text == drafts[k].text && r[k].marks == drafts[k].marks &&
                                          r[k].subject == drafts[k].subject && r[k].difficulty == drafts[k].difficulty
  {
    seq(|drafts|, k requires 0 <= k < |drafts| =>
      Question(id, drafts[k].text, drafts[k].marks, drafts[k].subject, drafts[k].difficulty, AI, false, owner))
  }

  /** The batch keyed by consecutive ids from `base`. */
  function Numbered(base: nat, batch: seq<Question>): map<QuestionId, Question>
    decreases |batch|
  {
    if batch == [] then map[]
    else Numbered(base, batch[..|batch| - 1])[base + |batch| - 1 := batch[|batch| - 1]]
  }

  /** The batch's `k`-th question gets id `base + k`, and no other id is used. */
  lemma {:induction false} NumberedShape(base: nat, batch: seq<Question>)
    ensures forall k: QuestionId :: k in Numbered(base, batch) <==> base <= k < base + |batch|
    ensures forall k: QuestionId :: k in Numbered(base, batch) ==> Numbered(base, batch)[k] == batch[k - base]
    decreases |batch|
  {
    if batch != [] {
      var init := batch[..|batch| - 1];
      NumberedShape(base, init);
      var m := Numbered(base, batch);
      forall k: QuestionId | k in m ensures m[k] == batch[k - base] {
        if k < base + |batch| - 1 {
          assert init[k - base] == batch[k - base];
        }
      }
    }
  }

  /** `insertMany`: the batch gets the next ids, in order. */
  function Insert(db: Db, batch: seq<Question>): Db
  {
    db.(questions := db.questions + Numbered(db.nextQuestionId, batch), nextQuestionId := db.nextQuestionId + |batch|)
  }

  /** Numbering two batches from consecutive bases is numbering them as one. */
  lemma NumberedAppend(base: nat, a: seq<Question>, b: seq<Question>)
    ensures Numbered(base, a) + Numbered(base + |a|, b) == Numbered(base, a + b)
  {
    NumberedShape(base, a);
    NumberedShape(base + |a|, b);
    NumberedShape(base, a + b);
    var left, right := Numbered(base, a) + Numbered(base + |a|, b), Numbered(base, a + b);
    forall k | k in right ensures k in left && left[k] == right[k] {
      if k < base + |a| {
        assert right[k] == a[k - base];
      } else {
        assert right[k] == b[k - base - |a|];
      }
    }
    assert left.Keys == right.Keys;
  }

  /** Inserting nothing changes no question. */
  lemma InsertNothing(db: Db)
    ensures Insert(db, []).questions == db.questions
  {
    NumberedShape(db.nextQuestionId, []);
    assert Numbered(db.nextQuestionId, []) == map[];
  }

  /** Inserting two batches one after the other is inserting them as one. */
  lemma InsertAppend(db: Db, a: seq<Question>, b: seq<Question>)
    ensures Insert(Insert(db, a), b) == Insert(db, a + b)
  {
    var base := db.nextQuestionId;
    var m1, m2, m3 := db.questions, Numbered(base, a), Numbered(base + |a|, b);
    NumberedAppend(base, a, b);
    UnionAssociative(m1, m2, m3);
    var mid, left, right := Insert(db, a), Insert(Insert(db, a), b), Insert(db, a + b);
    assert mid.questions == m1 + m2 && mid.nextQuestionId == base + |a|;
    NumberedFrom(mid.nextQuestionId, base + |a|, b);
    assert left.questions == mid.questions + m3;
    assert right.questions == m1 + Numbered(base, a + b);
    assert left.nextQuestionId == right.nextQuestionId;
  }

  lemma NumberedFrom(x: nat, y: nat, batch: seq<Question>)
    requires x == y
    ensures Numbered(x, batch) == Numbered(y, batch)
  {
  }

  lemma UnionAssociative<K, V>(m1: map<K, V>, m2: map<K, V>, m3: map<K, V>)
    ensures (m1 + m2) + m3 == m1 + (m2 + m3)
  {
    var left, right := (m1 + m2) + m3, m1 + (m2 + m3);
    forall k | k in left ensures k in right && left[k] == right[k] {
    }
    assert left.Keys == right.Keys;
  }

  function SaveExam(db: Db, id: ExamId, exam: Exam): Db
  {
    db.(exams := db.exams[id := exam])
  }

  /** The catch block: re-read the exam, set CREATED with the error text and save; if that save fails, nothing changes. */
  function Recover(db: Db, id: ExamId, error: string, env: Env, trace: seq<Event>): (Db, seq<Event>)
  {
    if id !in db.exams then (db, trace)
    else
      var exam := db.exams[id].(status := CREATED, processingMessage := ErrorPrefix + error);
      if env.writeError(RecoverySave).Some? then (db, trace)
      else (SaveExam(db, id, exam), trace + [Saved(CREATED, exam.processingMessage)])
  }

  /** The subject loop from subject `i` on, then the final REVIEW save; `exam` is the job's in-memory copy of the exam. */
  function Subjects(db: Db, id: ExamId, exam: Exam, i: nat, env: Env, trace: seq<Event>): (Db, seq<Event>)
    requires i <= |exam.subjects|
    decreases |exam.subjects| - i, 1
  {
    if i == |exam.subjects| then Finish(db, id, exam, env, trace)
    else Step(db, id, exam, i, env, trace)
  }

  /** After the last subject: save REVIEW with the completion message. */
  function Finish(db: Db, id: ExamId, exam: Exam, env: Env, trace: seq<Event>): (Db, seq<Event>)
  {
    var done := exam.(status := REVIEW, processingMessage := CompleteMessage);
    if env.writeError(CompleteSave).Some? then Recover(db, id, env.writeError(CompleteSave).value, env, trace)
    else (SaveExam(db, id, done), trace + [Saved(REVIEW, CompleteMessage)])
  }

  /** Subject `i`: the progress save, the generator call and the insert, then the next subject. */
  function Step(db: Db, id: ExamId, exam: Exam, i: nat, env: Env, trace: seq<Event>): (Db, seq<Event>)
    requires i < |exam.subjects|
    decreases |exam.subjects| - i, 0
  {
    var ex := exam.(processingMessage := ProgressMessage(exam.subjects[i], i, |exam.subjects|));
    if env.writeError(ProgressSave(i)).Some? then Recover(db, id, env.writeError(ProgressSave(i)).value, env, trace)
    else
      var saved := SaveExam(db, id, ex);
      var request := RequestFor(InputOf(ex), i);
      var called := trace + [Saved(ex.status, ex.processingMessage), Called(request)];
      var reply := env.generate(i, request);
      if reply.Failure? then Recover(saved, id, reply.error, env, called)
      else if env.writeError(InsertBatch(i)).Some? then Recover(saved, id, env.writeError(InsertBatch(i)).value, env, called)
      else Subjects(Insert(saved, Tagged(id, ex.createdBy, reply.value)), id, ex, i + 1, env, called)
  }

  /** One job, from the moment the worker has taken it off the queue. An exam that no longer exists is dropped. */
  function RunJob(db: Db, id: ExamId, env: Env): (Db, seq<Event>)
  {
    if id !in db.exams then (db, [])
    else
      var exam := db.exams[id].(status := PROCESSING, processingMessage := StartMessage);
      if env.writeError(StartSave).Some? then Recover(db, id, env.writeError(StartSave).value, env, [])
      else Subjects(SaveExam(db, id, exam), id, exam, 0, env, [Saved(PROCESSING, StartMessage)])
  }

  /* ---------------- reference behaviour ---------------- */

  /** The progress saves and generator calls of subjects `i` onwards, when nothing fails. */
  function PlannedSteps(input: JobInput, i: nat): seq<Event>
    requires i <= |input.subjects|
    decreases |input.subjects| - i
  {
    if i == |input.subjects| then []
    else [Saved(PROCESSING, ProgressMessage(input.subjects[i], i, |input.subjects|)), Called(RequestFor(input, i))] +
         PlannedSteps(input, i + 1)
  }

  /** Everything a job shows when nothing fails. */
  function PlannedTrace(input: JobInput): seq<Event>
  {
    [Saved(PROCESSING, StartMessage)] + PlannedSteps(input, 0) + [Saved(REVIEW, CompleteMessage)]
  }

  /** Each generator call gets its own reply: even when subjects 0 and 1 are the same, the
      first call may succeed while the second fails. */
  lemma RepliesPerSubject(input: JobInput)
    requires |input.subjects| >= 2
    ensures exists env: Env :: env.generate(0, RequestFor(input, 0)).Success? && env.generate(1, RequestFor(input, 1)).Failure?
  {
    var env := Env((i: nat, r: GenRequest) => if i == 0 then Success([]) else Failure(""), (w: WriteStep) => None);
    assert env.generate(0, RequestFor(input, 0)).Success? && env.generate(1, RequestFor(input, 1)).Failure?;
  }

  /** Subject `j`'s progress save, generator call and insert all go through. */
  ghost predicate StepOk(input: JobInput, env: Env, j: nat)
    requires j < |input.subjects|
  {
    env.writeError(ProgressSave(j)).None? && env.generate(j, RequestFor(input, j)).Success? && env.writeError(InsertBatch(j)).None?
  }

  /** Subjects `i` onwards save, generate and insert without failure. */
  ghost predicate StepsSucceed(input: JobInput, env: Env, i: nat)
  {
    forall j :: i <= j < |input.subjects| ==> StepOk(input, env, j)
  }

  ghost predicate JobSucceeds(input: JobInput, env: Env)
  {
    env.writeError(StartSave).None? && StepsSucceed(input, env, 0) && env.writeError(CompleteSave).None?
  }

  /** The message of whichever part of subject `j` fails first: its progress save, its generator call or its insert. */
  function StepError(input: JobInput, env: Env, j: nat): string
    requires j < |input.subjects|
  {
    var reply := env.generate(j, RequestFor(input, j));
    if env.writeError(ProgressSave(j)).Some? then env.writeError(ProgressSave(j)).value
    else if reply.Failure? then reply.error
    else if env.writeError(InsertBatch(j)).Some? then env.writeError(InsertBatch(j)).value
    else ""
  }

  /** The message of the first failure from subject `i` on, the completion save included. */
  ghost function FailureFrom(input: JobInput, env: Env, i: nat): string
    requires i <= |input.subjects|
    decreases |input.subjects| - i
  {
    if i == |input.subjects| then
      (if env.writeError(CompleteSave).Some? then env.writeError(CompleteSave).value else "")
    else if !StepOk(input, env, i) then StepError(input, env, i)
    else FailureFrom(input, env, i + 1)
  }

  /** The message of the first failure of a job: the starting save, a subject, or the completion save. */
  ghost function FirstError(input: JobInput, env: Env): string
  {
    if env.writeError(StartSave).Some? then env.writeError(StartSave).value else FailureFrom(input, env, 0)
  }

  /** The questions the generator returns for subjects `i` up to `k` (exclusive), tagged, in subject order. */
  function Batches(input: JobInput, env: Env, id: ExamId, owner: UserId, i: nat, k: nat): seq<Question>
    requires i <= k <= |input.subjects|
    decreases k - i
  {
    if i == k then []
    else
      var reply := env.generate(i, RequestFor(input, i));
      (if reply.Success? then Tagged(id, owner, reply.value) else []) + Batches(input, env, id, owner, i + 1, k)
  }

  /* ---------------- the job only adds AI questions ---------------- */

  /** `db` grew from `db0` the way a job for exam `id` may grow it. */
  ghost predicate Extends(db0: Db, db: Db, id: ExamId, owner: UserId)
  {
    && (forall e :: e in db.exams <==> e in db0.exams)
    && (forall e :: e in db0.exams && e != id ==> db.exams[e] == db0.exams[e])
    && db0.nextQuestionId <= db.nextQuestionId
    && (forall q :: q in db0.questions ==> q in db.questions && db.questions[q] == db0.questions[q])
    && (forall q :: q in db.questions && q !in db0.questions ==> IsAIQuestionOf(db.questions[q], id, owner))
    && FreshIds(db)
  }

  lemma ExtendsTransitive(a: Db, b: Db, c: Db, id: ExamId, owner: UserId)
    requires Extends(a, b, id, owner) && Extends(b, c, id, owner)
    ensures Extends(a, c, id, owner)
  {
  }

  lemma InsertExtends(db: Db, id: ExamId, owner: UserId, drafts: seq<Draft>)
    requires FreshIds(db)
    ensures Extends(db, Insert(db, Tagged(id, owner, drafts)), id, owner)
  {
    NumberedShape(db.nextQuestionId, Tagged(id, owner, drafts));
  }

  lemma {:induction false} RecoverExtends(db0: Db, db: Db, id: ExamId, owner: UserId, error: string, env: Env, trace: seq<Event>)
    requires Extends(db0, db, id, owner) && id in db0.exams
    ensures Extends(db0, Recover(db, id, error, env, trace).0, id, owner)
  {
  }

  /** Saving exam `id` keeps the growth relation. */
  lemma SaveExtends(db0: Db, db: Db, id: ExamId, owner: UserId, exam: Exam)
    requires Extends(db0, db, id, owner) && id in db0.exams
    ensures Extends(db0, SaveExam(db, id, exam), id, owner)
  {
  }

  /** A successful subject step keeps the growth relation. */
  lemma NextExtends(db0: Db, db: Db, id: ExamId, exam: Exam, i: nat, env: Env)
    requires i < |exam.subjects| && env.generate(i, RequestFor(InputOf(exam), i)).Success? && id in db0.exams
    requires Extends(db0, db, id, exam.createdBy)
    ensures Extends(db0, NextDb(db, id, exam, i, env), id, exam.createdBy)
  {
    var saved := SaveExam(db, id, AtSubject(exam, i));
    SaveExtends(db0, db, id, exam.createdBy, AtSubject(exam, i));
    InsertExtends(saved, id, exam.createdBy, env.generate(i, RequestFor(InputOf(exam), i)).value);
    ExtendsTransitive(db0, saved, NextDb(db, id, exam, i, env), id, exam.createdBy);
  }

  /** A failing subject step keeps the growth relation. */
  lemma SubjectFailsExtends(db0: Db, db: Db, id: ExamId, exam: Exam, i: nat, env: Env, trace: seq<Event>)
    requires i < |exam.subjects| && !StepOk(InputOf(exam), env, i) && id in db0.exams
    requires Extends(db0, db, id, exam.createdBy)
    ensures Extends(db0, Subjects(db, id, exam, i, env, trace).0, id, exam.createdBy)
  {
    var at, t, error := SubjectStepFails(db, id, exam, i, env, trace);
    SaveExtends(db0, db, id, exam.createdBy, AtSubject(exam, i));
    RecoverExtends(db0, at, id, exam.createdBy, error, env, t);
  }

  lemma {:induction false} SubjectsExtends(db0: Db, db: Db, id: ExamId, exam: Exam, i: nat, env: Env, trace: seq<Event>)
    requires i <= |exam.subjects| && id in db0.exams
    requires Extends(db0, db, id, exam.createdBy)
    ensures Extends(db0, Subjects(db, id, exam, i, env, trace).0, id, exam.createdBy)
    decreases |exam.subjects| - i
  {
    var owner := exam.createdBy;
    if i == |exam.subjects| {
      if env.writeError(CompleteSave).Some? {
        RecoverExtends(db0, db, id, owner, env.writeError(CompleteSave).value, env, trace);
      } else {
        SaveExtends(db0, db, id, owner, exam.(status := REVIEW, processingMessage := CompleteMessage));
      }
    } else if StepOk(InputOf(exam), env, i) {
      AtSubjectKeeps(exam, i);
      NextExtends(db0, db, id, exam, i, env);
      SubjectsExtends(db0, NextDb(db, id, exam, i, env), id, AtSubject(exam, i), i + 1, env, trace + StepEvents(exam, i));
      SubjectStepOk(db, id, exam, i, env, trace);
    } else {
      SubjectFailsExtends(db0, db, id, exam, i, env, trace);
    }
  }

  /** Whatever the generator and the store do, a job changes no other exam, deletes or rewrites
      no question, and every question it adds is an unapproved AI question of that exam owned by
      the exam's creator. */
  lemma JobOnlyAddsAIQuestions(db: Db, id: ExamId, env: Env)
    requires FreshIds(db) && id in db.exams
    ensures Extends(db, RunJob(db, id, env).0, id, db.exams[id].createdBy)
  {
    var owner := db.exams[id].createdBy;
    var exam := db.exams[id].(status := PROCESSING, processingMessage := StartMessage);
    assert Extends(db, db, id, owner);
    if env.writeError(StartSave).Some? {
      RecoverExtends(db, db, id, owner, env.writeError(StartSave).value, env, []);
    } else {
      assert Extends(db, SaveExam(db, id, exam), id, owner);
      SubjectsExtends(db, SaveExam(db, id, exam), id, exam, 0, env, [Saved(PROCESSING, StartMessage)]);
    }
  }

  /** A job whose exam is gone leaves everything as it is and shows nothing. */
  lemma MissingExamDropsJob(db: Db, id: ExamId, env: Env)
    requires id !in db.exams
    ensures RunJob(db, id, env) == (db, [])
  {
  }

  /* ---------------- success ---------------- */

  /** The in-memory exam while subject `i` is being generated. */
  function AtSubject(exam: Exam, i: nat): Exam
    requires i < |exam.subjects|
  {
    exam.(processingMessage := ProgressMessage(exam.subjects[i], i, |exam.subjects|))
  }

  /** The events one subject shows before its generator reply arrives. */
  function StepEvents(exam: Exam, i: nat): seq<Event>
    requires i < |exam.subjects|
  {
    [Saved(exam.status, AtSubject(exam, i).processingMessage), Called(RequestFor(InputOf(exam), i))]
  }

  /** The store once subject `i` has saved its progress and inserted its batch. */
  function NextDb(db: Db, id: ExamId, exam: Exam, i: nat, env: Env): Db
    requires i < |exam.subjects| && env.generate(i, RequestFor(InputOf(exam), i)).Success?
  {
    Insert(SaveExam(db, id, AtSubject(exam, i)), Tagged(id, exam.createdBy, env.generate(i, RequestFor(InputOf(exam), i)).value))
  }

  /** The progress message is the only field a subject step changes in the job's copy of the exam. */
  lemma AtSubjectKeeps(exam: Exam, i: nat)
    requires i < |exam.subjects|
    ensures InputOf(AtSubject(exam, i)) == InputOf(exam)
    ensures Content(AtSubject(exam, i)) == Content(exam)
    ensures AtSubject(exam, i).subjects == exam.subjects && AtSubject(exam, i).status == exam.status
    ensures AtSubject(exam, i).createdBy == exam.createdBy
  {
    assert InputOf(AtSubject(exam, i)) == InputOf(exam);
  }

  /** A subject whose save, call and insert all go through hands over to the next subject. */
  lemma SubjectStepOk(db: Db, id: ExamId, exam: Exam, i: nat, env: Env, trace: seq<Event>)
    requires i < |exam.subjects|
    requires StepOk(InputOf(exam), env, i)
    ensures Subjects(db, id, exam, i, env, trace) ==
      Subjects(NextDb(db, id, exam, i, env), id, AtSubject(exam, i), i + 1, env, trace + StepEvents(exam, i))
  {
    AtSubjectKeeps(exam, i);
  }

  /** A failed progress save goes straight to the catch block. */
  lemma ProgressSaveFails(db: Db, id: ExamId, exam: Exam, i: nat, env: Env, trace: seq<Event>)
    requires i < |exam.subjects| && env.writeError(ProgressSave(i)).Some?
    ensures Subjects(db, id, exam, i, env, trace) == Recover(db, id, env.writeError(ProgressSave(i)).value, env, trace)
  {
  }

  /** A failed generator call goes to the catch block after the progress save and the call. */
  lemma GenerateFails(db: Db, id: ExamId, exam: Exam, i: nat, env: Env, trace: seq<Event>)
    requires i < |exam.subjects| && env.writeError(ProgressSave(i)).None?
    requires env.generate(i, RequestFor(InputOf(exam), i)).Failure?
    ensures Subjects(db, id, exam, i, env, trace) ==
      Recover(SaveExam(db, id, AtSubject(exam, i)), id, env.generate(i, RequestFor(InputOf(exam), i)).error, env, trace + StepEvents(exam, i))
  {
    AtSubjectKeeps(exam, i);
  }

  /** A failed insert goes to the catch block after the progress save and the call. */
  lemma InsertFails(db: Db, id: ExamId, exam: Exam, i: nat, env: Env, trace: seq<Event>)
    requires i < |exam.subjects| && env.writeError(ProgressSave(i)).None?
    requires env.generate(i, RequestFor(InputOf(exam), i)).Success? && env.writeError(InsertBatch(i)).Some?
    ensures Subjects(db, id, exam, i, env, trace) ==
      Recover(SaveExam(db, id, AtSubject(exam, i)), id, env.writeError(InsertBatch(i)).value, env, trace + StepEvents(exam, i))
  {
    AtSubjectKeeps(exam, i);
  }

  /** The trace of a successful subject step extends to the planned steps from `i`. */
  lemma SucceedTraceStep(db: Db, id: ExamId, exam: Exam, i: nat, env: Env, trace: seq<Event>)
    requires i < |exam.subjects| && exam.status == PROCESSING && StepOk(InputOf(exam), env, i)
    requires Subjects(NextDb(db, id, exam, i, env), id, AtSubject(exam, i), i + 1, env, trace + StepEvents(exam, i)).1 ==
      trace + StepEvents(exam, i) + PlannedSteps(InputOf(AtSubject(exam, i)), i + 1) + [Saved(REVIEW, CompleteMessage)]
    ensures Subjects(db, id, exam, i, env, trace).1 == trace + PlannedSteps(InputOf(exam), i) + [Saved(REVIEW, CompleteMessage)]
  {
    SubjectStepOk(db, id, exam, i, env, trace);
    AtSubjectKeeps(exam, i);
    PlannedStepsStep(exam, i);
  }

  lemma {:induction false} SubjectsSucceedTrace(db: Db, id: ExamId, exam: Exam, i: nat, env: Env, trace: seq<Event>)
    requires i <= |exam.subjects| && exam.status == PROCESSING
    requires StepsSucceed(InputOf(exam), env, i) && env.writeError(CompleteSave).None?
    ensures Subjects(db, id, exam, i, env, trace).1 == trace + PlannedSteps(InputOf(exam), i) + [Saved(REVIEW, CompleteMessage)]
    decreases |exam.subjects| - i
  {
    if i < |exam.subjects| {
      assert StepOk(InputOf(exam), env, i);
      AtSubjectKeeps(exam, i);
      SubjectsSucceedTrace(NextDb(db, id, exam, i, env), id, AtSubject(exam, i), i + 1, env, trace + StepEvents(exam, i));
      SucceedTraceStep(db, id, exam, i, env, trace);
    }
  }

  /** The exams after a successful subject step are those the next subject ends with. */
  lemma SucceedExamStep(db: Db, id: ExamId, exam: Exam, i: nat, env: Env, trace: seq<Event>)
    requires i < |exam.subjects| && StepOk(InputOf(exam), env, i)
    requires Subjects(NextDb(db, id, exam, i, env), id, AtSubject(exam, i), i + 1, env, trace + StepEvents(exam, i)).0.exams ==
      NextDb(db, id, exam, i, env).exams[id := AtSubject(exam, i).(status := REVIEW, processingMessage := CompleteMessage)]
    ensures Subjects(db, id, exam, i, env, trace).0.exams == db.exams[id := exam.(status := REVIEW, processingMessage := CompleteMessage)]
  {
    SubjectStepOk(db, id, exam, i, env, trace);
    var ex := AtSubject(exam, i);
    var done := exam.(status := REVIEW, processingMessage := CompleteMessage);
    assert ex.(status := REVIEW, processingMessage := CompleteMessage) == done;
    assert NextDb(db, id, exam, i, env).exams == db.exams[id := ex];
    assert db.exams[id := ex][id := done] == db.exams[id := done];
  }

  lemma {:induction false} SubjectsSucceedExam(db: Db, id: ExamId, exam: Exam, i: nat, env: Env, trace: seq<Event>)
    requires i <= |exam.subjects|
    requires StepsSucceed(InputOf(exam), env, i) && env.writeError(CompleteSave).None?
    ensures Subjects(db, id, exam, i, env, trace).0.exams == db.exams[id := exam.(status := REVIEW, processingMessage := CompleteMessage)]
    decreases |exam.subjects| - i
  {
    if i < |exam.subjects| {
      assert StepOk(InputOf(exam), env, i);
      AtSubjectKeeps(exam, i);
      SubjectsSucceedExam(NextDb(db, id, exam, i, env), id, AtSubject(exam, i), i + 1, env, trace + StepEvents(exam, i));
      SucceedExamStep(db, id, exam, i, env, trace);
    }
  }

  /** After a successful subject step, the subject's batch comes first among the batches up to `k`. */
  lemma BatchesStep(db: Db, id: ExamId, exam: Exam, i: nat, k: nat, env: Env, trace: seq<Event>)
    requires i < k <= |exam.subjects| && StepOk(InputOf(exam), env, i)
    requires Subjects(NextDb(db, id, exam, i, env), id, AtSubject(exam, i), i + 1, env, trace + StepEvents(exam, i)).0.questions ==
      Insert(NextDb(db, id, exam, i, env), Batches(InputOf(AtSubject(exam, i)), env, id, AtSubject(exam, i).createdBy, i + 1, k)).questions
    ensures Subjects(db, id, exam, i, env, trace).0.questions == Insert(db, Batches(InputOf(exam), env, id, exam.createdBy, i, k)).questions
  {
    SubjectStepOk(db, id, exam, i, env, trace);
    AtSubjectKeeps(exam, i);
    var input := InputOf(exam);
    var saved := SaveExam(db, id, AtSubject(exam, i));
    var batch := Tagged(id, exam.createdBy, env.generate(i, RequestFor(input, i)).value);
    var rest := Batches(input, env, id, exam.createdBy, i + 1, k);
    assert Batches(input, env, id, exam.createdBy, i, k) == batch + rest;
    InsertAppend(saved, batch, rest);
    assert Insert(saved, batch + rest).questions == Insert(db, batch + rest).questions;
  }

  lemma {:induction false} SubjectsSucceedQuestions(db: Db, id: ExamId, exam: Exam, i: nat, env: Env, trace: seq<Event>)
    requires i <= |exam.subjects|
    requires StepsSucceed(InputOf(exam), env, i) && env.writeError(CompleteSave).None?
    ensures Subjects(db, id, exam, i, env, trace).0.questions == Insert(db, Batches(InputOf(exam), env, id, exam.createdBy, i, |exam.subjects|)).questions
    decreases |exam.subjects| - i
  {
    if i == |exam.subjects| {
      InsertNothing(db);
    } else {
      assert StepOk(InputOf(exam), env, i);
      AtSubjectKeeps(exam, i);
      SubjectsSucceedQuestions(NextDb(db, id, exam, i, env), id, AtSubject(exam, i), i + 1, env, trace + StepEvents(exam, i));
      BatchesStep(db, id, exam, i, |exam.subjects|, env, trace);
    }
  }

  /** With every write and every generator call succeeding, a job saves "Starting AI
      generation...", then before each subject's single call the message "Generating questions
      for <subject>... (<i>/<n>)", ends in REVIEW with "AI generation complete.", and adds
      exactly the generated questions of all subjects, in subject order. */
  lemma JobSuccess(db: Db, id: ExamId, env: Env)
    requires id in db.exams && JobSucceeds(InputOf(db.exams[id]), env)
    ensures RunJob(db, id, env).1 == PlannedTrace(InputOf(db.exams[id]))
    ensures RunJob(db, id, env).0.exams == db.exams[id := db.exams[id].(status := REVIEW, processingMessage := CompleteMessage)]
    ensures RunJob(db, id, env).0.questions == Insert(db, Batches(InputOf(db.exams[id]), env, id, db.exams[id].createdBy, 0, |db.exams[id].subjects|)).questions
  {
    var exam := db.exams[id].(status := PROCESSING, processingMessage := StartMessage);
    var saved := SaveExam(db, id, exam);
    var start := [Saved(PROCESSING, StartMessage)];
    assert InputOf(exam) == InputOf(db.exams[id]);
    assert RunJob(db, id, env) == Subjects(saved, id, exam, 0, env, start);
    SubjectsSucceedTrace(saved, id, exam, 0, env, start);
    SubjectsSucceedExam(saved, id, exam, 0, env, start);
    SubjectsSucceedQuestions(saved, id, exam, 0, env, start);
  }

  /** An exam without subjects makes no generator call and goes straight from PROCESSING to REVIEW. */
  lemma NoSubjectsNoCalls(db: Db, id: ExamId, env: Env)
    requires id in db.exams && db.exams[id].subjects == []
    requires env.writeError(StartSave).None? && env.writeError(CompleteSave).None?
    ensures RunJob(db, id, env).1 == [Saved(PROCESSING, StartMessage), Saved(REVIEW, CompleteMessage)]
    ensures RunJob(db, id, env).0.exams[id].status == REVIEW
    ensures RunJob(db, id, env).0.questions == db.questions
  {
    JobSuccess(db, id, env);
    InsertNothing(db);
  }

  /* ---------------- failure ---------------- */

  /** The last event is the reverting save, and what came before it is a proper prefix of the failure-free trace. */
  ghost predicate RevertedAfter(trace: seq<Event>, planned: seq<Event>)
  {
    |trace| >= 1 && trace[..|trace| - 1] < planned &&
    trace[|trace| - 1].Saved? && trace[|trace| - 1].status == CREATED && ErrorPrefix <= trace[|trace| - 1].message
  }

  /** The message of the last event, when it is a save. */
  function LastMessage(trace: seq<Event>): string
  {
    if |trace| > 0 && trace[|trace| - 1].Saved? then trace[|trace| - 1].message else ""
  }

  /** An exam record with its job-controlled fields blanked: two records agree on everything a job does not write. */
  function Content(exam: Exam): Exam
  {
    exam.(status := CREATED, processingMessage := "")
  }

  lemma RecoverTrace(db: Db, id: ExamId, error: string, env: Env, trace: seq<Event>, planned: seq<Event>)
    requires id in db.exams && env.writeError(RecoverySave).None? && trace < planned
    ensures RevertedAfter(Recover(db, id, error, env, trace).1, planned)
    ensures LastMessage(Recover(db, id, error, env, trace).1) == ErrorPrefix + error
  {
    var t := Recover(db, id, error, env, trace).1;
    assert t[..|t| - 1] == trace;
  }

  /** A failing subject (its save, its call or its insert) goes straight to the catch block. */
  lemma SubjectStepFails(db: Db, id: ExamId, exam: Exam, i: nat, env: Env, trace: seq<Event>)
    returns (at: Db, t: seq<Event>, error: string)
    requires i < |exam.subjects|
    requires !StepOk(InputOf(exam), env, i)
    ensures Subjects(db, id, exam, i, env, trace) == Recover(at, id, error, env, t)
    ensures (at == db && t == trace) || (at == SaveExam(db, id, AtSubject(exam, i)) && t == trace + StepEvents(exam, i))
    ensures error == StepError(InputOf(exam), env, i)
  {
    var ex := AtSubject(exam, i);
    assert InputOf(ex) == InputOf(exam);
    var reply := env.generate(i, RequestFor(InputOf(exam), i));
    if env.writeError(ProgressSave(i)).Some? {
      at, t, error := db, trace, env.writeError(ProgressSave(i)).value;
    } else if reply.Failure? {
      at, t, error := SaveExam(db, id, ex), trace + StepEvents(exam, i), reply.error;
    } else {
      at, t, error := SaveExam(db, id, ex), trace + StepEvents(exam, i), env.writeError(InsertBatch(i)).value;
    }
  }

  /** With nothing failing, subject `i` shows its step events and hands over to subject `i + 1`. */
  lemma PlannedStepsStep(exam: Exam, i: nat)
    requires i < |exam.subjects| && exam.status == PROCESSING
    ensures PlannedSteps(InputOf(exam), i) == StepEvents(exam, i) + PlannedSteps(InputOf(exam), i + 1)
  {
  }

  /** A failing subject ends the trace with the reverting save, after at most its own step events. */
  lemma SubjectFailsTrace(db: Db, id: ExamId, exam: Exam, i: nat, env: Env, prefix: seq<Event>)
    requires i < |exam.subjects| && exam.status == PROCESSING && id in db.exams && env.writeError(RecoverySave).None?
    requires !StepOk(InputOf(exam), env, i)
    ensures RevertedAfter(Subjects(db, id, exam, i, env, prefix).1, prefix + PlannedSteps(InputOf(exam), i) + [Saved(REVIEW, CompleteMessage)])
  {
    var planned := prefix + PlannedSteps(InputOf(exam), i) + [Saved(REVIEW, CompleteMessage)];
    FailPrefixes(exam, i, prefix);
    var at, t, error := SubjectStepFails(db, id, exam, i, env, prefix);
    RecoverTrace(at, id, error, env, t, planned);
  }

  /** What a job has shown before or after subject `i`'s step events is a proper prefix of the planned trace. */
  lemma FailPrefixes(exam: Exam, i: nat, prefix: seq<Event>)
    requires i < |exam.subjects| && exam.status == PROCESSING
    ensures prefix < prefix + PlannedSteps(InputOf(exam), i) + [Saved(REVIEW, CompleteMessage)]
    ensures prefix + StepEvents(exam, i) < prefix + PlannedSteps(InputOf(exam), i) + [Saved(REVIEW, CompleteMessage)]
  {
    var planned := prefix + PlannedSteps(InputOf(exam), i) + [Saved(REVIEW, CompleteMessage)];
    var steps, rest := StepEvents(exam, i), PlannedSteps(InputOf(exam), i + 1) + [Saved(REVIEW, CompleteMessage)];
    PlannedStepsStep(exam, i);
    assert planned == (prefix + steps) + rest;
    assert planned == prefix + (steps + rest);
    ProperPrefix(prefix + steps, rest);
    ProperPrefix(prefix, steps + rest);
  }

  lemma ProperPrefix<T>(a: seq<T>, b: seq<T>)
    requires b != []
    ensures a < a + b
  {
    assert (a + b)[..|a|] == a;
  }

  /** A failing completion save ends the trace with the reverting save, after all planned steps. */
  lemma FinishFailsTrace(db: Db, id: ExamId, exam: Exam, env: Env, prefix: seq<Event>)
    requires id in db.exams && env.writeError(RecoverySave).None? && env.writeError(CompleteSave).Some?
    ensures RevertedAfter(Subjects(db, id, exam, |exam.subjects|, env, prefix).1,
                          prefix + PlannedSteps(InputOf(exam), |exam.subjects|) + [Saved(REVIEW, CompleteMessage)])
  {
    RecoverTrace(db, id, env.writeError(CompleteSave).value, env, prefix, prefix + [] + [Saved(REVIEW, CompleteMessage)]);
  }

  /** A failing later subject reverts after a proper prefix of the planned trace from `i`. */
  lemma FailTraceStep(db: Db, id: ExamId, exam: Exam, i: nat, env: Env, prefix: seq<Event>)
    requires i < |exam.subjects| && exam.status == PROCESSING && StepOk(InputOf(exam), env, i)
    requires RevertedAfter(Subjects(NextDb(db, id, exam, i, env), id, AtSubject(exam, i), i + 1, env, prefix + StepEvents(exam, i)).1,
                           prefix + StepEvents(exam, i) + PlannedSteps(InputOf(AtSubject(exam, i)), i + 1) + [Saved(REVIEW, CompleteMessage)])
    ensures RevertedAfter(Subjects(db, id, exam, i, env, prefix).1, prefix + PlannedSteps(InputOf(exam), i) + [Saved(REVIEW, CompleteMessage)])
  {
    SubjectStepOk(db, id, exam, i, env, prefix);
    AtSubjectKeeps(exam, i);
    PlannedStepsStep(exam, i);
    assert prefix + StepEvents(exam, i) + PlannedSteps(InputOf(exam), i + 1) + [Saved(REVIEW, CompleteMessage)] ==
           prefix + PlannedSteps(InputOf(exam), i) + [Saved(REVIEW, CompleteMessage)];
  }

  lemma {:induction false} SubjectsFailTrace(db: Db, id: ExamId, exam: Exam, i: nat, env: Env, prefix: seq<Event>)
    requires i <= |exam.subjects| && exam.status == PROCESSING && id in db.exams
    requires env.writeError(RecoverySave).None?
    requires !(StepsSucceed(InputOf(exam), env, i) && env.writeError(CompleteSave).None?)
    ensures RevertedAfter(Subjects(db, id, exam, i, env, prefix).1, prefix + PlannedSteps(InputOf(exam), i) + [Saved(REVIEW, CompleteMessage)])
    decreases |exam.subjects| - i
  {
    if i == |exam.subjects| {
      FinishFailsTrace(db, id, exam, env, prefix);
    } else if StepOk(InputOf(exam), env, i) {
      AtSubjectKeeps(exam, i);
      assert !(StepsSucceed(InputOf(AtSubject(exam, i)), env, i + 1) && env.writeError(CompleteSave).None?);
      SubjectsFailTrace(NextDb(db, id, exam, i, env), id, AtSubject(exam, i), i + 1, env, prefix + StepEvents(exam, i));
      FailTraceStep(db, id, exam, i, env, prefix);
    } else {
      SubjectFailsTrace(db, id, exam, i, env, prefix);
    }
  }

  /** The catch block saves "Error: " and the error it was given. */
  lemma RecoverMessage(db: Db, id: ExamId, error: string, env: Env, trace: seq<Event>)
    requires id in db.exams && env.writeError(RecoverySave).None?
    ensures LastMessage(Recover(db, id, error, env, trace).1) == ErrorPrefix + error
  {
  }

  /** A failing subject step saves that step's own error. */
  lemma SubjectFailsMessage(db: Db, id: ExamId, exam: Exam, i: nat, env: Env, prefix: seq<Event>)
    requires i < |exam.subjects| && id in db.exams && env.writeError(RecoverySave).None?
    requires !StepOk(InputOf(exam), env, i)
    ensures LastMessage(Subjects(db, id, exam, i, env, prefix).1) == ErrorPrefix + StepError(InputOf(exam), env, i)
  {
    var at, t, error := SubjectStepFails(db, id, exam, i, env, prefix);
    RecoverMessage(at, id, error, env, t);
  }

  /** A subject that goes through passes on the message of the first later failure. */
  lemma MessageStep(db: Db, id: ExamId, exam: Exam, i: nat, env: Env, prefix: seq<Event>)
    requires i < |exam.subjects| && StepOk(InputOf(exam), env, i)
    requires LastMessage(Subjects(NextDb(db, id, exam, i, env), id, AtSubject(exam, i), i + 1, env, prefix + StepEvents(exam, i)).1) ==
             ErrorPrefix + FailureFrom(InputOf(exam), env, i + 1)
    ensures LastMessage(Subjects(db, id, exam, i, env, prefix).1) == ErrorPrefix + FailureFrom(InputOf(exam), env, i)
  {
    SubjectStepOk(db, id, exam, i, env, prefix);
  }

  lemma {:induction false} SubjectsFailMessage(db: Db, id: ExamId, exam: Exam, i: nat, env: Env, prefix: seq<Event>)
    requires i <= |exam.subjects| && id in db.exams
    requires env.writeError(RecoverySave).None?
    requires !(StepsSucceed(InputOf(exam), env, i) && env.writeError(CompleteSave).None?)
    ensures LastMessage(Subjects(db, id, exam, i, env, prefix).1) == ErrorPrefix + FailureFrom(InputOf(exam), env, i)
    decreases |exam.subjects| - i
  {
    if i == |exam.subjects| {
      RecoverMessage(db, id, env.writeError(CompleteSave).value, env, prefix);
    } else if StepOk(InputOf(exam), env, i) {
      AtSubjectKeeps(exam, i);
      assert !(StepsSucceed(InputOf(AtSubject(exam, i)), env, i + 1) && env.writeError(CompleteSave).None?);
      SubjectsFailMessage(NextDb(db, id, exam, i, env), id, AtSubject(exam, i), i + 1, env, prefix + StepEvents(exam, i));
      MessageStep(db, id, exam, i, env, prefix);
    } else {
      SubjectFailsMessage(db, id, exam, i, env, prefix);
    }
  }

  /** Two records with the same content agree once the job-controlled fields are set. */
  lemma ContentSet(a: Exam, b: Exam, status: Status, message: string)
    requires Content(a) == Content(b)
    ensures a.(status := status, processingMessage := message) == b.(status := status, processingMessage := message)
  {
    assert a.(status := status, processingMessage := message) == Content(a).(status := status, processingMessage := message);
    assert b.(status := status, processingMessage := message) == Content(b).(status := status, processingMessage := message);
  }

  /** The catch block writes the error into the job's view of the exam. */
  lemma RecoverExam(db: Db, id: ExamId, error: string, env: Env, trace: seq<Event>, exam: Exam)
    requires id in db.exams && Content(db.exams[id]) == Content(exam) && env.writeError(RecoverySave).None?
    ensures Recover(db, id, error, env, trace).0.exams ==
      db.exams[id := exam.(status := CREATED, processingMessage := LastMessage(Recover(db, id, error, env, trace).1))]
  {
    var message := ErrorPrefix + error;
    var t := Recover(db, id, error, env, trace).1;
    assert t == trace + [Saved(CREATED, message)];
    assert LastMessage(t) == message;
    ContentSet(db.exams[id], exam, CREATED, message);
  }

  /** A failing later subject leaves the exams as a failure from subject `i` does. */
  lemma FailExamStep(db: Db, id: ExamId, exam: Exam, i: nat, env: Env, prefix: seq<Event>)
    requires i < |exam.subjects| && StepOk(InputOf(exam), env, i)
    requires var r := Subjects(NextDb(db, id, exam, i, env), id, AtSubject(exam, i), i + 1, env, prefix + StepEvents(exam, i));
             r.0.exams == NextDb(db, id, exam, i, env).exams[id := AtSubject(exam, i).(status := CREATED, processingMessage := LastMessage(r.1))]
    ensures Subjects(db, id, exam, i, env, prefix).0.exams ==
      db.exams[id := exam.(status := CREATED, processingMessage := LastMessage(Subjects(db, id, exam, i, env, prefix).1))]
  {
    SubjectStepOk(db, id, exam, i, env, prefix);
    AtSubjectKeeps(exam, i);
    var ex := AtSubject(exam, i);
    var r := Subjects(db, id, exam, i, env, prefix);
    var final := exam.(status := CREATED, processingMessage := LastMessage(r.1));
    ContentSet(ex, exam, CREATED, LastMessage(r.1));
    assert NextDb(db, id, exam, i, env).exams == db.exams[id := ex];
    assert db.exams[id := ex][id := final] == db.exams[id := final];
  }

  /** A failing subject step leaves the exams as the catch block writes them. */
  lemma SubjectFailsExam(db: Db, id: ExamId, exam: Exam, i: nat, env: Env, prefix: seq<Event>)
    requires i < |exam.subjects| && id in db.exams && Content(db.exams[id]) == Content(exam)
    requires env.writeError(RecoverySave).None? && !StepOk(InputOf(exam), env, i)
    ensures Subjects(db, id, exam, i, env, prefix).0.exams ==
      db.exams[id := exam.(status := CREATED, processingMessage := LastMessage(Subjects(db, id, exam, i, env, prefix).1))]
  {
    var at, t, error := SubjectStepFails(db, id, exam, i, env, prefix);
    AtSubjectKeeps(exam, i);
    assert Content(at.exams[id]) == Content(exam);
    RecoverExam(at, id, error, env, t, exam);
    var r := Recover(at, id, error, env, t);
    var final := exam.(status := CREATED, processingMessage := LastMessage(r.1));
    assert at.exams[id := final] == db.exams[id := final];
  }

  lemma {:induction false} SubjectsFailExam(db: Db, id: ExamId, exam: Exam, i: nat, env: Env, prefix: seq<Event>)
    requires i <= |exam.subjects| && id in db.exams && Content(db.exams[id]) == Content(exam)
    requires env.writeError(RecoverySave).None?
    requires !(StepsSucceed(InputOf(exam), env, i) && env.writeError(CompleteSave).None?)
    ensures Subjects(db, id, exam, i, env, prefix).0.exams ==
      db.exams[id := exam.(status := CREATED, processingMessage := LastMessage(Subjects(db, id, exam, i, env, prefix).1))]
    decreases |exam.subjects| - i
  {
    if i == |exam.subjects| {
      RecoverExam(db, id, env.writeError(CompleteSave).value, env, prefix, exam);
    } else if StepOk(InputOf(exam), env, i) {
      AtSubjectKeeps(exam, i);
      assert NextDb(db, id, exam, i, env).exams == db.exams[id := AtSubject(exam, i)];
      assert !(StepsSucceed(InputOf(AtSubject(exam, i)), env, i + 1) && env.writeError(CompleteSave).None?);
      SubjectsFailExam(NextDb(db, id, exam, i, env), id, AtSubject(exam, i), i + 1, env, prefix + StepEvents(exam, i));
      FailExamStep(db, id, exam, i, env, prefix);
    } else {
      SubjectFailsExam(db, id, exam, i, env, prefix);
    }
  }

  lemma {:induction false} SubjectsFailKeepsBatches(db: Db, id: ExamId, exam: Exam, i: nat, k: nat, env: Env, prefix: seq<Event>)
    requires i <= k < |exam.subjects|
    requires forall j :: i <= j < k ==> StepOk(InputOf(exam), env, j)
    requires !StepOk(InputOf(exam), env, k)
    ensures Subjects(db, id, exam, i, env, prefix).0.questions == Insert(db, Batches(InputOf(exam), env, id, exam.createdBy, i, k)).questions
    decreases k - i
  {
    if i == k {
      var at, t, error := SubjectStepFails(db, id, exam, i, env, prefix);
      InsertNothing(db);
    } else {
      assert StepOk(InputOf(exam), env, i);
      AtSubjectKeeps(exam, i);
      SubjectsFailKeepsBatches(NextDb(db, id, exam, i, env), id, AtSubject(exam, i), i + 1, k, env, prefix + StepEvents(exam, i));
      BatchesStep(db, id, exam, i, k, env, prefix);
    }
  }

  /** When subject `k` is the first to fail (its save, its generator call or its insert), the
      questions of the subjects before it stay inserted and no question of `k` or of a later
      subject is added. */
  lemma JobFailureKeepsEarlierBatches(db: Db, id: ExamId, env: Env, k: nat)
    requires id in db.exams && k < |db.exams[id].subjects|
    requires env.writeError(StartSave).None?
    requires forall j :: 0 <= j < k ==> StepOk(InputOf(db.exams[id]), env, j)
    requires !StepOk(InputOf(db.exams[id]), env, k)
    ensures RunJob(db, id, env).0.questions == Insert(db, Batches(InputOf(db.exams[id]), env, id, db.exams[id].createdBy, 0, k)).questions
  {
    var exam := db.exams[id].(status := PROCESSING, processingMessage := StartMessage);
    var saved := SaveExam(db, id, exam);
    assert InputOf(exam) == InputOf(db.exams[id]);
    assert RunJob(db, id, env) == Subjects(saved, id, exam, 0, env, [Saved(PROCESSING, StartMessage)]);
    SubjectsFailKeepsBatches(saved, id, exam, 0, k, env, [Saved(PROCESSING, StartMessage)]);
  }

  /** If anything fails and the reverting save goes through, the exam ends in CREATED with the
      message "Error: " followed by the first failure's message, its other fields as they were;
      what the job showed before that save is a proper prefix of the failure-free trace, so no
      later subject was attempted. */
  lemma JobFailureReverts(db: Db, id: ExamId, env: Env)
    requires id in db.exams && env.writeError(RecoverySave).None? && !JobSucceeds(InputOf(db.exams[id]), env)
    ensures RevertedAfter(RunJob(db, id, env).1, PlannedTrace(InputOf(db.exams[id])))
    ensures LastMessage(RunJob(db, id, env).1) == ErrorPrefix + FirstError(InputOf(db.exams[id]), env)
    ensures RunJob(db, id, env).0.exams ==
      db.exams[id := db.exams[id].(status := CREATED, processingMessage := LastMessage(RunJob(db, id, env).1))]
  {
    var exam := db.exams[id].(status := PROCESSING, processingMessage := StartMessage);
    assert InputOf(exam) == InputOf(db.exams[id]);
    var planned := PlannedTrace(InputOf(exam));
    if env.writeError(StartSave).Some? {
      RecoverTrace(db, id, env.writeError(StartSave).value, env, [], planned);
    } else {
      var start := [Saved(PROCESSING, StartMessage)];
      var saved := SaveExam(db, id, exam);
      assert RunJob(db, id, env) == Subjects(saved, id, exam, 0, env, start);
      assert planned == start + PlannedSteps(InputOf(exam), 0) + [Saved(REVIEW, CompleteMessage)];
      SubjectsFailTrace(saved, id, exam, 0, env, start);
      SubjectsFailMessage(saved, id, exam, 0, env, start);
      SubjectsFailExam(saved, id, exam, 0, env, start);
    }
  }

  /* ---------------- a queue of jobs ---------------- */

  /** The store after the jobs for `ids` run one after the other, job `k` seeing `envs[k]`. */
  function RunAll(db: Db, ids: seq<ExamId>, envs: seq<Env>): Db
    requires |ids| == |envs|
    decreases |ids|
  {
    if ids == [] then db
    else RunJob(RunAll(db, ids[..|ids| - 1], envs[..|envs| - 1]), ids[|ids| - 1], envs[|envs| - 1]).0
  }

  /** However many jobs run, fresh ids stay fresh and no exam appears or disappears. */
  lemma {:induction false} RunAllKeepsStore(db: Db, ids: seq<ExamId>, envs: seq<Env>)
    requires FreshIds(db) && |ids| == |envs|
    ensures FreshIds(RunAll(db, ids, envs)) && RunAll(db, ids, envs).exams.Keys == db.exams.Keys
    ensures forall q :: q in db.questions ==> q in RunAll(db, ids, envs).questions
    decreases |ids|
  {
    if ids != [] {
      var before := RunAll(db, ids[..|ids| - 1], envs[..|envs| - 1]);
      RunAllKeepsStore(db, ids[..|ids| - 1], envs[..|envs| - 1]);
      var id := ids[|ids| - 1];
      if id in before.exams {
        JobOnlyAddsAIQuestions(before, id, envs[|envs| - 1]);
        assert RunAll(db, ids, envs).exams.Keys == before.exams.Keys;
      }
    }
  }
}
