/** The exam controller as a stateful service: the module-level generation queue and busy
    flag, the exam and question collections, and the published exams, with one method per
    request handler and the background worker split at its `await` points.

    `processNextInQueue` runs synchronously up to its first `await`: the check, the flag and the
    `shift` (`TakeNextJob`) happen inside the request that triggered it; the rest of the job
    (`ExecuteJob`) and the `finally` block that clears the flag and takes the next job
    (`FinishJob`) happen later. */
module ExamController {
  import opened Wrappers
  import opened Text
  import opened ExamModel
  import opened ExamJobs

  class ExamService {
    var exams: map<ExamId, Exam>
    var questions: map<QuestionId, Question>
    var nextQuestionId: QuestionId
    var published: seq<PublishedExam>
    /** `generationQueue`: exam ids waiting for their job, oldest first. */
    var queue: seq<ExamId>
    /** `isProcessing`: a job has been taken and has not reached its `finally` yet. */
    var isProcessing: bool

    /** The collections as one value, for the specification functions. */
    function Store(): Db
      reads this
    {
      Db(exams, questions, nextQuestionId)
    }

    ghost predicate Valid()
      reads this
    {
      FreshIds(Store())
    }

    constructor ()
      ensures Valid() && exams == map[] && questions == map[] && published == [] && queue == [] && !isProcessing
    {
      exams := map[];
      questions := map[];
      nextQuestionId := 0;
      published := [];
      queue := [];
      isProcessing := false;
    }

    /* ---------------- the worker ---------------- */

    /** The synchronous start of `processNextInQueue`: nothing while busy or idle, otherwise
        raise the flag and take the oldest job. */
    method TakeNextJob() returns (job: Option<ExamId>)
      modifies this
      ensures old(isProcessing) || old(queue) == [] ==> job == None && queue == old(queue) && isProcessing == old(isProcessing)
      ensures !old(isProcessing) && old(queue) != [] ==> job == Some(old(queue)[0]) && queue == old(queue)[1..] && isProcessing
      ensures Store() == old(Store()) && published == old(published)
    {
      if isProcessing || |queue| == 0 {
        return None;
      }
      isProcessing := true;
      job := Some(queue[0]);
      queue := queue[1..];
    }

    /** The catch block: re-read the exam and save it as CREATED with the error text. */
    method Revert(id: ExamId, error: string, env: Env, trace0: seq<Event>) returns (trace: seq<Event>)
      modifies this
      ensures (Store(), trace) == Recover(old(Store()), id, error, env, trace0)
      ensures queue == old(queue) && isProcessing == old(isProcessing) && published == old(published)
    {
      trace := trace0;
      if id !in exams {
        return;
      }
      var exam := exams[id];
      exam := exam.(status := CREATED, processingMessage := ErrorPrefix + error);
      if env.writeError(RecoverySave).None? {
        exams := exams[id := exam];
        trace := trace + [Saved(CREATED, exam.processingMessage)];
      }
    }

    /** The body of a taken job, up to its `finally`: what it does to the store and what it shows is `RunJob`. */
    method ExecuteJob(id: ExamId, env: Env) returns (trace: seq<Event>)
      modifies this
      ensures (Store(), trace) == RunJob(old(Store()), id, env)
      ensures queue == old(queue) && isProcessing == old(isProcessing) && published == old(published)
    {
      trace := [];
      if id !in exams {
        return;
      }
      var exam := exams[id];
      exam := exam.(status := PROCESSING, processingMessage := StartMessage);
      var failed := env.writeError(StartSave);
      if failed.Some? {
        trace := Revert(id, failed.value, env, trace);
        return;
      }
      exams := exams[id := exam];
      trace := trace + [Saved(exam.status, exam.processingMessage)];
      assert Store() == SaveExam(old(Store()), id, exam) && trace == [Saved(PROCESSING, StartMessage)];
      assert RunJob(old(Store()), id, env) == Subjects(Store(), id, exam, 0, env, trace);
      var combinedText := CombinedText(exam);
      var failure: Option<string> := None;
      var i := 0;
      while i < |exam.subjects| && failure.None?
        invariant 0 <= i <= |exam.subjects|
        invariant combinedText == CombinedText(exam)
        invariant failure.None? ==> Subjects(Store(), id, exam, i, env, trace) == RunJob(old(Store()), id, env)
        invariant failure.Some? ==> Recover(Store(), id, failure.value, env, trace) == RunJob(old(Store()), id, env)
        invariant queue == old(queue) && isProcessing == old(isProcessing) && published == old(published)
        decreases |exam.subjects| - i, failure.None?
      {
        ghost var db0, exam0, trace0 := Store(), exam, trace;
        exam := exam.(processingMessage := ProgressMessage(exam.subjects[i], i, |exam.subjects|));
        assert exam == AtSubject(exam0, i);
        AtSubjectKeeps(exam0, i);
        var saveError := env.writeError(ProgressSave(i));
        if saveError.Some? {
          ProgressSaveFails(db0, id, exam0, i, env, trace0);
          failure := saveError;
        } else {
          exams := exams[id := exam];
          var request := GenRequest(combinedText, exam.difficulty, [exam.subjects[i]], CeilDiv(exam.numberOfQuestions, |exam.subjects|), exam.language);
          assert request == RequestFor(InputOf(exam0), i);
          trace := trace + [Saved(exam.status, exam.processingMessage), Called(request)];
          assert Store() == SaveExam(db0, id, exam) && trace == trace0 + StepEvents(exam0, i);
          var reply := env.generate(i, request);
          if reply.Failure? {
            GenerateFails(db0, id, exam0, i, env, trace0);
            failure := Some(reply.error);
          } else {
            var insertError := env.writeError(InsertBatch(i));
            if insertError.Some? {
              InsertFails(db0, id, exam0, i, env, trace0);
              failure := insertError;
            } else {
              var stored := Insert(Store(), Tagged(id, exam.createdBy, reply.value));
              questions, nextQuestionId := stored.questions, stored.nextQuestionId;
              SubjectStepOk(db0, id, exam0, i, env, trace0);
              assert Store() == NextDb(db0, id, exam0, i, env);
              i := i + 1;
            }
          }
        }
      }
      if failure.None? {
        exam := exam.(status := REVIEW, processingMessage := CompleteMessage);
        var completeError := env.writeError(CompleteSave);
        if completeError.Some? {
          failure := completeError;
        } else {
          exams := exams[id := exam];
          trace := trace + [Saved(REVIEW, CompleteMessage)];
        }
      }
      if failure.Some? {
        trace := Revert(id, failure.value, env, trace);
      }
    }

    /** A taken job runs to its `finally`, which lowers the flag and takes the next job, if any. */
    method FinishJob(id: ExamId, env: Env) returns (trace: seq<Event>, next: Option<ExamId>)
      modifies this
      requires Valid() && isProcessing
      ensures (Store(), trace) == RunJob(old(Store()), id, env)
      ensures Valid()
      ensures old(queue) == [] ==> next == None && queue == [] && !isProcessing
      ensures old(queue) != [] ==> next == Some(old(queue)[0]) && queue == old(queue)[1..] && isProcessing
      ensures published == old(published)
    {
      if id in exams {
        JobOnlyAddsAIQuestions(Store(), id, env);
      }
      trace := ExecuteJob(id, env);
      isProcessing := false;
      next := TakeNextJob();
    }

    /** The worker runs the queue dry, oldest job first, job `k` seeing `envs[k]`. */
    method DrainQueue(envs: seq<Env>) returns (ran: seq<ExamId>)
      modifies this
      requires Valid() && !isProcessing && |envs| == |queue|
      ensures ran == old(queue) && queue == [] && !isProcessing && Valid()
      ensures Store() == RunAll(old(Store()), old(queue), envs)
      ensures published == old(published)
    {
      ghost var queue0, store0 := queue, Store();
      ran := [];
      var next := TakeNextJob();
      while next.Some?
        invariant Valid() && |ran| <= |queue0| && ran == queue0[..|ran|]
        invariant next.Some? ==> isProcessing && |ran| < |queue0| && next.value == queue0[|ran|] && queue == queue0[|ran| + 1..]
        invariant next.None? ==> !isProcessing && queue == [] && ran == queue0
        invariant Store() == RunAll(store0, ran, envs[..|ran|])
        invariant published == old(published)
        decreases |queue0| - |ran|
      {
        var id := next.value;
        var trace;
        trace, next := FinishJob(id, envs[|ran|]);
        assert (ran + [id])[..|ran|] == ran && envs[..|ran| + 1][..|ran|] == envs[..|ran|];
        ran := ran + [id];
      }
      assert ran == queue0 && envs[..|ran|] == envs;
    }

    /* ---------------- request handlers ---------------- */

    /** `generateAIQuestions`: a refused request answers the first failed check and touches
        nothing; an accepted one appends the exam to the queue, starts the worker (which takes
        the oldest job unless it is busy) and answers 202. */
    method GenerateAIQuestions(id: ExamId, user: UserId) returns (r: Response, started: Option<ExamId>)
      modifies this
      ensures GenerateRejection(old(Store()), id, user).Some? ==>
        r == GenerateRejection(old(Store()), id, user).value && started == None &&
        queue == old(queue) && isProcessing == old(isProcessing)
      ensures GenerateRejection(old(Store()), id, user).None? ==> r == Response(202, AcceptedMessage)
      ensures GenerateRejection(old(Store()), id, user).None? && old(isProcessing) ==>
        queue == old(queue) + [id] && started == None && isProcessing
      ensures GenerateRejection(old(Store()), id, user).None? && !old(isProcessing) ==>
        started == Some((old(queue) + [id])[0]) && queue == (old(queue) + [id])[1..] && isProcessing
      ensures Store() == old(Store()) && published == old(published)
    {
      var rejection := GenerateRejection(Store(), id, user);
      if rejection.Some? {
        return rejection.value, None;
      }
      queue := queue + [id];
      started := TakeNextJob();
      r := Response(202, AcceptedMessage);
    }

    /** `regenerateAIQuestions`: after its own checks it deletes the exam's AI questions and then
        answers whatever generation answers on the purged store. */
    method RegenerateAIQuestions(id: ExamId, user: UserId) returns (r: Response, started: Option<ExamId>)
      modifies this
      ensures questions == Regenerate(old(Store()), id, user).0.questions
      ensures exams == old(exams) && nextQuestionId == old(nextQuestionId) && published == old(published)
      ensures r == (if Regenerate(old(Store()), id, user).1.Some? then Regenerate(old(Store()), id, user).1.value else Response(202, AcceptedMessage))
      ensures Regenerate(old(Store()), id, user).1.Some? ==> queue == old(queue) && started == None && isProcessing == old(isProcessing)
      ensures Regenerate(old(Store()), id, user).1.None? && old(isProcessing) ==> queue == old(queue) + [id] && started == None && isProcessing
      ensures Regenerate(old(Store()), id, user).1.None? && !old(isProcessing) ==>
        started == Some((old(queue) + [id])[0]) && queue == (old(queue) + [id])[1..] && isProcessing
    {
      var rejection := RegenerateRejection(Store(), id, user);
      if rejection.Some? {
        return rejection.value, None;
      }
      questions := DeleteAIQuestions(questions, id);
      r, started := GenerateAIQuestions(id, user);
    }

    /** `publishExam`: the approved questions are copied into a new publication whose total is
        the sum of their marks, the exam becomes PUBLISHED, and the link names the publication. */
    method PublishExam(id: ExamId, user: UserId, now: int, clientUrl: string)
      returns (r: Response, totalQuestions: nat, totalMarks: int, challengeLink: string)
      modifies this
      ensures PublishRejection(old(Store()), id, user).Some? ==>
        r == PublishRejection(old(Store()), id, user).value && exams == old(exams) && published == old(published)
      ensures PublishRejection(old(Store()), id, user).None? ==>
        && r == Response(200, "Exam published successfully")
        && totalQuestions == |Approved(old(Store()), id)| > 0
        && totalMarks == TotalMarks(old(Store()), id)
        && published == old(published) + [PublishedExam(id, PublishedQuestions(old(questions), Approved(old(Store()), id)), totalMarks, now)]
        && exams == old(exams)[id := old(exams)[id].(status := PUBLISHED)]
        && challengeLink == ChallengeLink(clientUrl, |old(published)|)
      ensures questions == old(questions) && nextQuestionId == old(nextQuestionId) && queue == old(queue) && isProcessing == old(isProcessing)
    {
      var rejection := PublishRejection(Store(), id, user);
      if rejection.Some? {
        return rejection.value, 0, 0, "";
      }
      var approved := Approved(Store(), id);
      totalMarks := TotalMarks(Store(), id);
      var publishedId := |published|;
      published := published + [PublishedExam(id, PublishedQuestions(questions, approved), totalMarks, now)];
      var exam := exams[id];
      exam := exam.(status := PUBLISHED);
      exams := exams[id := exam];
      challengeLink := ChallengeLink(clientUrl, publishedId);
      totalQuestions := |approved|;
      r := Response(200, "Exam published successfully");
    }

    /** `updateQuestion`: copies just the whitelisted fields present in the body. */
    method UpdateQuestion(q: QuestionId, user: UserId, patch: QuestionPatch) returns (r: Response)
      modifies this
      ensures EditRejection(old(Store()), q, user, "Exam is published. Cannot edit question.").Some? ==>
        r == EditRejection(old(Store()), q, user, "Exam is published. Cannot edit question.").value && questions == old(questions)
      ensures EditRejection(old(Store()), q, user, "Exam is published. Cannot edit question.").None? ==>
        r == Response(200, "Question updated successfully") &&
        questions == old(questions)[q := old(questions)[q].(
          text := GetOr(patch.text, old(questions)[q].text), marks := GetOr(patch.marks, old(questions)[q].marks),
          subject := GetOr(patch.subject, old(questions)[q].subject), difficulty := GetOr(patch.difficulty, old(questions)[q].difficulty))]
      ensures exams == old(exams) && nextQuestionId == old(nextQuestionId) && published == old(published)
      ensures queue == old(queue) && isProcessing == old(isProcessing)
    {
      var rejection := EditRejection(Store(), q, user, "Exam is published. Cannot edit question.");
      if rejection.Some? {
        return rejection.value;
      }
      var question := questions[q];
      ghost var original := question;
      PatchIsWhitelisted(original, patch);
      var k := 0;
      while k < |AllowedFields|
        invariant 0 <= k <= |AllowedFields|
        invariant ApplyFields(question, AllowedFields[k..], patch) == ApplyFields(original, AllowedFields, patch)
      {
        assert AllowedFields[k..][1..] == AllowedFields[k + 1..];
        question := ApplyField(question, AllowedFields[k], patch);
        k := k + 1;
      }
      questions := questions[q := question];
      r := Response(200, "Question updated successfully");
    }

    /** `approveQuestion`: approves one question of the caller's exam; a published exam is not checked for. */
    method ApproveQuestion(q: QuestionId, user: UserId) returns (r: Response)
      modifies this
      ensures QuestionAccess(old(Store()), q, user).Some? ==>
        r == QuestionAccess(old(Store()), q, user).value && questions == old(questions)
      ensures QuestionAccess(old(Store()), q, user).None? ==>
        r == Response(200, "Question approved successfully") && questions == ApproveIn(old(questions), q)
      ensures exams == old(exams) && nextQuestionId == old(nextQuestionId) && published == old(published)
      ensures queue == old(queue) && isProcessing == old(isProcessing)
    {
      var rejection := QuestionAccess(Store(), q, user);
      if rejection.Some? {
        return rejection.value;
      }
      var question := questions[q];
      question := question.(isApproved := true);
      questions := questions[q := question];
      r := Response(200, "Question approved successfully");
    }

    /** `bulkApproveQuestions`: approves every question of an unpublished exam. */
    method BulkApproveQuestions(id: ExamId, user: UserId) returns (r: Response)
      modifies this
      ensures ExamEditRejection(old(Store()), id, user, "Exam is already published.").Some? ==>
        r == ExamEditRejection(old(Store()), id, user, "Exam is already published.").value && questions == old(questions)
      ensures ExamEditRejection(old(Store()), id, user, "Exam is already published.").None? ==>
        r == Response(200, "All questions approved successfully") && questions == ApproveAll(old(questions), id)
      ensures exams == old(exams) && nextQuestionId == old(nextQuestionId) && published == old(published)
      ensures queue == old(queue) && isProcessing == old(isProcessing)
    {
      var rejection := ExamEditRejection(Store(), id, user, "Exam is already published.");
      if rejection.Some? {
        return rejection.value;
      }
      questions := ApproveAll(questions, id);
      r := Response(200, "All questions approved successfully");
    }

    /** `addManualQuestion`: a new unapproved MANUAL question owned by the caller, whatever the body says. */
    method AddManualQuestion(id: ExamId, user: UserId, text: string, marks: int, subject: string, difficulty: string)
      returns (r: Response, created: Option<QuestionId>)
      modifies this
      ensures ExamEditRejection(old(Store()), id, user, "Exam is published. Cannot add questions.").Some? ==>
        r == ExamEditRejection(old(Store()), id, user, "Exam is published. Cannot add questions.").value &&
        created == None && Store() == old(Store())
      ensures ExamEditRejection(old(Store()), id, user, "Exam is published. Cannot add questions.").None? ==>
        && r == Response(201, "Question added successfully")
        && created == Some(old(nextQuestionId))
        && questions == old(questions)[old(nextQuestionId) := Question(id, text, marks, subject, difficulty, MANUAL, false, user)]
        && nextQuestionId == old(nextQuestionId) + 1
        && exams == old(exams)
      ensures old(Valid()) ==> Valid()
      ensures published == old(published) && queue == old(queue) && isProcessing == old(isProcessing)
    {
      var rejection := ExamEditRejection(Store(), id, user, "Exam is published. Cannot add questions.");
      if rejection.Some? {
        return rejection.value, None;
      }
      questions := questions[nextQuestionId := Question(id, text, marks, subject, difficulty, MANUAL, false, user)];
      created := Some(nextQuestionId);
      nextQuestionId := nextQuestionId + 1;
      r := Response(201, "Question added successfully");
    }

    /** `deleteQuestion`: removes one question of the caller's unpublished exam. */
    method DeleteQuestion(q: QuestionId, user: UserId) returns (r: Response)
      modifies this
      ensures EditRejection(old(Store()), q, user, "Exam is published. Cannot delete question.").Some? ==>
        r == EditRejection(old(Store()), q, user, "Exam is published. Cannot delete question.").value && questions == old(questions)
      ensures EditRejection(old(Store()), q, user, "Exam is published. Cannot delete question.").None? ==>
        r == Response(200, "Question deleted successfully") && questions == old(questions) - {q}
      ensures exams == old(exams) && nextQuestionId == old(nextQuestionId) && published == old(published)
      ensures queue == old(queue) && isProcessing == old(isProcessing)
    {
      var rejection := EditRejection(Store(), q, user, "Exam is published. Cannot delete question.");
      if rejection.Some? {
        return rejection.value;
      }
      questions := questions - {q};
      r := Response(200, "Question deleted successfully");
    }

    /** `getExamStatus`: the caller's exam's status and progress message. */
    method GetExamStatus(id: ExamId, user: UserId) returns (r: Response, status: Option<(Status, string)>)
      ensures status.Some? <==> id in exams && exams[id].createdBy == user
      ensures status.Some? ==> r.code == 200 && status.value == (exams[id].status, exams[id].processingMessage)
      ensures status.None? ==> r == ExamAccess(Store(), id, user).value
    {
      var rejection := ExamAccess(Store(), id, user);
      if rejection.Some? {
        return rejection.value, None;
      }
      var exam := exams[id];
      return Response(200, ""), Some((exam.status, exam.processingMessage));
    }
  }
}
