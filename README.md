# Exam generation service and its client pages, in Dafny

The system is a teacher-facing exam builder. A teacher registers and logs in; the login has a
lockout: three wrong passwords in a row lock the account for thirty minutes. The teacher uploads
syllabus files, PDF, DOC or DOCX only, each stored under a time-stamped name with its white space
turned into underscores. The teacher then asks for AI-generated questions.

Generation requests go through checks and into a first-in, first-out queue. A single worker takes
the oldest job. For each subject of the exam, the worker asks the language-model generator, in
turn, for an even, rounded-up share of the questions. It stores every question it gets back as an
unapproved AI question. It ends the exam in REVIEW, or reverts it to CREATED with the error text
when a step fails. Teachers edit, approve, bulk-approve, delete and manually add questions. They
then publish the exam: publishing copies the approved questions, totals their marks and locks the
exam. The browser pages validate the login, sign-up, profile and password forms, derive a display
name from the e-mail, and filter, delete, edit and publish questions in a list. They also keep
include-or-remove filter selections.

The project has these modules:
- `ExamModel` (`exam_model.dfy`): the stored records, and the pure rules of the exam handlers.
- `ExamJobs` (`exam_jobs.dfy`): one generation job, as a function of the store and of an
  environment. The environment holds the generator and the writes that fail.
- `ExamController.ExamService` (`exam_controller.dfy`): the server state as a class. Its fields
  are the exams, the questions, the next question id, the publications, the generation queue and
  the `isProcessing` flag. Its handlers are methods, proved against the functions of the two
  modules above.
- `AuthController` (`auth_controller.dfy`): registration and login.
- `AiQuestionGenerator` (`ai_question_generator.dfy`): the prompt, the extraction of the JSON span
  and the source tagging.
- `Upload` (`upload.dfy`): the stored file name and the type filter.
- `SettingsPage`, `AuthPage`, `ExamListsPage`, `UserListPage`, `ClaimsStatusPage`: the client
  pages.
- `Text`, `Lists` and `Wrappers`: shared string and sequence functions, and `Option`/`Result`.

Calls the model cannot see are parameters:
- the language-model call, `invoke`;
- `JSON.parse`, as `parse`;
- the bcrypt hash and compare, as `hash` and `matches`;
- the clock, as `now`;
- the store writes that may fail, as `Env.writeError`.

Question ids are handed out in increasing order, so id order is insertion order.

## Model

| member | source | states |
|---|---|---|
| ExamModel.ExamAccess | server/src/controllers/exam.controller.js:569-582 | no rejection exactly when the exam exists and the caller created it |
| ExamModel.QuestionAccess | server/src/controllers/exam.controller.js:143-157 | no rejection exactly when the question exists, its exam exists and the caller created that exam |
| ExamModel.GenerateAcceptedIff | server/src/controllers/exam.controller.js:391-426 | a generation request is accepted iff the exam exists, is the caller's, is CREATED or REVIEW, and its newline-joined file text has a non-white-space character |
| ExamModel.GenerateRejectionOrder | server/src/controllers/exam.controller.js:391-426 | the refusals come in the source's order, each with its own answer: 404, then 403, then the "locked" 400 for PUBLISHED, then the "already being processed" 400 for PROCESSING, then the "no syllabus text" 400 when the files' joined text trims to nothing |
| ExamModel.DeleteAIQuestionsExact | server/src/controllers/exam.controller.js:474-477 | deleting removes exactly the AI questions of that exam, leaves every other question unchanged, and is idempotent |
| ExamModel.RegenerateDeletesEvenWhenRefused | server/src/controllers/exam.controller.js:450-479 | a PROCESSING exam, or one without text, loses its AI questions and is still refused with a 400 |
| ExamModel.RegenerateRefusedKeepsQuestions | server/src/controllers/exam.controller.js:452-472 | a missing, foreign or published exam leaves the store untouched and is refused |
| ExamModel.ApprovedExact | server/src/controllers/exam.controller.js:515-525 | the list publishing reads holds each approved question of the exam exactly once, in increasing id order, and nothing else |
| ExamModel.ApproveAddsMarks | server/src/controllers/exam.controller.js:527-530 | approving one more unapproved question of an exam raises the exam's publishable total by exactly its marks |
| ExamModel.PublicationExact | server/src/controllers/exam.controller.js:527-539 | the published entries name exactly the exam's approved questions, each with its stored text and marks, and their marks add up to the stored `totalMarks` |
| ExamModel.EntryMarksSum | server/src/controllers/exam.controller.js:527-538 | adding up the published entries' marks gives the same total as adding up the marks of the questions they were copied from |
| ExamModel.PublishAcceptedIff | server/src/controllers/exam.controller.js:493-525 | publishing goes ahead iff the caller's exam is not yet published and has at least one approved question |
| ExamModel.ChallengeLinkParts | server/src/controllers/exam.controller.js:546-547 | the link starts with the configured client address followed by "/challenge/" ("http://localhost:5173/challenge/" when none is configured), and the rest reads back as the publication id |
| ExamModel.ChallengeLinkInjective | server/src/controllers/exam.controller.js:546-547 | with the same client address, equal links name the same publication |
| ExamModel.PatchIsWhitelisted | server/src/controllers/exam.controller.js:203-208 | the whitelist copies only text, marks, subject and difficulty, each only when the body has it, and a second application changes nothing |
| ExamModel.ApproveAllExact | server/src/controllers/exam.controller.js:294-297 | bulk approval approves every question of the exam and no other, and afterwards publishing would copy every question of the exam |
| ExamJobs.CeilDiv | server/src/controllers/exam.controller.js:349 | `Math.ceil(a / b)`: the least whole number whose multiple of b reaches a |
| ExamJobs.QuotaCoversTotal | server/src/controllers/exam.controller.js:349 | the per-subject quotas together cover the requested total, over-shooting by less than the number of subjects |
| ExamJobs.RequestFor | server/src/controllers/exam.controller.js:345-351 | a subject's generator call carries that one subject, the rounded-up share, and the exam's text, difficulty and language |
| ExamJobs.Tagged | server/src/controllers/exam.controller.js:353-360 | each generated question is stored AI-tagged and unapproved with the exam's id and creator; its text, marks, subject and difficulty are kept |
| ExamJobs.NumberedShape | server/src/controllers/exam.controller.js:353-361 | an inserted batch's k-th question gets id base + k, and no other id is used |
| ExamJobs.InsertAppend | server/src/controllers/exam.controller.js:340-361 | inserting two batches one after the other is inserting their concatenation |
| ExamJobs.JobOnlyAddsAIQuestions | server/src/controllers/exam.controller.js:324-378 | whatever the generator and the writes do, a job changes no other exam, deletes or rewrites no question, and adds only unapproved AI questions of that exam |
| ExamJobs.MissingExamDropsJob | server/src/controllers/exam.controller.js:325-331 | a job whose exam is gone changes nothing and shows nothing |
| ExamJobs.RepliesPerSubject | server/src/controllers/exam.controller.js:340-351 | each subject's generator call has its own reply: with two subjects, equal or not, the first call may succeed while the second fails |
| ExamJobs.JobSuccess | server/src/controllers/exam.controller.js:333-366 | when nothing fails, the saves and calls are the planned ones in order, the exam ends in REVIEW with "AI generation complete.", and exactly the generated questions are added in subject order |
| ExamJobs.NoSubjectsNoCalls | server/src/controllers/exam.controller.js:333-366 | an exam without subjects makes no generator call and goes from PROCESSING straight to REVIEW |
| ExamJobs.JobFailureKeepsEarlierBatches | server/src/controllers/exam.controller.js:340-376 | when subject k is the first to fail, the batches of the subjects before it stay and nothing of k or later is added |
| ExamJobs.JobFailureReverts | server/src/controllers/exam.controller.js:368-376 | on a failure the exam ends in CREATED with the message "Error: " followed by the message of the first failing write or generator call, its other fields as before, and what came before is a proper prefix of the failure-free trace |
| ExamJobs.RunAllKeepsStore | server/src/controllers/exam.controller.js:318-384 | any run of queued jobs keeps ids fresh, adds or removes no exam and loses no question |
| ExamController.ExamService.TakeNextJob | server/src/controllers/exam.controller.js:318-322 | nothing happens while busy or with an empty queue; otherwise the flag is raised and exactly the head job is removed |
| ExamController.ExamService.Revert | server/src/controllers/exam.controller.js:368-379 | the catch block's store and trace are those of the recovery function |
| ExamController.ExamService.ExecuteJob | server/src/controllers/exam.controller.js:324-378 | the loop over subjects leaves the store and the trace the job function gives, and touches neither the queue nor the flag |
| ExamController.ExamService.FinishJob | server/src/controllers/exam.controller.js:380-383 | one job runs, then the flag is cleared and the next job, if any, is taken |
| ExamController.ExamService.DrainQueue | server/src/controllers/exam.controller.js:318-384 | the worker runs the queued jobs oldest first until the queue is empty, and the store is that of running them in order |
| ExamController.ExamService.GenerateAIQuestions | server/src/controllers/exam.controller.js:389-445 | a refused request leaves the queue and flag alone; an accepted one answers 202 and appends exactly one job at the tail, which an idle worker takes at once |
| ExamController.ExamService.RegenerateAIQuestions | server/src/controllers/exam.controller.js:450-486 | the questions become those of the regeneration rule; the answer and the queue follow the delegated generation check |
| ExamController.ExamService.PublishExam | server/src/controllers/exam.controller.js:491-562 | a refusal changes nothing; otherwise it appends one publication of the approved questions with their summed marks, marks the exam PUBLISHED and returns the link |
| ExamController.ExamService.UpdateQuestion | server/src/controllers/exam.controller.js:178-223 | after the access and published checks, only the whitelisted fields present in the body change |
| ExamController.ExamService.ApproveQuestion | server/src/controllers/exam.controller.js:141-173 | after the access checks, exactly that question becomes approved |
| ExamController.ExamService.BulkApproveQuestions | server/src/controllers/exam.controller.js:270-310 | after the checks, every question of the exam is approved and no other changes |
| ExamController.ExamService.AddManualQuestion | server/src/controllers/exam.controller.js:56-99 | after the checks, exactly one unapproved MANUAL question is added under the next id |
| ExamController.ExamService.DeleteQuestion | server/src/controllers/exam.controller.js:228-265 | after the access and published checks, exactly that question is removed |
| ExamController.ExamService.GetExamStatus | server/src/controllers/exam.controller.js:567-597 | the status and message are returned exactly for the caller's existing exam; otherwise the access refusal |
| AuthController.MinutesLeft | server/src/controllers/auth.controller.js:82 | the lock's remaining time in whole minutes, rounded up, at least one |
| AuthController.LoginRefusals | server/src/controllers/auth.controller.js:64-78 | a missing e-mail or password gives 400, then an unknown e-mail gives 401, and neither changes the users |
| AuthController.LockedLoginChangesNothing | server/src/controllers/auth.controller.js:81-87 | while locked, login answers 403 with the rounded-up minutes, ignores the password and changes nothing |
| AuthController.WrongPasswordCounts | server/src/controllers/auth.controller.js:91-111 | a wrong password adds exactly one attempt; reaching three locks for 1 800 000 ms, otherwise it reports 3 minus the attempts remaining |
| AuthController.CorrectPasswordResets | server/src/controllers/auth.controller.js:115-122 | a correct password on an unlocked account clears the count and the lock and logs in |
| AuthController.LockLastsThirtyMinutes | server/src/controllers/auth.controller.js:98-100 | a lock set at now refuses exactly the logins before now plus thirty minutes |
| AuthController.ThreeStrikes | server/src/controllers/auth.controller.js:93-104 | three wrong passwords on a fresh account lock it at the third |
| AuthController.RelocksAfterExpiry | server/src/controllers/auth.controller.js:81-99 | the count survives an expired lock, so the next wrong password locks again at once |
| AuthController.RegisterOutcome | server/src/controllers/auth.controller.js:13-38 | a missing field gives 400 before any lookup; a taken e-mail is refused; otherwise exactly one user is added, holding the hash and a zero count |
| AuthController.RegisterThenLogin | server/src/controllers/auth.controller.js:8-122 | a teacher who just registered can log in with the same password |
| AuthController.AuthService.RegisterTeacher | server/src/controllers/auth.controller.js:8-54 | the stored users and the answer are those of the registration function |
| AuthController.AuthService.LoginTeacher | server/src/controllers/auth.controller.js:59-134 | the stored users and the answer are those of the login function |
| AiQuestionGenerator.PromptRequirements | server/src/utils/aiQuestionGenerator.js:12-41 | the prompt holds the syllabus text, the subjects joined by ", ", the difficulty, the language and the count |
| AiQuestionGenerator.WorkerPrompt | server/src/utils/aiQuestionGenerator.js:25-29 | for the worker's call, the subject line names that one subject and the count line its rounded-up share |
| AiQuestionGenerator.BracketSpanFound | server/src/utils/aiQuestionGenerator.js:50-55 | a JSON span is found iff some '[' comes before some ']' |
| AiQuestionGenerator.BracketSpanShape | server/src/utils/aiQuestionGenerator.js:50 | the span runs from the first '[' to the last ']', both included |
| AiQuestionGenerator.BracketSpanBrackets | server/src/utils/aiQuestionGenerator.js:50-59 | the text handed to `JSON.parse` begins with '[' and ends with ']', so what parses is an array |
| AiQuestionGenerator.WithModelSource | server/src/utils/aiQuestionGenerator.js:65-68 | one output per parsed item, in order, each with source "deepseek-ai" and every other field kept |
| AiQuestionGenerator.WithModelSourceIdempotent | server/src/utils/aiQuestionGenerator.js:65-68 | tagging twice is tagging once |
| AiQuestionGenerator.GenerateOutcome | server/src/utils/aiQuestionGenerator.js:43-68 | the call fails with the model's error, "AI did not return JSON" when there is no span, or "AI returned invalid JSON"; otherwise it returns the tagged parsed array |
| AiQuestionGenerator.StoredAsAI | server/src/controllers/exam.controller.js:353-360 | whatever source the model's questions carry, the worker stores them as AI questions |
| Upload.CleanNoWhitespace | server/src/middleware/upload.js:6 | the cleaned name holds no white space |
| Upload.CleanRun | server/src/middleware/upload.js:6 | a whole run of white space becomes a single underscore |
| Upload.CleanKeepsOrder | server/src/middleware/upload.js:6 | apart from the underscores, the cleaned name is the original's non-white-space characters in order |
| Upload.CleanIdentity | server/src/middleware/upload.js:6 | a name without white space is kept as it is |
| Upload.CleanIdempotent | server/src/middleware/upload.js:6 | cleaning twice is cleaning once |
| Upload.StoredNameDash | server/src/middleware/upload.js:7 | the first '-' of the stored name comes right after the time's digits |
| Upload.StoredNameNoWhitespace | server/src/middleware/upload.js:7 | the stored name holds no white space |
| Upload.StoredNameParts | server/src/middleware/upload.js:7 | the stored name splits at its first '-' into the upload time's digits and the cleaned name, so both read back |
| Upload.FileFilterExact | server/src/middleware/upload.js:11-23 | exactly PDF, DOC and DOCX are accepted; every other type fails with "Only PDF, DOC, DOCX files allowed" |
| SettingsPage.LoadedNames | client/src/pages/Setting.tsx:42-56 | a stored first or last name wins; otherwise the first space-separated token of the name and the remaining tokens rejoined |
| SettingsPage.LoadedNamesRejoin | client/src/pages/Setting.tsx:49-53 | without stored names, first name, a space and last name give the full name back |
| SettingsPage.ValidateProfileForm | client/src/pages/Setting.tsx:58-74 | the form is valid iff neither name is blank after trimming |
| SettingsPage.PasswordAcceptedIff | client/src/pages/Setting.tsx:126-162 | the change is allowed iff the current password is not blank, the new one has at least six characters and differs from the current one, and the confirmation equals it |
| SettingsPage.SamePasswordOverrides | client/src/pages/Setting.tsx:155-158 | a new password equal to a non-empty current one always reports the difference |
| SettingsPage.ValidatePasswordForm | client/src/pages/Setting.tsx:126-162 | the field-by-field checks yield the rule's errors and is valid iff every error is empty |
| SettingsPage.SubmitPassword | client/src/pages/Setting.tsx:164-166 | the change request is sent exactly when the form is valid, carrying the fields |
| SettingsPage.SubmitProfile | client/src/pages/Setting.tsx:76-78 | the profile request is sent exactly when the form is valid, carrying the two names |
| AuthPage.MatchesEmailIff | client/src/pages/auth-page.tsx:58-60 | the e-mail check accepts exactly L "@" X "." Y with L, X and Y non-empty and free of white space and '@' |
| AuthPage.EmailValidIff | client/src/pages/auth-page.tsx:56-61 | an e-mail passes iff it has that shape; an empty one is "Email is required", another bad one "Invalid email address" |
| AuthPage.PasswordValidIff | client/src/pages/auth-page.tsx:63-67 | a password passes iff it has at least three characters, with the two messages for empty and short |
| AuthPage.LoginSentIff | client/src/pages/auth-page.tsx:234-240 | the login request is sent iff the e-mail has the shape and the password has at least three characters |
| AuthPage.NameErrorIff | client/src/pages/auth-page.tsx:291-304 | a name field passes iff it is not all white space |
| AuthPage.SignupUsesLoginRules | client/src/pages/auth-page.tsx:291-304 | the sign-up form's e-mail and password messages are the login validators' |
| AuthPage.SignupSentIff | client/src/pages/auth-page.tsx:291-307 | sign-up goes ahead iff the three names are not blank, the e-mail has the shape and the password has at least three characters |
| AuthPage.DotsToSpaces | client/src/pages/auth-page.tsx:261 | every '.' becomes a space and every other character stays |
| AuthPage.CapitalizeWordsExact | client/src/pages/auth-page.tsx:262 | exactly the characters at a word start are upper-cased, nothing else changes |
| AuthPage.GeneratedNameShape | client/src/pages/auth-page.tsx:259-262 | the display name is as long as the e-mail's part before its first '@' and holds no '.' and no '@' |
| AuthPage.LocalPart | client/src/pages/auth-page.tsx:260 | the local part is the text before the first '@', or the whole e-mail without one |
| ExamListsPage.FilteredExact | client/src/pages/exam-lists.tsx:128-135 | the shown list is a subsequence of the questions, holds only matches and every match |
| ExamListsPage.NoFilterShowsAll | client/src/pages/exam-lists.tsx:130-132 | an empty search with both selects on "all" shows every question |
| ExamListsPage.QueryCaseIgnored | client/src/pages/exam-lists.tsx:130 | the search ignores the case of the query |
| ExamListsPage.DeletedExact | client/src/pages/exam-lists.tsx:147-150 | deleting removes exactly the questions with that id and keeps the rest in order |
| ExamListsPage.DeleteMissing | client/src/pages/exam-lists.tsx:147-150 | deleting an absent id changes nothing |
| ExamListsPage.Replaced | client/src/pages/exam-lists.tsx:157-161 | saving an edit replaces each question with that id and keeps the length and every other entry |
| ExamListsPage.ReplacedKeepsIds | client/src/pages/exam-lists.tsx:157-161 | saving an edit keeps the ids in place |
| ExamListsPage.ReplacedIdempotent | client/src/pages/exam-lists.tsx:157-161 | saving the same edit twice is saving it once |
| ExamListsPage.ReplaceThenDelete | client/src/pages/exam-lists.tsx:147-161 | deleting the edited id after saving gives the same list as deleting it before |
| ExamListsPage.PublishOutcome | client/src/pages/exam-lists.tsx:163-175 | fewer than three questions, then a non-completed exam, are refused with no change; otherwise only the publish status becomes "Published" |
| ExamListsPage.PublishIdempotent | client/src/pages/exam-lists.tsx:163-175 | publishing twice is publishing once |
| ExamListsPage.AttemptLinkParts | client/src/pages/exam-lists.tsx:178 | the link is "https://app.exam.com/attempt/" followed by the exam id |
| ExamListsPage.AttemptLinkInjective | client/src/pages/exam-lists.tsx:178 | different exams' ids give different links |
| Lists.Keep | client/src/pages/exam-lists.tsx:128-135 | `filter` keeps only elements that pass, at most as many as given, and every element that passes |
| Lists.KeepSubsequence | client/src/pages/exam-lists.tsx:128-135 | filtering never reorders: its result is a subsequence of the input |
| Lists.ToggleFlips | temp_extract/Client-Extract-React/client/src/pages/UserList.tsx:158-162 | toggling flips whether the value is selected |
| Lists.ToggleAppendsOrRemoves | temp_extract/Client-Extract-React/client/src/pages/UserList.tsx:158-162 | an absent value is appended at the end; a present one disappears entirely |
| Lists.ToggleKeepsOthers | temp_extract/Client-Extract-React/client/src/pages/UserList.tsx:158-162 | every other value keeps its membership and relative order |
| Lists.ToggleNoDuplicates | temp_extract/Client-Extract-React/client/src/pages/UserList.tsx:158-162 | a selection without repeats stays without repeats |
| Lists.ToggleTwice | temp_extract/Client-Extract-React/client/src/pages/UserList.tsx:158-162 | selecting and deselecting an absent value gives the selection back |
| UserListPage.ToggleStatusEffect | temp_extract/Client-Extract-React/client/src/pages/UserList.tsx:158-162 | toggling a status flips it, keeps the others in order, keeps a selection free of repeats, and leaves the roles alone |
| UserListPage.ToggleRoleEffect | temp_extract/Client-Extract-React/client/src/pages/UserList.tsx:164-168 | the same for roles, leaving the statuses alone |
| UserListPage.ToggleStatusTwice | temp_extract/Client-Extract-React/client/src/pages/UserList.tsx:158-162 | ticking and unticking an unselected status restores the page |
| UserListPage.ToggleRoleTwice | temp_extract/Client-Extract-React/client/src/pages/UserList.tsx:164-168 | ticking and unticking an unselected role restores the page |
| UserListPage.ClearFiltersEffect | temp_extract/Client-Extract-React/client/src/pages/UserList.tsx:170-173 | clearing empties both selections and changes nothing else |
| UserListPage.OpenFormEffect | temp_extract/Client-Extract-React/client/src/pages/UserList.tsx:126-142 | the form opens with the given user, or with empty fields, status "Active" and role "Manager" |
| ClaimsStatusPage.ToggleStatusEffect | temp_extract/Client-Extract-React/client/src/pages/ClaimsStatus.tsx:57-61 | an absent status is appended, a present one removed everywhere; other statuses keep membership and order; no repeats appear |
| ClaimsStatusPage.ClearFiltersEffect | temp_extract/Client-Extract-React/client/src/pages/ClaimsStatus.tsx:63-65 | clearing leaves no status selected, so the next toggle selects exactly that status |

## Left out

- ExamModel.SumMarks, ExamModel.TotalMarks, ExamModel.ApproveAddsMarks, ExamModel.PublicationExact,
  ExamJobs.CeilDiv, ExamController.ExamService.AddManualQuestion: marks and `numberOfQuestions` are
  integers, and every question has marks. A JavaScript `Number` may also be fractional or missing,
  and those cases are not modelled. A manual question whose body has no `marks`
  (exam.controller.js:80-86, Question.js:10) would make the published total `NaN`. The generator
  may return fractional marks (aiQuestionGenerator.js:35). A fractional or missing
  `numberOfQuestions` (Exam.js:11) changes what `Math.ceil` at exam.controller.js:349 gives.
- ExamJobs.Tagged: the worker spreads each generated item after the exam's id
  (`{examId, ...q, source, isApproved, createdBy}`, exam.controller.js:354-360). An item that
  carries its own `examId` would therefore replace the exam's id (Question.js:5-8). A draft has no
  `examId` field, so the model always stores the exam's own id.
- Concurrency. The worker is started fire-and-forget, and the handlers interleave at every
  `await`. The model runs each handler, and each job, as one sequential step. When the exam is
  missing, the source clears the flag and re-enters the worker twice: once directly, once from
  `finally`. In the model, that job is dropped and the next job is taken once. No claim is made
  that at most one worker runs along that path.
- The environment of a job (generator replies, failing writes) is fixed for the whole job. Each
  generator reply and each failing progress save or insert is chosen per subject index, so two
  equal subjects may get different replies. A job reads the exam once, as the source does. Changes other requests make mid-job are not modelled.
- The 500 answers of the handlers' `catch` blocks and the database's own errors are not modelled.
  The only failures modelled are the worker's failing writes and generator errors.
- Mongo behaviour is replaced by in-memory maps. This covers `findById`, `save`, `insertMany`,
  `deleteMany`, `populate`, and the `modifiedCount` of `updateMany`, which the bulk-approval
  answer reports but the model does not.
- `createExam` and `getPublishedExam` are not modelled. Their work is file text extraction, a
  vector store and lookups. The exam record's files carry their extracted text instead.
- `getQuestions` only reads, so it is not modelled.
- The request body is not parsed: handlers take typed parameters. A field the body leaves out is
  `None` in `QuestionPatch`, or `""` for a falsy string.
- `bcrypt.hash` and `bcrypt.compare` are the parameters `hash` and `matches`. `generateToken`
  is not part of this model. Both reads of `Date.now()` in a login are one instant, `now`.
- `editProfile` is imported by the auth routes but not defined by the controller, so it is not
  modelled.
- `llm.invoke` is the parameter `invoke`; `JSON.parse` is the parameter `parse`. The span handed
  to `parse` starts with '[' and ends with ']', so whatever parses is an array and `parse` has no
  non-array outcome. Unknown JSON fields of a question are not modelled; a draft carries the
  fields the worker stores.
- The client pages' `fetch`, `localStorage`, toasts, navigation and rendering are not modelled.
  What they model is the state update or the validation the handler performs.
- Case conversion (`toLowerCase`, `toUpperCase`) and `\w` in the name derivation cover ASCII only.
  String length counts characters, not UTF-16 code units.
- Time stamps are unbounded integers. `Date.now()` in the upload name is the parameter `now`.
