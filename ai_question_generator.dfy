/** `generateQuestionsFromText`: the prompt sent to the language model, the extraction of the
    JSON array from its reply, and the tagging of every parsed question with its source. The
    model call and the JSON parser are parameters. */
module AiQuestionGenerator {
  import opened Wrappers
  import opened Text
  import opened ExamModel
  import opened ExamJobs

  /* ---------------- the prompt ---------------- */

  const Header := "\nYou are an exam question generator API.\n\nSTRICT RULES (follow exactly):\n- Return ONLY raw JSON\n- Do NOT include explanations\n- Do NOT include markdown\n- Do NOT include backticks\n- Do NOT include text before or after JSON\n\nSyllabus:\n"

  const Footer := "\n\nJSON FORMAT (STRICT):\n[\n  {\n    \"text\": \"question text\",\n    \"marks\": number,\n    \"subject\": \"subject\",\n    \"difficulty\": \"difficulty\",\n    \"language\": \"language\"\n  }\n]\n"

  function SubjectLine(req: GenRequest): string { "- Subject: " + Join(req.subjects, ", ") }
  function DifficultyLine(req: GenRequest): string { "- Difficulty: " + req.difficulty }
  function LanguageLine(req: GenRequest): string { "- Language: " + req.language }
  function CountLine(req: GenRequest): string { "- Number of questions: " + IntToString(req.count) }

  /** The prompt, built from its end: each part is a line followed by the rest of the prompt. */
  function Prompt(req: GenRequest): string
  {
    Header + (req.text + ("\n\nRequirements:\n" + SubjectPart(req)))
  }

  function SubjectPart(req: GenRequest): string { SubjectLine(req) + ("\n" + DifficultyPart(req)) }
  function DifficultyPart(req: GenRequest): string { DifficultyLine(req) + ("\n" + LanguagePart(req)) }
  function LanguagePart(req: GenRequest): string { LanguageLine(req) + ("\n" + CountPart(req)) }
  function CountPart(req: GenRequest): string { CountLine(req) + Footer }

  /** Text that starts with `t` contains it. */
  lemma ContainsPrefix(t: string, b: string)
    ensures Contains(t + b, t)
  {
    assert (t + b)[0..|t|] == t;
    assert OccursAt(t + b, t, 0);
  }

  /** Text contained in a suffix is contained in the whole. */
  lemma ContainsInSuffix(a: string, b: string, t: string)
    requires Contains(b, t)
    ensures Contains(a + b, t)
  {
    var k: nat :| k <= |b| && OccursAt(b, t, k);
    assert (a + b)[|a| + k..|a| + k + |t|] == b[k..k + |t|];
    assert OccursAt(a + b, t, |a| + k);
  }

  /** The prompt carries the syllabus, the subjects joined by ", ", the difficulty, the language
      and the number of questions. */
  lemma PromptRequirements(req: GenRequest)
    ensures Contains(Prompt(req), req.text)
    ensures Contains(Prompt(req), SubjectLine(req))
    ensures Contains(Prompt(req), DifficultyLine(req))
    ensures Contains(Prompt(req), LanguageLine(req))
    ensures Contains(Prompt(req), CountLine(req))
  {
    var r := "\n\nRequirements:\n";
    ContainsPrefix(req.text, r + SubjectPart(req));
    ContainsInSuffix(Header, req.text + (r + SubjectPart(req)), req.text);
    SubjectPartLines(req);
    var t := SubjectLine(req);
    ContainsInSuffix(r, SubjectPart(req), t);
    ContainsInSuffix(req.text, r + SubjectPart(req), t);
    ContainsInSuffix(Header, req.text + (r + SubjectPart(req)), t);
    t := DifficultyLine(req);
    ContainsInSuffix(r, SubjectPart(req), t);
    ContainsInSuffix(req.text, r + SubjectPart(req), t);
    ContainsInSuffix(Header, req.text + (r + SubjectPart(req)), t);
    t := LanguageLine(req);
    ContainsInSuffix(r, SubjectPart(req), t);
    ContainsInSuffix(req.text, r + SubjectPart(req), t);
    ContainsInSuffix(Header, req.text + (r + SubjectPart(req)), t);
    t := CountLine(req);
    ContainsInSuffix(r, SubjectPart(req), t);
    ContainsInSuffix(req.text, r + SubjectPart(req), t);
    ContainsInSuffix(Header, req.text + (r + SubjectPart(req)), t);
  }

  /** The requirement lines all lie within the part of the prompt that starts with the subject line. */
  lemma SubjectPartLines(req: GenRequest)
    ensures Contains(SubjectPart(req), SubjectLine(req))
    ensures Contains(SubjectPart(req), DifficultyLine(req))
    ensures Contains(SubjectPart(req), LanguageLine(req))
    ensures Contains(SubjectPart(req), CountLine(req))
  {
    ContainsPrefix(CountLine(req), Footer);
    ContainsPrefix(LanguageLine(req), "\n" + CountPart(req));
    ContainsInSuffix("\n", CountPart(req), CountLine(req));
    ContainsInSuffix(LanguageLine(req), "\n" + CountPart(req), CountLine(req));
    ContainsPrefix(DifficultyLine(req), "\n" + LanguagePart(req));
    ContainsInSuffix("\n", LanguagePart(req), LanguageLine(req));
    ContainsInSuffix(DifficultyLine(req), "\n" + LanguagePart(req), LanguageLine(req));
    ContainsInSuffix("\n", LanguagePart(req), CountLine(req));
    ContainsInSuffix(DifficultyLine(req), "\n" + LanguagePart(req), CountLine(req));
    ContainsPrefix(SubjectLine(req), "\n" + DifficultyPart(req));
    var t := DifficultyLine(req);
    ContainsInSuffix("\n", DifficultyPart(req), t);
    ContainsInSuffix(SubjectLine(req), "\n" + DifficultyPart(req), t);
    t := LanguageLine(req);
    ContainsInSuffix("\n", DifficultyPart(req), t);
    ContainsInSuffix(SubjectLine(req), "\n" + DifficultyPart(req), t);
    t := CountLine(req);
    ContainsInSuffix("\n", DifficultyPart(req), t);
    ContainsInSuffix(SubjectLine(req), "\n" + DifficultyPart(req), t);
  }

  /** The worker asks for one subject at a time, so the subject line names exactly that subject,
      and the count line gives its rounded-up share. */
  lemma WorkerPrompt(input: JobInput, i: nat)
    requires i < |input.subjects|
    ensures SubjectLine(RequestFor(input, i)) == "- Subject: " + input.subjects[i]
    ensures CountLine(RequestFor(input, i)) == "- Number of questions: " + IntToString(CeilDiv(input.numberOfQuestions, |input.subjects|))
  {
  }

  /* ---------------- extracting the JSON array ---------------- */

  /** Index of the last occurrence of `c`. */
  function LastIndexOf(s: string, c: char): (j: nat)
    requires c in s
    ensures j < |s| && s[j] == c && c !in s[j + 1..]
  {
    if s[|s| - 1] == c then |s| - 1
    else
      assert c in s[..|s| - 1] by {
        var k :| 0 <= k < |s| && s[k] == c;
        assert s[..|s| - 1][k] == c;
      }
      var j := LastIndexOf(s[..|s| - 1], c);
      assert s[j + 1..] == s[..|s| - 1][j + 1..] + [s[|s| - 1]];
      j
  }

  /** `raw.match(/\[[\s\S]*\]/)[0]`: from the first '[' to the last ']', when that '[' comes first. */
  function BracketSpan(raw: string): Option<string>
  {
    if ']' !in raw then None
    else
      var j := LastIndexOf(raw, ']');
      if '[' !in raw[..j] then None
      else
        var i := IndexOf(raw, '[');
        assert i < j by {
          var k :| 0 <= k < j && raw[..j][k] == '[';
          assert raw[k] == '[';
          forall m | 0 <= m < i ensures raw[m] != '[' {
            assert raw[..i][m] == raw[m];
          }
        }
        Some(raw[i..j + 1])
  }

  /** There is a match exactly when some '[' comes before some ']'. */
  lemma BracketSpanFound(raw: string)
    ensures BracketSpan(raw).Some? <==> exists i, j :: 0 <= i < j < |raw| && raw[i] == '[' && raw[j] == ']'
  {
    if i, j :| 0 <= i < j < |raw| && raw[i] == '[' && raw[j] == ']' {
      var last := LastIndexOf(raw, ']');
      forall m | last < m < |raw| ensures raw[m] != ']' {
        assert raw[last + 1..][m - last - 1] == raw[m];
      }
      assert raw[..last][i] == '[';
    }
    if BracketSpan(raw).Some? {
      var last := LastIndexOf(raw, ']');
      var first := IndexOf(raw, '[');
      assert raw[first] == '[' && raw[last] == ']';
    }
  }

  /** The span is the longest one the pattern allows: it starts at the first '[' and ends at the last ']'. */
  lemma BracketSpanShape(raw: string)
    requires BracketSpan(raw).Some?
    ensures exists i, j :: 0 <= i < j < |raw| && BracketSpan(raw).value == raw[i..j + 1] &&
                           raw[i] == '[' && '[' !in raw[..i] && raw[j] == ']' && ']' !in raw[j + 1..]
  {
    var j := LastIndexOf(raw, ']');
    var i := IndexOf(raw, '[');
    assert BracketSpan(raw).value == raw[i..j + 1];
  }

  /** The span at least starts with '[' and ends with ']'. */
  lemma BracketSpanBrackets(raw: string)
    requires BracketSpan(raw).Some?
    ensures var span := BracketSpan(raw).value;
            |span| >= 2 && span[0] == '[' && span[|span| - 1] == ']'
  {
    BracketSpanShape(raw);
  }

  /* ---------------- parsing and tagging ---------------- */

  /** What `JSON.parse` of the span gives: an error, or an array of questions (each a `Draft`,
      whatever source the model put in it). The span starts with '[' and ends with ']', so a span
      that parses is always an array. */
  datatype Parsed = Invalid | Items(items: seq<Draft>)

  const NoJson := "AI did not return JSON"
  const InvalidJson := "AI returned invalid JSON"
  const ModelSource := "deepseek-ai"

  /** `questions.map(q => ({ ...q, source: "deepseek-ai" }))`. */
  function WithModelSource(items: seq<Draft>): (r: seq<Draft>)
    ensures |r| == |items|
    ensures forall k :: 0 <= k < |items| ==> r[k].source == ModelSource && r[k].(source := items[k].source) == items[k]
  {
    seq(|items|, k requires 0 <= k < |items| => items[k].(source := ModelSource))
  }

  /** Tagging again changes nothing. */
  lemma WithModelSourceIdempotent(items: seq<Draft>)
    ensures WithModelSource(WithModelSource(items)) == WithModelSource(items)
  {
  }

  /** `generateQuestionsFromText`, with the model call `invoke` (which may fail) and the parser `parse`. */
  function Generate(req: GenRequest, invoke: string -> Result<string, string>, parse: string -> Parsed): Result<seq<Draft>, string>
  {
    var response := invoke(Prompt(req));
    if response.Failure? then Failure(response.error)
    else
      var span := BracketSpan(response.value);
      if span.None? then Failure(NoJson)
      else
        var parsed := parse(span.value);
        if parsed.Invalid? then Failure(InvalidJson)
        else Success(WithModelSource(parsed.items))
  }

  /** The call succeeds exactly when the model answers, some '[' precedes some ']' in the answer,
      and the span parses to an array; then the questions are those of the array, in order, each
      with source "deepseek-ai"; each failure has its own message. */
  lemma GenerateOutcome(req: GenRequest, invoke: string -> Result<string, string>, parse: string -> Parsed)
    ensures var response := invoke(Prompt(req));
            var result := Generate(req, invoke, parse);
            (response.Failure? ==> result == Failure(response.error)) &&
            (response.Success? ==>
              (BracketSpan(response.value).None? <==> !exists i, j :: 0 <= i < j < |response.value| && response.value[i] == '[' && response.value[j] == ']') &&
              (BracketSpan(response.value).None? ==> result == Failure(NoJson)) &&
              (BracketSpan(response.value).Some? ==>
                var parsed := parse(BracketSpan(response.value).value);
                (parsed.Invalid? ==> result == Failure(InvalidJson)) &&
                (parsed.Items? ==>
                   result.Success? &&
                   |result.value| == |parsed.items| &&
                   forall k :: 0 <= k < |parsed.items| ==>
                     result.value[k].source == ModelSource && result.value[k].(source := parsed.items[k].source) == parsed.items[k])))
  {
    var response := invoke(Prompt(req));
    if response.Success? {
      BracketSpanFound(response.value);
    }
  }

  /** The generator as the question worker sees it: `invoke(i)` is the model's behaviour on the
      call for subject `i`; the store's write failures are given separately. */
  function GeneratorEnv(invoke: nat -> string -> Result<string, string>, parse: string -> Parsed, writeError: WriteStep -> Option<string>): Env
  {
    Env((i: nat, req: GenRequest) => Generate(req, invoke(i), parse), writeError)
  }

  /** Whatever source the model's questions carry, the worker stores them as AI questions of the exam's owner. */
  lemma StoredAsAI(id: ExamId, owner: UserId, req: GenRequest, invoke: string -> Result<string, string>, parse: string -> Parsed)
    requires Generate(req, invoke, parse).Success?
    ensures var stored := Tagged(id, owner, Generate(req, invoke, parse).value);
            forall k :: 0 <= k < |stored| ==> stored[k].source == AI && !stored[k].isApproved && stored[k].createdBy == owner
  {
    var stored := Tagged(id, owner, Generate(req, invoke, parse).value);
    forall k | 0 <= k < |stored| ensures stored[k].source == AI && !stored[k].isApproved && stored[k].createdBy == owner {
      assert IsAIQuestionOf(stored[k], id, owner);
    }
  }
}
