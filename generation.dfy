/**
  The `generate-answers` command: for every question, the player prompt is
  rendered once and the player model is asked `rounds` times; one output row
  per call, in question order, the seed counting up from `seed_start` across
  the whole run (it is never reset between questions).

  As for calibration, the player model is a function `gen` from the ordinal
  of the call within the run and the request to the reply text.
*/
module Generation {
  import opened Wrappers
  import opened Text
  import opened Starter
  import opened Calibration

  /** One row of `questions.csv`. */
  datatype Question = Question(questionId: string, letter: string, category: string)

  datatype GenerateArgs = GenerateArgs(
    model: string,
    rounds: int,
    temperature: real,
    topK: Option<int>,
    maxTokens: int,
    seedStart: Option<int>,
    playerId: Option<string>,
    promptId: string)

  /** One row of the answers file; `topK` is written as an empty cell when
      absent, and `answer` is the raw reply (judging normalises it). */
  datatype AnswerOut = AnswerOut(
    questionId: string,
    letter: string,
    category: string,
    roundIdx: nat,
    answer: string,
    model: string,
    playerId: string,
    temperature: real,
    topK: Option<int>,
    promptId: string)

  /** `range(args.rounds)` is empty for a negative count. */
  function RoundCount(args: GenerateArgs): nat {
    if args.rounds < 0 then 0 else args.rounds
  }

  /** `load_player_template`: no template without a prompt file, otherwise
      the file's text (`promptFile`) stripped. */
  function LoadPlayerTemplate(promptFile: Option<string>): Option<string> {
    match promptFile
    case None => None
    case Some(text) => Some(Strip(text))
  }

  /** The request of a call made with `seed`. */
  function AskFor(args: GenerateArgs, prompt: string, seed: Option<int>): Request {
    Request(args.model, prompt, args.temperature, args.topK, seed, args.maxTokens)
  }

  /** The row recording reply `raw` to round `r` of question `q`. */
  function RowFor(args: GenerateArgs, pid: string, q: Question, r: nat, raw: string): AnswerOut {
    AnswerOut(q.questionId, q.letter, q.category, r, raw, args.model, pid, args.temperature, args.topK, args.promptId)
  }

  /** The rows of the first `k` rounds of question `q`, the first round being
      call number `base` of the run, made with the seed `seed_start + base`. */
  function Rounds(args: GenerateArgs, pid: string, q: Question, prompt: string, gen: (nat, Request) -> string, base: nat, k: nat): (rows: seq<AnswerOut>)
    ensures |rows| == k
  {
    if k == 0 then []
    else
      Rounds(args, pid, q, prompt, gen, base, k - 1)
        + [RowFor(args, pid, q, k - 1, gen(base + k - 1, AskFor(args, prompt, SeedAt(args.seedStart, base + k - 1))))]
  }

  /** `rows` in front of the rows of a run that may fail. */
  function Then<T, E>(rows: seq<T>, r: Result<seq<T>, E>): Result<seq<T>, E> {
    if r.Err? then r else Ok(rows + r.value)
  }

  /** The prompt of each question, or the error rendering it raises. */
  function Renderer(template: Option<string>): Question -> Result<string, RenderError> {
    (q: Question) => RenderPlayerPrompt(q.letter, q.category, template)
  }

  /** All rows for the questions `qs`, the first call being number `base`,
      `render` giving each question's prompt; the error of the first question
      whose prompt cannot be rendered. */
  function AllAnswers(args: GenerateArgs, pid: string, render: Question -> Result<string, RenderError>, gen: (nat, Request) -> string,
                      qs: seq<Question>, base: nat): Result<seq<AnswerOut>, RenderError>
    decreases |qs|
  {
    if qs == [] then Ok([])
    else
      var prompt := render(qs[0]);
      if prompt.Err? then Err(prompt.error)
      else Then(Rounds(args, pid, qs[0], prompt.value, gen, base, RoundCount(args)),
                AllAnswers(args, pid, render, gen, qs[1..], base + RoundCount(args)))
  }

  // ------------------------------------------------------------------ the loops

  /** `run_generate_answers`, apart from reading the questions and writing the
      file: `promptFile` is the text of the prompt file when one is named. */
  method RunGenerateAnswers(args: GenerateArgs, questions: seq<Question>, promptFile: Option<string>, gen: (nat, Request) -> string)
    returns (r: Result<seq<AnswerOut>, RenderError>)
    ensures r == AllAnswers(args, PlayerIdFor(args.playerId, args.model), Renderer(LoadPlayerTemplate(promptFile)), gen, questions, 0)
    ensures r.Err? <==>
            exists j :: 0 <= j < |questions| && RenderPlayerPrompt(questions[j].letter, questions[j].category, LoadPlayerTemplate(promptFile)).Err?
    ensures r.Ok? ==> |r.value| == |questions| * RoundCount(args)
  {
    var template := LoadPlayerTemplate(promptFile);
    var pid := PlayerIdFor(args.playerId, args.model);
    r := GenerateAll(args, pid, template, gen, questions);
    GenerateFailsIff(args, pid, Renderer(template), gen, questions, 0);
    RenderedFails(template, questions);
    if r.Ok? {
      GenerateLength(args, pid, Renderer(template), gen, questions, 0);
    }
  }

  lemma RenderedFails(template: Option<string>, qs: seq<Question>)
    ensures (exists j :: 0 <= j < |qs| && Renderer(template)(qs[j]).Err?) <==>
            exists j :: 0 <= j < |qs| && RenderPlayerPrompt(qs[j].letter, qs[j].category, template).Err?
  {
  }

  /** The loop over the questions, for a given player id and template. */
  method GenerateAll(args: GenerateArgs, pid: string, template: Option<string>, gen: (nat, Request) -> string, qs: seq<Question>)
    returns (r: Result<seq<AnswerOut>, RenderError>)
    ensures r == AllAnswers(args, pid, Renderer(template), gen, qs, 0)
  {
    ghost var render := Renderer(template);
    ghost var whole := AllAnswers(args, pid, render, gen, qs, 0);
    var rows: seq<AnswerOut> := [];
    var seed := args.seedStart;
    var call: nat := 0;
    ThenNil(whole);
    assert qs[0..] == qs;
    for i := 0 to |qs|
      invariant Generated(args, pid, render, gen, qs, i, call, seed, rows, whole)
    {
      var q := qs[i];
      var prompt := RenderPlayerPrompt(q.letter, q.category, template);
      assert render(q) == prompt;
      if prompt.Err? {
        GenerateStops(args, pid, render, gen, qs, i, call, seed, rows, whole);
        return Err(prompt.error);
      }
      rows, seed, call := AskQuestion(args, pid, render, gen, qs, i, call, seed, rows, whole, prompt.value);
    }
    GenerateDone(args, pid, render, gen, qs, call, seed, rows, whole);
    r := Ok(rows);
  }

  /** The loop invariant of `GenerateAll`: the seed has moved on once per
      call so far, and the rows so far followed by those of the questions
      from `i` on are the whole run. */
  ghost predicate Generated(args: GenerateArgs, pid: string, render: Question -> Result<string, RenderError>, gen: (nat, Request) -> string,
                            qs: seq<Question>, i: nat, call: nat, seed: Option<int>, rows: seq<AnswerOut>, whole: Result<seq<AnswerOut>, RenderError>)
  {
    i <= |qs| && seed == SeedAt(args.seedStart, call) && whole == Then(rows, AllAnswers(args, pid, render, gen, qs[i..], call))
  }

  /** One question whose prompt renders: its rounds come next. */
  method AskQuestion(args: GenerateArgs, pid: string, ghost render: Question -> Result<string, RenderError>, gen: (nat, Request) -> string,
                     qs: seq<Question>, i: nat, call: nat, seed: Option<int>, rows: seq<AnswerOut>,
                     ghost whole: Result<seq<AnswerOut>, RenderError>, prompt: string)
    returns (rows': seq<AnswerOut>, seed': Option<int>, call': nat)
    requires i < |qs| && Generated(args, pid, render, gen, qs, i, call, seed, rows, whole)
    requires render(qs[i]) == Ok(prompt)
    ensures Generated(args, pid, render, gen, qs, i + 1, call', seed', rows', whole)
  {
    var qrows;
    qrows, seed' := AskRounds(args, pid, qs[i], prompt, gen, call, seed);
    GenerateStep(args, pid, render, gen, qs, i, call, rows, qrows, whole);
    rows' := rows + qrows;
    call' := call + RoundCount(args);
  }

  /** The inner loop: `rounds` calls with one prompt, the seed moving on by
      one after every call when there is one. */
  method AskRounds(args: GenerateArgs, pid: string, q: Question, prompt: string, gen: (nat, Request) -> string, base: nat, seed0: Option<int>)
    returns (rows: seq<AnswerOut>, seed: Option<int>)
    requires seed0 == SeedAt(args.seedStart, base)
    ensures rows == Rounds(args, pid, q, prompt, gen, base, RoundCount(args))
    ensures seed == SeedAt(args.seedStart, base + RoundCount(args))
  {
    rows := [];
    seed := seed0;
    for r := 0 to RoundCount(args)
      invariant seed == SeedAt(args.seedStart, base + r)
      invariant rows == Rounds(args, pid, q, prompt, gen, base, r)
    {
      var raw := gen(base + r, Request(args.model, prompt, args.temperature, args.topK, seed, args.maxTokens));
      if seed.Some? {
        seed := Some(seed.value + 1);
      }
      rows := rows + [AnswerOut(q.questionId, q.letter, q.category, r, raw, args.model, pid, args.temperature, args.topK, args.promptId)];
    }
  }

  lemma ThenNil<T, E>(r: Result<seq<T>, E>)
    ensures Then([], r) == r
  {
    if r.Ok? {
      assert [] + r.value == r.value;
    }
  }

  /** A question whose prompt renders contributes its rounds next. */
  lemma GenerateStep(args: GenerateArgs, pid: string, render: Question -> Result<string, RenderError>, gen: (nat, Request) -> string, qs: seq<Question>,
                     i: nat, call: nat, rows: seq<AnswerOut>, qrows: seq<AnswerOut>, whole: Result<seq<AnswerOut>, RenderError>)
    requires i < |qs| && whole == Then(rows, AllAnswers(args, pid, render, gen, qs[i..], call))
    requires render(qs[i]).Ok?
    requires qrows == Rounds(args, pid, qs[i], render(qs[i]).value, gen, call, RoundCount(args))
    ensures whole == Then(rows + qrows, AllAnswers(args, pid, render, gen, qs[i + 1..], call + RoundCount(args)))
  {
    assert qs[i..][0] == qs[i] && qs[i..][1..] == qs[i + 1..];
    ThenThen(rows, qrows, AllAnswers(args, pid, render, gen, qs[i + 1..], call + RoundCount(args)));
  }

  lemma ThenThen<T, E>(a: seq<T>, b: seq<T>, r: Result<seq<T>, E>)
    ensures Then(a, Then(b, r)) == Then(a + b, r)
  {
    if r.Ok? {
      assert a + (b + r.value) == (a + b) + r.value;
    }
  }

  /** A question whose prompt does not render ends the run with its error. */
  lemma GenerateStops(args: GenerateArgs, pid: string, render: Question -> Result<string, RenderError>, gen: (nat, Request) -> string, qs: seq<Question>,
                      i: nat, call: nat, seed: Option<int>, rows: seq<AnswerOut>, whole: Result<seq<AnswerOut>, RenderError>)
    requires i < |qs| && Generated(args, pid, render, gen, qs, i, call, seed, rows, whole)
    requires render(qs[i]).Err?
    ensures whole == Err(render(qs[i]).error)
  {
    assert qs[i..][0] == qs[i];
  }

  /** After the last question the rows are the whole run. */
  lemma GenerateDone(args: GenerateArgs, pid: string, render: Question -> Result<string, RenderError>, gen: (nat, Request) -> string, qs: seq<Question>,
                     call: nat, seed: Option<int>, rows: seq<AnswerOut>, whole: Result<seq<AnswerOut>, RenderError>)
    requires Generated(args, pid, render, gen, qs, |qs|, call, seed, rows, whole)
    ensures whole == Ok(rows)
  {
    assert qs[|qs|..] == [];
    assert rows + [] == rows;
  }

  // ------------------------------------------------------------------ properties

  lemma {:induction false} RoundsIndex(args: GenerateArgs, pid: string, q: Question, prompt: string, gen: (nat, Request) -> string, base: nat, k: nat, r: nat)
    requires r < k
    ensures Rounds(args, pid, q, prompt, gen, base, k)[r]
            == RowFor(args, pid, q, r, gen(base + r, AskFor(args, prompt, SeedAt(args.seedStart, base + r))))
  {
    if r < k - 1 {
      RoundsIndex(args, pid, q, prompt, gen, base, k - 1, r);
    }
  }

  /** The run fails exactly when some question's prompt cannot be rendered. */
  lemma {:induction false} GenerateFailsIff(args: GenerateArgs, pid: string, render: Question -> Result<string, RenderError>, gen: (nat, Request) -> string,
                                            qs: seq<Question>, base: nat)
    ensures AllAnswers(args, pid, render, gen, qs, base).Err? <==> exists j :: 0 <= j < |qs| && render(qs[j]).Err?
    decreases |qs|
  {
    if qs != [] {
      GenerateFailsIff(args, pid, render, gen, qs[1..], base + RoundCount(args));
      if exists j :: 0 <= j < |qs[1..]| && render(qs[1..][j]).Err? {
        var j :| 0 <= j < |qs[1..]| && render(qs[1..][j]).Err?;
        assert qs[1..][j] == qs[j + 1];
      }
      if exists j :: 0 <= j < |qs| && render(qs[j]).Err? {
        var j :| 0 <= j < |qs| && render(qs[j]).Err?;
        if j > 0 {
          assert qs[1..][j - 1] == qs[j];
        }
      }
    }
  }

  /** The error is that of the first question whose prompt cannot be
      rendered. */
  lemma {:induction false} GenerateFirstError(args: GenerateArgs, pid: string, render: Question -> Result<string, RenderError>, gen: (nat, Request) -> string,
                                              qs: seq<Question>, base: nat, j: nat)
    requires j < |qs| && render(qs[j]).Err?
    requires forall i :: 0 <= i < j ==> render(qs[i]).Ok?
    ensures AllAnswers(args, pid, render, gen, qs, base) == Err(render(qs[j]).error)
    decreases j
  {
    if j > 0 {
      forall i | 0 <= i < j - 1
        ensures render(qs[1..][i]).Ok?
      {
        assert qs[1..][i] == qs[i + 1];
      }
      assert qs[1..][j - 1] == qs[j];
      GenerateFirstError(args, pid, render, gen, qs[1..], base + RoundCount(args), j - 1);
    }
  }

  /** Without a template the run cannot fail. */
  lemma BuiltInPromptNeverFails(args: GenerateArgs, pid: string, gen: (nat, Request) -> string, qs: seq<Question>)
    ensures AllAnswers(args, pid, Renderer(None), gen, qs, 0).Ok?
  {
    GenerateFailsIff(args, pid, Renderer(None), gen, qs, 0);
  }

  /** Exactly `rounds` rows per question. */
  lemma {:induction false} GenerateLength(args: GenerateArgs, pid: string, render: Question -> Result<string, RenderError>, gen: (nat, Request) -> string,
                                          qs: seq<Question>, base: nat)
    requires AllAnswers(args, pid, render, gen, qs, base).Ok?
    ensures |AllAnswers(args, pid, render, gen, qs, base).value| == |qs| * RoundCount(args)
    decreases |qs|
  {
    if qs != [] {
      GenerateLength(args, pid, render, gen, qs[1..], base + RoundCount(args));
      MulStep(|qs|, RoundCount(args));
    }
  }

  /** Row `j * rounds + r` is round `r` of question `j`: asked with that
      question's prompt, as call number `base + j * rounds + r` with the seed
      `seed_start + base + j * rounds + r`, and recorded with the question's
      fields, the raw reply, the model and the player id. */
  lemma {:induction false} GenerateIndex(args: GenerateArgs, pid: string, render: Question -> Result<string, RenderError>, gen: (nat, Request) -> string,
                                         qs: seq<Question>, base: nat, j: nat, r: nat)
    requires AllAnswers(args, pid, render, gen, qs, base).Ok? && j < |qs| && r < RoundCount(args)
    ensures var rows := AllAnswers(args, pid, render, gen, qs, base).value;
            var k := j * RoundCount(args) + r;
            && render(qs[j]).Ok? && k < |rows|
            && rows[k] == RowFor(args, pid, qs[j], r, gen(base + k, AskFor(args, render(qs[j]).value, SeedAt(args.seedStart, base + k))))
    decreases j
  {
    var n := RoundCount(args);
    var head := Rounds(args, pid, qs[0], render(qs[0]).value, gen, base, n);
    var rest := AllAnswers(args, pid, render, gen, qs[1..], base + n);
    GenerateLength(args, pid, render, gen, qs, base);
    MulBelow(j, r, |qs|, n);
    if j == 0 {
      RoundsIndex(args, pid, qs[0], render(qs[0]).value, gen, base, n, r);
    } else {
      GenerateIndex(args, pid, render, gen, qs[1..], base + n, j - 1, r);
      assert qs[1..][j - 1] == qs[j];
      MulStep(j, n);
      AppendIndex(head, rest.value, (j - 1) * n + r);
    }
  }

  lemma AppendIndex<T>(a: seq<T>, b: seq<T>, k: nat)
    requires k < |b|
    ensures (a + b)[|a| + k] == b[k]
  {
  }

  /** Every row carries the run's model and player id, and a round number
      below `rounds`. */
  lemma GenerateRowsOfPlayer(args: GenerateArgs, pid: string, render: Question -> Result<string, RenderError>, gen: (nat, Request) -> string,
                             qs: seq<Question>, k: nat)
    requires AllAnswers(args, pid, render, gen, qs, 0).Ok? && k < |AllAnswers(args, pid, render, gen, qs, 0).value|
    ensures var row := AllAnswers(args, pid, render, gen, qs, 0).value[k];
            row.playerId == pid && row.model == args.model && row.roundIdx < RoundCount(args)
  {
    var n := RoundCount(args);
    GenerateLength(args, pid, render, gen, qs, 0);
    var j, r := DivBelow(k, |qs|, n);
    GenerateIndex(args, pid, render, gen, qs, 0, j, r);
  }

  // ------------------------------------------------------------------ arithmetic

  lemma MulStep(j: nat, n: nat)
    requires j > 0
    ensures j * n == n + (j - 1) * n
  {
  }

  lemma {:induction false} MulBelow(j: nat, r: nat, m: nat, n: nat)
    requires j < m && r < n
    ensures j * n + r < m * n
  {
    MulStep(m, n);
    if j + 1 < m {
      MulBelow(j, r, m - 1, n);
    } else {
      MulStep(j + 1, n);
    }
  }

  /** Position `k` of `m` chunks of `n` is item `r` of chunk `j`. */
  lemma {:induction false} DivBelow(k: nat, m: nat, n: nat) returns (j: nat, r: nat)
    requires k < m * n
    ensures j < m && r < n && k == j * n + r
  {
    MulStep(m, n);
    if k < n {
      j, r := 0, k;
    } else {
      var j', r' := DivBelow(k - n, m - 1, n);
      j, r := j' + 1, r';
      MulStep(j, n);
    }
  }
}
