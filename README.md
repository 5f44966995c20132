# Scattergories player and judge, modelled in Dafny

This project models the two scripts of a Scattergories assignment:

- **The player side** (`assignment3_starter.py`) asks a local language model for answers.
  - The `calibrate` command samples one fixed prompt many times at several temperatures. It records each normalised reply and tallies the replies per temperature.
  - The `generate-answers` command asks the model `rounds` times for every question and writes one answer row per call.
- **The judge side** (`judge.py`) does four things:
  - it reads answer files from several players;
  - it asks a judge model whether each normalised answer is valid, caching every decision under a case-insensitive (letter, category, answer) key;
  - it scores each round: a valid answer scores 1 unless another row of the same round, from any player, validly gave the same answer;
  - it sums everything up per player.

Both language models are oracles:

- The player model is a function `gen` from the call's ordinal within the run and the request (model, prompt, temperature, top-k, seed, token limit) to the reply text.
- The judge model is a function from the ordinal of the external call and the (letter, category, answer) question to the reply text.

Everything the scripts read from or write to disk becomes a parameter or a result:

- the answer files after CSV parsing;
- the cache table as loaded;
- the text of a prompt file;
- the rows and summaries that would be written.

Modules, in dependency order:

- `Wrappers`: Option and Result.
- `Text`: ASCII character classes, `lower`, `strip`, and Python's string order.
- `Normalize`: `normalize_answer`, the same function in both scripts.
- `Tally`: `collections.Counter` over strings, with its insertion-ordered keys.
- `Judging`: `JudgeCache` and `OpenAIJudge` as classes. Their methods update the cache's table and its counters in place.
- `Scoring`: `load_answers` and `judge_rows`.
- `Summary`: `summarize_scores`.
- `Starter`: `safe_name`, the prompts, `render_player_prompt` (with a model of `str.format` for bare field names), `get_calibration_prompt`, the weekday answer, and the player id.
- `Calibration`: the loops of `run_calibration`.
- `Generation`: the loops of `run_generate_answers`.

The loops of the source are `while`/`for` loops in methods. Each method is proved against a recursive specification function, and the properties are lemmas about those functions.

## Model

| member | source | states |
|---|---|---|
| Text.LowerChar | assets/assignment3/judge.py:29 | lowercasing a character leaves no upper-case letter, changes exactly the upper-case letters, and keeps whitespace and letters/digits in their classes |
| Text.Lower | assets/assignment3/judge.py:29 | `s.lower()` keeps the length and lowercases every position |
| Text.LowerIdempotent | assets/assignment3/judge.py:29 | lowercasing twice equals lowercasing once |
| Text.Strip | assets/assignment3/judge.py:29 | the stripped text is empty or starts and ends with a non-whitespace character |
| Text.StripSlice | assets/assignment3/judge.py:29 | `strip` removes a whitespace run at each end and nothing else: the result is a slice with only whitespace outside it |
| Text.LexLessIrreflexive | assets/assignment3/judge.py:226 | no player id sorts before itself |
| Text.LexLessTransitive | assets/assignment3/judge.py:226 | the string order used by `sorted` is transitive |
| Text.LexLessTotal | assets/assignment3/judge.py:226 | of two different strings, one sorts before the other |
| Normalize.CollapseSpaces | assets/assignment3/judge.py:30 | after collapsing, all whitespace is a plain space, no two whitespace characters are adjacent, and no upper-case letter appears that was not there |
| Normalize.CollapseKeeps | assets/assignment3/judge.py:30 | a character other than whitespace is copied unchanged and ends any whitespace run |
| Normalize.CollapseRun | assets/assignment3/judge.py:30 | a whitespace run of any length becomes exactly one space |
| Normalize.CollapseInRun | assets/assignment3/judge.py:30 | inside a run, further whitespace adds nothing |
| Normalize.TrimNonAlnum | assets/assignment3/judge.py:31 | the trimmed text is empty or starts and ends with `[a-z0-9]` |
| Normalize.TrimSlice | assets/assignment3/judge.py:31 | the trim removes only characters outside `[a-z0-9]`, and only at the two ends |
| Normalize.NormalizeIsCanonical | assets/assignment3/judge.py:28-32 | every normalised answer is canonical: empty or `[a-z0-9]` at both ends, lower case, and single spaces only; it is never longer than the input |
| Normalize.CanonicalIsFixed | assets/assignment3/judge.py:28-32 | a canonical string normalises to itself |
| Normalize.NormalizeIdempotent | assets/assignment3/judge.py:28-32 | normalising twice equals normalising once |
| Normalize.FixedIffCanonical | assets/assignment3/assignment3_starter.py:33-37 | the strings that normalisation leaves unchanged are exactly the canonical ones |
| Tally.Empty | assets/assignment3/assignment3_starter.py:208 | a fresh `Counter()` is well formed |
| Tally.AddValid | assets/assignment3/assignment3_starter.py:225 | `counts[x] += 1` keeps the counter well formed, with distinct keys |
| Tally.AddGet | assets/assignment3/assignment3_starter.py:225 | `counts[x] += 1` raises the count of `x` by one and leaves every other count as it was |
| Tally.AddKeys | assets/assignment3/assignment3_starter.py:225 | `counts[x] += 1` adds `x` to the keys and adds no other key |
| Tally.OfCounts | assets/assignment3/judge.py:208 | each count of `Counter(xs)` is the number of times the answer occurs in `xs` |
| Tally.OfKeys | assets/assignment3/judge.py:208 | the keys of `Counter(xs)` are exactly the distinct elements of `xs` |
| Tally.OfTotal | assets/assignment3/assignment3_starter.py:225 | the counts of a tally add up to the number of answers tallied |
| Tally.KeysCard | assets/assignment3/assignment3_starter.py:244 | `len(counts)` is the number of distinct keys |
| Judging.SameKeyIff | assets/assignment3/judge.py:58-59 | two questions share a cache key exactly when their answers are equal and their letters and categories are equal ignoring case |
| Judging.ReplyMeansYesIsLowerStartsWith | assets/assignment3/judge.py:129-136 | the validity rule is `reply.strip().lower().startswith("y")` |
| Judging.ReplyMeansYesIff | assets/assignment3/judge.py:129-136 | a reply means yes exactly when its first non-whitespace character is `y` or `Y` |
| Judging.JudgeCache.constructor | assets/assignment3/judge.py:48-56 | a new cache holds the loaded table, with zero hits and zero calls |
| Judging.JudgeCache.Get | assets/assignment3/judge.py:61-66 | a lookup hit returns the stored decision and counts one hit; a miss returns nothing and counts nothing |
| Judging.JudgeCache.Put | assets/assignment3/judge.py:68-70 | storing a decision sets that key and changes no other key |
| Judging.Judge.constructor | assets/assignment3/judge.py:77-83 | the judge keeps the cache it was given and the oracle |
| Judging.Judge.IsValid | assets/assignment3/judge.py:85-138 | three cases. An empty answer is invalid and touches nothing. A cached key returns the cached value and counts a hit. Otherwise there is one external call: the call counter goes up by one, the reply is read by the validity rule, and the result is cached. The outcome is exactly `Judgement` applied to the cache state before the call |
| Judging.Judgement | assets/assignment3/judge.py:85-137 | the decision and the new cache state of `is_valid`. Only a non-empty answer can be valid. A non-empty answer's key is in the new table and holds the decision. Old entries are kept, and the key set grows by that key only. Each non-empty answer costs one hit or one call, and a call is made exactly when the key is new |
| Judging.AskTwice | assets/assignment3/judge.py:85-138 | asking the same question twice gives the same answer twice, with at most one external call; the second ask of a new question is a cache hit |
| Scoring.Missing | assets/assignment3/judge.py:148 | the missing columns are exactly the required columns absent from the header |
| Scoring.LoadAnswers | assets/assignment3/judge.py:141-165 | loading succeeds exactly when every header has all required columns, and then gives every line of every file as a row, in order. Otherwise it fails naming the first bad file and its missing columns |
| Scoring.ReadRows | assets/assignment3/judge.py:151-164 | a checked file gives one row per line, in order |
| Scoring.LoadedAnswersCanonical | assets/assignment3/judge.py:162 | every loaded answer is the normalisation of the raw answer, and so is canonical |
| Scoring.IndicesOf | assets/assignment3/judge.py:198 | `by_round[k]` holds exactly the positions of the rows of round `k` |
| Scoring.RoundTally | assets/assignment3/judge.py:202-208 | a round's tally of valid non-empty answers counts exactly the rows that validly gave each answer in that round |
| Scoring.ScoreRounds | assets/assignment3/judge.py:202-216 | every row ends up scored by the collision rule of its own round, and the row count is unchanged |
| Scoring.ScoreRound | assets/assignment3/judge.py:203-216 | processing one round scores all of its rows and only them |
| Scoring.ScoreAt | assets/assignment3/judge.py:209-216 | scoring one row from the round's tally gives that row its final collision, score and round key |
| Scoring.CollisionIff | assets/assignment3/judge.py:212 | a row collides exactly when it is valid and non-empty, and another row of the same round, from any player, validly gave the same answer |
| Scoring.ScoreIff | assets/assignment3/judge.py:212-213 | when empty answers are never valid, a row scores 1 exactly when it is valid, non-empty and unique in its round; scores are 0 or 1; a collision never scores |
| Scoring.ClaimCountSameClaims | assets/assignment3/judge.py:202-213 | the collision counts depend only on each row's answer and validity |
| Scoring.JudgeRows | assets/assignment3/judge.py:179-217 | one output row per input row, in order, and every row is scored. Each validity is the cache's final decision for the row's key, so equal keys get equal validity. Empty answers are invalid. Earlier cache entries survive, and the final key set is the old keys plus the non-empty rows' keys. The calls counter grows by the number of distinct keys new to the cache, and the hits counter by the other non-empty rows. The first row asking about a new key gets the reading of the judge's reply to the call numbered by the new keys before it. The decisions and the cache state are those of `JudgeRun` |
| Scoring.JudgeEach | assets/assignment3/judge.py:183-200 | the first loop judges every row in order and groups all row positions by round. Its decisions and final cache state are those of `JudgeRun` from the starting cache |
| Scoring.JudgeOne | assets/assignment3/judge.py:184-198 | judging one more row extends the judged prefix, the grouping, the cost count and the run of `Judgement` by that row |
| Scoring.RunStep | assets/assignment3/judge.py:184-198 | one `is_valid` step extends the run of `Judgement` over the rows judged so far by one row |
| Scoring.RunKeys | assets/assignment3/judge.py:184-198 | after judging the rows, the cache holds exactly the old keys and the keys of the non-empty rows |
| Scoring.RunCounts | assets/assignment3/judge.py:184-198 | judging the rows makes one external call per distinct key new to the cache, and counts a hit for every other non-empty row |
| Scoring.RunFirstAsked | assets/assignment3/judge.py:184-198 | the first row asking about a new key gets the reading of the reply to the external call numbered by the new keys before it |
| Scoring.RunPrefix | assets/assignment3/judge.py:184-198 | judging a prefix of the rows decides those rows as judging all of them does |
| Scoring.RunLastAsked | assets/assignment3/judge.py:184-198 | a last row that first asks about a new key is decided by the reply to the call numbered by the new keys before it |
| Summary.GroupByPlayer | assets/assignment3/judge.py:221-223 | `by_player` has one entry per player present, holding that player's rows in their original order |
| Summary.GroupOfIsRowsOf | assets/assignment3/judge.py:221-223 | the grouping loop's result maps each player present, and only those, to that player's rows |
| Summary.LeastPlayer | assets/assignment3/judge.py:226 | the one chosen is a remaining player id that sorts before every other remaining id |
| Summary.SummarizeGroups | assets/assignment3/judge.py:225-249 | one summary per group, in strictly increasing id order, each computed from that player's group |
| Summary.SummarizeScores | assets/assignment3/judge.py:220-249 | one summary per player present, in strictly increasing id order, each computed from that player's rows. The totals add up to the number of rows. For scored rows, points <= valid <= total, distinct valid answers <= valid, and points + collisions = valid |
| Summary.SummariesTotal | assets/assignment3/judge.py:227 | the players' `total_answers` add up to the number of judged rows |
| Summary.CountsBounded | assets/assignment3/judge.py:227-231 | for scored rows: points <= valid <= total, points + collisions = valid, and distinct valid answers <= valid |
| Summary.SummaryBounds | assets/assignment3/judge.py:227-244 | a player's summary of scored rows satisfies those bounds |
| Summary.ScoredIsWellScored | assets/assignment3/judge.py:212-215 | every scored row collides only when valid, and scores 1 exactly when valid without a collision |
| Starter.SafeNameFrom | assets/assignment3/assignment3_starter.py:40-41 | the sanitised name contains only `[a-zA-Z0-9._-]` and is never longer than the input |
| Starter.SafeNameFixedIff | assets/assignment3/assignment3_starter.py:40-41 | `safe_name` leaves a name unchanged exactly when it is already safe; it is idempotent |
| Starter.SafeNameKeeps | assets/assignment3/assignment3_starter.py:41 | a safe character is copied through |
| Starter.SafeNameReplacesRun | assets/assignment3/assignment3_starter.py:41 | a maximal run of unsafe characters becomes exactly one `_` |
| Starter.PlayerPromptEmbeds | assets/assignment3/assignment3_starter.py:59-66 | the built-in player prompt contains the given letter and the given category |
| Starter.FormatLiteral | assets/assignment3/assignment3_starter.py:274 | template text without braces is copied unchanged |
| Starter.FormatField | assets/assignment3/assignment3_starter.py:274 | a bare field `{name}` is replaced by its value, or rendering stops with the field's error |
| Starter.FormatLetter | assets/assignment3/assignment3_starter.py:274 | `{letter}` is replaced by the letter |
| Starter.FormatCategory | assets/assignment3/assignment3_starter.py:274 | `{category}` is replaced by the category |
| Starter.FormatLoneBrace | assets/assignment3/assignment3_starter.py:274-279 | a template ending in a lone `{` or `}` fails with the message `str.format` gives for it |
| Starter.FormatMissing | assets/assignment3/assignment3_starter.py:275-279 | any other bare name is a missing placeholder, which stops rendering |
| Starter.DefaultPromptIsTemplate | assets/assignment3/assignment3_starter.py:270-274 | the template with `{letter}` and `{category}` in place of the letter and the category renders to the built-in prompt |
| Starter.RenderLiteralTemplate | assets/assignment3/assignment3_starter.py:270-274 | a template without braces renders to itself |
| Starter.CalibrationPrompt | assets/assignment3/assignment3_starter.py:175-182 | a prompt file wins, stripped. Without one, the task must be `day` or `fruitb`, and any other task is an error |
| Starter.DayAnswerShape | assets/assignment3/assignment3_starter.py:222-224 | the weekday answer is the first word of the normalised text. It is a prefix with no whitespace that stops at a space or at the end, and it is empty exactly when the normalised text is |
| Starter.DayAnswers | assets/assignment3/assignment3_starter.py:222-224 | every reply's weekday answer is the first word of its normalised text |
| Starter.PlayerIdFor | assets/assignment3/assignment3_starter.py:286 | a non-empty given player id is used as it is; otherwise the id is the sanitised model name, made only of safe characters |
| Calibration.Recorder | assets/assignment3/assignment3_starter.py:222-224 | for a task other than the weekday task, each reply is recorded as its normalised text. For the weekday task it is recorded as the first word of that text: the longest prefix without whitespace, followed by a space or the end, empty only when the text is |
| Calibration.SamplesIndex | assets/assignment3/assignment3_starter.py:210-236 | sample `i` of a temperature is the reply to call `base + i`, asked with seed `seed_start + i`, and recorded with `sample_idx = i` |
| Calibration.SampleAt | assets/assignment3/assignment3_starter.py:208-236 | the inner loop gives exactly the samples of the specification, and the counter is the tally of their answers |
| Calibration.CalibrateAll | assets/assignment3/assignment3_starter.py:207-251 | the rows are the samples of every temperature in order, `samples` per temperature. The summaries are one per temperature, each from that temperature's samples |
| Calibration.RunCalibration | assets/assignment3/assignment3_starter.py:185-251 | the run fails exactly when no prompt can be chosen, with that error; otherwise it is the whole run of the chosen prompt |
| Calibration.CallsBeforeProduct | assets/assignment3/assignment3_starter.py:207-210 | `t` temperatures make `t * samples` calls |
| Calibration.SampleIndex | assets/assignment3/assignment3_starter.py:207-236 | row `t * samples + i` is sample `i` of temperature `t`. The seed goes back to `seed_start` at every temperature |
| Calibration.SummaryIndex | assets/assignment3/assignment3_starter.py:238-251 | summary `t` tallies exactly the samples of temperature `t` |
| Calibration.SummaryUnique | assets/assignment3/assignment3_starter.py:244 | `unique_answers` is the number of distinct recorded answers among the temperature's samples |
| Calibration.SummaryCount | assets/assignment3/assignment3_starter.py:225 | each count is the number of samples whose recorded answer is that answer |
| Calibration.SummaryTotal | assets/assignment3/assignment3_starter.py:225 | the counts of a summary add up to the number of samples |
| Generation.AskRounds | assets/assignment3/assignment3_starter.py:295-319 | the inner loop gives the rounds of one question, and leaves the seed `rounds` steps further on |
| Generation.AskQuestion | assets/assignment3/assignment3_starter.py:294-319 | one question whose prompt renders appends its rounds; seed and call count move on by `rounds` |
| Generation.GenerateAll | assets/assignment3/assignment3_starter.py:291-319 | the question loop gives the whole run: every question's rounds in order, or the error of the first prompt that does not render |
| Generation.RunGenerateAnswers | assets/assignment3/assignment3_starter.py:282-319 | as `GenerateAll`, with the loaded template and the chosen player id. It fails exactly when some question's prompt does not render; otherwise there are `len(questions) * rounds` rows |
| Generation.RoundsIndex | assets/assignment3/assignment3_starter.py:295-319 | round `r` of a question is the raw reply to call `base + r` with seed `seed_start + base + r`, recorded with `round_idx = r` |
| Generation.GenerateFailsIff | assets/assignment3/assignment3_starter.py:293-294 | the run fails exactly when some question's prompt fails to render |
| Generation.GenerateFirstError | assets/assignment3/assignment3_starter.py:293-294 | the error raised is that of the first question whose prompt fails to render |
| Generation.BuiltInPromptNeverFails | assets/assignment3/assignment3_starter.py:270-272 | without a template the run never fails |
| Generation.GenerateLength | assets/assignment3/assignment3_starter.py:293-319 | a successful run has `len(questions) * rounds` rows |
| Generation.GenerateIndex | assets/assignment3/assignment3_starter.py:292-319 | row `j * rounds + r` is round `r` of question `j`: that question's prompt, call `j * rounds + r`, and seed `seed_start + j * rounds + r`. The seed is never reset between questions. The row carries the question's fields, the raw reply, the model and the player id |
| Generation.GenerateRowsOfPlayer | assets/assignment3/assignment3_starter.py:306-319 | every row carries the run's model and player id, and a round index below `rounds` |

## Left out

- HTTP calls. `ollama_generate` and the OpenAI request in `OpenAIJudge.is_valid` are the oracles `gen` and `oracle`. Response parsing is left out except for the "starts with y" rule, as are the timeouts and `time.sleep` between judge calls (`--sleep`).
- The `OPENAI_API_KEY` check in the `OpenAIJudge` constructor: it reads the environment.
- File and CSV/JSON I/O and the CLI:
  - `write_csv`, `load_questions` and `JudgeCache.save`;
  - reading the cache file, so the cache starts from a given table of booleans (a table holding non-booleans, which `bool(...)` converts, is not modelled);
  - output paths, `argparse`, `main` and every `print` call.
- JSON encoding of the cache key. The key is the (lowercased letter, lowercased category, answer) triple, which the JSON string encodes one-to-one.
- Every floating-point computation, because floats are not modelled:
  - `parse_temps` (the temperature list is given as a sequence of reals);
  - `entropy_from_counts`, `kl_to_uniform`, `tv_to_uniform` and `most_common(20)` in the calibration summary, together with the weekday support list;
  - the three rates of `summarize_scores`.
- Unicode. Characters are treated as ASCII: `lower`, `isspace` and `\s` are their ASCII versions.
- `str.format` beyond bare field names. A field with a conversion, format spec, attribute or index is the error `Unsupported`; it is not evaluated.
- Starter.FieldValue: tests `letter` and `category` before the syntax checks. It returns the same results as Python's order, because neither name contains a special character.
- Calibration.RunCalibration, Generation.RunGenerateAnswers: a prompt file is its text (`Some`) or absent (`None`). An empty path is read as none, as `if prompt_file:` reads it.
- Generation.RunGenerateAnswers: when a prompt does not render, Python has already made the calls for earlier questions before it raises. The model returns only the error, because nothing is written in that case.
- Judging.Judge.IsValid, Scoring.JudgeRows, Calibration.RunCalibration, Generation.RunGenerateAnswers: a failed external call is not modelled. In Python it ends the run with an exception: an HTTP error, a timeout, a body that is not JSON, an empty `choices` list (`IndexError`) or a `content` of `null` (`AttributeError`), see assets/assignment3/judge.py:127-135. By then `cache.calls` has already been counted and `cache.save()` is skipped. The player model's request fails the same way (assets/assignment3/assignment3_starter.py:124-126). The oracles always answer.
- Scoring.RowOf: the source file is `str(Path(path))`, the path as `pathlib` prints it. This is the input field `normPath`: pathlib's normalisation (repeated and trailing separators, `.` parts) is not computed. The error for missing columns uses the path as given.
- Summary.SummarizeScores: the two cache counters in every summary are those of the cache after judging. They are parameters.
- assets/assignment2/bluesky_helpers.py is not part of this model: it is network I/O and clock-dependent code.
