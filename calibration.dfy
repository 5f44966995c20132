/**
  The `calibrate` command: for every temperature, `samples` calls to the
  player model with the same prompt, each with the seed counting up from
  `seed_start` again, every reply normalised and tallied, and one summary
  per temperature.

  The player model is a function `gen` from the ordinal of the call within
  the run and the request to the reply text.
*/
module Calibration {
  import opened Wrappers
  import opened Tally
  import opened Normalize
  import opened Starter

  /** The arguments of `ollama_generate`. */
  datatype Request = Request(
    model: string,
    prompt: string,
    temperature: real,
    topK: Option<int>,
    seed: Option<int>,
    maxTokens: int)

  datatype CalibrationArgs = CalibrationArgs(
    model: string,
    task: string,
    samples: int,
    temperatures: seq<real>,
    topK: Option<int>,
    maxTokens: int,
    seedStart: Option<int>,
    promptId: string)

  /** One row of `calibration_<task>_samples.csv`. */
  datatype Sample = Sample(
    task: string,
    model: string,
    temperature: real,
    sampleIdx: nat,
    promptId: string,
    raw: string,
    answerNorm: string)

  /** One entry of `calibration_<task>_summary.json`, without its
      floating-point fields. */
  datatype TempSummary = TempSummary(
    task: string,
    model: string,
    temperature: real,
    samples: int,
    promptId: string,
    uniqueAnswers: nat,
    counts: Counter)

  datatype CalibrationRun = CalibrationRun(samples: seq<Sample>, summaries: seq<TempSummary>)

  /** `range(args.samples)` is empty for a negative count. */
  function SampleCount(args: CalibrationArgs): nat {
    if args.samples < 0 then 0 else args.samples
  }

  /** The seed of the `i`-th call after the seed was set to `start`. */
  function SeedAt(start: Option<int>, i: nat): Option<int> {
    match start
    case None => None
    case Some(s) => Some(s + i)
  }

  function RequestFor(args: CalibrationArgs, prompt: string, temp: real, i: nat): Request {
    Request(args.model, prompt, temp, args.topK, SeedAt(args.seedStart, i), args.maxTokens)
  }

  /** What `run_calibration` records for a reply of `task`: the normalised
      text, or for the weekday task its first word. */
  function Recorder(task: string): (record: string -> string)
    ensures task != "day" ==> forall raw :: record(raw) == NormalizeAnswer(raw)
    ensures task == "day" ==> forall raw :: DayToken(NormalizeAnswer(raw), record(raw))
  {
    DayAnswers();
    raw => RecordedAnswer(task, raw)
  }

  /** The row for reply `raw` to sample `i`, recording `record(raw)` as its
      answer. */
  function SampleOf(args: CalibrationArgs, record: string -> string, temp: real, i: nat, raw: string): Sample {
    Sample(args.task, args.model, temp, i, args.promptId, raw, record(raw))
  }

  /** The first `k` samples taken at one temperature, the first of them
      being call number `base` of the run: sample `i` is the reply to a
      request with the seed `seed_start + i`. */
  function Samples(args: CalibrationArgs, prompt: string, gen: (nat, Request) -> string, record: string -> string, temp: real, base: nat, k: nat): (r: seq<Sample>)
    ensures |r| == k
  {
    if k == 0 then []
    else
      Samples(args, prompt, gen, record, temp, base, k - 1)
        + [SampleOf(args, record, temp, k - 1, gen(base + k - 1, RequestFor(args, prompt, temp, k - 1)))]
  }

  /** All samples taken at one temperature. */
  function Block(args: CalibrationArgs, prompt: string, gen: (nat, Request) -> string, record: string -> string, temp: real, base: nat): (b: seq<Sample>)
    ensures |b| == SampleCount(args)
  {
    Samples(args, prompt, gen, record, temp, base, SampleCount(args))
  }

  lemma {:induction false} SamplesIndex(args: CalibrationArgs, prompt: string, gen: (nat, Request) -> string, record: string -> string, temp: real, base: nat, k: nat, j: nat)
    requires j < k
    ensures Samples(args, prompt, gen, record, temp, base, k)[j]
            == SampleOf(args, record, temp, j, gen(base + j, RequestFor(args, prompt, temp, j)))
  {
    if j < k - 1 {
      SamplesIndex(args, prompt, gen, record, temp, base, k - 1, j);
    }
  }

  /** The `answer_norm` column. */
  function Answers(rows: seq<Sample>): (r: seq<string>)
    ensures |r| == |rows|
  {
    if rows == [] then [] else Answers(rows[..|rows| - 1]) + [rows[|rows| - 1].answerNorm]
  }

  lemma AnswersAppend(rows: seq<Sample>, row: Sample)
    ensures Answers(rows + [row]) == Answers(rows) + [row.answerNorm]
  {
    assert (rows + [row])[..|rows|] == rows;
  }

  /** Position `j` of the column is the answer of sample `j`. */
  lemma {:induction false} AnswersIndex(rows: seq<Sample>)
    ensures forall j :: 0 <= j < |rows| ==> Answers(rows)[j] == rows[j].answerNorm
  {
    if rows != [] {
      var init := rows[..|rows| - 1];
      AnswersIndex(init);
      assert forall j :: 0 <= j < |init| ==> rows[j] == init[j];
    }
  }

  function SummaryOf(args: CalibrationArgs, temp: real, rows: seq<Sample>): TempSummary {
    var counts := Of(Answers(rows));
    TempSummary(args.task, args.model, temp, args.samples, args.promptId, |counts.keys|, counts)
  }

  /** All samples of the temperatures `temps`, starting at call `base`. */
  function AllSamples(args: CalibrationArgs, prompt: string, gen: (nat, Request) -> string, record: string -> string, temps: seq<real>, base: nat): seq<Sample>
    decreases |temps|
  {
    if temps == [] then []
    else Block(args, prompt, gen, record, temps[0], base) + AllSamples(args, prompt, gen, record, temps[1..], base + SampleCount(args))
  }

  /** `k` chunks of `n`: `k * n` (`CallsBeforeProduct`). */
  function Times(n: nat, k: nat): nat {
    if k == 0 then 0 else Times(n, k - 1) + n
  }

  /** The number of calls made before temperature number `t`. */
  function CallsBefore(args: CalibrationArgs, t: nat): nat {
    Times(SampleCount(args), t)
  }

  /** `f` applied to each key of `keys` and the next `n` items of `s`. */
  function ChunkMap<A, T, U>(f: (A, seq<T>) -> U, keys: seq<A>, n: nat, s: seq<T>): (r: seq<U>)
    requires |s| == Times(n, |keys|)
    ensures |r| == |keys|
    decreases |keys|
  {
    if keys == [] then [] else [f(keys[0], s[..n])] + ChunkMap(f, keys[1..], n, s[n..])
  }

  lemma ChunkMapCons<A, T, U>(f: (A, seq<T>) -> U, keys: seq<A>, n: nat, chunk: seq<T>, tail: seq<T>)
    requires 0 < |keys| && |chunk| == n && |tail| == Times(n, |keys| - 1)
    ensures |chunk + tail| == Times(n, |keys|)
    ensures ChunkMap(f, keys, n, chunk + tail) == [f(keys[0], chunk)] + ChunkMap(f, keys[1..], n, tail)
  {
    assert (chunk + tail)[..n] == chunk && (chunk + tail)[n..] == tail;
  }

  lemma {:induction false} TimesBelow(n: nat, t: nat, k: nat)
    requires t < k
    ensures Times(n, t) + n <= Times(n, k)
  {
    if t + 1 < k {
      TimesBelow(n, t, k - 1);
    }
  }

  lemma {:induction false} ChunkMapIndex<A, T, U>(f: (A, seq<T>) -> U, keys: seq<A>, n: nat, s: seq<T>, t: nat)
    requires |s| == Times(n, |keys|) && t < |keys|
    ensures Times(n, t) + n <= |s|
    ensures ChunkMap(f, keys, n, s)[t] == f(keys[t], s[Times(n, t)..Times(n, t) + n])
    decreases t
  {
    TimesBelow(n, t, |keys|);
    if t == 0 {
      assert s[0..n] == s[..n];
    } else {
      var off := Times(n, t - 1);
      SliceOfDrop(s, n, off, n, Times(n, t));
      ChunkMapIndex(f, keys[1..], n, s[n..], t - 1);
      HeadIndex(f(keys[0], s[..n]), ChunkMap(f, keys[1..], n, s[n..]), t);
      assert keys[1..][t - 1] == keys[t];
    }
  }

  /** The summary of one temperature from its samples. */
  function SummaryFn(args: CalibrationArgs): (real, seq<Sample>) -> TempSummary {
    (temp, rows) => SummaryOf(args, temp, rows)
  }

  /** The summaries of a run whose samples are `samples`: each temperature's
      summary tallies the next `n` samples, those taken at that temperature. */
  function SummariesOf(args: CalibrationArgs, temps: seq<real>, samples: seq<Sample>): (r: seq<TempSummary>)
    requires |samples| == CallsBefore(args, |temps|)
    ensures |r| == |temps|
  {
    ChunkMap(SummaryFn(args), temps, SampleCount(args), samples)
  }

  /** The inner loop of `run_calibration` at one temperature, `record` being
      the normalisation of the task. */
  method SampleAt(args: CalibrationArgs, prompt: string, gen: (nat, Request) -> string, record: string -> string, temp: real, base: nat)
    returns (rows: seq<Sample>, counts: Counter)
    ensures rows == Block(args, prompt, gen, record, temp, base)
    ensures counts == Of(Answers(rows))
  {
    var n := SampleCount(args);
    rows := [];
    counts := Empty();
    var seed := args.seedStart;
    var i := 0;
    while i < n
      invariant 0 <= i <= n
      invariant Sampled(args, prompt, gen, record, temp, base, i, seed, rows, counts)
    {
      SampleStep(args, prompt, gen, record, temp, base, i, seed, rows, counts);
      var raw := gen(base + i, Request(args.model, prompt, temp, args.topK, seed, args.maxTokens));
      if seed.Some? {
        seed := Some(seed.value + 1);
      }
      var ans := record(raw);
      counts := Add(counts, ans);
      rows := rows + [Sample(args.task, args.model, temp, i, args.promptId, raw, ans)];
      i := i + 1;
    }
  }

  /** The loop invariant of `SampleAt`: after `i` calls the seed has moved on
      `i` times, the rows are the first `i` samples and the counter counts
      their answers. */
  ghost predicate Sampled(args: CalibrationArgs, prompt: string, gen: (nat, Request) -> string, record: string -> string, temp: real, base: nat,
                          i: nat, seed: Option<int>, rows: seq<Sample>, counts: Counter)
  {
    seed == SeedAt(args.seedStart, i) && rows == Samples(args, prompt, gen, record, temp, base, i) && counts == Of(Answers(rows))
  }

  /** One call of the inner loop keeps its invariant. */
  lemma {:induction false} SampleStep(args: CalibrationArgs, prompt: string, gen: (nat, Request) -> string, record: string -> string, temp: real, base: nat,
                                      i: nat, seed: Option<int>, rows: seq<Sample>, counts: Counter)
    requires Sampled(args, prompt, gen, record, temp, base, i, seed, rows, counts)
    ensures var raw := gen(base + i, Request(args.model, prompt, temp, args.topK, seed, args.maxTokens));
            var ans := record(raw);
            Sampled(args, prompt, gen, record, temp, base, i + 1, if seed.Some? then Some(seed.value + 1) else seed,
                    rows + [Sample(args.task, args.model, temp, i, args.promptId, raw, ans)], Add(counts, ans))
  {
    var raw := gen(base + i, Request(args.model, prompt, temp, args.topK, seed, args.maxTokens));
    var ans := record(raw);
    var row := Sample(args.task, args.model, temp, i, args.promptId, raw, ans);
    assert Samples(args, prompt, gen, record, temp, base, i + 1) == rows + [row];
    AnswersAppend(rows, row);
    OfAppend(Answers(rows), ans);
  }

  /** `run_calibration`, apart from writing the files: an unknown task without
      a prompt file is the error `get_calibration_prompt` raises. */
  method RunCalibration(args: CalibrationArgs, promptFile: Option<string>, gen: (nat, Request) -> string)
    returns (r: Result<CalibrationRun, PromptError>)
    ensures r.Err? <==> CalibrationPrompt(args.task, promptFile).Err?
    ensures r.Err? ==> r.error == CalibrationPrompt(args.task, promptFile).error
    ensures r.Ok? ==>
      && r.value.samples == AllSamples(args, CalibrationPrompt(args.task, promptFile).value, gen, Recorder(args.task), args.temperatures, 0)
      && |r.value.samples| == CallsBefore(args, |args.temperatures|)
      && r.value.summaries == SummariesOf(args, args.temperatures, r.value.samples)
  {
    var p := CalibrationPrompt(args.task, promptFile);
    if p.Err? {
      return Err(p.error);
    }
    var run := CalibrateAll(args, p.value, gen, Recorder(args.task));
    return Ok(run);
  }

  /** The loop of `run_calibration` over the temperatures, for a given prompt. */
  method CalibrateAll(args: CalibrationArgs, prompt: string, gen: (nat, Request) -> string, record: string -> string)
    returns (run: CalibrationRun)
    ensures run.samples == AllSamples(args, prompt, gen, record, args.temperatures, 0)
    ensures |run.samples| == CallsBefore(args, |args.temperatures|)
    ensures run.summaries == SummariesOf(args, args.temperatures, run.samples)
  {
    var temps := args.temperatures;
    var n := SampleCount(args);
    var allRows: seq<Sample> := [];
    var summaries: seq<TempSummary> := [];
    var call: nat := 0;
    var t: nat := 0;
    ghost var whole := AllSamples(args, prompt, gen, record, temps, 0);
    AllSamplesLength(args, prompt, gen, record, temps, 0);
    ghost var wholeSummaries := SummariesOf(args, temps, whole);
    while t < |temps|
      invariant t <= |temps|
      invariant Resumes(args, prompt, gen, record, temps, t, call, allRows, summaries, whole, wholeSummaries)
    {
      var temp := temps[t];
      var rows, counts := SampleAt(args, prompt, gen, record, temp, call);
      var summary := TempSummary(args.task, args.model, temp, args.samples, args.promptId, |counts.keys|, counts);
      ghost var before := (t, call, allRows, summaries);
      allRows := allRows + rows;
      summaries := summaries + [summary];
      call := call + n;
      t := t + 1;
      CalibrateStep(args, prompt, gen, record, temps, before.0, before.1, before.2, before.3, rows, counts, summary,
                    t, call, allRows, summaries, whole, wholeSummaries);
    }
    Finished(args, prompt, gen, record, temps, t, call, allRows, summaries, whole, wholeSummaries);
    return CalibrationRun(allRows, summaries);
  }

  /** The rows half of the loop invariant of `CalibrateAll`: the rows so far,
      followed by those of the temperatures from `t` on, are the whole run. */
  ghost predicate RowsResume(args: CalibrationArgs, prompt: string, gen: (nat, Request) -> string, record: string -> string,
                             temps: seq<real>, t: nat, call: nat, allRows: seq<Sample>, whole: seq<Sample>)
    requires t <= |temps|
  {
    var rest := AllSamples(args, prompt, gen, record, temps[t..], call);
    |rest| == CallsBefore(args, |temps[t..]|) && allRows + rest == whole
  }

  /** The loop invariant of `CalibrateAll`: the rows and summaries so far,
      followed by those of the temperatures from `t` on, are the whole run. */
  ghost predicate Resumes(args: CalibrationArgs, prompt: string, gen: (nat, Request) -> string, record: string -> string,
                          temps: seq<real>, t: nat, call: nat, allRows: seq<Sample>, summaries: seq<TempSummary>,
                          whole: seq<Sample>, wholeSummaries: seq<TempSummary>)
    requires t <= |temps|
  {
    && RowsResume(args, prompt, gen, record, temps, t, call, allRows, whole)
    && summaries + SummariesOf(args, temps[t..], AllSamples(args, prompt, gen, record, temps[t..], call)) == wholeSummaries
  }

  /** At the end of the loop the rows and summaries are the whole run. */
  lemma Finished(args: CalibrationArgs, prompt: string, gen: (nat, Request) -> string, record: string -> string,
                 temps: seq<real>, t: nat, call: nat, allRows: seq<Sample>, summaries: seq<TempSummary>,
                 whole: seq<Sample>, wholeSummaries: seq<TempSummary>)
    requires t == |temps| && Resumes(args, prompt, gen, record, temps, t, call, allRows, summaries, whole, wholeSummaries)
    ensures allRows == whole && summaries == wholeSummaries
  {
    assert temps[t..] == [];
  }

  /** The rows of temperature `t` come next in the run. */
  lemma {:induction false} RowsStep(args: CalibrationArgs, prompt: string, gen: (nat, Request) -> string, record: string -> string,
                                    temps: seq<real>, t: nat, call: nat, rows: seq<Sample>, allRows: seq<Sample>, whole: seq<Sample>)
    requires t < |temps| && RowsResume(args, prompt, gen, record, temps, t, call, allRows, whole)
    requires rows == Block(args, prompt, gen, record, temps[t], call)
    ensures RowsResume(args, prompt, gen, record, temps, t + 1, call + SampleCount(args), allRows + rows, whole)
    ensures AllSamples(args, prompt, gen, record, temps[t..], call)
            == rows + AllSamples(args, prompt, gen, record, temps[t + 1..], call + SampleCount(args))
  {
    AllStep(args, prompt, gen, record, temps, t, call, rows);
    AllSamplesLength(args, prompt, gen, record, temps[t + 1..], call + SampleCount(args));
  }

  /** One temperature of the loop keeps its invariant: the rows and the
      summary of temperature `t` come next in the run. */
  lemma {:induction false} CalibrateStep(args: CalibrationArgs, prompt: string, gen: (nat, Request) -> string, record: string -> string,
                                         temps: seq<real>, t: nat, call: nat, allRows: seq<Sample>, summaries: seq<TempSummary>,
                                         rows: seq<Sample>, counts: Counter, summary: TempSummary,
                                         t': nat, call': nat, allRows': seq<Sample>, summaries': seq<TempSummary>,
                                         whole: seq<Sample>, wholeSummaries: seq<TempSummary>)
    requires t < |temps| && Resumes(args, prompt, gen, record, temps, t, call, allRows, summaries, whole, wholeSummaries)
    requires rows == Block(args, prompt, gen, record, temps[t], call) && counts == Of(Answers(rows))
    requires summary == TempSummary(args.task, args.model, temps[t], args.samples, args.promptId, |counts.keys|, counts)
    requires t' == t + 1 && call' == call + SampleCount(args) && allRows' == allRows + rows && summaries' == summaries + [summary]
    ensures t' <= |temps| && Resumes(args, prompt, gen, record, temps, t', call', allRows', summaries', whole, wholeSummaries)
  {
    RowsStep(args, prompt, gen, record, temps, t, call, rows, allRows, whole);
    var rest := AllSamples(args, prompt, gen, record, temps[t..], call);
    var tail := AllSamples(args, prompt, gen, record, temps[t'..], call');
    assert rest == rows + tail;
    assert summary == SummaryOf(args, temps[t], rows);
    SummariesStep(args, temps, t, rows, tail, summaries);
    assert summaries' + SummariesOf(args, temps[t'..], tail) == wholeSummaries;
  }

  /** One temperature of the loop: its samples come next. */
  lemma AllStep(args: CalibrationArgs, prompt: string, gen: (nat, Request) -> string, record: string -> string, temps: seq<real>, t: nat, base: nat,
                rows: seq<Sample>)
    requires t < |temps| && rows == Block(args, prompt, gen, record, temps[t], base)
    ensures AllSamples(args, prompt, gen, record, temps[t..], base)
            == rows + AllSamples(args, prompt, gen, record, temps[t + 1..], base + SampleCount(args))
  {
    assert temps[t..][0] == temps[t] && temps[t..][1..] == temps[t + 1..];
  }

  /** One temperature of the loop: its summary, computed from its own rows,
      comes next. */
  lemma SummariesStep(args: CalibrationArgs, temps: seq<real>, t: nat, rows: seq<Sample>, tail: seq<Sample>, summaries: seq<TempSummary>)
    requires t < |temps| && |rows| == SampleCount(args) && |tail| == CallsBefore(args, |temps| - t - 1)
    ensures |rows + tail| == CallsBefore(args, |temps[t..]|)
    ensures summaries + SummariesOf(args, temps[t..], rows + tail)
            == (summaries + [SummaryOf(args, temps[t], rows)]) + SummariesOf(args, temps[t + 1..], tail)
  {
    assert temps[t..][0] == temps[t] && temps[t..][1..] == temps[t + 1..];
    ChunkMapCons(SummaryFn(args), temps[t..], SampleCount(args), rows, tail);
  }

  // ------------------------------------------------------------------ properties

  lemma {:induction false} CallsBeforeProduct(args: CalibrationArgs, t: nat)
    ensures CallsBefore(args, t) == t * SampleCount(args)
  {
    if t > 0 {
      CallsBeforeProduct(args, t - 1);
    }
  }

  lemma {:induction false} CallsBeforeBelow(args: CalibrationArgs, t: nat, count: nat)
    requires t < count
    ensures CallsBefore(args, t) + SampleCount(args) <= CallsBefore(args, count)
  {
    TimesBelow(SampleCount(args), t, count);
  }

  /** Sample `i` of one temperature is the reply to call `base + i`, asked with
      the seed `seed_start + i`. */
  lemma BlockIndex(args: CalibrationArgs, prompt: string, gen: (nat, Request) -> string, record: string -> string, temp: real, base: nat, i: nat)
    requires i < SampleCount(args)
    ensures Block(args, prompt, gen, record, temp, base)[i]
            == SampleOf(args, record, temp, i, gen(base + i, RequestFor(args, prompt, temp, i)))
  {
    SamplesIndex(args, prompt, gen, record, temp, base, SampleCount(args), i);
  }

  lemma BlockSame(args: CalibrationArgs, prompt: string, gen: (nat, Request) -> string, record: string -> string,
                  temp: real, base: nat, temp': real, base': nat)
    requires temp == temp' && base == base'
    ensures Block(args, prompt, gen, record, temp, base) == Block(args, prompt, gen, record, temp', base')
  {
  }

  lemma PrefixOfAppend<T>(a: seq<T>, b: seq<T>)
    ensures (a + b)[0..|a|] == a
  {
  }

  lemma SliceOfAppend<T>(a: seq<T>, b: seq<T>, off: nat, len: nat, start: nat)
    requires start == |a| + off && off + len <= |b|
    ensures (a + b)[start..start + len] == b[off..off + len]
  {
  }

  /** A run makes `n` calls per temperature. */
  lemma {:induction false} AllSamplesLength(args: CalibrationArgs, prompt: string, gen: (nat, Request) -> string, record: string -> string, temps: seq<real>, base: nat)
    ensures |AllSamples(args, prompt, gen, record, temps, base)| == CallsBefore(args, |temps|)
    decreases |temps|
  {
    if temps != [] {
      var n := SampleCount(args);
      var rest := AllSamples(args, prompt, gen, record, temps[1..], base + n);
      AllSamplesLength(args, prompt, gen, record, temps[1..], base + n);
      assert AllSamples(args, prompt, gen, record, temps, base) == Block(args, prompt, gen, record, temps[0], base) + rest;
    }
  }

  /** The samples of temperature number `t` are one block, which starts after
      the calls of the temperatures before it. */
  lemma {:induction false} BlockAt(args: CalibrationArgs, prompt: string, gen: (nat, Request) -> string, record: string -> string, temps: seq<real>, base: nat, t: nat)
    requires t < |temps|
    ensures var n := SampleCount(args);
            var start := CallsBefore(args, t);
            var all := AllSamples(args, prompt, gen, record, temps, base);
            && start + n <= |all|
            && all[start..start + n] == Block(args, prompt, gen, record, temps[t], base + start)
    decreases t
  {
    if t == 0 {
      FirstBlock(args, prompt, gen, record, temps, base);
    } else {
      BlockAt(args, prompt, gen, record, temps[1..], base + SampleCount(args), t - 1);
      NextBlock(args, prompt, gen, record, temps, base, t);
    }
  }

  lemma FirstBlock(args: CalibrationArgs, prompt: string, gen: (nat, Request) -> string, record: string -> string, temps: seq<real>, base: nat)
    requires 0 < |temps|
    ensures var n := SampleCount(args);
            var all := AllSamples(args, prompt, gen, record, temps, base);
            && n <= |all|
            && all[0..n] == Block(args, prompt, gen, record, temps[0], base)
  {
    var block := Block(args, prompt, gen, record, temps[0], base);
    var rest := AllSamples(args, prompt, gen, record, temps[1..], base + SampleCount(args));
    assert AllSamples(args, prompt, gen, record, temps, base) == block + rest;
    PrefixOfAppend(block, rest);
  }

  /** Temperature number `t` is temperature number `t - 1` of the later ones. */
  lemma NextBlock(args: CalibrationArgs, prompt: string, gen: (nat, Request) -> string, record: string -> string, temps: seq<real>, base: nat, t: nat)
    requires 0 < t < |temps|
    requires var n := SampleCount(args);
             var off := CallsBefore(args, t - 1);
             var rest := AllSamples(args, prompt, gen, record, temps[1..], base + n);
             && off + n <= |rest|
             && rest[off..off + n] == Block(args, prompt, gen, record, temps[1..][t - 1], base + n + off)
    ensures var n := SampleCount(args);
            var start := CallsBefore(args, t);
            var all := AllSamples(args, prompt, gen, record, temps, base);
            && start + n <= |all|
            && all[start..start + n] == Block(args, prompt, gen, record, temps[t], base + start)
  {
    var n := SampleCount(args);
    var off, start := CallsBefore(args, t - 1), CallsBefore(args, t);
    var block := Block(args, prompt, gen, record, temps[0], base);
    var rest := AllSamples(args, prompt, gen, record, temps[1..], base + n);
    assert AllSamples(args, prompt, gen, record, temps, base) == block + rest;
    SliceOfAppend(block, rest, off, n, start);
    assert temps[1..][t - 1] == temps[t];
    BlockSame(args, prompt, gen, record, temps[1..][t - 1], base + n + off, temps[t], base + start);
  }

  /** Sample `i` at temperature number `t` is call `base + t*n + i` of the run
      (`CallsBeforeProduct`), asked at that temperature with seed
      `seed_start + i`: the seed starts over for every temperature. */
  lemma SampleIndex(args: CalibrationArgs, prompt: string, gen: (nat, Request) -> string, record: string -> string, temps: seq<real>, base: nat, t: nat, i: nat)
    requires t < |temps| && i < SampleCount(args)
    ensures var start := CallsBefore(args, t);
            && start + i < |AllSamples(args, prompt, gen, record, temps, base)|
            && AllSamples(args, prompt, gen, record, temps, base)[start + i]
               == SampleOf(args, record, temps[t], i, gen(base + start + i, RequestFor(args, prompt, temps[t], i)))
  {
    var n := SampleCount(args);
    var start := CallsBefore(args, t);
    var all := AllSamples(args, prompt, gen, record, temps, base);
    BlockAt(args, prompt, gen, record, temps, base, t);
    BlockIndex(args, prompt, gen, record, temps[t], base + start, i);
    SliceIndex(all, start, n, i);
  }

  lemma SliceIndex<T>(s: seq<T>, start: nat, len: nat, i: nat)
    requires start + len <= |s| && i < len
    ensures s[start + i] == s[start..start + len][i]
  {
  }

  /** The summary of temperature number `t` tallies exactly the samples of
      that temperature. */
  lemma SummaryIndex(args: CalibrationArgs, temps: seq<real>, samples: seq<Sample>, t: nat)
    requires |samples| == CallsBefore(args, |temps|) && t < |temps|
    ensures var n := SampleCount(args);
            var start := CallsBefore(args, t);
            && start + n <= |samples|
            && SummariesOf(args, temps, samples)[t] == SummaryOf(args, temps[t], samples[start..start + n])
  {
    ChunkMapIndex(SummaryFn(args), temps, SampleCount(args), samples, t);
  }

  lemma SliceOfDrop<T>(s: seq<T>, n: nat, off: nat, len: nat, start: nat)
    requires start == n + off && start + len <= |s|
    ensures s[start..start + len] == s[n..][off..off + len]
  {
  }

  lemma HeadIndex<T>(x: T, s: seq<T>, t: nat)
    requires 0 < t <= |s|
    ensures ([x] + s)[t] == s[t - 1]
  {
  }

  /** `unique_answers` is the number of distinct normalised answers among the
      samples summarised. */
  lemma SummaryUnique(args: CalibrationArgs, temp: real, rows: seq<Sample>)
    ensures SummaryOf(args, temp, rows).uniqueAnswers == |set j | 0 <= j < |rows| :: rows[j].answerNorm|
  {
    var xs := Answers(rows);
    AnswersIndex(rows);
    OfValid(xs);
    KeysCard(Of(xs));
    OfKeys(xs);
    var byPos := set j | 0 <= j < |rows| :: rows[j].answerNorm;
    forall x | x in xs ensures x in byPos {
      var j :| 0 <= j < |xs| && xs[j] == x;
      assert rows[j].answerNorm == x;
    }
    forall x | x in byPos ensures x in xs {
      var j :| 0 <= j < |rows| && rows[j].answerNorm == x;
      assert xs[j] == x;
    }
    assert (set x | x in xs) == byPos;
  }

  /** Each count of a summary is the number of samples with that answer. */
  lemma SummaryCount(args: CalibrationArgs, temp: real, rows: seq<Sample>, a: string)
    ensures Get(SummaryOf(args, temp, rows).counts, a) == |set j | 0 <= j < |rows| && rows[j].answerNorm == a|
  {
    var xs := Answers(rows);
    AnswersIndex(rows);
    OfCounts(xs, a);
    OccurrencesCount(xs, a);
    var byAnswer := set j | 0 <= j < |xs| && xs[j] == a;
    var byRow := set j | 0 <= j < |rows| && rows[j].answerNorm == a;
    assert forall j :: j in byAnswer <==> j in byRow;
    assert byAnswer == byRow;
  }

  /** The counts of a summary add up to the number of samples. */
  lemma SummaryTotal(args: CalibrationArgs, temp: real, rows: seq<Sample>)
    ensures Valid(SummaryOf(args, temp, rows).counts) && Total(SummaryOf(args, temp, rows).counts) == |rows|
  {
    OfTotal(Answers(rows));
  }

  /** The multiplicity of `a` in `xs` is the number of positions holding it. */
  lemma {:induction false} OccurrencesCount(xs: seq<string>, a: string)
    ensures multiset(xs)[a] == |set j | 0 <= j < |xs| && xs[j] == a|
  {
    if xs != [] {
      var init := xs[..|xs| - 1];
      var last := xs[|xs| - 1];
      assert xs == init + [last];
      OccurrencesCount(init, a);
      var before := set j | 0 <= j < |init| && init[j] == a;
      var now := set j | 0 <= j < |xs| && xs[j] == a;
      if last == a {
        assert now == before + {|xs| - 1};
      } else {
        assert now == before;
      }
    }
  }
}
