/**
  The judging pipeline: reading answer rows (`load_answers`, its CSV parsing
  left out), judging every row through the cache-first judge, and the
  round-level uniqueness rule of `judge_rows`.
*/
module Scoring {
  import opened Wrappers
  import opened Normalize
  import opened Tally
  import opened Judging

  /** One answer of one player, as `load_answers` builds it. */
  datatype AnswerRow = AnswerRow(
    sourceFile: string,
    playerId: string,
    questionId: string,
    letter: string,
    category: string,
    roundIdx: string,
    answerRaw: string,
    answerNorm: string)

  /** A row of `judge_rows`' output. Until the scoring pass runs, `collision`
      is false, `score` is 0 and `roundKey` is empty (the Python dict does not
      have these keys yet). */
  datatype JudgedRow = JudgedRow(row: AnswerRow, valid: bool, collision: bool, score: nat, roundKey: string)

  /** The pair (question_id, round_idx) that identifies a round; the player is
      deliberately not part of it. */
  datatype RoundId = RoundId(questionId: string, roundIdx: string)

  function RoundOf(r: JudgedRow): RoundId {
    RoundId(r.row.questionId, r.row.roundIdx)
  }

  function RoundKeyText(k: RoundId): string {
    k.questionId + "::" + k.roundIdx
  }

  // ---------------------------------------------------------------- load_answers

  const RequiredColumns: seq<string> := ["question_id", "letter", "category", "round_idx", "answer"]

  /** An answer file after CSV parsing: its path as given (used in the error
      message), the same path as `pathlib` prints it (`str(Path(path))`, the
      rows' source file), the file name without its extension, the header,
      and one record per line. A value missing from a short line is absent
      from its record. */
  datatype AnswerFile = AnswerFile(path: string, normPath: string, stem: string, fieldnames: seq<string>,
                                   records: seq<map<string, string>>)

  datatype LoadError = MissingColumns(path: string, missing: seq<string>)

  /** The members of `cols` that are not in `fieldnames`, in the order of `cols`. */
  function Missing(cols: seq<string>, fieldnames: seq<string>): (m: seq<string>)
    ensures forall c :: c in m <==> c in cols && c !in fieldnames
  {
    if cols == [] then []
    else (if cols[0] in fieldnames then [] else [cols[0]]) + Missing(cols[1..], fieldnames)
  }

  /** The required columns a header lacks. */
  function MissingRequired(fieldnames: seq<string>): seq<string> {
    Missing(RequiredColumns, fieldnames)
  }

  /** `str(row[name])`: a value the line did not supply is `None`, printed "None". */
  function Field(record: map<string, string>, name: string): string {
    if name in record then record[name] else "None"
  }

  function RowOf(f: AnswerFile, record: map<string, string>): AnswerRow {
    var raw := Field(record, "answer");
    AnswerRow(f.normPath, f.stem, Field(record, "question_id"), Field(record, "letter"),
              Field(record, "category"), Field(record, "round_idx"), raw, NormalizeAnswer(raw))
  }

  /** `[g(x) for x in s]`. */
  function MapSeq<A, B>(g: A -> B, s: seq<A>): (r: seq<B>)
    ensures |r| == |s|
  {
    if s == [] then [] else MapSeq(g, s[..|s| - 1]) + [g(s[|s| - 1])]
  }

  lemma {:induction false} MapSeqIndex<A, B>(g: A -> B, s: seq<A>, k: nat)
    requires k < |s|
    ensures MapSeq(g, s)[k] == g(s[k])
  {
    var init := s[..|s| - 1];
    if k < |init| {
      MapSeqIndex(g, init, k);
      assert init[k] == s[k];
    }
  }

  lemma MapSeqStep<A, B>(g: A -> B, s: seq<A>, k: nat)
    requires k < |s|
    ensures MapSeq(g, s[..k + 1]) == MapSeq(g, s[..k]) + [g(s[k])]
  {
    assert s[..k + 1][..k] == s[..k];
  }

  /** The conversion of one line of file `f` into a row. */
  function RowMaker(f: AnswerFile): map<string, string> -> AnswerRow {
    record => RowOf(f, record)
  }

  /** The rows of one file, line by line. */
  function FileRows(f: AnswerFile): seq<AnswerRow> {
    MapSeq(RowMaker(f), f.records)
  }

  /** `[y for x in s for y in g(x)]`. */
  function ConcatMap<A, B>(g: A -> seq<B>, s: seq<A>): seq<B> {
    if s == [] then [] else g(s[0]) + ConcatMap(g, s[1..])
  }

  lemma {:induction false} ConcatMapAppend<A, B>(g: A -> seq<B>, s: seq<A>, x: A)
    ensures ConcatMap(g, s + [x]) == ConcatMap(g, s) + g(x)
  {
    if s == [] {
      assert ConcatMap(g, [x]) == g(x) + ConcatMap(g, []);
    } else {
      assert (s + [x])[1..] == s[1..] + [x];
      ConcatMapAppend(g, s[1..], x);
    }
  }

  lemma ConcatMapPrefix<A, B>(g: A -> seq<B>, s: seq<A>, k: nat)
    requires k < |s|
    ensures ConcatMap(g, s[..k + 1]) == ConcatMap(g, s[..k]) + g(s[k])
  {
    assert s[..k + 1] == s[..k] + [s[k]];
    ConcatMapAppend(g, s[..k], s[k]);
  }

  /** The rows of all files, file by file. */
  function AllRows(files: seq<AnswerFile>): seq<AnswerRow> {
    ConcatMap(FileRows, files)
  }

  /** `load_answers`: fails on the first file whose header lacks a required
      column, naming the missing columns; otherwise every line becomes a row
      whose player is the file's stem and whose answer is normalised. */
  method LoadAnswers(files: seq<AnswerFile>) returns (r: Result<seq<AnswerRow>, LoadError>)
    ensures r.Ok? <==> forall i :: 0 <= i < |files| ==> MissingRequired(files[i].fieldnames) == []
    ensures r.Ok? ==> r.value == AllRows(files)
    ensures r.Err? ==> exists i :: 0 <= i < |files|
                        && (forall j :: 0 <= j < i ==> MissingRequired(files[j].fieldnames) == [])
                        && MissingRequired(files[i].fieldnames) != []
                        && r.error == MissingColumns(files[i].path, MissingRequired(files[i].fieldnames))
  {
    var rows: seq<AnswerRow> := [];
    for i := 0 to |files|
      invariant Loaded(files, i, rows)
    {
      var f := files[i];
      var missing := MissingRequired(f.fieldnames);
      if missing != [] {
        LoadFails(files, i);
        return Err(MissingColumns(f.path, missing));
      }
      var fileRows := ReadRows(f);
      ghost var before := rows;
      rows := rows + fileRows;
      LoadStep(files, i, before, fileRows, rows);
    }
    LoadedAll(files, rows);
    r := Ok(rows);
  }

  /** The loop invariant of `load_answers` after `i` files: none lacked a
      required column, and their rows are in order. */
  ghost predicate Loaded(files: seq<AnswerFile>, i: nat, rows: seq<AnswerRow>)
    requires i <= |files|
  {
    && (forall j :: 0 <= j < i ==> MissingRequired(files[j].fieldnames) == [])
    && rows == AllRows(files[..i])
  }

  lemma LoadStep(files: seq<AnswerFile>, i: nat, rows: seq<AnswerRow>, fileRows: seq<AnswerRow>, rows': seq<AnswerRow>)
    requires i < |files| && Loaded(files, i, rows)
    requires MissingRequired(files[i].fieldnames) == []
    requires fileRows == FileRows(files[i]) && rows' == rows + fileRows
    ensures Loaded(files, i + 1, rows')
  {
    ConcatMapPrefix(FileRows, files, i);
  }

  lemma LoadedAll(files: seq<AnswerFile>, rows: seq<AnswerRow>)
    requires Loaded(files, |files|, rows)
    ensures forall i :: 0 <= i < |files| ==> MissingRequired(files[i].fieldnames) == []
    ensures rows == AllRows(files)
  {
    assert files[..|files|] == files;
  }

  /** The first file that lacks a column is the one reported. */
  lemma LoadFails(files: seq<AnswerFile>, i: nat)
    requires i < |files| && (forall j :: 0 <= j < i ==> MissingRequired(files[j].fieldnames) == [])
    requires MissingRequired(files[i].fieldnames) != []
    ensures !forall j :: 0 <= j < |files| ==> MissingRequired(files[j].fieldnames) == []
    ensures exists j :: 0 <= j < |files|
              && (forall j' :: 0 <= j' < j ==> MissingRequired(files[j'].fieldnames) == [])
              && MissingRequired(files[j].fieldnames) != []
              && MissingColumns(files[i].path, MissingRequired(files[i].fieldnames))
                 == MissingColumns(files[j].path, MissingRequired(files[j].fieldnames))
  {
  }

  /** The inner loop of `load_answers`: one row per line of a checked file. */
  method ReadRows(f: AnswerFile) returns (fileRows: seq<AnswerRow>)
    ensures fileRows == FileRows(f)
  {
    fileRows := [];
    for k := 0 to |f.records|
      invariant fileRows == MapSeq(RowMaker(f), f.records[..k])
    {
      var row := RowOf(f, f.records[k]);
      fileRows := fileRows + [row];
      MapSeqStep(RowMaker(f), f.records, k);
    }
    assert f.records[..|f.records|] == f.records;
  }

  /** Every loaded answer is normalised, and so is already canonical. */
  lemma LoadedAnswersCanonical(files: seq<AnswerFile>, i: nat)
    requires i < |AllRows(files)|
    ensures AllRows(files)[i].answerNorm == NormalizeAnswer(AllRows(files)[i].answerRaw)
    ensures IsCanonical(AllRows(files)[i].answerNorm)
  {
    if i >= |files[0].records| {
      LoadedAnswersCanonical(files[1..], i - |files[0].records|);
    } else {
      MapSeqIndex(RowMaker(files[0]), files[0].records, i);
      NormalizeIsCanonical(AllRows(files)[i].answerRaw);
    }
  }

  // ---------------------------------------------------------- the round scorer

  /** The positions of the rows of round `k`, in order (`by_round[k]`). */
  function IndicesOf(js: seq<JudgedRow>, k: RoundId): (r: seq<nat>)
    ensures forall t :: 0 <= t < |r| ==> r[t] < |js| && RoundOf(js[r[t]]) == k
    ensures forall j :: 0 <= j < |js| && RoundOf(js[j]) == k ==> j in r
  {
    if js == [] then []
    else
      var init := js[..|js| - 1];
      IndicesOf(init, k) + (if RoundOf(js[|js| - 1]) == k then [|js| - 1] else [])
  }

  /** `by_round` groups every row under its round. */
  predicate GroupedByRound(js: seq<JudgedRow>, byRound: map<RoundId, seq<nat>>) {
    && (forall k :: k in byRound ==> byRound[k] == IndicesOf(js, k))
    && (forall i :: 0 <= i < |js| ==> RoundOf(js[i]) in byRound)
  }

  /** Row `j` claims answer `a` in round `k`: a valid, non-empty answer. */
  predicate Claims(r: JudgedRow, k: RoundId, a: string) {
    RoundOf(r) == k && r.valid && r.row.answerNorm == a && a != ""
  }

  /** How many rows claim answer `a` in round `k`. */
  function ClaimCount(js: seq<JudgedRow>, k: RoundId, a: string): nat {
    if js == [] then 0
    else ClaimCount(js[..|js| - 1], k, a) + (if Claims(js[|js| - 1], k, a) then 1 else 0)
  }

  /** The row `i` of the scored output: it collides when it is valid, non-empty
      and its answer is claimed more than once in its round; it scores when it
      is valid and does not collide. */
  function Scored(js: seq<JudgedRow>, i: nat): JudgedRow
    requires i < |js|
  {
    var r := js[i];
    var a := r.row.answerNorm;
    var collision := r.valid && a != "" && ClaimCount(js, RoundOf(r), a) > 1;
    r.(collision := collision, score := if r.valid && !collision then 1 else 0, roundKey := RoundKeyText(RoundOf(r)))
  }

  /** `[judged[i]["answer_norm"] for i in idxs if valid and non-empty]`. */
  function ValidAnswers(js: seq<JudgedRow>, idxs: seq<nat>): seq<string>
    requires forall t :: 0 <= t < |idxs| ==> idxs[t] < |js|
  {
    if idxs == [] then []
    else
      var last := js[idxs[|idxs| - 1]];
      ValidAnswers(js, idxs[..|idxs| - 1]) + (if last.valid && last.row.answerNorm != "" then [last.row.answerNorm] else [])
  }

  lemma ValidAnswersAppend(js: seq<JudgedRow>, idxs: seq<nat>, x: nat)
    requires forall t :: 0 <= t < |idxs| ==> idxs[t] < |js|
    requires x < |js|
    ensures ValidAnswers(js, idxs + [x]) ==
            ValidAnswers(js, idxs) + (if js[x].valid && js[x].row.answerNorm != "" then [js[x].row.answerNorm] else [])
  {
    assert (idxs + [x])[..|idxs|] == idxs;
  }

  lemma ValidAnswersPrefix(js: seq<JudgedRow>, x: JudgedRow, idxs: seq<nat>)
    requires forall t :: 0 <= t < |idxs| ==> idxs[t] < |js|
    ensures ValidAnswers(js + [x], idxs) == ValidAnswers(js, idxs)
  {
    if idxs != [] {
      ValidAnswersPrefix(js, x, idxs[..|idxs| - 1]);
    }
  }

  /** The tally of a round's valid answers counts exactly the claims. */
  lemma {:induction false} RoundTally(js: seq<JudgedRow>, k: RoundId, a: string)
    requires a != ""
    ensures multiset(ValidAnswers(js, IndicesOf(js, k)))[a] == ClaimCount(js, k, a)
  {
    if js != [] {
      var init := js[..|js| - 1];
      var x := js[|js| - 1];
      assert js == init + [x];
      var before := IndicesOf(init, k);
      RoundTally(init, k, a);
      ValidAnswersPrefix(init, x, before);
      var extra := if x.valid && x.row.answerNorm != "" then [x.row.answerNorm] else [];
      if RoundOf(x) == k {
        assert IndicesOf(js, k) == before + [|js| - 1];
        ValidAnswersAppend(js, before, |js| - 1);
        assert ValidAnswers(js, IndicesOf(js, k)) == ValidAnswers(init, before) + extra;
        assert multiset(extra)[a] == if Claims(x, k, a) then 1 else 0;
      } else {
        assert IndicesOf(js, k) == before;
        assert !Claims(x, k, a);
      }
    }
  }

  /** `out` agrees with the scored rows except on the rows of the rounds in
      `pending` that are not among `done`, which are still as `judged` has them. */
  predicate ScoredExcept(out: seq<JudgedRow>, judged: seq<JudgedRow>, pending: set<RoundId>, done: seq<nat>) {
    && |out| == |judged|
    && forall i :: 0 <= i < |judged| ==>
         out[i] == if RoundOf(judged[i]) in pending && i !in done then judged[i] else Scored(judged, i)
  }

  /** The scoring pass of `judge_rows`: for each round, tally its valid
      non-empty answers, then set every row's collision, score and round key. */
  method ScoreRounds(judged: seq<JudgedRow>, byRound: map<RoundId, seq<nat>>) returns (out: seq<JudgedRow>)
    requires GroupedByRound(judged, byRound)
    ensures |out| == |judged|
    ensures forall i :: 0 <= i < |out| ==> out[i] == Scored(judged, i)
  {
    out := judged;
    var todo := byRound.Keys;
    while todo != {}
      invariant todo <= byRound.Keys
      invariant ScoredExcept(out, judged, todo, [])
      decreases todo
    {
      var k :| k in todo;
      out := ScoreRound(judged, k, byRound[k], out, todo);
      todo := todo - {k};
    }
  }

  /** The body of the scoring pass for the round `k` whose rows are `idxs`. */
  method ScoreRound(judged: seq<JudgedRow>, k: RoundId, idxs: seq<nat>, out0: seq<JudgedRow>, ghost todo: set<RoundId>)
    returns (out: seq<JudgedRow>)
    requires idxs == IndicesOf(judged, k) && k in todo
    requires ScoredExcept(out0, judged, todo, [])
    ensures ScoredExcept(out, judged, todo - {k}, [])
  {
    out := out0;
    // The fields read here (validity and answer) are never changed by this pass.
    var counts := Tally.Of(ValidAnswers(judged, idxs));
    RoundCounts(judged, k, idxs);
    var p := 0;
    while p < |idxs|
      invariant 0 <= p <= |idxs|
      invariant ScoredExcept(out, judged, todo, idxs[..p])
    {
      out := ScoreAt(judged, k, idxs, todo, counts, out, p);
      p := p + 1;
    }
    assert idxs[..p] == idxs;
  }

  /** One pass of the inner loop of the scoring pass: score the row at
      `idxs[p]` from the round's tally, which extends the scored prefix by one. */
  method ScoreAt(judged: seq<JudgedRow>, k: RoundId, idxs: seq<nat>, ghost todo: set<RoundId>, counts: Counter,
                 out: seq<JudgedRow>, p: nat) returns (out': seq<JudgedRow>)
    requires idxs == IndicesOf(judged, k) && p < |idxs|
    requires ScoredExcept(out, judged, todo, idxs[..p])
    requires forall a :: a != "" ==> Get(counts, a) == ClaimCount(judged, k, a)
    ensures ScoredExcept(out', judged, todo, idxs[..p + 1])
  {
    var i := idxs[p];
    var ans := judged[i].row.answerNorm;
    var valid := judged[i].valid;
    var collision := valid && ans != "" && Get(counts, ans) > 1;
    var score := if valid && !collision then 1 else 0;
    ScoredFromTally(judged, k, i, counts, out[i]);
    out' := out[i := out[i].(collision := collision, score := score, roundKey := RoundKeyText(k))];
    ScoredExceptStep(out, judged, todo, idxs, p, out'[i]);
  }

  /** The tally of a round's valid answers counts each answer's claims. */
  lemma RoundCounts(judged: seq<JudgedRow>, k: RoundId, idxs: seq<nat>)
    requires idxs == IndicesOf(judged, k)
    ensures forall a :: a != "" ==> Get(Tally.Of(ValidAnswers(judged, idxs)), a) == ClaimCount(judged, k, a)
  {
    forall a | a != ""
      ensures Get(Tally.Of(ValidAnswers(judged, idxs)), a) == ClaimCount(judged, k, a)
    {
      OfCounts(ValidAnswers(judged, idxs), a);
      RoundTally(judged, k, a);
    }
  }

  /** Scoring the row at `idxs[p]` extends the scored prefix by one. */
  lemma ScoredExceptStep(out: seq<JudgedRow>, judged: seq<JudgedRow>, todo: set<RoundId>, idxs: seq<nat>, p: nat, x: JudgedRow)
    requires p < |idxs| && idxs[p] < |out|
    requires ScoredExcept(out, judged, todo, idxs[..p])
    requires x == Scored(judged, idxs[p])
    ensures ScoredExcept(out[idxs[p] := x], judged, todo, idxs[..p + 1])
  {
    assert forall j :: j in idxs[..p + 1] <==> j in idxs[..p] || j == idxs[p];
  }

  /** One step of the scoring pass computes the scored row. */
  lemma ScoredFromTally(judged: seq<JudgedRow>, k: RoundId, i: nat, counts: Counter, r: JudgedRow)
    requires i < |judged| && RoundOf(judged[i]) == k
    requires forall a :: a != "" ==> Get(counts, a) == ClaimCount(judged, k, a)
    requires r.row == judged[i].row && r.valid == judged[i].valid
    ensures var ans := judged[i].row.answerNorm;
            var collision := judged[i].valid && ans != "" && Get(counts, ans) > 1;
            r.(collision := collision, score := if judged[i].valid && !collision then 1 else 0,
               roundKey := RoundKeyText(k)) == Scored(judged, i)
  {
  }

  lemma {:induction false} ClaimCountPositive(js: seq<JudgedRow>, k: RoundId, a: string)
    ensures ClaimCount(js, k, a) > 0 <==> exists j :: 0 <= j < |js| && Claims(js[j], k, a)
  {
    if js != [] {
      var init := js[..|js| - 1];
      ClaimCountPositive(init, k, a);
      assert forall j :: 0 <= j < |init| ==> init[j] == js[j];
    }
  }

  /** Given that row `i` claims `a`, more than one claim means another row does. */
  lemma {:induction false} ClaimCountOthers(js: seq<JudgedRow>, k: RoundId, a: string, i: nat)
    requires i < |js| && Claims(js[i], k, a)
    ensures ClaimCount(js, k, a) > 1 <==> exists j :: 0 <= j < |js| && j != i && Claims(js[j], k, a)
  {
    var init := js[..|js| - 1];
    assert forall j :: 0 <= j < |init| ==> init[j] == js[j];
    if i == |js| - 1 {
      ClaimCountPositive(init, k, a);
    } else {
      ClaimCountOthers(init, k, a, i);
      ClaimCountPositive(init, k, a);
    }
  }

  /** A row collides exactly when it is valid, non-empty, and some other row of
      the same round, from any player, validly gave the same answer. */
  lemma CollisionIff(js: seq<JudgedRow>, i: nat)
    requires i < |js|
    ensures Scored(js, i).collision <==>
              && js[i].valid && js[i].row.answerNorm != ""
              && exists j :: 0 <= j < |js| && j != i && RoundOf(js[j]) == RoundOf(js[i])
                             && js[j].valid && js[j].row.answerNorm == js[i].row.answerNorm
  {
    if js[i].valid && js[i].row.answerNorm != "" {
      ClaimCountOthers(js, RoundOf(js[i]), js[i].row.answerNorm, i);
    }
  }

  /** With a judge that never accepts an empty answer, a row scores 1 exactly
      when it is valid, non-empty and no other row of its round validly gave
      the same answer; a collision never scores; scores are 0 or 1. */
  lemma ScoreIff(js: seq<JudgedRow>, i: nat)
    requires i < |js|
    requires js[i].valid ==> js[i].row.answerNorm != ""
    ensures Scored(js, i).score <= 1
    ensures !(Scored(js, i).collision && Scored(js, i).score == 1)
    ensures Scored(js, i).score == 1 <==>
              && js[i].valid && js[i].row.answerNorm != ""
              && !exists j :: 0 <= j < |js| && j != i && RoundOf(js[j]) == RoundOf(js[i])
                              && js[j].valid && js[j].row.answerNorm == js[i].row.answerNorm
  {
    CollisionIff(js, i);
  }

  /** Scoring reads only each row's answer fields and validity. */
  lemma {:induction false} ClaimCountSameClaims(js: seq<JudgedRow>, js': seq<JudgedRow>, k: RoundId, a: string)
    requires |js| == |js'|
    requires forall i :: 0 <= i < |js| ==> js[i].row == js'[i].row && js[i].valid == js'[i].valid
    ensures ClaimCount(js, k, a) == ClaimCount(js', k, a)
  {
    if js != [] {
      ClaimCountSameClaims(js[..|js| - 1], js'[..|js'| - 1], k, a);
    }
  }

  function UnscoredRow(row: AnswerRow, valid: bool): JudgedRow {
    JudgedRow(row, valid, false, 0, "")
  }

  function RowKey(row: AnswerRow): CacheKey {
    KeyOf(row.letter, row.category, row.answerNorm)
  }

  function NonEmptyCount(rows: seq<AnswerRow>): nat {
    if rows == [] then 0
    else NonEmptyCount(rows[..|rows| - 1]) + (if rows[|rows| - 1].answerNorm != "" then 1 else 0)
  }

  /** `judge_rows`: one output row per input row, in order, carrying it; each
      validity is the cached decision for its key (so equal keys get equal
      decisions), empty answers are invalid, earlier cache entries stay, every
      non-empty row costs one hit or one call, and the output is scored. */
  method JudgeRows(rows: seq<AnswerRow>, judge: Judge) returns (judged: seq<JudgedRow>)
    modifies judge.cache
    ensures |judged| == |rows|
    ensures forall i :: 0 <= i < |rows| ==> judged[i].row == rows[i] && judged[i] == Scored(judged, i)
    ensures forall i :: 0 <= i < |rows| && judged[i].valid ==> rows[i].answerNorm != ""
    ensures forall i :: 0 <= i < |rows| && rows[i].answerNorm != "" ==>
              RowKey(rows[i]) in judge.cache.data && judged[i].valid == judge.cache.data[RowKey(rows[i])]
    ensures forall i, j :: 0 <= i < |rows| && 0 <= j < |rows| && RowKey(rows[i]) == RowKey(rows[j]) ==>
              judged[i].valid == judged[j].valid
    ensures forall k :: k in old(judge.cache.data) ==>
              k in judge.cache.data && judge.cache.data[k] == old(judge.cache.data)[k]
    ensures judge.cache.hits + judge.cache.calls == old(judge.cache.hits) + old(judge.cache.calls) + NonEmptyCount(rows)
    ensures judge.cache.data.Keys == old(judge.cache.data).Keys + KeysOf(rows)
    ensures judge.cache.calls == old(judge.cache.calls) + |KeysOf(rows) - old(judge.cache.data).Keys|
    ensures judge.cache.hits + |KeysOf(rows) - old(judge.cache.data).Keys| == old(judge.cache.hits) + NonEmptyCount(rows)
    ensures forall j :: 0 <= j < |rows| && FirstAsked(rows, j, old(judge.cache.data)) ==>
              judged[j].valid == ReplyMeansYes(judge.oracle(CallsBefore(old(judge.cache.calls), old(judge.cache.data), rows, j),
                                                            rows[j].letter, rows[j].category, rows[j].answerNorm))
    ensures var run := JudgeRun(judge.oracle, CacheState(old(judge.cache.data), old(judge.cache.hits), old(judge.cache.calls)), rows);
            && CacheState(judge.cache.data, judge.cache.hits, judge.cache.calls) == run.after
            && forall i :: 0 <= i < |rows| ==> judged[i].valid == run.valids[i]
  {
    ghost var s00 := CacheState(judge.cache.data, judge.cache.hits, judge.cache.calls);
    var stage, byRound := JudgeEach(rows, judge);
    judged := ScoreRounds(stage, byRound);
    ScoredRows(rows, stage, judged, judge.cache.data);
    RunKeys(judge.oracle, s00, rows);
    RunCounts(judge.oracle, s00, rows);
    forall j | 0 <= j < |rows| && FirstAsked(rows, j, s00.data)
      ensures judged[j].valid == ReplyMeansYes(judge.oracle(CallsBefore(s00.calls, s00.data, rows, j),
                                                            rows[j].letter, rows[j].category, rows[j].answerNorm))
    {
      RunFirstAsked(judge.oracle, s00, rows, j);
    }
  }

  /** Scoring the judged rows keeps each row and its validity, so the facts
      the first loop established carry over and scoring again changes nothing. */
  lemma ScoredRows(rows: seq<AnswerRow>, stage: seq<JudgedRow>, judged: seq<JudgedRow>, data: map<CacheKey, bool>)
    requires |stage| == |rows| && |judged| == |rows|
    requires forall i :: 0 <= i < |rows| ==> stage[i] == UnscoredRow(rows[i], stage[i].valid)
    requires forall i :: 0 <= i < |rows| && stage[i].valid ==> rows[i].answerNorm != ""
    requires forall i :: 0 <= i < |rows| && rows[i].answerNorm != "" ==>
               RowKey(rows[i]) in data && stage[i].valid == data[RowKey(rows[i])]
    requires forall i :: 0 <= i < |judged| ==> judged[i] == Scored(stage, i)
    ensures forall i :: 0 <= i < |rows| ==> judged[i].row == rows[i] && judged[i] == Scored(judged, i)
    ensures forall i :: 0 <= i < |rows| && judged[i].valid ==> rows[i].answerNorm != ""
    ensures forall i :: 0 <= i < |rows| && rows[i].answerNorm != "" ==>
              RowKey(rows[i]) in data && judged[i].valid == data[RowKey(rows[i])]
    ensures forall i, j :: 0 <= i < |rows| && 0 <= j < |rows| && RowKey(rows[i]) == RowKey(rows[j]) ==>
              judged[i].valid == judged[j].valid
    ensures forall i :: 0 <= i < |rows| ==> judged[i].valid == stage[i].valid
  {
    forall i | 0 <= i < |rows|
      ensures judged[i].row == rows[i] && judged[i].valid == stage[i].valid
    {
    }
    forall i | 0 <= i < |rows|
      ensures judged[i] == Scored(judged, i)
    {
      ClaimCountSameClaims(stage, judged, RoundOf(stage[i]), stage[i].row.answerNorm);
    }
  }

  /** The first loop of `judge_rows`: judge each row in order and group the
      row positions by round. */
  method JudgeEach(rows: seq<AnswerRow>, judge: Judge) returns (stage: seq<JudgedRow>, byRound: map<RoundId, seq<nat>>)
    modifies judge.cache
    ensures |stage| == |rows|
    ensures forall i :: 0 <= i < |rows| ==> stage[i] == UnscoredRow(rows[i], stage[i].valid)
    ensures forall i :: 0 <= i < |rows| && stage[i].valid ==> rows[i].answerNorm != ""
    ensures forall i :: 0 <= i < |rows| && rows[i].answerNorm != "" ==>
              RowKey(rows[i]) in judge.cache.data && stage[i].valid == judge.cache.data[RowKey(rows[i])]
    ensures forall k :: k in old(judge.cache.data) ==>
              k in judge.cache.data && judge.cache.data[k] == old(judge.cache.data)[k]
    ensures judge.cache.hits + judge.cache.calls == old(judge.cache.hits) + old(judge.cache.calls) + NonEmptyCount(rows)
    ensures GroupedByRound(stage, byRound)
    ensures var run := JudgeRun(judge.oracle, CacheState(old(judge.cache.data), old(judge.cache.hits), old(judge.cache.calls)), rows);
            && CacheState(judge.cache.data, judge.cache.hits, judge.cache.calls) == run.after
            && forall i :: 0 <= i < |rows| ==> stage[i].valid == run.valids[i]
  {
    var cache := judge.cache;
    stage := [];
    byRound := map[];
    ghost var data00 := cache.data;
    ghost var spent00 := cache.hits + cache.calls;
    ghost var s00 := CacheState(cache.data, cache.hits, cache.calls);
    var idx := 0;
    while idx < |rows|
      invariant idx <= |rows| && JudgedSoFar(rows, idx, stage, byRound, data00, cache.data, spent00, cache.hits + cache.calls)
      invariant RunSoFar(judge.oracle, s00, rows, idx, stage, CacheState(cache.data, cache.hits, cache.calls))
    {
      stage, byRound := JudgeOne(rows, idx, judge, stage, byRound, data00, spent00, s00);
      idx := idx + 1;
    }
    JudgedAll(rows, stage, byRound, data00, cache.data, spent00, cache.hits + cache.calls);
    assert rows[..|rows|] == rows;
  }

  /** One pass of the first loop of `judge_rows`: judge row `idx` and record
      its position under its round. */
  method JudgeOne(rows: seq<AnswerRow>, idx: nat, judge: Judge, stage: seq<JudgedRow>, byRound: map<RoundId, seq<nat>>,
                  ghost data00: map<CacheKey, bool>, ghost spent00: nat, ghost s00: CacheState)
    returns (stage': seq<JudgedRow>, byRound': map<RoundId, seq<nat>>)
    requires idx < |rows|
    requires JudgedSoFar(rows, idx, stage, byRound, data00, judge.cache.data, spent00, judge.cache.hits + judge.cache.calls)
    requires RunSoFar(judge.oracle, s00, rows, idx, stage, CacheState(judge.cache.data, judge.cache.hits, judge.cache.calls))
    modifies judge.cache
    ensures JudgedSoFar(rows, idx + 1, stage', byRound', data00, judge.cache.data, spent00, judge.cache.hits + judge.cache.calls)
    ensures RunSoFar(judge.oracle, s00, rows, idx + 1, stage', CacheState(judge.cache.data, judge.cache.hits, judge.cache.calls))
  {
    var row := rows[idx];
    var cache := judge.cache;
    ghost var data0, spent0 := cache.data, cache.hits + cache.calls;
    ghost var now0 := CacheState(cache.data, cache.hits, cache.calls);
    var valid := judge.IsValid(row.letter, row.category, row.answerNorm);
    RunStep(judge.oracle, s00, rows, idx, stage, now0, valid, CacheState(cache.data, cache.hits, cache.calls));
    var x := UnscoredRow(row, valid);
    byRound' := byRound[RoundOf(x) := (if RoundOf(x) in byRound then byRound[RoundOf(x)] else []) + [idx]];
    stage' := stage + [x];
    JudgeStep(rows, idx, stage, byRound, data00, data0, cache.data, spent00, spent0,
              cache.hits + cache.calls, valid, stage', byRound');
  }

  /** The loop invariant of `JudgeEach` after `idx` rows: one unscored row per
      input row, each validity the cache entry for its key, empty answers
      invalid, the entries present at the start kept, one hit or call per
      non-empty row so far, and the positions grouped by round. */
  ghost predicate JudgedSoFar(rows: seq<AnswerRow>, idx: nat, stage: seq<JudgedRow>, byRound: map<RoundId, seq<nat>>,
                              data00: map<CacheKey, bool>, data: map<CacheKey, bool>, spent00: nat, spent: nat)
    requires idx <= |rows|
  {
    && |stage| == idx
    && (forall i :: 0 <= i < idx ==> stage[i] == UnscoredRow(rows[i], stage[i].valid))
    && (forall i :: 0 <= i < idx && stage[i].valid ==> rows[i].answerNorm != "")
    && (forall i :: 0 <= i < idx && rows[i].answerNorm != "" ==>
          RowKey(rows[i]) in data && stage[i].valid == data[RowKey(rows[i])])
    && (forall k :: k in data00 ==> k in data && data[k] == data00[k])
    && spent == spent00 + NonEmptyCount(rows[..idx])
    && byRound == GroupOf(stage)
  }

  /** The second loop invariant of `JudgeEach`: the decisions so far and the
      cache state are those of judging `rows[..idx]` in order from `s00`. */
  ghost predicate RunSoFar(oracle: (nat, string, string, string) -> string, s00: CacheState,
                           rows: seq<AnswerRow>, idx: nat, stage: seq<JudgedRow>, now: CacheState)
    requires idx <= |rows|
  {
    var run := JudgeRun(oracle, s00, rows[..idx]);
    |stage| == idx && run.after == now && forall i :: 0 <= i < idx ==> stage[i].valid == run.valids[i]
  }

  /** Judging row `idx` as `is_valid` does extends the run by one row. */
  lemma RunStep(oracle: (nat, string, string, string) -> string, s00: CacheState, rows: seq<AnswerRow>, idx: nat,
                stage: seq<JudgedRow>, now0: CacheState, valid: bool, now1: CacheState)
    requires idx < |rows| && RunSoFar(oracle, s00, rows, idx, stage, now0)
    requires Judgement(oracle, now0, rows[idx].letter, rows[idx].category, rows[idx].answerNorm) == Verdict(valid, now1)
    ensures RunSoFar(oracle, s00, rows, idx + 1, stage + [UnscoredRow(rows[idx], valid)], now1)
  {
    assert rows[..idx + 1][..idx] == rows[..idx];
  }

  /** The invariant of `JudgeEach` after the last row gives its postcondition. */
  lemma JudgedAll(rows: seq<AnswerRow>, stage: seq<JudgedRow>, byRound: map<RoundId, seq<nat>>,
                  data00: map<CacheKey, bool>, data: map<CacheKey, bool>, spent00: nat, spent: nat)
    requires JudgedSoFar(rows, |rows|, stage, byRound, data00, data, spent00, spent)
    ensures |stage| == |rows|
    ensures forall i :: 0 <= i < |rows| ==> stage[i] == UnscoredRow(rows[i], stage[i].valid)
    ensures forall i :: 0 <= i < |rows| && stage[i].valid ==> rows[i].answerNorm != ""
    ensures forall i :: 0 <= i < |rows| && rows[i].answerNorm != "" ==>
              RowKey(rows[i]) in data && stage[i].valid == data[RowKey(rows[i])]
    ensures forall k :: k in data00 ==> k in data && data[k] == data00[k]
    ensures spent == spent00 + NonEmptyCount(rows)
    ensures GroupedByRound(stage, byRound)
  {
    assert rows[..|rows|] == rows;
    GroupOfIsGrouped(stage);
  }

  /** Judging row `idx` keeps the invariant of `JudgeEach`. */
  lemma JudgeStep(rows: seq<AnswerRow>, idx: nat, stage: seq<JudgedRow>, byRound: map<RoundId, seq<nat>>,
                  data00: map<CacheKey, bool>, data0: map<CacheKey, bool>, data1: map<CacheKey, bool>,
                  spent00: nat, spent0: nat, spent1: nat, valid: bool,
                  stage': seq<JudgedRow>, byRound': map<RoundId, seq<nat>>)
    requires idx < |rows| && JudgedSoFar(rows, idx, stage, byRound, data00, data0, spent00, spent0)
    requires spent1 == spent0 + (if rows[idx].answerNorm != "" then 1 else 0)
    requires rows[idx].answerNorm == "" ==> !valid && data1 == data0
    requires rows[idx].answerNorm != "" && RowKey(rows[idx]) in data0 ==>
               valid == data0[RowKey(rows[idx])] && data1 == data0
    requires rows[idx].answerNorm != "" && RowKey(rows[idx]) !in data0 ==>
               data1 == data0[RowKey(rows[idx]) := valid]
    requires stage' == stage + [UnscoredRow(rows[idx], valid)]
    requires var k := RoundOf(UnscoredRow(rows[idx], valid));
             byRound' == byRound[k := (if k in byRound then byRound[k] else []) + [idx]]
    ensures JudgedSoFar(rows, idx + 1, stage', byRound', data00, data1, spent00, spent1)
  {
    CacheStep(rows, stage, idx, data0, data1, valid);
    assert stage'[..|stage'| - 1] == stage;
    assert rows[..idx + 1][..idx] == rows[..idx];
  }

  /** Judging row `idx` keeps every earlier row's validity equal to its cache
      entry. */
  lemma CacheStep(rows: seq<AnswerRow>, stage: seq<JudgedRow>, idx: nat,
                  data0: map<CacheKey, bool>, data1: map<CacheKey, bool>, valid: bool)
    requires idx < |rows| && |stage| == idx
    requires forall i :: 0 <= i < idx && rows[i].answerNorm != "" ==>
               RowKey(rows[i]) in data0 && stage[i].valid == data0[RowKey(rows[i])]
    requires rows[idx].answerNorm == "" ==> !valid && data1 == data0
    requires rows[idx].answerNorm != "" && RowKey(rows[idx]) in data0 ==>
               valid == data0[RowKey(rows[idx])] && data1 == data0
    requires rows[idx].answerNorm != "" && RowKey(rows[idx]) !in data0 ==>
               data1 == data0[RowKey(rows[idx]) := valid]
    ensures forall k :: k in data0 ==> k in data1 && data1[k] == data0[k]
    ensures var stage' := stage + [UnscoredRow(rows[idx], valid)];
            forall i :: 0 <= i < idx + 1 && rows[i].answerNorm != "" ==>
              RowKey(rows[i]) in data1 && stage'[i].valid == data1[RowKey(rows[i])]
  {
  }

  /** The keys of the rows with a non-empty answer: the keys `judge_rows`
      looks up. */
  function KeysOf(rows: seq<AnswerRow>): set<CacheKey> {
    if rows == [] then {}
    else KeysOf(rows[..|rows| - 1]) + (if rows[|rows| - 1].answerNorm != "" then {RowKey(rows[|rows| - 1])} else {})
  }

  /** Row `j` is the first to ask about a key the cache did not hold at the
      start: the row that makes the external call for that key. */
  predicate FirstAsked(rows: seq<AnswerRow>, j: nat, data: map<CacheKey, bool>)
    requires j < |rows|
  {
    rows[j].answerNorm != "" && RowKey(rows[j]) !in data && RowKey(rows[j]) !in KeysOf(rows[..j])
  }

  /** The decisions and cache state of judging `rows` in order from `s`. */
  datatype Run = Run(valids: seq<bool>, after: CacheState)

  function JudgeRun(oracle: (nat, string, string, string) -> string, s: CacheState, rows: seq<AnswerRow>): (r: Run)
    ensures |r.valids| == |rows|
  {
    if rows == [] then Run([], s)
    else
      var prev := JudgeRun(oracle, s, rows[..|rows| - 1]);
      var last := rows[|rows| - 1];
      var v := Judgement(oracle, prev.after, last.letter, last.category, last.answerNorm);
      Run(prev.valids + [v.valid], v.after)
  }

  /** After a run the table holds the old keys and the rows' keys. */
  lemma {:induction false} RunKeys(oracle: (nat, string, string, string) -> string, s: CacheState, rows: seq<AnswerRow>)
    ensures JudgeRun(oracle, s, rows).after.data.Keys == s.data.Keys + KeysOf(rows)
  {
    if rows != [] {
      var init := rows[..|rows| - 1];
      var last := rows[|rows| - 1];
      RunKeys(oracle, s, init);
      var a0 := JudgeRun(oracle, s, init).after;
      var v := Judgement(oracle, a0, last.letter, last.category, last.answerNorm);
      assert JudgeRun(oracle, s, rows).after == v.after;
      assert KeysOf(rows) == KeysOf(init) + (if last.answerNorm != "" then {RowKey(last)} else {});
    }
  }

  /** A run makes one external call per key new to the table, and counts a
      hit for every other non-empty row. */
  lemma {:induction false} RunCounts(oracle: (nat, string, string, string) -> string, s: CacheState, rows: seq<AnswerRow>)
    ensures var a := JudgeRun(oracle, s, rows).after;
            && a.calls == s.calls + |KeysOf(rows) - s.data.Keys|
            && a.hits + |KeysOf(rows) - s.data.Keys| == s.hits + NonEmptyCount(rows)
  {
    if rows != [] {
      var init := rows[..|rows| - 1];
      var last := rows[|rows| - 1];
      RunCounts(oracle, s, init);
      RunKeys(oracle, s, init);
      var a0 := JudgeRun(oracle, s, init).after;
      var v := Judgement(oracle, a0, last.letter, last.category, last.answerNorm);
      assert JudgeRun(oracle, s, rows).after == v.after;
      if last.answerNorm != "" {
        assert KeysOf(rows) == KeysOf(init) + {RowKey(last)};
        CardFreshOne(s.data.Keys, KeysOf(init), RowKey(last));
      } else {
        assert KeysOf(rows) == KeysOf(init);
      }
    }
  }

  /** Adding one key to `a` adds one key outside `s` exactly when it is in
      neither. */
  lemma CardFreshOne<K>(s: set<K>, a: set<K>, k: K)
    ensures |(a + {k}) - s| == |a - s| + (if k in s + a then 0 else 1)
  {
    if k in s + a {
      assert (a + {k}) - s == a - s;
    } else {
      assert (a + {k}) - s == (a - s) + {k};
    }
  }

  /** The number of the external call row `j` makes when it is the first to
      ask about a new key: the counter at the start plus one call per key new
      to the table `data` among the earlier rows. */
  function CallsBefore(calls: nat, data: map<CacheKey, bool>, rows: seq<AnswerRow>, j: nat): nat
    requires j <= |rows|
  {
    calls + |KeysOf(rows[..j]) - data.Keys|
  }

  /** The row that first asks about a key new to the table gets the reading of
      the reply to the external call numbered by how many new keys came
      before it. */
  lemma {:induction false} RunFirstAsked(oracle: (nat, string, string, string) -> string, s: CacheState,
                                         rows: seq<AnswerRow>, j: nat)
    requires j < |rows| && FirstAsked(rows, j, s.data)
    ensures JudgeRun(oracle, s, rows).valids[j] ==
            ReplyMeansYes(oracle(CallsBefore(s.calls, s.data, rows, j), rows[j].letter, rows[j].category, rows[j].answerNorm))
  {
    var upto := rows[..j + 1];
    RunPrefix(oracle, s, rows, j + 1);
    assert upto[..j] == rows[..j] && upto[j] == rows[j];
    assert CallsBefore(s.calls, s.data, upto, j) == CallsBefore(s.calls, s.data, rows, j);
    RunLastAsked(oracle, s, upto, j);
  }

  /** Judging a prefix of the rows decides its rows as judging all of them does. */
  lemma {:induction false} RunPrefix(oracle: (nat, string, string, string) -> string, s: CacheState,
                                     rows: seq<AnswerRow>, n: nat)
    requires n <= |rows|
    ensures forall i :: 0 <= i < n ==> JudgeRun(oracle, s, rows).valids[i] == JudgeRun(oracle, s, rows[..n]).valids[i]
  {
    if n < |rows| {
      var init := rows[..|rows| - 1];
      RunPrefix(oracle, s, init, n);
      assert init[..n] == rows[..n];
    } else {
      assert rows[..n] == rows;
    }
  }

  /** The last row, when it is the first to ask about a new key, makes the
      external call numbered by the new keys before it. */
  lemma {:induction false} RunLastAsked(oracle: (nat, string, string, string) -> string, s: CacheState,
                                        rows: seq<AnswerRow>, j: nat)
    requires j == |rows| - 1 && FirstAsked(rows, j, s.data)
    ensures JudgeRun(oracle, s, rows).valids[j] ==
            ReplyMeansYes(oracle(CallsBefore(s.calls, s.data, rows, j), rows[j].letter, rows[j].category, rows[j].answerNorm))
  {
    var init := rows[..j];
    var prev := JudgeRun(oracle, s, init);
    RunKeys(oracle, s, init);
    RunCounts(oracle, s, init);
    assert prev.after.calls == CallsBefore(s.calls, s.data, rows, j);
    assert RowKey(rows[j]) !in prev.after.data;
  }

  /** `by_round` as the first loop leaves it after the rows `js`. */
  function GroupOf(js: seq<JudgedRow>): map<RoundId, seq<nat>> {
    if js == [] then map[]
    else
      var m := GroupOf(js[..|js| - 1]);
      var k := RoundOf(js[|js| - 1]);
      m[k := (if k in m then m[k] else []) + [|js| - 1]]
  }

  lemma {:induction false} GroupOfIsGrouped(js: seq<JudgedRow>)
    ensures GroupedByRound(js, GroupOf(js))
  {
    if js != [] {
      var init := js[..|js| - 1];
      GroupOfIsGrouped(init);
      assert js == init + [js[|js| - 1]];
      GroupAppend(init, GroupOf(init), js[|js| - 1]);
    }
  }

  /** Appending a row to the grouped list extends its round's index list. */
  lemma {:induction false} GroupAppend(js: seq<JudgedRow>, byRound: map<RoundId, seq<nat>>, x: JudgedRow)
    requires GroupedByRound(js, byRound)
    ensures GroupedByRound(js + [x],
              byRound[RoundOf(x) := (if RoundOf(x) in byRound then byRound[RoundOf(x)] else []) + [|js|]])
  {
    var js' := js + [x];
    var k0 := RoundOf(x);
    var m' := byRound[k0 := (if k0 in byRound then byRound[k0] else []) + [|js|]];
    forall k | k in m'
      ensures m'[k] == IndicesOf(js', k)
    {
      IndicesAppend(js, x, k);
      if k == k0 && k0 !in byRound {
        IndicesAbsent(js, k0);
      }
    }
    forall i | 0 <= i < |js'|
      ensures RoundOf(js'[i]) in m'
    {
      if i < |js| {
        assert js'[i] == js[i];
      }
    }
  }

  /** Appending a row adds its position to its own round's positions only. */
  lemma IndicesAppend(js: seq<JudgedRow>, x: JudgedRow, k: RoundId)
    ensures IndicesOf(js + [x], k) == if RoundOf(x) == k then IndicesOf(js, k) + [|js|] else IndicesOf(js, k)
  {
    var js' := js + [x];
    assert js'[..|js'| - 1] == js;
    if RoundOf(x) != k {
      assert IndicesOf(js', k) == IndicesOf(js, k) + [];
    }
  }

  /** A round none of whose rows is in `js` has no positions. */
  lemma {:induction false} IndicesAbsent(js: seq<JudgedRow>, k: RoundId)
    requires forall i :: 0 <= i < |js| ==> RoundOf(js[i]) != k
    ensures IndicesOf(js, k) == []
  {
    if js != [] {
      var init := js[..|js| - 1];
      assert forall i :: 0 <= i < |init| ==> init[i] == js[i];
      IndicesAbsent(init, k);
    }
  }
}
