/**
  `summarize_scores`: the per-player integer aggregates of the judged rows,
  one summary per player, in the sorted order of player ids. The rates are
  floating-point quotients of these counts and are not modelled.
*/
module Summary {
  import opened Text
  import opened Scoring

  datatype PlayerSummary = PlayerSummary(
    playerId: string,
    sourceFile: string,
    totalAnswers: nat,
    validAnswers: nat,
    points: nat,
    collisions: nat,
    distinctValidAnswers: nat,
    judgeApiCalls: nat,
    judgeCacheHits: nat)

  /** The rows of player `p`, in their original order (`by_player[p]`). */
  function RowsOf(js: seq<JudgedRow>, p: string): seq<JudgedRow> {
    if js == [] then []
    else RowsOf(js[..|js| - 1], p) + (if js[|js| - 1].row.playerId == p then [js[|js| - 1]] else [])
  }

  function Players(js: seq<JudgedRow>): set<string> {
    set r | r in js :: r.row.playerId
  }

  function CountValid(rs: seq<JudgedRow>): nat {
    if rs == [] then 0 else CountValid(rs[..|rs| - 1]) + (if rs[|rs| - 1].valid then 1 else 0)
  }

  function SumScores(rs: seq<JudgedRow>): nat {
    if rs == [] then 0 else SumScores(rs[..|rs| - 1]) + rs[|rs| - 1].score
  }

  function CountCollisions(rs: seq<JudgedRow>): nat {
    if rs == [] then 0 else CountCollisions(rs[..|rs| - 1]) + (if rs[|rs| - 1].collision then 1 else 0)
  }

  /** The distinct valid, non-empty answers among `rs`. */
  function DistinctValid(rs: seq<JudgedRow>): set<string> {
    set r | r in rs && r.valid && r.row.answerNorm != "" :: r.row.answerNorm
  }

  /** The summary of one player, from that player's rows. */
  function SummaryOf(p: string, rs: seq<JudgedRow>, calls: nat, hits: nat): PlayerSummary {
    PlayerSummary(p, if rs != [] then rs[0].row.sourceFile else "", |rs|, CountValid(rs), SumScores(rs),
                  CountCollisions(rs), |DistinctValid(rs)|, calls, hits)
  }

  /** The sum of the per-player totals. */
  function TotalOfTotals(ss: seq<PlayerSummary>): nat {
    if ss == [] then 0 else ss[0].totalAnswers + TotalOfTotals(ss[1..])
  }

  /** `by_player` as the first loop leaves it after the rows `js`. */
  function GroupOf(js: seq<JudgedRow>): map<string, seq<JudgedRow>> {
    if js == [] then map[]
    else
      var m := GroupOf(js[..|js| - 1]);
      var p := js[|js| - 1].row.playerId;
      m[p := (if p in m then m[p] else []) + [js[|js| - 1]]]
  }

  lemma {:induction false} GroupOfIsRowsOf(js: seq<JudgedRow>)
    ensures GroupOf(js).Keys == Players(js)
    ensures forall p :: p in GroupOf(js) ==> GroupOf(js)[p] == RowsOf(js, p)
  {
    if js != [] {
      var init := js[..|js| - 1];
      var x := js[|js| - 1];
      assert js == init + [x];
      GroupOfIsRowsOf(init);
      forall p | p !in GroupOf(init)
        ensures RowsOf(init, p) == []
      {
        RowsOfEmpty(init, p);
      }
    }
  }

  lemma {:induction false} RowsOfEmpty(js: seq<JudgedRow>, p: string)
    requires p !in Players(js)
    ensures RowsOf(js, p) == []
  {
    if js != [] {
      var init := js[..|js| - 1];
      assert Players(init) <= Players(js);
      RowsOfEmpty(init, p);
    }
  }

  /** One sweep over a non-empty set of player ids: its least element. */
  method LeastPlayer(ps: set<string>) returns (m: string)
    requires ps != {}
    ensures m in ps
    ensures forall q :: q in ps && q != m ==> LexLess(m, q)
  {
    m :| m in ps;
    var rest := ps - {m};
    while rest != {}
      invariant m in ps && rest <= ps
      invariant forall q :: q in ps - rest && q != m ==> LexLess(m, q)
      decreases rest
    {
      var q :| q in rest;
      if LexLess(q, m) {
        forall q' | q' in ps - rest && q' != q
          ensures LexLess(q, q')
        {
          if q' != m {
            LexLessTransitive(q, m, q');
          }
        }
        m := q;
      } else if q != m {
        LexLessTotal(q, m);
      }
      rest := rest - {q};
    }
  }

  /** `summarize_scores`: one summary per player present in the rows, in
      strictly increasing order of player id, each computed from exactly that
      player's rows; the totals add up to the number of rows; and, for rows
      scored by `judge_rows`, points <= valid <= total, distinct valid answers
      <= valid, and points + collisions == valid. */
  method SummarizeScores(judged: seq<JudgedRow>, calls: nat, hits: nat) returns (summaries: seq<PlayerSummary>)
    ensures forall t :: 0 <= t < |summaries| ==>
              summaries[t] == SummaryOf(summaries[t].playerId, RowsOf(judged, summaries[t].playerId), calls, hits)
    ensures forall s, t :: 0 <= s < t < |summaries| ==> LexLess(summaries[s].playerId, summaries[t].playerId)
    ensures forall p :: p in Players(judged) <==> exists t :: 0 <= t < |summaries| && summaries[t].playerId == p
    ensures TotalOfTotals(summaries) == |judged|
    ensures (forall i :: 0 <= i < |judged| ==> WellScored(judged[i])) ==>
              forall t :: 0 <= t < |summaries| ==> SummaryBounded(summaries[t])
  {
    var byPlayer := GroupByPlayer(judged);
    summaries := SummarizeGroups(byPlayer, calls, hits);
    SummariesTotal(judged, summaries);
    if forall i :: 0 <= i < |judged| ==> WellScored(judged[i]) {
      SummariesBounded(judged, summaries, calls, hits);
    }
  }

  /** The first loop of `summarize_scores`: `by_player` maps each player
      present to that player's rows, in their original order. */
  method GroupByPlayer(judged: seq<JudgedRow>) returns (byPlayer: map<string, seq<JudgedRow>>)
    ensures byPlayer.Keys == Players(judged)
    ensures forall p :: p in byPlayer ==> byPlayer[p] == RowsOf(judged, p)
  {
    byPlayer := map[];
    for i := 0 to |judged|
      invariant byPlayer == GroupOf(judged[..i])
    {
      var r := judged[i];
      var p := r.row.playerId;
      byPlayer := byPlayer[p := (if p in byPlayer then byPlayer[p] else []) + [r]];
      assert judged[..i + 1][..i] == judged[..i];
    }
    assert judged[..|judged|] == judged;
    GroupOfIsRowsOf(judged);
  }

  /** Summaries of scored rows satisfy the per-player bounds. */
  lemma SummariesBounded(judged: seq<JudgedRow>, summaries: seq<PlayerSummary>, calls: nat, hits: nat)
    requires forall i :: 0 <= i < |judged| ==> WellScored(judged[i])
    requires forall t :: 0 <= t < |summaries| ==>
               summaries[t] == SummaryOf(summaries[t].playerId, RowsOf(judged, summaries[t].playerId), calls, hits)
    ensures forall t :: 0 <= t < |summaries| ==> SummaryBounded(summaries[t])
  {
    forall t | 0 <= t < |summaries|
      ensures SummaryBounded(summaries[t])
    {
      RowsOfWellScored(judged, summaries[t].playerId);
      SummaryBounds(summaries[t].playerId, RowsOf(judged, summaries[t].playerId), calls, hits);
    }
  }

  /** The second loop of `summarize_scores`: the groups in sorted order of
      player id, each summarised. */
  method SummarizeGroups(byPlayer: map<string, seq<JudgedRow>>, calls: nat, hits: nat)
    returns (summaries: seq<PlayerSummary>)
    ensures forall t :: 0 <= t < |summaries| ==>
              && summaries[t].playerId in byPlayer
              && summaries[t] == SummaryOf(summaries[t].playerId, byPlayer[summaries[t].playerId], calls, hits)
    ensures forall p :: p in byPlayer ==> exists t :: 0 <= t < |summaries| && summaries[t].playerId == p
    ensures forall s, t :: 0 <= s < t < |summaries| ==> LexLess(summaries[s].playerId, summaries[t].playerId)
  {
    ghost var f := Summarizer(byPlayer, calls, hits);
    summaries := [];
    var remaining := byPlayer.Keys;
    while remaining != {}
      invariant Drained(byPlayer.Keys, f, remaining, summaries)
      decreases remaining
    {
      var p := LeastPlayer(remaining);
      var rows := byPlayer[p];
      ghost var before := (remaining, summaries);
      summaries := summaries + [SummaryOf(p, rows, calls, hits)];
      remaining := remaining - {p};
      assert f(p) == SummaryOf(p, rows, calls, hits);
      DrainStep(byPlayer.Keys, f, before.0, before.1, p);
    }
    DrainedAll(byPlayer, calls, hits, summaries);
  }

  /** The summary of each player of `byPlayer`, from that player's group. */
  function Summarizer(byPlayer: map<string, seq<JudgedRow>>, calls: nat, hits: nat): string -> PlayerSummary {
    p => SummaryOf(p, if p in byPlayer then byPlayer[p] else [], calls, hits)
  }

  /** The loop invariant of `SummarizeGroups`: the players done so far are
      summarised by `f` in increasing order, each once, and precede those
      remaining. */
  ghost predicate Drained(keys: set<string>, f: string -> PlayerSummary, remaining: set<string>, summaries: seq<PlayerSummary>) {
    && remaining <= keys
    && (forall t :: 0 <= t < |summaries| ==>
          summaries[t].playerId in keys - remaining && summaries[t] == f(summaries[t].playerId))
    && (forall p :: p in keys - remaining ==> exists t :: 0 <= t < |summaries| && summaries[t].playerId == p)
    && (forall s, t :: 0 <= s < t < |summaries| ==> LexLess(summaries[s].playerId, summaries[t].playerId))
    && (forall t, q :: 0 <= t < |summaries| && q in remaining ==> LexLess(summaries[t].playerId, q))
  }

  /** Summarising the least remaining player keeps the invariant. */
  lemma DrainStep(keys: set<string>, f: string -> PlayerSummary, remaining: set<string>, summaries: seq<PlayerSummary>, p: string)
    requires Drained(keys, f, remaining, summaries)
    requires p in remaining && forall q :: q in remaining && q != p ==> LexLess(p, q)
    requires f(p).playerId == p
    ensures Drained(keys, f, remaining - {p}, summaries + [f(p)])
  {
    var summaries' := summaries + [f(p)];
    forall q | q in keys - (remaining - {p})
      ensures exists t :: 0 <= t < |summaries'| && summaries'[t].playerId == q
    {
      if q == p {
        assert summaries'[|summaries|].playerId == q;
      } else {
        assert q in keys - remaining;
        var t :| 0 <= t < |summaries| && summaries[t].playerId == q;
        assert summaries'[t].playerId == q;
      }
    }
  }

  /** Once no player remains, every group is summarised. */
  lemma DrainedAll(byPlayer: map<string, seq<JudgedRow>>, calls: nat, hits: nat, summaries: seq<PlayerSummary>)
    requires Drained(byPlayer.Keys, Summarizer(byPlayer, calls, hits), {}, summaries)
    ensures forall t :: 0 <= t < |summaries| ==>
              && summaries[t].playerId in byPlayer
              && summaries[t] == SummaryOf(summaries[t].playerId, byPlayer[summaries[t].playerId], calls, hits)
    ensures forall p :: p in byPlayer ==> exists t :: 0 <= t < |summaries| && summaries[t].playerId == p
    ensures forall s, t :: 0 <= s < t < |summaries| ==> LexLess(summaries[s].playerId, summaries[t].playerId)
  {
    assert byPlayer.Keys - {} == byPlayer.Keys;
  }

  // ------------------------------------------------------------ the totals add up

  predicate DistinctIds(ss: seq<PlayerSummary>) {
    forall s, t :: 0 <= s < t < |ss| ==> ss[s].playerId != ss[t].playerId
  }

  /** The sum, over the players of `ss`, of their number of rows in `js`. */
  function RowsFor(ss: seq<PlayerSummary>, js: seq<JudgedRow>): nat {
    if ss == [] then 0 else |RowsOf(js, ss[0].playerId)| + RowsFor(ss[1..], js)
  }

  lemma {:induction false} RowsForStep(ss: seq<PlayerSummary>, js: seq<JudgedRow>, x: JudgedRow)
    requires DistinctIds(ss)
    ensures RowsFor(ss, js + [x]) ==
            RowsFor(ss, js) + (if exists t :: 0 <= t < |ss| && ss[t].playerId == x.row.playerId then 1 else 0)
  {
    if ss != [] {
      assert (js + [x])[..|js|] == js;
      RowsForStep(ss[1..], js, x);
      if ss[0].playerId == x.row.playerId {
        assert !exists t :: 0 <= t < |ss[1..]| && ss[1..][t].playerId == x.row.playerId;
      } else if exists t :: 0 <= t < |ss| && ss[t].playerId == x.row.playerId {
        var t :| 0 <= t < |ss| && ss[t].playerId == x.row.playerId;
        assert ss[1..][t - 1].playerId == x.row.playerId;
      }
    }
  }

  lemma {:induction false} RowsForAll(ss: seq<PlayerSummary>, js: seq<JudgedRow>)
    requires DistinctIds(ss)
    requires forall p :: p in Players(js) ==> exists t :: 0 <= t < |ss| && ss[t].playerId == p
    ensures RowsFor(ss, js) == |js|
  {
    if js == [] {
      RowsForNone(ss, js);
    } else {
      var init := js[..|js| - 1];
      var x := js[|js| - 1];
      assert js == init + [x];
      assert Players(init) <= Players(js);
      assert x.row.playerId in Players(js);
      RowsForAll(ss, init);
      RowsForStep(ss, init, x);
    }
  }

  lemma {:induction false} RowsForNone(ss: seq<PlayerSummary>, js: seq<JudgedRow>)
    requires js == []
    ensures RowsFor(ss, js) == 0
  {
    if ss != [] {
      RowsForNone(ss[1..], js);
    }
  }

  lemma {:induction false} TotalsAreRowsFor(ss: seq<PlayerSummary>, js: seq<JudgedRow>)
    requires forall t :: 0 <= t < |ss| ==> ss[t].totalAnswers == |RowsOf(js, ss[t].playerId)|
    ensures TotalOfTotals(ss) == RowsFor(ss, js)
  {
    if ss != [] {
      TotalsAreRowsFor(ss[1..], js);
    }
  }

  lemma SummariesTotal(js: seq<JudgedRow>, ss: seq<PlayerSummary>)
    requires forall t :: 0 <= t < |ss| ==> ss[t].totalAnswers == |RowsOf(js, ss[t].playerId)|
    requires forall s, t :: 0 <= s < t < |ss| ==> LexLess(ss[s].playerId, ss[t].playerId)
    requires forall p :: p in Players(js) ==> exists t :: 0 <= t < |ss| && ss[t].playerId == p
    ensures TotalOfTotals(ss) == |js|
  {
    forall s, t | 0 <= s < t < |ss|
      ensures ss[s].playerId != ss[t].playerId
    {
      LexLessIrreflexive(ss[s].playerId);
    }
    TotalsAreRowsFor(ss, js);
    RowsForAll(ss, js);
  }

  // ----------------------------------------------------------- per-player bounds

  /** What the scoring pass guarantees of every row it writes. */
  predicate WellScored(r: JudgedRow) {
    && (r.collision ==> r.valid)
    && r.score == (if r.valid && !r.collision then 1 else 0)
  }

  lemma ScoredIsWellScored(js: seq<JudgedRow>, i: nat)
    requires i < |js|
    ensures WellScored(Scored(js, i))
  {
  }

  predicate SummaryBounded(s: PlayerSummary) {
    && s.points <= s.validAnswers <= s.totalAnswers
    && s.distinctValidAnswers <= s.validAnswers
    && s.points + s.collisions == s.validAnswers
  }

  lemma {:induction false} RowsOfWellScored(js: seq<JudgedRow>, p: string)
    requires forall i :: 0 <= i < |js| ==> WellScored(js[i])
    ensures forall i :: 0 <= i < |RowsOf(js, p)| ==> WellScored(RowsOf(js, p)[i])
  {
    if js != [] {
      RowsOfWellScored(js[..|js| - 1], p);
    }
  }

  lemma {:induction false} CountsBounded(rs: seq<JudgedRow>)
    requires forall i :: 0 <= i < |rs| ==> WellScored(rs[i])
    ensures SumScores(rs) <= CountValid(rs) <= |rs|
    ensures SumScores(rs) + CountCollisions(rs) == CountValid(rs)
    ensures |DistinctValid(rs)| <= CountValid(rs)
  {
    if rs != [] {
      var init := rs[..|rs| - 1];
      var x := rs[|rs| - 1];
      CountsBounded(init);
      assert rs == init + [x];
      if x.valid && x.row.answerNorm != "" {
        var before := DistinctValid(init);
        assert DistinctValid(rs) == before + {x.row.answerNorm};
        if x.row.answerNorm !in before {
          assert |before + {x.row.answerNorm}| == |before| + 1;
        } else {
          assert before + {x.row.answerNorm} == before;
        }
      } else {
        assert DistinctValid(rs) == DistinctValid(init);
      }
    }
  }

  /** For scored rows a player's points, collisions and answer counts are
      consistent with each other. */
  lemma SummaryBounds(p: string, rs: seq<JudgedRow>, calls: nat, hits: nat)
    requires forall i :: 0 <= i < |rs| ==> WellScored(rs[i])
    ensures SummaryBounded(SummaryOf(p, rs, calls, hits))
  {
    CountsBounded(rs);
  }
}
