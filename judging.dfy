/**
  The judge's memo table (`JudgeCache`) and the cache-first validity decision
  (`OpenAIJudge.is_valid`). The language-model call is an oracle: the reply to
  the n-th external call of a run for a (letter, category, answer) question.
*/
module Judging {
  import opened Wrappers
  import opened Text

  /** The key `_key` builds: letter and category lowercased, the answer as
      given. The JSON string encoding of the key is replaced by the triple. */
  datatype CacheKey = CacheKey(letter: string, category: string, answer: string)

  function KeyOf(letter: string, category: string, answer: string): CacheKey {
    CacheKey(Lower(letter), Lower(category), answer)
  }

  /** Two questions share a cache entry exactly when their answers are equal
      and their letters and categories are equal up to case. */
  lemma SameKeyIff(letter: string, category: string, answer: string,
                   letter': string, category': string, answer': string)
    ensures KeyOf(letter, category, answer) == KeyOf(letter', category', answer') <==>
            Lower(letter) == Lower(letter') && Lower(category) == Lower(category') && answer == answer'
  {
  }

  /** The reply rule: valid when the trimmed reply starts with `y` or `Y`
      (lowercasing first and testing for `y` is the same test, see below). */
  predicate ReplyMeansYes(reply: string) {
    var t := Strip(reply);
    t != [] && LowerChar(t[0]) == 'y'
  }

  /** `reply.strip().lower().startswith("y")`. */
  lemma ReplyMeansYesIsLowerStartsWith(reply: string)
    ensures ReplyMeansYes(reply) <==> var t := Lower(Strip(reply)); |t| > 0 && t[0] == 'y'
  {
  }

  lemma ReplyMeansYesIff(reply: string)
    ensures ReplyMeansYes(reply) <==>
            exists i :: 0 <= i < |reply| && (reply[i] == 'y' || reply[i] == 'Y')
                        && forall k :: 0 <= k < i ==> IsSpace(reply[k])
  {
    if ReplyMeansYes(reply) {
      var i := YesAt(reply);
    }
    if exists i :: 0 <= i < |reply| && (reply[i] == 'y' || reply[i] == 'Y')
                   && forall k :: 0 <= k < i ==> IsSpace(reply[k]) {
      var i :| 0 <= i < |reply| && (reply[i] == 'y' || reply[i] == 'Y')
               && forall k :: 0 <= k < i ==> IsSpace(reply[k]);
      YesFrom(reply, i);
    }
  }

  /** A reply that means yes has a `y` or `Y` after leading whitespace. */
  lemma YesAt(reply: string) returns (i: nat)
    requires ReplyMeansYes(reply)
    ensures i < |reply| && (reply[i] == 'y' || reply[i] == 'Y')
    ensures forall k :: 0 <= k < i ==> IsSpace(reply[k])
  {
    var j;
    i, j := StripSlice(reply);
    assert Strip(reply)[0] == reply[i];
  }

  /** A `y` or `Y` after leading whitespace means yes. */
  lemma YesFrom(reply: string, i: nat)
    requires i < |reply| && (reply[i] == 'y' || reply[i] == 'Y')
    requires forall k :: 0 <= k < i ==> IsSpace(reply[k])
    ensures ReplyMeansYes(reply)
  {
    var i', j := StripSlice(reply);
    assert !IsSpace(reply[i]);
    assert i' <= i < j;
    assert Strip(reply)[0] == reply[i];
  }

  /** The judge cache's table and counters as a value. */
  datatype CacheState = CacheState(data: map<CacheKey, bool>, hits: nat, calls: nat)

  /** A validity decision and the cache state it leaves. */
  datatype Verdict = Verdict(valid: bool, after: CacheState)

  /** What `is_valid` decides and does to the cache in state `s`: nothing for
      an empty answer, a hit for a known key, otherwise the `oracle` reply to
      call number `s.calls`, read and stored. */
  function Judgement(oracle: (nat, string, string, string) -> string, s: CacheState,
                     letter: string, category: string, answer: string): (r: Verdict)
    ensures r.valid ==> answer != ""
    ensures answer != "" ==> KeyOf(letter, category, answer) in r.after.data &&
                             r.after.data[KeyOf(letter, category, answer)] == r.valid
    ensures forall k :: k in s.data ==> k in r.after.data && r.after.data[k] == s.data[k]
    ensures r.after.data.Keys == s.data.Keys + (if answer == "" then {} else {KeyOf(letter, category, answer)})
    ensures r.after.hits + r.after.calls == s.hits + s.calls + (if answer == "" then 0 else 1)
    ensures r.after.calls == s.calls + (if answer == "" || KeyOf(letter, category, answer) in s.data then 0 else 1)
  {
    var k := KeyOf(letter, category, answer);
    if answer == "" then Verdict(false, s)
    else if k in s.data then Verdict(s.data[k], s.(hits := s.hits + 1))
    else
      var v := ReplyMeansYes(oracle(s.calls, letter, category, answer));
      Verdict(v, CacheState(s.data[k := v], s.hits, s.calls + 1))
  }

  class JudgeCache {
    var data: map<CacheKey, bool>
    var hits: nat
    var calls: nat

    /** A cache whose table was loaded from disk (`loaded`, empty when there
        is no cache file); both counters start at 0. */
    constructor (loaded: map<CacheKey, bool>)
      ensures data == loaded && hits == 0 && calls == 0
    {
      data := loaded;
      hits := 0;
      calls := 0;
    }

    /** `get`: the stored decision, counting a hit; `None` on a miss. */
    method Get(letter: string, category: string, answer: string) returns (r: Option<bool>)
      modifies this`hits
      ensures var k := KeyOf(letter, category, answer);
              if k in data then r == Some(data[k]) && hits == old(hits) + 1
              else r == None && hits == old(hits)
    {
      var k := KeyOf(letter, category, answer);
      if k in data {
        hits := hits + 1;
        r := Some(data[k]);
      } else {
        r := None;
      }
    }

    /** `put`: the last write for a key wins; no other key changes. */
    method Put(letter: string, category: string, answer: string, value: bool)
      modifies this`data
      ensures data == old(data)[KeyOf(letter, category, answer) := value]
    {
      data := data[KeyOf(letter, category, answer) := value];
    }
  }

  class Judge {
    const cache: JudgeCache
    /** The judge model: its reply to the n-th external call for a letter,
        category and normalised answer. */
    const oracle: (nat, string, string, string) -> string

    constructor (cache: JudgeCache, oracle: (nat, string, string, string) -> string)
      ensures this.cache == cache && this.oracle == oracle
    {
      this.cache := cache;
      this.oracle := oracle;
    }

    /** `is_valid`: empty answers are invalid without any lookup; otherwise
        the cached decision, or one external call whose reading is cached. */
    method IsValid(letter: string, category: string, answer: string) returns (v: bool)
      modifies cache
      ensures answer == "" ==>
                !v && cache.data == old(cache.data) && cache.hits == old(cache.hits) && cache.calls == old(cache.calls)
      ensures answer != "" && KeyOf(letter, category, answer) in old(cache.data) ==>
                && v == old(cache.data)[KeyOf(letter, category, answer)]
                && cache.data == old(cache.data)
                && cache.hits == old(cache.hits) + 1
                && cache.calls == old(cache.calls)
      ensures answer != "" && KeyOf(letter, category, answer) !in old(cache.data) ==>
                && v == ReplyMeansYes(oracle(old(cache.calls), letter, category, answer))
                && cache.data == old(cache.data)[KeyOf(letter, category, answer) := v]
                && cache.hits == old(cache.hits)
                && cache.calls == old(cache.calls) + 1
    ensures Judgement(oracle, CacheState(old(cache.data), old(cache.hits), old(cache.calls)), letter, category, answer)
            == Verdict(v, CacheState(cache.data, cache.hits, cache.calls))
    {
      if answer == "" {
        return false;
      }
      ghost var data0 := cache.data;
      var cached := cache.Get(letter, category, answer);
      assert cache.data == data0;
      if cached.Some? {
        return cached.value;
      }
      assert cache.hits == old(cache.hits);
      var reply := oracle(cache.calls, letter, category, answer);
      cache.calls := cache.calls + 1;
      v := ReplyMeansYes(reply);
      cache.Put(letter, category, answer, v);
      assert cache.data == data0[KeyOf(letter, category, answer) := v];
    }
  }

  /** Asking the same question twice: the second answer comes from the cache,
      agrees with the first, and makes no external call. */
  method AskTwice(judge: Judge, letter: string, category: string, answer: string)
    returns (first: bool, second: bool)
    modifies judge.cache
    ensures first == second
    ensures answer != "" ==> KeyOf(letter, category, answer) in judge.cache.data
    ensures judge.cache.calls <= old(judge.cache.calls) + 1
    ensures answer != "" && KeyOf(letter, category, answer) !in old(judge.cache.data) ==>
              judge.cache.calls == old(judge.cache.calls) + 1 && judge.cache.hits == old(judge.cache.hits) + 1
  {
    first := judge.IsValid(letter, category, answer);
    second := judge.IsValid(letter, category, answer);
  }
}
