/** The result cache of `get_stats`: when its text key determines the answer,
    and why a hit is still a fresh answer. crates/query-api/src/handlers.rs. */
module ResultCache {
  import opened Collections
  import opened Windows
  import opened Hierarchy
  import opened Sketches
  import opened Storage
  import opened Protocol
  import opened Durability
  import opened Queries
  import opened SketchQueries
  import opened Handlers
  import opened Freezing

  // ---------- The key ----------

  function Colons(s: string): nat {
    if |s| == 0 then 0 else (if s[0] == ':' then 1 else 0) + Colons(s[1..])
  }

  predicate ColonFree(s: string) {
    ':' !in s
  }

  function OrEmpty(s: Option<string>): string {
    if s.Some? then s.value else ""
  }

  function LevelText(level: int): string {
    if level == 0 then "0" else if level == 1 then "1" else if level == 2 then "2" else "3"
  }

  function EstimatorText(e: Estimator): string {
    if e.Exact? then "Exact" else "Hll"
  }

  /** A rendering of instants like RFC 3339 in UTC: one text per instant, with
      the three colons of the time of day and the offset. */
  ghost predicate Rfc3339Like(render: Time -> string) {
    && (forall t, u :: render(t) == render(u) ==> t == u)
    && (forall t :: Colons(render(t)) == 3)
  }

  function CacheKey(render: Time -> string, q: StatsQuery): string {
    render(q.window) + ":" + (LevelText(q.level) + ":" + Tail(q))
  }

  /** The part of the key a caller writes freely. */
  function Tail(q: StatsQuery): string {
    OrEmpty(q.family) + ":" + (OrEmpty(q.wiki) + ":" + EstimatorText(q.estimator))
  }

  lemma {:induction false} ColonsOfAppend(a: string, b: string)
    ensures Colons(a + b) == Colons(a) + Colons(b)
  {
    if |a| == 0 {
      assert a + b == b;
    } else {
      ColonsOfAppend(a[1..], b);
      assert (a + b)[1..] == a[1..] + b;
    }
  }

  lemma {:induction false} ColonFreeIff(s: string)
    ensures ColonFree(s) <==> Colons(s) == 0
  {
    if |s| > 0 {
      ColonFreeIff(s[1..]);
      assert s == [s[0]] + s[1..];
    }
  }

  /** A text splits at a colon in one way once the colons before it are known. */
  lemma {:induction false} SplitsOnce(a: string, x: string, b: string, y: string)
    requires a + ":" + x == b + ":" + y && Colons(a) == Colons(b)
    ensures a == b && x == y
  {
    if |a| < |b| {
      PrefixHasFewerColons(a, x, b, y);
    } else if |b| < |a| {
      PrefixHasFewerColons(b, y, a, x);
    }
    assert (a + ":" + x)[..|a|] == a && (b + ":" + y)[..|b|] == b;
    assert (a + ":" + x)[|a| + 1..] == x && (b + ":" + y)[|b| + 1..] == y;
  }

  lemma {:induction false} PrefixHasFewerColons(a: string, x: string, b: string, y: string)
    requires a + ":" + x == b + ":" + y && |a| < |b|
    ensures Colons(a) < Colons(b)
  {
    var whole := a + ":" + x;
    assert b == whole[..|b|];
    assert b == a + (":" + whole[|a| + 1..|b|]);
    ColonsOfAppend(a, ":" + whole[|a| + 1..|b|]);
  }

  lemma {:induction false} ColonsOfJoin(a: string, b: string)
    ensures Colons(a + ":" + b) == Colons(a) + 1 + Colons(b)
  {
    ColonsOfAppend(a + ":", b);
    ColonsOfAppend(a, ":");
  }

  lemma {:induction false} TailColons(q: StatsQuery)
    ensures Colons(Tail(q)) == Colons(OrEmpty(q.family)) + Colons(OrEmpty(q.wiki)) + 2
  {
    hide Colons;
    ColonFreeIff(EstimatorText(q.estimator));
    ColonsOfJoin(OrEmpty(q.wiki), EstimatorText(q.estimator));
    ColonsOfJoin(OrEmpty(q.family), OrEmpty(q.wiki) + ":" + EstimatorText(q.estimator));
  }

  /** The key always tells the window, the level and the rest apart. */
  lemma {:induction false} KeyHead(render: Time -> string, q: StatsQuery, r: StatsQuery)
    requires Rfc3339Like(render) && ValidQuery(q) && ValidQuery(r) && CacheKey(render, q) == CacheKey(render, r)
    ensures q.window == r.window && q.level == r.level && Tail(q) == Tail(r)
  {
    hide Tail, Colons;
    SplitsOnce(render(q.window), LevelText(q.level) + ":" + Tail(q), render(r.window),
        LevelText(r.level) + ":" + Tail(r));
    ColonFreeIff(LevelText(q.level));
    ColonFreeIff(LevelText(r.level));
    SplitsOnce(LevelText(q.level), Tail(q), LevelText(r.level), Tail(r));
  }

  /** The estimator is whatever follows the last colon. */
  lemma {:induction false} TailEstimator(q: StatsQuery, r: StatsQuery)
    requires Tail(q) == Tail(r)
    ensures q.estimator == r.estimator
  {
    var n := |Tail(q)| - 1;
    assert Tail(q)[n] == EstimatorText(q.estimator)[|EstimatorText(q.estimator)| - 1];
    assert Tail(r)[n] == EstimatorText(r.estimator)[|EstimatorText(r.estimator)| - 1];
  }

  /** With colon-free names on one side, equal tails are equal name by name. */
  lemma {:induction false} TailNames(q: StatsQuery, r: StatsQuery)
    requires Tail(q) == Tail(r) && ColonFree(OrEmpty(q.family)) && ColonFree(OrEmpty(q.wiki))
    ensures OrEmpty(q.family) == OrEmpty(r.family) && OrEmpty(q.wiki) == OrEmpty(r.wiki)
  {
    hide Colons;
    ColonFreeIff(OrEmpty(q.family));
    ColonFreeIff(OrEmpty(q.wiki));
    TailColons(q);
    TailColons(r);
    SplitsOnce(OrEmpty(q.family), OrEmpty(q.wiki) + ":" + EstimatorText(q.estimator),
               OrEmpty(r.family), OrEmpty(r.wiki) + ":" + EstimatorText(r.estimator));
    SplitsOnce(OrEmpty(q.wiki), EstimatorText(q.estimator), OrEmpty(r.wiki), EstimatorText(r.estimator));
  }

  /** Two queries that `compute_stats` cannot tell apart. */
  predicate SameQuestion(q: StatsQuery, r: StatsQuery)
    requires ValidQuery(q) && ValidQuery(r)
  {
    q.window == r.window && q.level == r.level && q.estimator == r.estimator && ParentKey(q) == ParentKey(r)
  }

  /** What the caller can check before asking. */
  predicate PlainNames(q: StatsQuery) {
    q.level <= LEVEL_FAMILY || (ColonFree(OrEmpty(q.family)) && ColonFree(OrEmpty(q.wiki)))
  }

  lemma {:induction false} PlainKeyDetermines(render: Time -> string, q: StatsQuery, r: StatsQuery)
    requires Rfc3339Like(render) && ValidQuery(q) && ValidQuery(r) && CacheKey(render, q) == CacheKey(render, r)
    requires PlainNames(q)
    ensures SameQuestion(q, r)
  {
    hide CacheKey, Tail, Rfc3339Like;
    KeyHead(render, q, r);
    TailEstimator(q, r);
    if q.level > LEVEL_FAMILY {
      TailNames(q, r);
    }
  }

  /** Any other split of the names at a colon makes the same key. */
  lemma {:induction false} ColonCollides(render: Time -> string, q: StatsQuery) returns (r: StatsQuery)
    requires ValidQuery(q) && !PlainNames(q)
    ensures ValidQuery(r) && CacheKey(render, r) == CacheKey(render, q) && !SameQuestion(q, r)
  {
    var f, w := OrEmpty(q.family), OrEmpty(q.wiki);
    var e := EstimatorText(q.estimator);
    if ':' in f {
      var i :| 0 <= i < |f| && f[i] == ':';
      r := q.(family := Some(f[..i]), wiki := Some(f[i + 1..] + ":" + w));
      assert f == f[..i] + ":" + f[i + 1..];
      assert f[..i] + ":" + ((f[i + 1..] + ":" + w) + ":" + e) == (f[..i] + ":" + f[i + 1..]) + ":" + (w + ":" + e);
      assert |f[..i]| < |f|;
    } else {
      var i :| 0 <= i < |w| && w[i] == ':';
      r := q.(family := Some(f + ":" + w[..i]), wiki := Some(w[i + 1..]));
      assert w == w[..i] + ":" + w[i + 1..];
      assert (f + ":" + w[..i]) + ":" + (w[i + 1..] + ":" + e) == f + ":" + ((w[..i] + ":" + w[i + 1..]) + ":" + e);
      assert |f + ":" + w[..i]| > |f|;
    }
  }

  /** The cache key determines the question, exactly: no valid query with
      another question shares a query's key if and only if the query is at level
      0 or 1, or its family and wiki contain no colon. */
  lemma {:induction false} KeyDeterminesIff(render: Time -> string, q: StatsQuery)
    requires Rfc3339Like(render) && ValidQuery(q)
    ensures (forall r :: ValidQuery(r) && CacheKey(render, r) == CacheKey(render, q) ==> SameQuestion(q, r)) <==>
        PlainNames(q)
  {
    hide CacheKey, PlainNames, SameQuestion, Rfc3339Like, ValidQuery;
    if PlainNames(q) {
      forall r | ValidQuery(r) && CacheKey(render, r) == CacheKey(render, q)
        ensures SameQuestion(q, r)
      {
        PlainKeyDetermines(render, q, r);
      }
    } else {
      var r := ColonCollides(render, q);
    }
  }

  lemma {:induction false} SameQuestionSameAnswer(view: seq<CellRows>, q: StatsQuery, r: StatsQuery, k: nat,
                                                  estimate: Estimate, resp: StatsResponse)
    requires ValidQuery(q) && ValidQuery(r) && SameQuestion(q, r) && IsAnswer(view, q, k, estimate, resp)
    ensures IsAnswer(view, r, k, estimate, resp)
  {
  }

  // ---------- The cache ----------

  /** Entry `key` answers, on these tables, a covered query that has this key. */
  ghost predicate EntrySound(render: Time -> string, tables: seq<Table>, k: nat, estimate: Estimate,
                             key: string, resp: StatsResponse) {
    exists q :: ValidQuery(q) && CacheKey(render, q) == key && AllCovered(tables, q.window)
                && IsAnswer(ViewAt(tables, q.window), q, k, estimate, resp)
  }

  ghost predicate CacheSound(render: Time -> string, tables: seq<Table>, k: nat, estimate: Estimate,
                             cache: map<string, StatsResponse>) {
    forall key :: key in cache ==> EntrySound(render, tables, k, estimate, key, cache[key])
  }

  /** Entries never go stale: what was an answer when cached is an answer on
      every extension of the tables. */
  lemma {:induction false} CacheStaysSound(render: Time -> string, earlier: seq<Table>, later: seq<Table>, k: nat,
                                           estimate: Estimate, cache: map<string, StatsResponse>)
    requires CacheSound(render, earlier, k, estimate, cache) && AllExtend(earlier, later)
    ensures CacheSound(render, later, k, estimate, cache)
  {
    hide IsAnswer, CacheKey, AllCovered, AllExtend, ViewAt, ValidQuery;
    forall key | key in cache
      ensures EntrySound(render, later, k, estimate, key, cache[key])
    {
      var q :| ValidQuery(q) && CacheKey(render, q) == key && AllCovered(earlier, q.window)
               && IsAnswer(ViewAt(earlier, q.window), q, k, estimate, cache[key]);
      CoveredViewFrozen(earlier, later, q.window);
      assert ValidQuery(q) && CacheKey(render, q) == key && AllCovered(later, q.window)
             && IsAnswer(ViewAt(later, q.window), q, k, estimate, cache[key]);
    }
  }

  /** A hit for a query with plain names is an answer to that query. */
  lemma {:induction false} HitIsAnswer(render: Time -> string, tables: seq<Table>, k: nat, estimate: Estimate,
                                       cache: map<string, StatsResponse>, q: StatsQuery)
    requires Rfc3339Like(render) && CacheSound(render, tables, k, estimate, cache)
    requires ValidQuery(q) && PlainNames(q) && CacheKey(render, q) in cache
    ensures IsAnswer(ViewAt(tables, q.window), q, k, estimate, cache[CacheKey(render, q)])
  {
    hide IsAnswer, CacheKey, AllCovered, ViewAt, PlainNames, Rfc3339Like;
    var key := CacheKey(render, q);
    assert EntrySound(render, tables, k, estimate, key, cache[key]);
    var r :| ValidQuery(r) && CacheKey(render, r) == key && AllCovered(tables, r.window)
             && IsAnswer(ViewAt(tables, r.window), r, k, estimate, cache[key]);
    PlainKeyDetermines(render, q, r);
    SameQuestionSameAnswer(ViewAt(tables, q.window), r, q, k, estimate, cache[key]);
  }

  class QueryApi {
    var cache: map<string, StatsResponse>
    const k: nat

    constructor (threshold: nat)
      ensures cache == map[] && k == threshold
    {
      cache := map[];
      k := threshold;
    }

    /** `get_stats`, with noise off. The gate and the two queries are separate
        statements: commits may land in between, so each reads its own state of
        the tables. Given a progress row for every partition at the gate, the
        cache stays sound and a query with plain names gets an answer that a
        recomputation could give; the gate decides everything else. */
    method GetStats(render: Time -> string, estimate: Estimate, ghost hash: Hasher, ghost early: seq<Part>,
                    ghost late: seq<Part>, gate: seq<Table>, first: seq<Table>, second: seq<Table>, q: StatsQuery,
                    ghost most: nat) returns (reply: Reply)
      requires Rfc3339Like(render) && PartsSound(hash, early) && PartsSound(hash, late)
      requires first == TablesOf(early) && second == TablesOf(late)
      requires AllExtend(gate, first) && AllExtend(first, second)
      requires ValidQuery(q) ==>
                 && SumsFit(ViewAt(first, q.window), ParentKey(q), q.estimator, estimate, most)
                 && SumsFit(ViewAt(second, q.window), ParentKey(q), q.estimator, estimate, most)
      modifies this
      ensures reply.BadRequest? <==> !ValidQuery(q)
      ensures reply.BadRequest? <==>
                q.level < 0 || q.level > 3 || (q.level >= 2 && q.family.None?) || (q.level == 3 && q.wiki.None?)
      ensures reply.Ok? <==> !reply.BadRequest? && Complete(gate, q.window)
      ensures reply.Conflict? <==> ValidQuery(q) && !Complete(gate, q.window)
      ensures !reply.Ok? ==> cache == old(cache)
      ensures reply.Ok? ==> cache == old(cache)[CacheKey(render, q) := reply.response]
      ensures reply.Ok? && CacheKey(render, q) in old(cache) ==> reply.response == old(cache)[CacheKey(render, q)]
      ensures reply.Ok? && CacheKey(render, q) !in old(cache) ==>
                && reply.response.windowStart == q.window && reply.response.level == q.level
                && IsAnswerOver(ViewAt(first, q.window), ViewAt(second, q.window), q, k, estimate, reply.response)
      ensures AllHaveProgress(gate) && CacheSound(render, gate, k, estimate, old(cache)) ==>
                && CacheSound(render, second, k, estimate, cache)
                && (reply.Ok? && PlainNames(q) ==> IsAnswer(ViewAt(second, q.window), q, k, estimate, reply.response))
    {
      hide IsAnswerOver, CacheKey, AllCovered, ViewAt, PlainNames, Rfc3339Like, Complete, SumsFit, PartsSound;
      hide AllExtend, CacheSound;
      if AllHaveProgress(gate) && CacheSound(render, gate, k, estimate, cache) {
        CacheStaysSound(render, gate, first, k, estimate, cache);
        CacheStaysSound(render, first, second, k, estimate, cache);
      }
      if !ValidQuery(q) {
        return BadRequest;
      }
      if !Complete(gate, q.window) {
        return Conflict;
      }
      var key := CacheKey(render, q);
      if key in cache {
        if CacheSound(render, second, k, estimate, cache) && PlainNames(q) {
          HitIsAnswer(render, second, k, estimate, cache, q);
        }
        return Ok(cache[key]);
      }
      var response := ComputeStats(hash, early, late, ViewAt(first, q.window), ViewAt(second, q.window), q, k,
                                   estimate, most);
      if AllHaveProgress(gate) && CacheSound(render, second, k, estimate, cache) {
        GateCovers(gate, q.window);
        CoveredViewFrozen(gate, first, q.window);
        CoveredViewFrozen(first, second, q.window);
        AnswerJoins(render, second, k, estimate, cache, q, response);
      }
      cache := cache[key := response];
      return Ok(response);
    }
  }

  lemma {:induction false} AnswerJoins(render: Time -> string, tables: seq<Table>, k: nat, estimate: Estimate,
                                       cache: map<string, StatsResponse>, q: StatsQuery, resp: StatsResponse)
    requires CacheSound(render, tables, k, estimate, cache) && ValidQuery(q) && AllCovered(tables, q.window)
    requires IsAnswer(ViewAt(tables, q.window), q, k, estimate, resp)
    ensures CacheSound(render, tables, k, estimate, cache[CacheKey(render, q) := resp])
  {
    hide IsAnswer, CacheKey, AllCovered, ViewAt, ValidQuery;
    assert EntrySound(render, tables, k, estimate, CacheKey(render, q), resp);
  }

  // ---------- The cache against a running cluster ----------

  /** Cached equals fresh: after any further steps of the aggregators, crashes
      included, a cached response to a query with plain names, exact or by
      sketch, is an answer recomputation may give, and is the same as every such
      answer up to ties, whatever order the rows come in. */
  lemma {:induction false} CachedEqualsFresh(render: Time -> string, hash: Hasher, before: seq<Part>,
                                             runs: seq<seq<Action>>, after: seq<Part>, k: nat, estimate: Estimate,
                                             cache: map<string, StatsResponse>, q: StatsQuery, fresh': StatsResponse)
    requires Rfc3339Like(render) && PartsSound(hash, before) && PartsRun(hash, before, runs, after)
    requires CacheSound(render, TablesOf(before), k, estimate, cache)
    requires ValidQuery(q) && PlainNames(q) && CacheKey(render, q) in cache
    requires IsAnswer(ViewAt(TablesOf(after), q.window), q, k, estimate, fresh')
    ensures var cached := cache[CacheKey(render, q)];
            && IsAnswer(ViewAt(TablesOf(after), q.window), q, k, estimate, cached)
            && SameAnswer(ViewAt(TablesOf(after), q.window), q, k, estimate, cached, fresh')
  {
    hide IsAnswer, CacheKey, ViewAt, PlainNames, Rfc3339Like, CacheSound, ValidQuery, Inv, Runs, Exec,
        SameAnswer, Extends;
    forall p | 0 <= p < |before|
      ensures Extends(TablesOf(before)[p], TablesOf(after)[p])
    {
      RunExtends(before[p].log, hash, before[p].state, runs[p]);
    }
    CacheStaysSound(render, TablesOf(before), TablesOf(after), k, estimate, cache);
    HitIsAnswer(render, TablesOf(after), k, estimate, cache, q);
    PartsRunSound(hash, before, runs, after);
    AnswersAgree(hash, after, q, k, estimate, cache[CacheKey(render, q)], fresh');
  }
}
