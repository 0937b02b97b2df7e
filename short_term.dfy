/**
 * The short-term tier of interpreter/tools/memory.py: the in-process list of
 * recent memories, its searches and the way `recall` merges it with the
 * long-term tier.  A memory is a Python dict shared by reference between the
 * cache and every result list built from it, so it is an object here; the
 * only entry the store ever writes into an existing memory is its `score`.
 */
module ShortTerm {

  import opened Base
  import opened Text
  import Scoring
  import Ranking

  /** DEFAULT_SHORT_TERM_CAPACITY. */
  const Capacity: nat := 100

  class Record {
    const id: Option<int>
    const content: string
    const tags: seq<string>
    const metadata: map<string, string>
    const createdAt: int
    const lastAccessed: int
    const accessCount: int
    var score: Option<real>

    constructor (id: Option<int>, content: string, tags: seq<string>, metadata: map<string, string>,
                 createdAt: int, lastAccessed: int, accessCount: int, score: Option<real>)
      ensures this.id == id && this.content == content && this.tags == tags && this.metadata == metadata
      ensures this.createdAt == createdAt && this.lastAccessed == lastAccessed
      ensures this.accessCount == accessCount && this.score == score
    {
      this.id := id;
      this.content := content;
      this.tags := tags;
      this.metadata := metadata;
      this.createdAt := createdAt;
      this.lastAccessed := lastAccessed;
      this.accessCount := accessCount;
      this.score := score;
    }
  }

  /** No memory appears twice. */
  predicate Distinct(s: seq<Record>)
  {
    forall i, j :: 0 <= i < j < |s| ==> s[i] != s[j]
  }

  /** Keeping the head of a duplicate-free list in front of a sublist of its tail keeps it duplicate-free. */
  lemma KeepHeadDistinct(s: seq<Record>, rest: seq<Record>)
    requires |s| > 0
    ensures Distinct(s) && Distinct(rest) && (forall m :: m in rest ==> m in s[1..]) ==> Distinct([s[0]] + rest)
  {
    if Distinct(s) && Distinct(rest) && (forall m :: m in rest ==> m in s[1..]) {
      assert s[0] !in s[1..] by {
        forall j | 1 <= j < |s| ensures s[j] != s[0] { }
      }
      forall i, j | 0 <= i < j < |[s[0]] + rest|
        ensures ([s[0]] + rest)[i] != ([s[0]] + rest)[j]
      {
        if i == 0 {
          assert ([s[0]] + rest)[j] == rest[j - 1];
          assert rest[j - 1] in rest;
        }
      }
    }
  }

  // ---------------------------------------------------------------------------
  // Searching the cache

  /** Whether `_search_short_term` keeps `m`: each filter applies only when its argument is truthy. */
  predicate Selected(m: Record, query: string, tags: seq<string>)
  {
    (query == "" || ContainsIgnoringCase(m.content, query)) && (tags == [] || AnyTagIn(tags, m.tags))
  }

  /** `[m for m in results if query.lower() in m["content"].lower()]`. */
  function WithQuery(s: seq<Record>, query: string): (r: seq<Record>)
    ensures forall i :: 0 <= i < |r| ==> r[i] in s && ContainsIgnoringCase(r[i].content, query)
    ensures forall i :: 0 <= i < |s| && ContainsIgnoringCase(s[i].content, query) ==> s[i] in r
    ensures Distinct(s) ==> Distinct(r)
  {
    if |s| == 0 then []
    else
      var rest := WithQuery(s[1..], query);
      if ContainsIgnoringCase(s[0].content, query) then
        KeepHeadDistinct(s, rest);
        [s[0]] + rest
      else
        rest
  }

  /** `[m for m in results if any(tag in m.get("tags", []) for tag in tags)]`. */
  function WithAnyTag(s: seq<Record>, tags: seq<string>): (r: seq<Record>)
    ensures forall i :: 0 <= i < |r| ==> r[i] in s && AnyTagIn(tags, r[i].tags)
    ensures forall i :: 0 <= i < |s| && AnyTagIn(tags, s[i].tags) ==> s[i] in r
    ensures Distinct(s) ==> Distinct(r)
  {
    if |s| == 0 then []
    else
      var rest := WithAnyTag(s[1..], tags);
      if AnyTagIn(tags, s[0].tags) then
        KeepHeadDistinct(s, rest);
        [s[0]] + rest
      else
        rest
  }

  /** The cache entries `_search_short_term` goes on to score, in cache order. */
  function Hits(cache: seq<Record>, query: string, tags: seq<string>): (r: seq<Record>)
    ensures forall i :: 0 <= i < |r| ==> r[i] in cache && Selected(r[i], query, tags)
    ensures forall i :: 0 <= i < |cache| && Selected(cache[i], query, tags) ==> cache[i] in r
    ensures Distinct(cache) ==> Distinct(r)
  {
    var byQuery := if query != "" then WithQuery(cache, query) else cache;
    if tags != [] then WithAnyTag(byQuery, tags) else byQuery
  }

  /** Scoring `m` does not divide by zero. */
  predicate Scorable(m: Record, now: int)
  {
    Scoring.RecencyDefined(Scoring.AgeHours(now - m.createdAt))
  }

  /** No entry of `s` makes scoring raise. */
  predicate AllScorable(s: seq<Record>, now: int)
  {
    forall i :: 0 <= i < |s| ==> Scorable(s[i], now)
  }

  /** The score `_search_short_term` writes into `m`, from its age and access count. */
  function Score(m: Record, now: int): real
    requires Scorable(m, now)
  {
    Scoring.ShortTermScore(now - m.createdAt, m.accessCount)
  }

  function Scored(hits: seq<Record>, now: int): (r: seq<(Record, real)>)
    requires AllScorable(hits, now)
    ensures |r| == |hits| && forall i :: 0 <= i < |hits| ==> r[i] == (hits[i], Score(hits[i], now))
  {
    seq(|hits|, i requires 0 <= i < |hits| => (hits[i], Score(hits[i], now)))
  }

  /**
   * What `_search_short_term(query, tags)` returns: the hits sorted by score,
   * highest first, stably; `None` when scoring some hit raises
   * ZeroDivisionError.
   */
  function Search(cache: seq<Record>, query: string, tags: seq<string>, now: int): Option<seq<Record>>
  {
    var hits := Hits(cache, query, tags);
    if AllScorable(hits, now) then
      Some(Ranking.Items(Ranking.SortByScore(Scored(hits, now))))
    else
      None
  }

  /** The hits of `s` whose score is `k`, in order. */
  function WithScoreOf(s: seq<Record>, now: int, k: real): seq<Record>
    requires AllScorable(s, now)
  {
    if |s| == 0 then [] else (if Score(s[0], now) == k then [s[0]] else []) + WithScoreOf(s[1..], now, k)
  }

  /** Every pair of `p` carries its own memory's score. */
  predicate CarriesScores(p: seq<(Record, real)>, now: int)
  {
    forall i :: 0 <= i < |p| ==> Scorable(p[i].0, now) && p[i].1 == Score(p[i].0, now)
  }

  lemma SortedCarriesScores(hits: seq<Record>, now: int)
    requires AllScorable(hits, now)
    ensures CarriesScores(Ranking.SortByScore(Scored(hits, now)), now)
  {
    var scored := Scored(hits, now);
    var sorted := Ranking.SortByScore(scored);
    forall i | 0 <= i < |sorted| ensures Scorable(sorted[i].0, now) && sorted[i].1 == Score(sorted[i].0, now) {
      assert sorted[i] in multiset(scored);
    }
  }

  lemma {:induction false} ItemsWithScore(p: seq<(Record, real)>, now: int, k: real)
    requires CarriesScores(p, now)
    ensures AllScorable(Ranking.Items(p), now)
    ensures Ranking.Items(Ranking.WithScore(p, k)) == WithScoreOf(Ranking.Items(p), now, k)
    decreases |p|
  {
    if |p| != 0 {
      ItemsWithScore(p[1..], now, k);
      assert Ranking.Items(p)[1..] == Ranking.Items(p[1..]);
      var head := if p[0].1 == k then [p[0]] else [];
      assert Ranking.WithScore(p, k) == head + Ranking.WithScore(p[1..], k);
      assert Ranking.Items(head + Ranking.WithScore(p[1..], k))
          == Ranking.Items(head) + Ranking.Items(Ranking.WithScore(p[1..], k));
    }
  }

  /** Scoring a memory raises only when it lies exactly one day in the future. */
  lemma ScorableIff(m: Record, now: int)
    ensures Scorable(m, now) <==> m.createdAt != now + Scoring.SecondsPerDay
  {
    Scoring.RecencyDefinedIff(now - m.createdAt);
  }

  /**
   * The search fails (ZeroDivisionError) exactly when some selected entry
   * lies one day in the future, the age at which the recency denominator
   * `1 + age_hours / 24` vanishes.
   */
  lemma SearchFailsIff(cache: seq<Record>, query: string, tags: seq<string>, now: int)
    ensures Search(cache, query, tags, now).None? <==>
      exists m :: m in cache && Selected(m, query, tags) && m.createdAt == now + Scoring.SecondsPerDay
  {
    var hits := Hits(cache, query, tags);
    forall i | 0 <= i < |hits| ensures Scorable(hits[i], now) <==> hits[i].createdAt != now + Scoring.SecondsPerDay {
      ScorableIff(hits[i], now);
    }
    if exists m :: m in cache && Selected(m, query, tags) && m.createdAt == now + Scoring.SecondsPerDay {
      var m :| m in cache && Selected(m, query, tags) && m.createdAt == now + Scoring.SecondsPerDay;
      var i :| 0 <= i < |cache| && cache[i] == m;
      assert m in hits;
    }
  }

  /**
   * A successful search returns exactly the cache entries that pass both
   * filters, each as often as the filters keep it, so once when the cache
   * holds no duplicates, and nothing else.
   */
  lemma SearchSelectsExactly(cache: seq<Record>, query: string, tags: seq<string>, now: int)
    requires Search(cache, query, tags, now).Some?
    ensures var r := Search(cache, query, tags, now).value;
      && (forall i :: 0 <= i < |r| ==> r[i] in cache && Selected(r[i], query, tags))
      && (forall i :: 0 <= i < |cache| && Selected(cache[i], query, tags) ==> cache[i] in r)
      && multiset(r) == multiset(Hits(cache, query, tags))
      && (Distinct(cache) ==> Distinct(r))
  {
    var hits := Hits(cache, query, tags);
    var scored := Scored(hits, now);
    var r := Search(cache, query, tags, now).value;
    assert Ranking.Items(scored) == hits;
    Ranking.SortKeepsItems(scored);
    assert multiset(r) == multiset(hits);
    forall i | 0 <= i < |r| ensures r[i] in hits {
      assert r[i] in multiset(hits);
    }
    forall i | 0 <= i < |cache| && Selected(cache[i], query, tags) ensures cache[i] in r {
      assert cache[i] in multiset(r);
    }
    if Distinct(cache) {
      DistinctByMultiset(hits, r);
    }
  }

  /** Two equal entries of `b` make the one they hold count at least twice. */
  lemma RepeatCounts(b: seq<Record>, i: nat, j: nat)
    requires i < j < |b|
    ensures b[i] == b[j] ==> multiset(b)[b[i]] >= 2
  {
    assert b == b[..i] + [b[i]] + b[i + 1..j] + [b[j]] + b[j + 1..];
  }

  lemma DistinctByMultiset(a: seq<Record>, b: seq<Record>)
    requires Distinct(a) && multiset(a) == multiset(b)
    ensures Distinct(b)
  {
    forall i, j | 0 <= i < j < |b| ensures b[i] != b[j] {
      RepeatCounts(b, i, j);
      assert b[i] in multiset(a);
      DistinctCountsOnce(a, b[i]);
    }
  }

  lemma DistinctCountsOnce(a: seq<Record>, m: Record)
    requires Distinct(a) && m in a
    ensures multiset(a)[m] == 1
    decreases |a|
  {
    assert a == [a[0]] + a[1..];
    if a[0] == m {
      assert m !in a[1..] by {
        forall j | 1 <= j < |a| ensures a[j] != m { }
      }
    } else {
      DistinctCountsOnce(a[1..], m);
    }
  }

  /** The search result never increases in score from one entry to the next. */
  lemma SearchRankedByScore(cache: seq<Record>, query: string, tags: seq<string>, now: int)
    requires Search(cache, query, tags, now).Some?
    ensures var r := Search(cache, query, tags, now).value;
      AllScorable(r, now) &&
      forall i, j :: 0 <= i < j < |r| ==> Score(r[i], now) >= Score(r[j], now)
  {
    var hits := Hits(cache, query, tags);
    var sorted := Ranking.SortByScore(Scored(hits, now));
    SortedCarriesScores(hits, now);
    var r := Search(cache, query, tags, now).value;
    forall i, j | 0 <= i < j < |r| ensures Score(r[i], now) >= Score(r[j], now) {
      assert Ranking.Items(sorted)[i] == sorted[i].0 && Ranking.Items(sorted)[j] == sorted[j].0;
    }
  }

  /**
   * Stability: for every score, the results carrying it are the hits
   * carrying it, in the order the cache holds them.
   */
  lemma SearchStable(cache: seq<Record>, query: string, tags: seq<string>, now: int, k: real)
    requires Search(cache, query, tags, now).Some?
    ensures var hits := Hits(cache, query, tags);
      var r := Search(cache, query, tags, now).value;
      AllScorable(r, now) &&
      WithScoreOf(r, now, k) == WithScoreOf(hits, now, k)
  {
    var hits := Hits(cache, query, tags);
    var scored := Scored(hits, now);
    var sorted := Ranking.SortByScore(scored);
    SortedCarriesScores(hits, now);
    assert CarriesScores(scored, now);
    Ranking.SortStable(scored, k);
    ItemsWithScore(sorted, now, k);
    ItemsWithScore(scored, now, k);
    assert Ranking.Items(scored) == hits;
  }

  /**
   * Every entry of the cache has been accessed once (recall never touches the
   * cache), so within the cache the score orders by age alone: a search over
   * entries none of which lies in the future succeeds and lists the newest first.
   */
  lemma CacheSearchNewestFirst(cache: seq<Record>, query: string, tags: seq<string>, now: int)
    requires forall m :: m in cache ==> m.accessCount == 1 && m.createdAt <= now
    ensures Search(cache, query, tags, now).Some?
    ensures var r := Search(cache, query, tags, now).value;
      forall i, j :: 0 <= i < j < |r| ==> r[i].createdAt >= r[j].createdAt
  {
    var hits := Hits(cache, query, tags);
    forall i | 0 <= i < |hits| ensures Scorable(hits[i], now) {
      assert hits[i] in cache;
      ScorableIff(hits[i], now);
    }
    assert Search(cache, query, tags, now).Some?;
    var r := Search(cache, query, tags, now).value;
    SearchSelectsExactly(cache, query, tags, now);
    SearchRankedByScore(cache, query, tags, now);
    forall m | m in r ensures m.accessCount == 1 && m.createdAt <= now {
      var i :| 0 <= i < |r| && r[i] == m;
    }
    ByScoreIsByAge(r, now);
  }

  /** A list of once-accessed past memories ranked by score is ranked newest first. */
  lemma ByScoreIsByAge(r: seq<Record>, now: int)
    requires forall m :: m in r ==> m.accessCount == 1 && m.createdAt <= now
    requires AllScorable(r, now)
    requires forall i, j :: 0 <= i < j < |r| ==> Score(r[i], now) >= Score(r[j], now)
    ensures forall i, j :: 0 <= i < j < |r| ==> r[i].createdAt >= r[j].createdAt
  {
    forall i, j | 0 <= i < j < |r| ensures r[i].createdAt >= r[j].createdAt {
      assert r[i] in r && r[j] in r;
      OlderScoresLower(r[i], r[j], now);
    }
  }

  /** Of two memories accessed equally often, the strictly older one scores strictly lower. */
  lemma OlderScoresLower(young: Record, older: Record, now: int)
    requires young.accessCount == older.accessCount
    requires young.createdAt <= now && older.createdAt <= now
    ensures Scorable(young, now) && Scorable(older, now)
    ensures Score(young, now) >= Score(older, now) ==> young.createdAt >= older.createdAt
  {
    Scoring.ShortTermScoreMonotone(now - young.createdAt, young.accessCount, now - older.createdAt, older.accessCount);
    Scoring.ShortTermScoreMonotone(now - older.createdAt, older.accessCount, now - young.createdAt, young.accessCount);
  }

  // ---------------------------------------------------------------------------
  // Changing the cache

  /** `append(memory)`, then `pop(0)` when the list has grown past the capacity. */
  function Append(cache: seq<Record>, m: Record): (r: seq<Record>)
    ensures |cache| <= Capacity ==> |r| <= Capacity
    ensures |r| >= 1 && r[|r| - 1] == m
    ensures |cache| < Capacity ==> r == cache + [m]
    ensures |cache| >= Capacity ==> r == cache[1..] + [m]
  {
    var grown := cache + [m];
    if |grown| > Capacity then grown[1..] else grown
  }

  /** What `store` puts in the cache: no id, one access, last access at creation. */
  predicate CacheEntry(m: Record)
  {
    m.id == None && m.accessCount == 1 && m.lastAccessed == m.createdAt
  }

  /** The shape of the cache `MemoryStorage` keeps: bounded, no duplicates, only stored entries. */
  predicate WellFormedCache(cache: seq<Record>)
  {
    |cache| <= Capacity && Distinct(cache) && forall i :: 0 <= i < |cache| ==> CacheEntry(cache[i])
  }

  /** Appending a new stored entry keeps the cache well formed. */
  lemma AppendKeepsCache(cache: seq<Record>, m: Record)
    requires WellFormedCache(cache) && CacheEntry(m) && m !in cache
    ensures WellFormedCache(Append(cache, m))
  {
    var r := Append(cache, m);
    var base := if |cache| < Capacity then cache else cache[1..];
    assert r == base + [m];
    forall i, j | 0 <= i < j < |r| ensures r[i] != r[j] {
      if j == |r| - 1 {
        assert r[i] == base[i];
        assert base[i] in cache;
      } else {
        assert r[i] == base[i] && r[j] == base[j];
        if |cache| >= Capacity {
          assert base[i] == cache[i + 1] && base[j] == cache[j + 1];
        }
      }
    }
    forall i | 0 <= i < |r| ensures CacheEntry(r[i]) {
      if i < |base| {
        assert r[i] == base[i];
        if |cache| >= Capacity {
          assert base[i] == cache[i + 1];
        }
      }
    }
  }

  /** Rebuilding the cache with a filter keeps it well formed. */
  lemma CreatedAfterKeepsCache(cache: seq<Record>, cutoff: int)
    requires WellFormedCache(cache)
    ensures WellFormedCache(CreatedAfter(cache, cutoff))
  {
    var r := CreatedAfter(cache, cutoff);
    forall i | 0 <= i < |r| ensures CacheEntry(r[i]) {
      var j :| 0 <= j < |cache| && cache[j] == r[i];
    }
  }

  /** The cache after storing `ms` one after the other. */
  function AppendAll(cache: seq<Record>, ms: seq<Record>): seq<Record>
    decreases |ms|
  {
    if |ms| == 0 then cache else AppendAll(Append(cache, ms[0]), ms[1..])
  }

  /**
   * FIFO eviction: after any run of stores the cache holds the most recent
   * entries, at most Capacity of them and exactly Capacity once that many
   * have been seen, in insertion order.
   */
  lemma {:induction false} AppendAllKeepsNewest(cache: seq<Record>, ms: seq<Record>)
    requires |cache| <= Capacity
    ensures var all := cache + ms;
      AppendAll(cache, ms) == all[if |all| > Capacity then |all| - Capacity else 0..]
    ensures |cache| + |ms| >= Capacity ==> |AppendAll(cache, ms)| == Capacity
    decreases |ms|
  {
    if |ms| != 0 {
      var a := Append(cache, ms[0]);
      AppendAllKeepsNewest(a, ms[1..]);
      var all := cache + ms;
      var d := if |cache| == Capacity then 1 else 0;
      AppendThenRest(cache, ms, d);
      var tail := a + ms[1..];
      var e := if |tail| > Capacity then |tail| - Capacity else 0;
      DropTwice(all, d, e);
    }
  }

  /** One `Append` followed by the remaining entries is the whole run with `d` entries dropped in front. */
  lemma AppendThenRest(cache: seq<Record>, ms: seq<Record>, d: nat)
    requires |cache| <= Capacity && |ms| > 0
    requires d == if |cache| == Capacity then 1 else 0
    ensures Append(cache, ms[0]) + ms[1..] == (cache + ms)[d..]
  {
    assert Append(cache, ms[0]) == (cache + [ms[0]])[d..];
    assert cache + ms == (cache + [ms[0]]) + ms[1..];
  }

  lemma DropTwice<T>(s: seq<T>, d: nat, e: nat)
    requires d + e <= |s|
    ensures s[d..][e..] == s[d + e..]
  {
  }

  /** `[m for m in cache if m.get("id") != memory_id]`. */
  function WithoutId(cache: seq<Record>, id: int): (r: seq<Record>)
    ensures forall i :: 0 <= i < |r| ==> r[i] in cache && r[i].id != Some(id)
    ensures forall i :: 0 <= i < |cache| && cache[i].id != Some(id) ==> cache[i] in r
  {
    if |cache| == 0 then []
    else (if cache[0].id != Some(id) then [cache[0]] else []) + WithoutId(cache[1..], id)
  }

  /** Entries that never received an id survive any forget-by-id, so the cache is rebuilt unchanged. */
  lemma {:induction false} WithoutIdKeepsUnidentified(cache: seq<Record>, id: int)
    requires forall m :: m in cache ==> m.id == None
    ensures WithoutId(cache, id) == cache
    decreases |cache|
  {
    if |cache| != 0 {
      assert cache[0] in cache;
      WithoutIdKeepsUnidentified(cache[1..], id);
      assert cache == [cache[0]] + cache[1..];
    }
  }

  /** `[m for m in cache if m["created_at"] > cutoff_date]`. */
  function CreatedAfter(cache: seq<Record>, cutoff: int): (r: seq<Record>)
    ensures forall i :: 0 <= i < |r| ==> r[i] in cache && r[i].createdAt > cutoff
    ensures forall i :: 0 <= i < |cache| && cache[i].createdAt > cutoff ==> cache[i] in r
    ensures |r| <= |cache|
    ensures Distinct(cache) ==> Distinct(r)
  {
    if |cache| == 0 then []
    else
      var rest := CreatedAfter(cache[1..], cutoff);
      if cache[0].createdAt > cutoff then
        KeepHeadDistinct(cache, rest);
        [cache[0]] + rest
      else
        rest
  }

  // ---------------------------------------------------------------------------
  // Merging the tiers in `recall`

  /** Python's `s[:k]`; a negative `k` drops |k| entries from the end. */
  function PyPrefix<T>(s: seq<T>, k: int): (r: seq<T>)
    ensures 0 <= k ==> r == s[..if k < |s| then k else |s|]
    ensures k < 0 ==> r == s[..if |s| + k > 0 then |s| + k else 0]
  {
    if 0 <= k then (if k < |s| then s[..k] else s)
    else if |s| + k > 0 then s[..|s| + k] else []
  }

  /**
   * The LIMIT `recall` passes to the long-term search: none (the tier is not
   * consulted) unless the short-term hits fall short of `limit` and long-term
   * lookup is on, and then exactly the shortfall.
   */
  function LongTermLimit(shortCount: nat, limit: int, useLongTerm: bool): (r: Option<nat>)
    ensures r.Some? <==> shortCount < limit && useLongTerm
    ensures r.Some? ==> r.value >= 1 && shortCount + r.value == limit
  {
    if shortCount >= limit then None
    else if useLongTerm then Some(limit - shortCount)
    else None
  }

  /**
   * The list `recall` reports, given the short-term results and what the
   * long-term search returned.  The short-term hits always come first and
   * are never re-ranked against long-term ones; with a non-negative limit and
   * a long-term tier that honours its LIMIT, the list never exceeds `limit`.
   */
  function Recalled<T>(short: seq<T>, limit: int, useLongTerm: bool, long: seq<T>): (r: seq<T>)
    ensures |short| >= limit ==> r == PyPrefix(short, limit)
    ensures |short| < limit && useLongTerm ==> r == short + long
    ensures |short| < limit && !useLongTerm ==> r == short
    ensures 0 <= limit && (LongTermLimit(|short|, limit, useLongTerm).Some? ==>
      |long| <= LongTermLimit(|short|, limit, useLongTerm).value)
      ==> |r| <= limit
    ensures 0 <= limit ==> var n := if |short| < limit then |short| else limit;
      |r| >= n && r[..n] == short[..n]
  {
    if |short| >= limit then PyPrefix(short, limit)
    else if useLongTerm then short + long
    else short
  }

  /** `[r.get("id") for r in results if r.get("id")]`: the truthy ids, in result order. */
  function TouchIds(results: seq<Record>): (r: seq<int>)
    ensures forall x :: x in r <==> exists i :: 0 <= i < |results| && results[i].id == Some(x) && x != 0
    ensures |r| <= |results|
  {
    if |results| == 0 then []
    else
      var m := results[0];
      var rest := TouchIds(results[1..]);
      (if m.id.Some? && m.id.value != 0 then [m.id.value] else []) + rest
  }

  /**
   * Memories that only live in the cache carry no id, so only the
   * long-term part of a recall is touched, and all of it when its ids are
   * positive (SERIAL ids start at 1).
   */
  lemma {:induction false} TouchIdsSkipCache(short: seq<Record>, long: seq<Record>)
    requires forall m :: m in short ==> m.id == None
    ensures TouchIds(short + long) == TouchIds(long)
    ensures (forall m :: m in long ==> m.id.Some? && m.id.value >= 1) ==> |TouchIds(long)| == |long|
    decreases |short|, |long|
  {
    if |short| != 0 {
      assert short[0] in short;
      assert (short + long)[1..] == short[1..] + long;
      assert forall m :: m in short[1..] ==> m in short;
      TouchIdsSkipCache(short[1..], long);
    } else {
      assert short + long == long;
      if |long| != 0 && forall m :: m in long ==> m.id.Some? && m.id.value >= 1 {
        assert long[0] in long;
        assert forall m :: m in long[1..] ==> m in long;
        TouchIdsSkipCache([], long[1..]);
      }
    }
  }

  // ---------------------------------------------------------------------------
  // The text `recall` answers with

  /** `f"{i}. {content}"` followed by ` [Tags: ...]` when the memory has tags. */
  function FormatEntry(i: nat, m: Record): string
  {
    NatToString(i) + ". " + m.content + (if m.tags != [] then " [Tags: " + Join(", ", m.tags) + "]" else "")
  }

  /** The entries numbered from `first` on: line `i` formats `results[i]` as number `first + i`. */
  function FormatEntries(results: seq<Record>, first: nat): (r: seq<string>)
    ensures |r| == |results|
    ensures forall i :: 0 <= i < |r| ==> r[i] == FormatEntry(first + i, results[i])
    decreases |results|
  {
    if |results| == 0 then []
    else
      var rest := FormatEntries(results[1..], first + 1);
      var r := [FormatEntry(first, results[0])] + rest;
      assert forall i :: 1 <= i < |r| ==> r[i] == rest[i - 1] && results[1..][i - 1] == results[i];
      r
  }

  const NoMemoriesFound := "No memories found matching the criteria."

  /**
   * The output of a recall that found `results`: the fixed "no memories"
   * sentence exactly when nothing was found, else a header with the count.
   */
  function RecallText(results: seq<Record>): (r: string)
    ensures r == NoMemoriesFound <==> results == []
    ensures results != [] ==> StartsWith(r, "Found " + NatToString(|results|) + " memories:\n\n")
  {
    if |results| == 0 then NoMemoriesFound
    else
      var header := "Found " + NatToString(|results|) + " memories:\n\n";
      var r := header + Join("\n\n", FormatEntries(results, 1));
      assert r[..|header|] == header;
      assert r[0] != NoMemoriesFound[0];
      r
  }

}
