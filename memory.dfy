/**
 * `MemoryStorage` and `MemoryTool` of interpreter/tools/memory.py: the
 * short-term cache and the long-term database wired together behind the
 * four actions store, recall, forget and summarize.  Every failure inside
 * an action becomes an error result carrying `str(e)`; the connection pool
 * is `db_pool`, which is either absent or the one server.  The current time
 * is a parameter.
 */
module Memory {

  import opened Base
  import opened Text
  import Scoring
  import Ranking
  import ShortTerm
  import Persistent

  type Record = ShortTerm.Record

  /** `str(e)` for a statement issued while `db_pool` is still `None`. */
  const NoPool := "'NoneType' object has no attribute 'acquire'"
  /** `str(e)` for the ZeroDivisionError of a short-term score. */
  const DivisionByZero := "float division by zero"

  const InitializedText := "Memory storage initialized successfully."
  const InitializeFailed := "Failed to initialize memory storage: "
  const StoreFailed := "Failed to store memory: "
  const RecallFailed := "Failed to recall memories: "
  const ForgetFailed := "Failed to forget memories: "
  const SummarizeFailed := "Failed to summarize memories: "

  function StoredText(tagCount: nat): string
  {
    "Memory stored successfully with " + NatToString(tagCount) + " tags."
  }

  function ForgotText(count: nat): string
  {
    "Forgot " + NatToString(count) + " memories."
  }

  function NothingToSummarize(days: int): string
  {
    "No memories found in the past " + IntToString(days) + " days."
  }

  /** The first lines of a non-empty summary. */
  function SummaryHeader(days: int, count: nat): string
  {
    "Memory Summary (past " + IntToString(days) + " days):\n\nTotal memories: " + NatToString(count) + "\n"
  }

  /** Python truthiness of an optional integer argument: `None` and `0` are false. */
  predicate Truthy(x: Option<int>)
  {
    x.Some? && x.value != 0
  }

  /**
   * What `_search_long_term` answers: nothing without a pool, and nothing
   * when the statement fails (the exception is swallowed).
   */
  function LongTermAnswer(hasPool: bool, reachable: bool, rows: seq<Persistent.Row>, query: string,
                          tags: seq<string>, limit: int, now: int): seq<(Persistent.Row, real)>
  {
    if !hasPool || !reachable then []
    else
      match Persistent.RankedQuery(rows, query, tags, limit, now)
      case None => []
      case Some(q) => q
  }

  /** The long-term answer honours its LIMIT and is ranked highest first. */
  lemma LongTermAnswerBounded(hasPool: bool, reachable: bool, rows: seq<Persistent.Row>, query: string,
                              tags: seq<string>, limit: nat, now: int)
    ensures var a := LongTermAnswer(hasPool, reachable, rows, query, tags, limit, now);
      |a| <= limit && Ranking.NonIncreasing(a) &&
      forall i :: 0 <= i < |a| ==> a[i].0 in rows && Persistent.RowMatches(a[i].0, query, tags)
  {
    Persistent.RankedQueryMeets(rows, query, tags, limit, now);
    var a := LongTermAnswer(hasPool, reachable, rows, query, tags, limit, now);
    forall i | 0 <= i < |a| ensures a[i].0 in rows && Persistent.RowMatches(a[i].0, query, tags) {
      assert a[i] in a;
    }
  }

  /**
   * With a non-negative limit, a recall never reports more than `limit`
   * memories, and its short-term hits always come first.
   */
  lemma RecallBounded(short: seq<Record>, limit: nat, useLongTerm: bool, hasPool: bool, reachable: bool,
                      rows: seq<Persistent.Row>, query: string, tags: seq<string>, now: int, long: seq<Record>)
    requires var want := ShortTerm.LongTermLimit(|short|, limit, useLongTerm);
      want.Some? ==> |long| == |LongTermAnswer(hasPool, reachable, rows, query, tags, want.value, now)|
    ensures var r := ShortTerm.Recalled(short, limit, useLongTerm, long);
      |r| <= limit && var n := if |short| < limit then |short| else limit; r[..n] == short[..n]
  {
    var want := ShortTerm.LongTermLimit(|short|, limit, useLongTerm);
    if want.Some? {
      LongTermAnswerBounded(hasPool, reachable, rows, query, tags, want.value, now);
    }
  }

  /** `m` is the dict `_search_long_term` builds from the fetched row and score `p`. */
  predicate Presents(m: Record, p: (Persistent.Row, real), tags: seq<string>)
    reads m
  {
    && m.id == Some(p.0.id) && m.content == p.0.content && m.tags == Persistent.ReportedTags(p.0, tags)
    && m.metadata == p.0.metadata && m.createdAt == p.0.createdAt && m.lastAccessed == p.0.lastAccessed
    && m.accessCount == p.0.accessCount && m.score == Some(p.1)
  }

  /** `ms` are the dicts built, in order, from the fetched rows `ps`. */
  predicate PresentsAll(ms: seq<Record>, ps: seq<(Persistent.Row, real)>, tags: seq<string>)
    reads ms
  {
    |ms| == |ps| && forall i :: 0 <= i < |ps| ==> Presents(ms[i], ps[i], tags)
  }

  /** The rows a recall fetches from the database: those for the shortfall, when it asks at all. */
  function LongTermFetch(short: seq<Record>, limit: int, useLongTerm: bool, hasPool: bool, reachable: bool,
                         rows: seq<Persistent.Row>, query: string, tags: seq<string>, now: int): seq<(Persistent.Row, real)>
  {
    var want := ShortTerm.LongTermLimit(|short|, limit, useLongTerm);
    if want.Some? then LongTermAnswer(hasPool, reachable, rows, query, tags, want.value, now) else []
  }

  /**
   * `results` merges the short-term hits `short` with the fetched rows
   * `long`: a prefix of the hits when the database is not asked, otherwise
   * all the hits followed by one dict per fetched row.
   */
  predicate Merged(results: seq<Record>, short: seq<Record>, limit: int, useLongTerm: bool,
                   long: seq<(Persistent.Row, real)>, tags: seq<string>)
    reads results
  {
    var want := ShortTerm.LongTermLimit(|short|, limit, useLongTerm);
    && (want.None? ==> results == ShortTerm.Recalled(short, limit, useLongTerm, []))
    && (want.Some? ==> |results| >= |short| && results[..|short|] == short && PresentsAll(results[|short|..], long, tags))
  }

  lemma PresentsAllSnoc(ms: seq<Record>, ps: seq<(Persistent.Row, real)>, m: Record, p: (Persistent.Row, real),
                        tags: seq<string>)
    requires PresentsAll(ms, ps, tags) && Presents(m, p, tags)
    ensures PresentsAll(ms + [m], ps + [p], tags)
  {
    assert forall i :: 0 <= i < |ms| ==> (ms + [m])[i] == ms[i] && (ps + [p])[i] == ps[i];
  }

  /**
   * Forgetting by age, the two tiers disagree exactly on memories created
   * at the cutoff: the cache drops those and the database keeps them, and a
   * memory created at any other time is kept by both or by neither.
   */
  lemma CutoffAsymmetry(cache: seq<Record>, rows: seq<Persistent.Row>, cutoff: int, m: Record, x: Persistent.Row)
    requires m in cache && x in rows && m.createdAt == x.createdAt
    ensures (m in ShortTerm.CreatedAfter(cache, cutoff)) != (x in Persistent.CreatedNotBefore(rows, cutoff)) <==>
      m.createdAt == cutoff
    ensures m.createdAt == cutoff ==> m !in ShortTerm.CreatedAfter(cache, cutoff) && x in Persistent.CreatedNotBefore(rows, cutoff)
  {
    var kept := ShortTerm.CreatedAfter(cache, cutoff);
    var i :| 0 <= i < |cache| && cache[i] == m;
    if m in kept {
      var k :| 0 <= k < |kept| && kept[k] == m;
    }
  }

  class MemoryStorage {
    var shortTerm: seq<Record>
    var pool: Persistent.Database?
    var initialized: bool
    const server: Persistent.Database

    ghost predicate Valid()
      reads this, server
    {
      && ShortTerm.WellFormedCache(shortTerm)
      && (pool == null || pool == server)
      && (initialized <==> pool != null)
      && (pool != null ==> server.hasSchema)
      && server.Valid()
    }

    constructor (server: Persistent.Database)
      requires server.Valid()
      ensures Valid()
      ensures this.server == server && shortTerm == [] && pool == null && !initialized
    {
      this.server := server;
      shortTerm := [];
      pool := null;
      initialized := false;
    }

    /**
     * Connects and creates the schema once.  Already initialized: nothing
     * happens and there is no result.  Otherwise the pool exists afterwards
     * exactly when the server could be reached.
     */
    method Initialize() returns (r: Option<ToolResult>)
      requires Valid()
      modifies this`pool, this`initialized, server`hasSchema
      ensures Valid()
      ensures old(initialized) ==> r == None && pool == old(pool) && initialized && server.hasSchema == old(server.hasSchema)
      ensures !old(initialized) && server.reachable ==> r == Some(Output(InitializedText)) && pool == server && initialized
      ensures !old(initialized) && !server.reachable ==>
        r == Some(Failure(InitializeFailed + server.outage)) && pool == null && !initialized && server.hasSchema == old(server.hasSchema)
    {
      if initialized {
        return None;
      }
      if !server.reachable {
        return Some(Failure(InitializeFailed + server.outage));
      }
      pool := server;
      var created := server.EnsureSchema();
      initialized := created;
      r := Some(Output(InitializedText));
    }

    /** `if not self.is_initialized: await self.initialize()`, its result discarded. */
    method EnsureInitialized()
      requires Valid()
      modifies this`pool, this`initialized, server`hasSchema
      ensures Valid()
      ensures initialized == (old(initialized) || server.reachable)
      ensures shortTerm == old(shortTerm) && server.rows == old(server.rows) && server.nextId == old(server.nextId)
    {
      if !initialized {
        var ignored := Initialize();
      }
    }

    /**
     * What a store leaves behind: the new memory, stamped `now`, at the end
     * of the cache (the oldest entry evicted when full); a new row with
     * `nextId` when the database took the write; the answer naming the number
     * of tags, or the failure.
     */
    twostate predicate StoreEffect(content: string, tags: seq<string>, metadata: map<string, string>, now: int, r: ToolResult)
      reads this, server, shortTerm
    {
      && |shortTerm| >= 1 && (var m := shortTerm[|shortTerm| - 1];
        && fresh(m)
        && shortTerm == ShortTerm.Append(old(shortTerm), m)
        && m.id == None && m.content == content && m.tags == tags && m.metadata == metadata
        && m.createdAt == now && m.lastAccessed == now && m.accessCount == 1 && m.score == None)
      && (pool == null ==> r == Failure(StoreFailed + NoPool) && server.rows == old(server.rows))
      && (pool != null && !server.reachable ==> r == Failure(StoreFailed + server.outage) && server.rows == old(server.rows))
      && (pool != null && server.reachable ==> (r == Output(StoredText(|tags|)) &&
        server.rows == old(server.rows) + [Persistent.Row(old(server.nextId), content, tags, metadata, now, now, 1)]))
    }

    /**
     * Stores one memory stamped `now`.  The cache gets it first, evicting its
     * oldest entry when full; the database write comes after and a failing
     * write does not take it out of the cache again.
     */
    method Store(content: string, tags: seq<string>, metadata: map<string, string>, now: int) returns (r: ToolResult)
      requires Valid()
      modifies this`pool, this`initialized, this`shortTerm, server`hasSchema, server`rows, server`nextId
      ensures Valid()
      ensures initialized == (old(initialized) || server.reachable)
      ensures StoreEffect(content, tags, metadata, now, r)
    {
      EnsureInitialized();
      var m := new ShortTerm.Record(None, content, tags, metadata, now, now, 1, None);
      ShortTerm.AppendKeepsCache(shortTerm, m);
      shortTerm := ShortTerm.Append(shortTerm, m);
      if pool == null {
        return Failure(StoreFailed + NoPool);
      }
      var id := server.Insert(content, tags, metadata, now);
      if id.None? {
        return Failure(StoreFailed + server.outage);
      }
      r := Output(StoredText(|tags|));
    }

    /**
     * `_search_short_term`: scores every hit in place (the hits are the
     * cache's own records, the copy being shallow) and returns them ranked.
     * A hit that cannot be scored stops the loop with the earlier hits
     * already scored.
     */
    method SearchShortTerm(query: string, tags: seq<string>, now: int) returns (found: Option<seq<Record>>)
      requires Valid()
      modifies shortTerm
      ensures found == ShortTerm.Search(shortTerm, query, tags, now)
      ensures forall m :: m in shortTerm && !ShortTerm.Selected(m, query, tags) ==> m.score == old(m.score)
      ensures found.Some? ==> forall m :: m in shortTerm && ShortTerm.Selected(m, query, tags) ==>
        ShortTerm.Scorable(m, now) && m.score == Some(ShortTerm.Score(m, now))
      ensures found.Some? ==> forall m :: m in shortTerm ==>
        m.score == if ShortTerm.Selected(m, query, tags) then Some(ShortTerm.Score(m, now)) else old(m.score)
      ensures forall m :: m in shortTerm ==>
        m.score == old(m.score) || (ShortTerm.Scorable(m, now) && m.score == Some(ShortTerm.Score(m, now)))
    {
      if |shortTerm| == 0 {
        assert Ranking.SortByScore(ShortTerm.Scored([], now)) == [];
        return Some([]);
      }
      var hits := ShortTerm.Hits(shortTerm, query, tags);
      var i := 0;
      while i < |hits|
        invariant 0 <= i <= |hits|
        invariant forall k :: 0 <= k < i ==> ShortTerm.Scorable(hits[k], now) && hits[k].score == Some(ShortTerm.Score(hits[k], now))
        invariant forall m :: m in shortTerm && m !in hits[..i] ==> m.score == old(m.score)
      {
        var m := hits[i];
        if !ShortTerm.Scorable(m, now) {
          return None;
        }
        m.score := Some(ShortTerm.Score(m, now));
        i := i + 1;
      }
      found := Some(Ranking.Items(Ranking.SortByScore(ShortTerm.Scored(hits, now))));
    }

    /** `_search_long_term`: a fresh dict per fetched row, or nothing at all. */
    method SearchLongTerm(query: string, tags: seq<string>, limit: int, now: int) returns (long: seq<Record>)
      requires Valid()
      ensures PresentsAll(long, LongTermAnswer(pool != null, server.reachable, server.rows, query, tags, limit, now), tags)
      ensures forall i :: 0 <= i < |long| ==> fresh(long[i])
    {
      long := [];
      if pool == null {
        return;
      }
      var fetched := server.Query(query, tags, limit, now);
      if fetched.None? {
        return;
      }
      long := PresentRows(fetched.value, tags);
    }

    /** One fresh dict per fetched row, in order: `[{...} for row in rows]`. */
    static method PresentRows(rows: seq<(Persistent.Row, real)>, tags: seq<string>) returns (long: seq<Record>)
      ensures PresentsAll(long, rows, tags)
      ensures forall i :: 0 <= i < |long| ==> fresh(long[i])
    {
      long := [];
      var i := 0;
      while i < |rows|
        invariant 0 <= i <= |rows|
        invariant PresentsAll(long, rows[..i], tags)
        invariant forall k :: 0 <= k < |long| ==> fresh(long[k])
      {
        var row := rows[i].0;
        var m := new ShortTerm.Record(Some(row.id), row.content, Persistent.ReportedTags(row, tags), row.metadata,
                            row.createdAt, row.lastAccessed, row.accessCount, Some(rows[i].1));
        PresentsAllSnoc(long, rows[..i], m, rows[i], tags);
        assert rows[..i + 1] == rows[..i] + [rows[i]];
        long := long + [m];
        i := i + 1;
      }
      assert rows[..i] == rows;
    }

    /**
     * What a recall leaves behind.  The cache keeps its entries.  When
     * scoring a short-term hit divides by zero, the answer is that failure
     * and the database is untouched.  Otherwise every selected entry carries
     * its score, `results` merges the ranked hits with the rows fetched for
     * the shortfall, the truthy ids among them are touched when the database
     * can be reached, and the answer is their text or the touch's failure.
     */
    twostate predicate RecallEffect(query: string, tags: seq<string>, limit: int, useLongTerm: bool, now: int,
                                    r: ToolResult, new results: seq<Record>)
      reads this, server, shortTerm, results
    {
      && shortTerm == old(shortTerm)
      && (ShortTerm.Search(shortTerm, query, tags, now).None? ==>
            r == Failure(RecallFailed + DivisionByZero) && results == [] && server.rows == old(server.rows))
      && (ShortTerm.Search(shortTerm, query, tags, now).Some? ==>
            var short := ShortTerm.Search(shortTerm, query, tags, now).value;
            var long := LongTermFetch(short, limit, useLongTerm, pool != null, server.reachable, old(server.rows), query, tags, now);
            var ids := ShortTerm.TouchIds(results);
            && Merged(results, short, limit, useLongTerm, long, tags)
            && (forall i :: |short| <= i < |results| ==> fresh(results[i]))
            && (forall m :: m in shortTerm ==>
                  m.score == if ShortTerm.Selected(m, query, tags) then Some(ShortTerm.Score(m, now)) else old(m.score))
            && server.rows == (if ids != [] && pool != null && server.reachable then Persistent.Touched(old(server.rows), ids, now) else old(server.rows))
            && r == (if ids != [] && pool != null && !server.reachable then Failure(RecallFailed + server.outage)
                     else Output(ShortTerm.RecallText(results))))
    }

    /**
     * `recall`: the short-term hits first, then, only when they fall short of
     * `limit` and long-term lookup is on, the long-term rows for the
     * shortfall; then one batched touch of the truthy ids among the results.
     */
    method Recall(query: string, tags: seq<string>, limit: int, useLongTerm: bool, now: int) returns (r: ToolResult, results: seq<Record>)
      requires Valid()
      modifies this`pool, this`initialized, server`hasSchema, server`rows, shortTerm
      ensures Valid()
      ensures initialized == (old(initialized) || server.reachable)
      ensures RecallEffect(query, tags, limit, useLongTerm, now, r, results)
    {
      EnsureInitialized();
      var found := SearchShortTerm(query, tags, now);
      if found.None? {
        return Failure(RecallFailed + DivisionByZero), [];
      }
      r, results := MergeAndTouch(found.value, query, tags, limit, useLongTerm, now);
    }

    /** The part of `recall` after the short-term search: the merge, then the batched touch. */
    method MergeAndTouch(short: seq<Record>, query: string, tags: seq<string>, limit: int, useLongTerm: bool, now: int)
      returns (r: ToolResult, results: seq<Record>)
      requires Valid()
      modifies server`rows
      ensures Valid()
      ensures var long := LongTermFetch(short, limit, useLongTerm, pool != null, server.reachable, old(server.rows), query, tags, now);
        var ids := ShortTerm.TouchIds(results);
        && Merged(results, short, limit, useLongTerm, long, tags)
        && (forall i :: |short| <= i < |results| ==> fresh(results[i]))
        && server.rows == (if ids != [] && pool != null && server.reachable then Persistent.Touched(old(server.rows), ids, now) else old(server.rows))
        && r == (if ids != [] && pool != null && !server.reachable then Failure(RecallFailed + server.outage)
                 else Output(ShortTerm.RecallText(results)))
    {
      results := MergeTiers(short, query, tags, limit, useLongTerm, now);
      r := TouchAndFormat(results, now);
    }

    /** The three cases of the merge, the long-term tier asked only for the shortfall. */
    method MergeTiers(short: seq<Record>, query: string, tags: seq<string>, limit: int, useLongTerm: bool, now: int)
      returns (results: seq<Record>)
      requires Valid()
      ensures Merged(results, short, limit, useLongTerm,
        LongTermFetch(short, limit, useLongTerm, pool != null, server.reachable, server.rows, query, tags, now), tags)
      ensures forall i :: |short| <= i < |results| ==> fresh(results[i])
    {
      if |short| >= limit {
        results := ShortTerm.PyPrefix(short, limit);
      } else if useLongTerm {
        var long := SearchLongTerm(query, tags, limit - |short|, now);
        results := short + long;
        assert results[..|short|] == short && results[|short|..] == long;
      } else {
        results := short;
      }
    }

    /** The batched touch of the truthy ids among `results`, then the answer text. */
    method TouchAndFormat(results: seq<Record>, now: int) returns (r: ToolResult)
      requires Valid()
      modifies server`rows
      ensures Valid()
      ensures var ids := ShortTerm.TouchIds(results);
        && server.rows == (if ids != [] && pool != null && server.reachable then Persistent.Touched(old(server.rows), ids, now) else old(server.rows))
        && r == (if ids != [] && pool != null && !server.reachable then Failure(RecallFailed + server.outage)
                 else Output(ShortTerm.RecallText(results)))
    {
      var ids := ShortTerm.TouchIds(results);
      if ids != [] && pool != null {
        var ok := server.TouchMany(ids, now);
        if !ok {
          return Failure(RecallFailed + server.outage);
        }
      }
      r := Output(ShortTerm.RecallText(results));
    }

    /**
     * What a forget leaves behind: by a truthy id, the database without
     * that row and the cache as it was; else by a truthy age, both tiers
     * without what is older than the cutoff (the cache strictly newer, the
     * database not older), counted together; else nothing forgotten.
     */
    twostate predicate ForgetEffect(memoryId: Option<int>, olderThanDays: Option<int>, now: int, r: ToolResult)
      reads this, server
    {
      && (Truthy(memoryId) ==>
        && shortTerm == ShortTerm.WithoutId(old(shortTerm), memoryId.value) == old(shortTerm)
        && (pool == null ==> r == Failure(ForgetFailed + NoPool) && server.rows == old(server.rows))
        && (pool != null && !server.reachable ==> r == Failure(ForgetFailed + server.outage) && server.rows == old(server.rows))
        && (pool != null && server.reachable ==>
              server.rows == Persistent.WithoutRowId(old(server.rows), memoryId.value) &&
              r == Output(ForgotText(if exists x :: x in old(server.rows) && x.id == memoryId.value then 1 else 0))))
      && (!Truthy(memoryId) && Truthy(olderThanDays) ==>
        var cutoff := Scoring.DaysBefore(now, olderThanDays.value);
        && shortTerm == ShortTerm.CreatedAfter(old(shortTerm), cutoff)
        && (pool == null ==> r == Failure(ForgetFailed + NoPool) && server.rows == old(server.rows))
        && (pool != null && !server.reachable ==> r == Failure(ForgetFailed + server.outage) && server.rows == old(server.rows))
        && (pool != null && server.reachable ==>
              server.rows == Persistent.CreatedNotBefore(old(server.rows), cutoff) &&
              r == Output(ForgotText((|old(shortTerm)| - |shortTerm|) + (|old(server.rows)| - |server.rows|)))))
      && (!Truthy(memoryId) && !Truthy(olderThanDays) ==>
        r == Output(ForgotText(0)) && shortTerm == old(shortTerm) && server.rows == old(server.rows))
    }

    /**
     * `forget`: by a truthy id, else by a truthy age in days, else nothing.
     * The count adds what left the cache to what the database deleted.
     */
    method Forget(memoryId: Option<int>, olderThanDays: Option<int>, now: int) returns (r: ToolResult)
      requires Valid()
      modifies this`pool, this`initialized, this`shortTerm, server`hasSchema, server`rows
      ensures Valid()
      ensures initialized == (old(initialized) || server.reachable)
      ensures ForgetEffect(memoryId, olderThanDays, now, r)
    {
      EnsureInitialized();
      if Truthy(memoryId) {
        r := ForgetById(memoryId.value);
      } else if Truthy(olderThanDays) {
        r := ForgetOlderThan(Scoring.DaysBefore(now, olderThanDays.value));
      } else {
        r := Output(ForgotText(0));
      }
    }

    /** The id branch: the cache is rebuilt without that id, the count is the database's alone. */
    method ForgetById(id: int) returns (r: ToolResult)
      requires Valid()
      modifies this`shortTerm, server`rows
      ensures Valid()
      ensures shortTerm == ShortTerm.WithoutId(old(shortTerm), id) == old(shortTerm)
      ensures pool == null ==> r == Failure(ForgetFailed + NoPool) && server.rows == old(server.rows)
      ensures pool != null && !server.reachable ==> r == Failure(ForgetFailed + server.outage) && server.rows == old(server.rows)
      ensures pool != null && server.reachable ==>
        server.rows == Persistent.WithoutRowId(old(server.rows), id) &&
        r == Output(ForgotText(if exists x :: x in old(server.rows) && x.id == id then 1 else 0))
    {
      ShortTerm.WithoutIdKeepsUnidentified(shortTerm, id);
      shortTerm := ShortTerm.WithoutId(shortTerm, id);
      if pool == null {
        return Failure(ForgetFailed + NoPool);
      }
      var deleted := server.DeleteById(id);
      if deleted.None? {
        return Failure(ForgetFailed + server.outage);
      }
      r := Output(ForgotText(deleted.value));
    }

    /** The age branch: the cache keeps what is newer than the cutoff, the database what is not older. */
    method ForgetOlderThan(cutoff: int) returns (r: ToolResult)
      requires Valid()
      modifies this`shortTerm, server`rows
      ensures Valid()
      ensures shortTerm == ShortTerm.CreatedAfter(old(shortTerm), cutoff)
      ensures pool == null ==> r == Failure(ForgetFailed + NoPool) && server.rows == old(server.rows)
      ensures pool != null && !server.reachable ==> r == Failure(ForgetFailed + server.outage) && server.rows == old(server.rows)
      ensures pool != null && server.reachable ==>
        server.rows == Persistent.CreatedNotBefore(old(server.rows), cutoff) &&
        r == Output(ForgotText((|old(shortTerm)| - |shortTerm|) + (|old(server.rows)| - |server.rows|)))
    {
      var count: nat := 0;
      var oldCount := |shortTerm|;
      ShortTerm.CreatedAfterKeepsCache(shortTerm, cutoff);
      shortTerm := ShortTerm.CreatedAfter(shortTerm, cutoff);
      count := count + (oldCount - |shortTerm|);
      if pool == null {
        return Failure(ForgetFailed + NoPool);
      }
      var deleted := server.DeleteOlderThan(cutoff);
      if deleted.None? {
        return Failure(ForgetFailed + server.outage);
      }
      count := count + deleted.value;
      assert count == (|old(shortTerm)| - |shortTerm|) + (|old(server.rows)| - |server.rows|);
      r := Output(ForgotText(count));
    }

    /**
     * What a summarize leaves behind: neither tier changes, and the answer
     * is the window's count decision or the failure.
     */
    twostate predicate SummarizeEffect(tags: seq<string>, days: int, now: int, r: ToolResult)
      reads this, server
    {
      && shortTerm == old(shortTerm) && server.rows == old(server.rows)
      && (pool == null ==> r == Failure(SummarizeFailed + NoPool))
      && (pool != null && !server.reachable ==> r == Failure(SummarizeFailed + server.outage))
      && (pool != null && server.reachable ==>
        var since := Scoring.DaysBefore(now, days);
        var count := Persistent.SummaryCount(server.rows, tags, since);
        && r == Output(if count == 0 then NothingToSummarize(days) else SummaryHeader(days, count))
        && (r == Output(NothingToSummarize(days)) <==> forall x :: x in server.rows ==> !Persistent.Summarised(x, tags, since)))
    }

    /**
     * `summarize`, down to its first decision: memories created within the
     * last `days` days and passing the tag filter are counted, and a zero
     * count answers "nothing to summarize".
     */
    method Summarize(tags: seq<string>, days: int, now: int) returns (r: ToolResult)
      requires Valid()
      modifies this`pool, this`initialized, server`hasSchema
      ensures Valid()
      ensures initialized == (old(initialized) || server.reachable)
      ensures SummarizeEffect(tags, days, now, r)
    {
      EnsureInitialized();
      if pool == null {
        return Failure(SummarizeFailed + NoPool);
      }
      var since := Scoring.DaysBefore(now, days);
      var count := server.CountRecent(tags, since);
      if count.None? {
        return Failure(SummarizeFailed + server.outage);
      }
      Persistent.SummaryCountZeroIff(server.rows, tags, since);
      if count.value == 0 {
        r := Output(NothingToSummarize(days));
      } else {
        assert NothingToSummarize(days)[0] != SummaryHeader(days, count.value)[0];
        r := Output(SummaryHeader(days, count.value));
      }
    }

    /**
     * What serving `request` leaves behind: the effect of the operation it
     * selects, with `results` the memories a recall found; a rejected
     * request changes neither tier.
     */
    twostate predicate Served(request: Request, now: int, r: ToolResult, new results: seq<Record>)
      reads this, server, shortTerm, results
    {
      match request
      case StoreRequest(c, ts) => StoreEffect(c, ts, map[], now, r)
      case RecallRequest(q, ts, n, useLong) => RecallEffect(q, ts, n, useLong, now, r, results)
      case ForgetRequest(id, age) => ForgetEffect(id, age, now, r)
      case SummarizeRequest(ts, d) => SummarizeEffect(ts, d, now, r)
      case Rejected(message) => r == Failure(message) && shortTerm == old(shortTerm) && server.rows == old(server.rows)
    }
  }

  /** The operation `MemoryTool.__call__` selects, with the arguments it forwards. */
  datatype Request =
    | StoreRequest(content: string, tags: seq<string>)
    | RecallRequest(query: string, tags: seq<string>, limit: int, useLongTerm: bool)
    | ForgetRequest(memoryId: Option<int>, olderThanDays: Option<int>)
    | SummarizeRequest(tags: seq<string>, days: int)
    | Rejected(message: string)

  function InvalidAction(action: string): string
  {
    "Invalid memory action: " + action + ". Valid actions are: store, recall, forget, summarize"
  }

  /**
   * The dispatch: "store" only with non-empty content (and never with
   * metadata), the other three actions by name, anything else rejected
   * with the list of valid actions.
   */
  function Dispatch(action: string, content: string, query: string, tags: seq<string>, memoryId: Option<int>,
                    olderThanDays: Option<int>, days: int, limit: int, useLongTerm: bool): (r: Request)
    ensures r.StoreRequest? <==> action == "store" && content != ""
    ensures r.RecallRequest? <==> action == "recall"
    ensures r.ForgetRequest? <==> action == "forget"
    ensures r.SummarizeRequest? <==> action == "summarize"
    ensures r.Rejected? <==> !(action == "store" && content != "") && action !in ["recall", "forget", "summarize"]
    ensures r.StoreRequest? ==> r.content == content && r.tags == tags
    ensures r.RecallRequest? ==> r.query == query && r.tags == tags && r.limit == limit && r.useLongTerm == useLongTerm
    ensures r.ForgetRequest? ==> r.memoryId == memoryId && r.olderThanDays == olderThanDays
    ensures r.SummarizeRequest? ==> r.tags == tags && r.days == days
    ensures r.Rejected? ==> r.message == InvalidAction(action)
  {
    if action == "store" && content != "" then StoreRequest(content, tags)
    else if action == "recall" then RecallRequest(query, tags, limit, useLongTerm)
    else if action == "forget" then ForgetRequest(memoryId, olderThanDays)
    else if action == "summarize" then SummarizeRequest(tags, days)
    else Rejected(InvalidAction(action))
  }

  /** The tool the agent calls; it serves every call from the one storage. */
  class MemoryTool {
    const storage: MemoryStorage

    constructor (storage: MemoryStorage)
      ensures this.storage == storage
    {
      this.storage := storage;
    }

    /** `__call__`: the arguments select a request, which is then served. */
    method Call(now: int, action: string, content: string := "", query: string := "", tags: seq<string> := [],
                memoryId: Option<int> := None, olderThanDays: Option<int> := None, days: int := 30,
                limit: int := 5, useLongTerm: bool := true) returns (r: ToolResult, ghost recalled: seq<Record>)
      requires storage.Valid()
      modifies storage`pool, storage`initialized, storage`shortTerm, storage.server`hasSchema,
        storage.server`rows, storage.server`nextId, storage.shortTerm
      ensures storage.Valid()
      ensures storage.initialized == (old(storage.initialized) || storage.server.reachable)
      ensures storage.Served(Dispatch(action, content, query, tags, memoryId, olderThanDays, days, limit, useLongTerm),
        now, r, recalled)
    {
      var request := Dispatch(action, content, query, tags, memoryId, olderThanDays, days, limit, useLongTerm);
      r, recalled := Serve(request, now);
    }

    /**
     * The rest of `__call__` once the arguments have selected `request`:
     * the storage is initialized if it is not yet, whatever the request,
     * and then the selected operation runs.  The four operations begin with
     * that same check themselves, and a second attempt after a failed one
     * changes nothing, so only the rejected request is initialized here.
     */
    method Serve(request: Request, now: int) returns (r: ToolResult, ghost recalled: seq<Record>)
      requires storage.Valid()
      modifies storage`pool, storage`initialized, storage`shortTerm, storage.server`hasSchema,
        storage.server`rows, storage.server`nextId, storage.shortTerm
      ensures storage.Valid()
      ensures storage.initialized == (old(storage.initialized) || storage.server.reachable)
      ensures storage.Served(request, now, r, recalled)
    {
      recalled := [];
      match request
      case StoreRequest(c, ts) =>
        r := storage.Store(c, ts, map[], now);
      case RecallRequest(q, ts, n, useLong) =>
        r, recalled := storage.Recall(q, ts, n, useLong, now);
      case ForgetRequest(id, age) =>
        r := storage.Forget(id, age, now);
      case SummarizeRequest(ts, d) =>
        r := storage.Summarize(ts, d, now);
      case Rejected(message) =>
        storage.EnsureInitialized();
        r := Failure(message);
    }
  }

}
