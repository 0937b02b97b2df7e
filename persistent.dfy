/**
 * The long-term tier: the PostgreSQL database behind `MemoryStorage`
 * (interpreter/tools/memory.py), reduced to the statements the store issues.
 * The `memories` and `memory_tags` relations are folded into one row per
 * memory that carries its tags; ids come from a SERIAL counter starting at 1.
 * Every statement fails, as a whole, when the server is unreachable.
 */
module Persistent {

  import opened Base
  import opened Text
  import Scoring
  import Ranking

  /** One row of `memories` together with its `memory_tags` rows. */
  datatype Row = Row(
    id: int,
    content: string,
    tags: seq<string>,
    metadata: map<string, string>,
    createdAt: int,
    lastAccessed: int,
    accessCount: int)

  /** The WHERE clause: `content ILIKE '%query%'` when a query is given, `tag = ANY(tags)` when tags are. */
  predicate RowMatches(r: Row, query: string, tags: seq<string>)
  {
    (query == "" || ContainsIgnoringCase(r.content, query)) && (tags == [] || AnyTagIn(tags, r.tags))
  }

  function MatchingRows(rows: seq<Row>, query: string, tags: seq<string>): (r: seq<Row>)
    ensures forall x :: x in r <==> x in rows && RowMatches(x, query, tags)
    ensures |r| <= |rows|
  {
    if |rows| == 0 then []
    else (if RowMatches(rows[0], query, tags) then [rows[0]] else []) + MatchingRows(rows[1..], query, tags)
  }

  /** The score expression's denominator is non-zero (PostgreSQL aborts the statement otherwise). */
  predicate RowScorable(r: Row, now: int)
  {
    Scoring.LongTermRecencyDefined(now - r.lastAccessed)
  }

  /** The score computed server-side, against `last_accessed`. */
  function RowScore(r: Row, now: int): real
    requires RowScorable(r, now)
  {
    Scoring.LongTermScore(now - r.lastAccessed, r.accessCount)
  }

  function ScoredRows(rows: seq<Row>, now: int): (r: seq<(Row, real)>)
    requires forall x :: x in rows ==> RowScorable(x, now)
    ensures |r| == |rows|
    ensures forall i :: 0 <= i < |rows| ==> r[i] == (rows[i], RowScore(rows[i], now))
  {
    seq(|rows|, i requires 0 <= i < |rows| => (rows[i], RowScore(rows[i], now)))
  }

  /**
   * `... WHERE ... GROUP BY m.id ORDER BY score DESC LIMIT $n`.  `None` when
   * the server rejects the statement: a negative LIMIT, or a zero
   * denominator in the score of some matching row.  SQL leaves the order of
   * equal scores open; this reference keeps table order among them.
   */
  function RankedQuery(rows: seq<Row>, query: string, tags: seq<string>, limit: int, now: int): (r: Option<seq<(Row, real)>>)
  {
    var matching := MatchingRows(rows, query, tags);
    if limit < 0 || exists x :: x in matching && !RowScorable(x, now) then None
    else
      var sorted := Ranking.SortByScore(ScoredRows(matching, now));
      Some(if limit < |sorted| then sorted[..limit] else sorted)
  }

  /**
   * The ranked query answers exactly when LIMIT is non-negative and every
   * matching row can be scored; it then returns at most `limit` matching
   * rows with their scores, highest first, as many as there are up to the
   * limit, and no matching row it leaves out scores higher than one it returns.
   */
  lemma RankedQueryMeets(rows: seq<Row>, query: string, tags: seq<string>, limit: int, now: int)
    ensures var r := RankedQuery(rows, query, tags, limit, now);
      && (r.None? <==> limit < 0 || exists x :: x in rows && RowMatches(x, query, tags) && !RowScorable(x, now))
      && (r.Some? ==>
        && |r.value| == (if limit < |MatchingRows(rows, query, tags)| then limit else |MatchingRows(rows, query, tags)|)
        && Ranking.NonIncreasing(r.value)
        && (forall p :: p in r.value ==> p.0 in rows && RowMatches(p.0, query, tags) && RowScorable(p.0, now) && p.1 == RowScore(p.0, now))
        && (forall x, p :: x in rows && RowMatches(x, query, tags) && x !in Ranking.Items(r.value) && p in r.value ==>
              RowScorable(x, now) && RowScore(x, now) <= p.1))
  {
    var matching := MatchingRows(rows, query, tags);
    assert (exists x :: x in matching && !RowScorable(x, now))
      == (exists x :: x in rows && RowMatches(x, query, tags) && !RowScorable(x, now));
    var r := RankedQuery(rows, query, tags, limit, now);
    if r.Some? {
      var scored := ScoredRows(matching, now);
      var sorted := Ranking.SortByScore(scored);
      var n := if limit < |sorted| then limit else |sorted|;
      assert r.value == sorted[..n];
      assert |sorted| == |matching| by {
        assert |multiset(sorted)| == |multiset(scored)|;
      }
      Ranking.TakeNonIncreasing(sorted, n);
      forall p | p in r.value
        ensures p.0 in rows && RowMatches(p.0, query, tags) && RowScorable(p.0, now) && p.1 == RowScore(p.0, now)
      {
        SortedScoredMember(matching, now, p);
      }
      forall x, p | x in rows && RowMatches(x, query, tags) && x !in Ranking.Items(r.value) && p in r.value
        ensures RowScorable(x, now) && RowScore(x, now) <= p.1
      {
        ScoredRowInSorted(matching, now, x);
        Ranking.TakeDominates(sorted, n, (x, RowScore(x, now)), p);
      }
    }
  }

  /** Every entry of the sorted scored rows is a row of the input with its own score. */
  lemma SortedScoredMember(rows: seq<Row>, now: int, p: (Row, real))
    requires forall x :: x in rows ==> RowScorable(x, now)
    requires p in Ranking.SortByScore(ScoredRows(rows, now))
    ensures p.0 in rows && RowScorable(p.0, now) && p.1 == RowScore(p.0, now)
  {
    var scored := ScoredRows(rows, now);
    assert p in multiset(scored) by {
      assert p in multiset(Ranking.SortByScore(scored));
    }
  }

  /** Every row of the input appears in the sorted scored rows, with its score. */
  lemma ScoredRowInSorted(rows: seq<Row>, now: int, x: Row)
    requires forall y :: y in rows ==> RowScorable(y, now)
    requires x in rows
    ensures (x, RowScore(x, now)) in Ranking.SortByScore(ScoredRows(rows, now))
  {
    var scored := ScoredRows(rows, now);
    var i :| 0 <= i < |rows| && rows[i] == x;
    assert scored[i] == (x, RowScore(x, now));
    assert scored[i] in multiset(Ranking.SortByScore(scored));
  }

  /** `UPDATE memories SET access_count = access_count + 1, last_accessed = now WHERE id = ANY(ids)`. */
  function Touched(rows: seq<Row>, ids: seq<int>, now: int): (r: seq<Row>)
    ensures |r| == |rows|
    ensures forall i :: 0 <= i < |rows| ==> (r[i] ==
      if rows[i].id in ids then rows[i].(accessCount := rows[i].accessCount + 1, lastAccessed := now) else rows[i])
  {
    seq(|rows|, i requires 0 <= i < |rows| =>
      if rows[i].id in ids then rows[i].(accessCount := rows[i].accessCount + 1, lastAccessed := now) else rows[i])
  }

  /** The rows `DELETE FROM memories WHERE id = $1` leaves. */
  function WithoutRowId(rows: seq<Row>, id: int): (r: seq<Row>)
    ensures forall x :: x in r <==> x in rows && x.id != id
    ensures |r| <= |rows|
  {
    if |rows| == 0 then []
    else (if rows[0].id != id then [rows[0]] else []) + WithoutRowId(rows[1..], id)
  }

  /** The rows `DELETE FROM memories WHERE created_at < $1` leaves. */
  function CreatedNotBefore(rows: seq<Row>, cutoff: int): (r: seq<Row>)
    ensures forall x :: x in r <==> x in rows && x.createdAt >= cutoff
    ensures |r| <= |rows|
  {
    if |rows| == 0 then []
    else (if rows[0].createdAt >= cutoff then [rows[0]] else []) + CreatedNotBefore(rows[1..], cutoff)
  }

  /** Ids strictly increase along the table (SERIAL ids, never reused). */
  predicate IdsIncreasing(rows: seq<Row>)
  {
    forall i, j :: 0 <= i < j < |rows| ==> rows[i].id < rows[j].id
  }

  /** Deleting by id removes one row when some row has that id and none otherwise. */
  lemma {:induction false} DeleteByIdCount(rows: seq<Row>, id: int)
    requires IdsIncreasing(rows)
    ensures |rows| - |WithoutRowId(rows, id)| == if exists x :: x in rows && x.id == id then 1 else 0
    decreases |rows|
  {
    if |rows| != 0 {
      DeleteByIdCount(rows[1..], id);
      if rows[0].id == id {
        assert forall x :: x in rows[1..] ==> x.id != id;
      } else {
        assert (exists x :: x in rows && x.id == id) == (exists x :: x in rows[1..] && x.id == id);
      }
    }
  }

  /** A row whose id is below every id of an increasing table can go in front of it. */
  lemma ConsIdsIncreasing(y: Row, t: seq<Row>)
    requires IdsIncreasing(t) && forall x :: x in t ==> y.id < x.id
    ensures IdsIncreasing([y] + t)
  {
    forall i, j | 0 <= i < j < |[y] + t|
      ensures ([y] + t)[i].id < ([y] + t)[j].id
    {
      assert ([y] + t)[j] == t[j - 1];
      if i > 0 {
        assert ([y] + t)[i] == t[i - 1];
      }
    }
  }

  /** Deleting by id preserves the increasing SERIAL ids. */
  lemma {:induction false} DeleteKeepsIdsIncreasing(rows: seq<Row>, id: int)
    requires IdsIncreasing(rows)
    ensures IdsIncreasing(WithoutRowId(rows, id))
    decreases |rows|
  {
    if |rows| != 0 {
      DeleteKeepsIdsIncreasing(rows[1..], id);
      if rows[0].id != id {
        ConsIdsIncreasing(rows[0], WithoutRowId(rows[1..], id));
      }
    }
  }

  /** Deleting by age preserves the increasing SERIAL ids. */
  lemma {:induction false} PruneKeepsIdsIncreasing(rows: seq<Row>, cutoff: int)
    requires IdsIncreasing(rows)
    ensures IdsIncreasing(CreatedNotBefore(rows, cutoff))
    decreases |rows|
  {
    if |rows| != 0 {
      PruneKeepsIdsIncreasing(rows[1..], cutoff);
      if rows[0].createdAt >= cutoff {
        ConsIdsIncreasing(rows[0], CreatedNotBefore(rows[1..], cutoff));
      }
    }
  }

  /** How many join rows of `memories LEFT JOIN memory_tags` one memory contributes to COUNT(*). */
  function JoinRowCount(r: Row, tags: seq<string>): nat
  {
    if tags == [] then (if |r.tags| == 0 then 1 else |r.tags|)
    else |TagsIn(r.tags, tags)|
  }

  /** The tags of `have` that `tag = ANY(wanted)` keeps, in order. */
  function TagsIn(have: seq<string>, wanted: seq<string>): (r: seq<string>)
    ensures forall t :: t in r <==> t in have && t in wanted
    ensures |r| <= |have|
  {
    if |have| == 0 then []
    else (if have[0] in wanted then [have[0]] else []) + TagsIn(have[1..], wanted)
  }

  /**
   * `SELECT COUNT(*) ... WHERE created_at > since [AND tag = ANY(tags)]`:
   * the join rows of recent memories passing the tag filter.
   */
  function SummaryCount(rows: seq<Row>, tags: seq<string>, since: int): nat
  {
    if |rows| == 0 then 0
    else (if rows[0].createdAt > since then JoinRowCount(rows[0], tags) else 0) + SummaryCount(rows[1..], tags, since)
  }

  /** A memory is summarised when it is recent enough and passes the tag filter. */
  predicate Summarised(r: Row, tags: seq<string>, since: int)
  {
    r.createdAt > since && (tags == [] || AnyTagIn(tags, r.tags))
  }

  /** The aggregate count is zero exactly when no memory falls in the window and passes the filter. */
  lemma {:induction false} SummaryCountZeroIff(rows: seq<Row>, tags: seq<string>, since: int)
    ensures SummaryCount(rows, tags, since) == 0 <==> forall x :: x in rows ==> !Summarised(x, tags, since)
    decreases |rows|
  {
    if |rows| != 0 {
      SummaryCountZeroIff(rows[1..], tags, since);
      var x := rows[0];
      if tags != [] {
        var kept := TagsIn(x.tags, tags);
        if AnyTagIn(tags, x.tags) {
          var t :| t in tags && t in x.tags;
          assert t in kept;
        }
        if |kept| != 0 {
          assert kept[0] in kept;
        }
        assert |kept| == 0 <==> !AnyTagIn(tags, x.tags);
      }
      var c0 := if x.createdAt > since then JoinRowCount(x, tags) else 0;
      assert c0 == 0 <==> !Summarised(x, tags, since);
      assert SummaryCount(rows, tags, since) == c0 + SummaryCount(rows[1..], tags, since);
      assert forall y :: y in rows <==> y == x || y in rows[1..];
    }
  }

  /**
   * The tags a long-term result reports: the memory's tags that pass the
   * tag filter, in order, and none for a memory without tags.  This is what
   * `array_agg(mt.tag)` is evidently meant to produce; NULLs from the LEFT
   * JOIN are dropped (`array_remove(..., NULL)`).
   */
  function ReportedTags(r: Row, tags: seq<string>): (t: seq<string>)
    ensures forall x :: x in t <==> x in r.tags && (tags == [] || x in tags)
    ensures |t| <= |r.tags|
  {
    if tags == [] then r.tags else TagsIn(r.tags, tags)
  }

  /**
   * `array_agg(mt.tag)` as written, JOIN NULLs included: over the LEFT
   * JOIN, a memory without tags contributes one joined row whose tag is NULL.
   * With a tag filter only matching (hence non-NULL) tags reach the aggregate.
   */
  function AggregatedTagsAsWritten(r: Row, tags: seq<string>): seq<Option<string>>
  {
    if tags == [] && r.tags == [] then [None] else Wrap(ReportedTags(r, tags))
  }

  function Wrap(ts: seq<string>): (r: seq<Option<string>>)
    ensures |r| == |ts| && forall i :: 0 <= i < |ts| ==> r[i] == Some(ts[i])
  {
    seq(|ts|, i requires 0 <= i < |ts| => Some(ts[i]))
  }

  /** The non-NULL entries of an aggregate, in order. */
  function Present(ts: seq<Option<string>>): seq<string>
  {
    if |ts| == 0 then [] else (if ts[0].Some? then [ts[0].value] else []) + Present(ts[1..])
  }

  /** `', '.join(ts)`: `None` for the TypeError a NULL entry raises. */
  function JoinTagsAsWritten(ts: seq<Option<string>>): (r: Option<string>)
    ensures r.None? <==> exists i :: 0 <= i < |ts| && ts[i].None?
  {
    if forall i :: 0 <= i < |ts| ==> ts[i].Some? then Some(Join(", ", Present(ts))) else None
  }

  /**
   * As written, recalling a memory stored without tags from the long-term
   * tier without a tag filter fails: the aggregate is `[NULL]`, which is
   * truthy, so the formatter joins it and raises TypeError.
   */
  lemma UntaggedRowBreaksJoinAsWritten(r: Row)
    requires r.tags == []
    ensures AggregatedTagsAsWritten(r, []) == [None]
    ensures JoinTagsAsWritten(AggregatedTagsAsWritten(r, [])) == None
  {
    assert AggregatedTagsAsWritten(r, [])[0].None?;
  }

  lemma {:induction false} PresentWrap(ts: seq<string>)
    ensures Present(Wrap(ts)) == ts
    decreases |ts|
  {
    if |ts| != 0 {
      PresentWrap(ts[1..]);
      assert Wrap(ts)[1..] == Wrap(ts[1..]);
    }
  }

  /**
   * The corrected tags are the as-written aggregate with NULLs dropped, and
   * they always format: their join is exactly the join of the corrected list.
   */
  lemma ReportedTagsDropNulls(r: Row, tags: seq<string>)
    ensures ReportedTags(r, tags) == Present(AggregatedTagsAsWritten(r, tags))
    ensures JoinTagsAsWritten(Wrap(ReportedTags(r, tags))) == Some(Join(", ", ReportedTags(r, tags)))
  {
    PresentWrap(ReportedTags(r, tags));
    if tags == [] && r.tags == [] {
      assert Present([None]) == [] + Present([]);
    }
  }

  /** The database server the connection pool talks to. */
  class Database {
    /** Whether statements currently reach the server (decided by the environment). */
    var reachable: bool
    /** The text of the exception a failing statement raises. */
    const outage: string
    var hasSchema: bool
    var rows: seq<Row>
    var nextId: int

    ghost predicate Valid()
      reads this
    {
      nextId >= 1 && IdsIncreasing(rows) && forall x :: x in rows ==> 1 <= x.id < nextId
    }

    constructor (reachable: bool, outage: string)
      ensures Valid()
      ensures this.reachable == reachable && this.outage == outage
      ensures !hasSchema && rows == [] && nextId == 1
    {
      this.reachable := reachable;
      this.outage := outage;
      hasSchema := false;
      rows := [];
      nextId := 1;
    }

    /** The CREATE TABLE / CREATE INDEX IF NOT EXISTS statements: idempotent. */
    method EnsureSchema() returns (ok: bool)
      requires Valid()
      modifies this`hasSchema
      ensures Valid()
      ensures ok == reachable
      ensures hasSchema == (old(hasSchema) || reachable)
    {
      ok := reachable;
      if ok {
        hasSchema := true;
      }
    }

    /** The ranked SELECT of `_search_long_term`; `None` when the statement fails. */
    method Query(query: string, tags: seq<string>, limit: int, now: int) returns (res: Option<seq<(Row, real)>>)
      ensures res == if reachable then RankedQuery(rows, query, tags, limit, now) else None
    {
      if !reachable {
        return None;
      }
      res := RankedQuery(rows, query, tags, limit, now);
    }

    /** The `total_count` of `summarize`'s aggregate over memories created after `since`. */
    method CountRecent(tags: seq<string>, since: int) returns (count: Option<nat>)
      ensures count == if reachable then Some(SummaryCount(rows, tags, since)) else None
    {
      if !reachable {
        return None;
      }
      count := Some(SummaryCount(rows, tags, since));
    }

    /** `INSERT INTO memories ... RETURNING id` followed by the tag rows. */
    method Insert(content: string, tags: seq<string>, metadata: map<string, string>, timestamp: int) returns (id: Option<int>)
      requires Valid()
      modifies this`rows, this`nextId
      ensures Valid()
      ensures reachable ==> (id == Some(old(nextId)) && nextId == old(nextId) + 1 &&
        rows == old(rows) + [Row(old(nextId), content, tags, metadata, timestamp, timestamp, 1)])
      ensures !reachable ==> id == None && rows == old(rows) && nextId == old(nextId)
    {
      if !reachable {
        return None;
      }
      id := Some(nextId);
      rows := rows + [Row(nextId, content, tags, metadata, timestamp, timestamp, 1)];
      nextId := nextId + 1;
    }

    /** The batched access-bookkeeping UPDATE. */
    method TouchMany(ids: seq<int>, now: int) returns (ok: bool)
      requires Valid()
      modifies this`rows
      ensures Valid()
      ensures ok == reachable
      ensures rows == if reachable then Touched(old(rows), ids, now) else old(rows)
    {
      ok := reachable;
      if ok {
        rows := Touched(rows, ids, now);
      }
    }

    /** `DELETE FROM memories WHERE id = $1`, answering the affected row count. */
    method DeleteById(id: int) returns (count: Option<nat>)
      requires Valid()
      modifies this`rows
      ensures Valid()
      ensures reachable ==> (rows == WithoutRowId(old(rows), id) &&
        count == Some(if exists x :: x in old(rows) && x.id == id then 1 else 0))
      ensures !reachable ==> count == None && rows == old(rows)
    {
      if !reachable {
        return None;
      }
      DeleteByIdCount(rows, id);
      DeleteKeepsIdsIncreasing(rows, id);
      var kept := WithoutRowId(rows, id);
      count := Some(|rows| - |kept|);
      rows := kept;
    }

    /** `DELETE FROM memories WHERE created_at < $1`, answering the affected row count. */
    method DeleteOlderThan(cutoff: int) returns (count: Option<nat>)
      requires Valid()
      modifies this`rows
      ensures Valid()
      ensures reachable ==> (rows == CreatedNotBefore(old(rows), cutoff) &&
        count == Some(|old(rows)| - |rows|))
      ensures !reachable ==> count == None && rows == old(rows)
    {
      if !reachable {
        return None;
      }
      PruneKeepsIdsIncreasing(rows, cutoff);
      var kept := CreatedNotBefore(rows, cutoff);
      count := Some(|rows| - |kept|);
      rows := kept;
    }
  }

}
