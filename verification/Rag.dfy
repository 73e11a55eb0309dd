/**
 * The in-memory source store and the retriever over it. The embedder and the vector norm are functions
 * of the engine; Python dicts keep insertion order, so the store is an ordered list of facts with
 * distinct source ids.
 */
module Rag {
  import opened Options
  import opened Text

  datatype Fact = Fact(sourceId: string, kind: string, content: string, address: Option<string>)

  datatype Evidence = Evidence(fact: Fact, score: real)

  type Vector = seq<real>

  /** What retrieval is built on: an embedder, a norm, Python's `str.lower`, and the score floor. */
  datatype Engine = Engine(embed: string -> Vector, norm: Vector -> real, lower: string -> string, minScore: real)

  function Scale(v: Vector, k: real): Vector
  {
    seq(|v|, i requires 0 <= i < |v| => v[i] * k)
  }

  /** The vector divided by its norm; a zero vector is left alone. */
  function Unit(e: Engine, v: Vector): Vector
  {
    var n := e.norm(v);
    if n != 0.0 then Scale(v, 1.0 / n) else v
  }

  function Dot(u: Vector, v: Vector): real
  {
    if u == [] || v == [] then 0.0 else u[0] * v[0] + Dot(u[1..], v[1..])
  }

  /** `_normalize_address` */
  function NormalizeAddress(e: Engine, address: string): string
  {
    Join(" ", Words(e.lower(address)))
  }

  predicate InScope(e: Engine, fact: Fact, address: Option<string>)
  {
    address.None? ||
    (fact.address.Some? && NormalizeAddress(e, fact.address.value) == NormalizeAddress(e, address.value))
  }

  // ---- Ingest ----

  /** The fact held under `id`. */
  function Lookup(facts: seq<Fact>, id: string): (f: Option<Fact>)
    ensures f.Some? ==> f.value in facts && f.value.sourceId == id
    ensures f.None? <==> forall g :: g in facts ==> g.sourceId != id
  {
    if facts == [] then None
    else if facts[0].sourceId == id then Some(facts[0])
    else Lookup(facts[1..], id)
  }

  /** Replace the fact with the same source id in place, or append. */
  function Upsert(facts: seq<Fact>, f: Fact): seq<Fact>
  {
    if facts == [] then [f]
    else if facts[0].sourceId == f.sourceId then [f] + facts[1..]
    else [facts[0]] + Upsert(facts[1..], f)
  }

  function IngestAll(facts: seq<Fact>, history: seq<Fact>): seq<Fact>
    decreases |history|
  {
    if history == [] then facts else IngestAll(Upsert(facts, history[0]), history[1..])
  }

  ghost predicate DistinctIds(facts: seq<Fact>)
  {
    forall i, j :: 0 <= i < j < |facts| ==> facts[i].sourceId != facts[j].sourceId
  }

  /** The last fact ingested under `id`. */
  function Latest(history: seq<Fact>, id: string): Option<Fact>
  {
    if history == [] then None
    else if history[|history| - 1].sourceId == id then Some(history[|history| - 1])
    else Latest(history[..|history| - 1], id)
  }

  lemma {:induction false} UpsertLookup(facts: seq<Fact>, f: Fact, id: string)
    ensures Lookup(Upsert(facts, f), id) == if id == f.sourceId then Some(f) else Lookup(facts, id)
  {
    if facts == [] {
    } else {
      UpsertLookup(facts[1..], f, id);
    }
  }

  lemma {:induction false} UpsertDistinct(facts: seq<Fact>, f: Fact)
    requires DistinctIds(facts)
    ensures DistinctIds(Upsert(facts, f))
    ensures forall g :: g in Upsert(facts, f) ==> g == f || g in facts
  {
    if facts == [] || facts[0].sourceId == f.sourceId {
    } else {
      UpsertDistinct(facts[1..], f);
      assert forall g :: g in facts[1..] ==> g.sourceId != facts[0].sourceId;
    }
  }

  lemma {:induction false} LatestCons(history: seq<Fact>, id: string)
    requires history != []
    ensures Latest(history, id) ==
            if Latest(history[1..], id).Some? then Latest(history[1..], id)
            else if history[0].sourceId == id then Some(history[0]) else None
  {
    var n := |history| - 1;
    if n == 0 {
    } else {
      LatestCons(history[..n], id);
      assert history[1..][..n - 1] == history[..n][1..];
    }
  }

  /** After any ingest history there is one fact per source id, and it is the latest one ingested under it. */
  lemma {:induction false} LatestWins(facts: seq<Fact>, history: seq<Fact>, id: string)
    requires DistinctIds(facts)
    ensures DistinctIds(IngestAll(facts, history))
    ensures Lookup(IngestAll(facts, history), id) ==
            if Latest(history, id).Some? then Latest(history, id) else Lookup(facts, id)
    decreases |history|
  {
    if history == [] {
    } else {
      UpsertDistinct(facts, history[0]);
      LatestWins(Upsert(facts, history[0]), history[1..], id);
      UpsertLookup(facts, history[0], id);
      LatestCons(history, id);
    }
  }

  // ---- Search ----

  /** The in-scope facts with their scores, in store order. */
  function Scored(e: Engine, facts: seq<Fact>, query: Vector, address: Option<string>): seq<Evidence>
  {
    if facts == [] then []
    else
      (if InScope(e, facts[0], address)
       then [Evidence(facts[0], Dot(query, Unit(e, e.embed(facts[0].content))))] else [])
      + Scored(e, facts[1..], query, address)
  }

  /** Insert before the first evidence that does not score higher. */
  function Insert(x: Evidence, s: seq<Evidence>): seq<Evidence>
  {
    if s == [] || s[0].score <= x.score then [x] + s else [s[0]] + Insert(x, s[1..])
  }

  /** `sort(key=score, reverse=True)`, which is stable. */
  function SortDescending(s: seq<Evidence>): seq<Evidence>
  {
    if s == [] then [] else Insert(s[0], SortDescending(s[1..]))
  }

  function Take(s: seq<Evidence>, k: nat): seq<Evidence>
  {
    if |s| <= k then s else s[..k]
  }

  /** What `search` returns. */
  function Search(e: Engine, facts: seq<Fact>, query: Vector, topK: int, address: Option<string>): seq<Evidence>
  {
    if topK <= 0 then [] else Take(SortDescending(Scored(e, facts, Unit(e, query), address)), topK)
  }

  ghost predicate Descending(s: seq<Evidence>)
  {
    forall i, j :: 0 <= i < j < |s| ==> s[i].score >= s[j].score
  }

  function WithScore(s: seq<Evidence>, x: real): seq<Evidence>
  {
    if s == [] then [] else if s[0].score == x then [s[0]] + WithScore(s[1..], x) else WithScore(s[1..], x)
  }

  lemma {:induction false} InsertKeeps(x: Evidence, s: seq<Evidence>)
    ensures multiset(Insert(x, s)) == multiset{x} + multiset(s)
  {
    if s == [] {
    } else {
      assert s == [s[0]] + s[1..];
      InsertKeeps(x, s[1..]);
    }
  }

  lemma {:induction false} InsertBound(x: Evidence, s: seq<Evidence>, top: real)
    requires x.score <= top && forall y :: y in s ==> y.score <= top
    ensures forall y :: y in Insert(x, s) ==> y.score <= top
  {
    if s == [] {
    } else {
      InsertBound(x, s[1..], top);
    }
  }

  lemma HeadDescends(x: Evidence, r: seq<Evidence>)
    requires Descending(r) && forall y :: y in r ==> y.score <= x.score
    ensures Descending([x] + r)
  {
  }

  lemma {:induction false} InsertSorts(x: Evidence, s: seq<Evidence>)
    requires Descending(s)
    ensures Descending(Insert(x, s))
  {
    if s == [] || s[0].score <= x.score {
      HeadDescends(x, s);
    } else {
      InsertSorts(x, s[1..]);
      InsertBound(x, s[1..], s[0].score);
      HeadDescends(s[0], Insert(x, s[1..]));
    }
  }

  function Only(x: Evidence, v: real): seq<Evidence>
  {
    if x.score == v then [x] else []
  }

  lemma {:induction false} InsertStable(x: Evidence, s: seq<Evidence>, v: real)
    requires Descending(s)
    ensures WithScore(Insert(x, s), v) == Only(x, v) + WithScore(s, v)
  {
    if s == [] || s[0].score <= x.score {
      assert ([x] + s)[1..] == s;
    } else {
      var rest := Insert(x, s[1..]);
      assert ([s[0]] + rest)[1..] == rest;
      InsertStable(x, s[1..], v);
      if x.score == v {
        assert WithScore(s, v) == WithScore(s[1..], v);
      } else {
        assert WithScore(rest, v) == WithScore(s[1..], v);
      }
    }
  }

  lemma SortUnfold(s: seq<Evidence>)
    ensures SortDescending([]) == [] && Descending([])
    ensures s != [] ==> SortDescending(s) == Insert(s[0], SortDescending(s[1..]))
  {
    hide Insert;
  }

  lemma WithScoreUnfold(s: seq<Evidence>, v: real)
    ensures WithScore([], v) == []
    ensures s != [] ==> WithScore(s, v) == Only(s[0], v) + WithScore(s[1..], v)
  {
  }

  /** The sort orders by descending score, loses nothing, and keeps ties in store order. */
  lemma {:induction false} SortIsStable(s: seq<Evidence>, v: real)
    ensures Descending(SortDescending(s))
    ensures multiset(SortDescending(s)) == multiset(s)
    ensures WithScore(SortDescending(s), v) == WithScore(s, v)
  {
    SortUnfold(s);
    WithScoreUnfold(s, v);
    if s == [] {
    } else {
      hide *;
      SortIsStable(s[1..], v);
      InsertSorts(s[0], SortDescending(s[1..]));
      InsertKeeps(s[0], SortDescending(s[1..]));
      InsertStable(s[0], SortDescending(s[1..]), v);
      assert s == [s[0]] + s[1..];
    }
  }

  /** Every hit is a stored, in-scope fact with its own score, and every such fact is scored. */
  lemma {:induction false} ScoredIsScope(e: Engine, facts: seq<Fact>, query: Vector, address: Option<string>,
                                         x: Evidence)
    ensures x in Scored(e, facts, query, address) <==>
            x.fact in facts && InScope(e, x.fact, address) && x.score == Dot(query, Unit(e, e.embed(x.fact.content)))
  {
    hide InScope;
    hide Dot;
    hide Unit;
    if facts == [] {
    } else {
      ScoredIsScope(e, facts[1..], query, address, x);
    }
  }

  /**
   * Top-k search: `min(k, in-scope count)` results in descending score, each a stored in-scope fact,
   * and no omitted in-scope fact scores higher than any returned one.
   */
  lemma SearchIsTopK(e: Engine, facts: seq<Fact>, query: Vector, topK: nat, address: Option<string>)
    ensures var all, r := Scored(e, facts, Unit(e, query), address), Search(e, facts, query, topK, address);
            && |r| == (if |all| <= topK then |all| else topK)
            && Descending(r)
            && multiset(r) <= multiset(all)
            && forall x, y :: x in r && y in multiset(all) - multiset(r) ==> y.score <= x.score
  {
    hide Scored;
    hide Unit;
    hide SortDescending;
    var all := Scored(e, facts, Unit(e, query), address);
    SortIsStable(all, 0.0);
    TakeIsTop(SortDescending(all), topK);
    SameLength(SortDescending(all), all);
    assert Search(e, facts, query, topK, address) == Take(SortDescending(all), topK);
  }

  lemma TakeIsTop(s: seq<Evidence>, k: nat)
    requires Descending(s)
    ensures var r := Take(s, k);
            && |r| == (if |s| <= k then |s| else k)
            && Descending(r)
            && multiset(r) <= multiset(s)
            && forall x, y :: x in r && y in multiset(s) - multiset(r) ==> y.score <= x.score
  {
    var n := if |s| <= k then |s| else k;
    assert Take(s, k) == s[..n];
    SplitMultiset(s, n);
    SplitOrdered(s, n);
  }

  lemma SplitMultiset(s: seq<Evidence>, n: nat)
    requires n <= |s|
    ensures multiset(s) == multiset(s[..n]) + multiset(s[n..])
  {
    assert s == s[..n] + s[n..];
  }

  lemma SplitOrdered(s: seq<Evidence>, n: nat)
    requires n <= |s| && Descending(s)
    ensures forall x, y :: x in s[..n] && y in multiset(s[n..]) ==> y.score <= x.score
  {
    forall x: Evidence, y: Evidence | x in s[..n] && y in multiset(s[n..])
      ensures y.score <= x.score
    {
      var i :| 0 <= i < n && s[..n][i] == x;
      assert y in s[n..];
      var j :| 0 <= j < |s| - n && s[n..][j] == y;
      assert s[i] == x && s[n + j] == y;
    }
  }

  lemma SameLength(a: seq<Evidence>, b: seq<Evidence>)
    requires multiset(a) == multiset(b)
    ensures |a| == |b|
  {
    assert |multiset(a)| == |multiset(b)|;
  }

  /** Everything `search` returns is stored and in scope. */
  lemma SearchInScope(e: Engine, facts: seq<Fact>, query: Vector, topK: int, address: Option<string>, x: Evidence)
    requires x in Search(e, facts, query, topK, address)
    ensures x.fact in facts && InScope(e, x.fact, address)
  {
    hide InScope;
    hide Unit;
    var all := Scored(e, facts, Unit(e, query), address);
    SortIsStable(all, 0.0);
    assert x in multiset(SortDescending(all));
    ScoredIsScope(e, facts, Unit(e, query), address, x);
  }

  // ---- The store object ----

  function Listed(ids: seq<string>, facts: map<string, Fact>): (s: seq<Fact>)
    requires forall id :: id in ids ==> id in facts
    ensures |s| == |ids| && forall i :: 0 <= i < |s| ==> s[i] == facts[ids[i]]
  {
    if ids == [] then [] else [facts[ids[0]]] + Listed(ids[1..], facts)
  }

  /** The insertion order and the fact dict of a store agree. */
  ghost predicate Keyed(ids: seq<string>, facts: map<string, Fact>)
  {
    && (forall i, j :: 0 <= i < j < |ids| ==> ids[i] != ids[j])
    && (forall id :: id in facts <==> id in ids)
    && (forall id :: id in ids ==> facts[id].sourceId == id)
  }

  /** Every stored fact has its vector. */
  ghost predicate Embedded(e: Engine, ids: seq<string>, facts: map<string, Fact>, vectors: map<string, Vector>)
    requires Keyed(ids, facts)
  {
    && (forall id :: id in vectors <==> id in ids)
    && (forall id :: id in ids ==> vectors[id] == Unit(e, e.embed(facts[id].content)))
  }

  lemma UpsertKeepsKeyed(ids: seq<string>, facts: map<string, Fact>, fact: Fact)
    requires Keyed(ids, facts)
    ensures Keyed(if fact.sourceId in facts then ids else ids + [fact.sourceId], facts[fact.sourceId := fact])
  {
  }

  lemma UpsertKeepsEmbedded(e: Engine, ids: seq<string>, facts: map<string, Fact>, vectors: map<string, Vector>,
                            fact: Fact)
    requires Keyed(ids, facts) && Embedded(e, ids, facts, vectors)
    ensures var now := if fact.sourceId in facts then ids else ids + [fact.sourceId];
            && Keyed(now, facts[fact.sourceId := fact])
            && Embedded(e, now, facts[fact.sourceId := fact], vectors[fact.sourceId := Unit(e, e.embed(fact.content))])
  {
    hide Unit;
    UpsertKeepsKeyed(ids, facts, fact);
  }

  /** The loop of `search`: every in-scope fact with its score, read off the two dicts. */
  method ScoreAll(e: Engine, ids: seq<string>, facts: map<string, Fact>, vectors: map<string, Vector>,
                  query: Vector, address: Option<string>) returns (scored: seq<Evidence>)
    requires forall id :: id in ids ==>
               id in facts && id in vectors && vectors[id] == Unit(e, e.embed(facts[id].content))
    ensures scored == Scored(e, Listed(ids, facts), query, address)
  {
    hide InScope;
    hide Dot;
    hide Unit;
    hide Scored;
    hide Listed;
    scored := [];
    ghost var all := Listed(ids, facts);
    ScoredNothing(e, query, address);
    for i := 0 to |ids|
      invariant scored == Scored(e, all[..i], query, address)
    {
      var fact := facts[ids[i]];
      ScoredAppend(e, all[..i], fact, query, address);
      assert all[..i + 1] == all[..i] + [fact];
      if InScope(e, fact, address) {
        scored := scored + [Evidence(fact, Dot(query, vectors[ids[i]]))];
      }
    }
    assert all[..|ids|] == all;
  }

  class VectorStore {
    const engine: Engine
    var ids: seq<string>
    var facts: map<string, Fact>
    var vectors: map<string, Vector>

    ghost predicate Valid()
      reads this
    {
      Keyed(ids, facts) && Embedded(engine, ids, facts, vectors)
    }

    /** The stored facts in insertion order. */
    ghost function Contents(): (s: seq<Fact>)
      requires Valid()
      reads this
    {
      Listed(ids, facts)
    }

    constructor (engine: Engine)
      ensures Valid() && Contents() == [] && this.engine == engine
    {
      this.engine := engine;
      ids, facts, vectors := [], map[], map[];
    }

    /** `ingest`: upsert one fact under its source id. */
    method Ingest(fact: Fact)
      requires Valid()
      modifies this
      ensures Valid() && Contents() == Upsert(old(Contents()), fact)
    {
      hide Unit;
      hide Listed;
      hide Upsert;
      UpsertKeepsEmbedded(engine, ids, facts, vectors, fact);
      ListedUpsert(ids, facts, fact);
      hide Keyed;
      hide Embedded;
      var vector := Unit(engine, engine.embed(fact.content));
      if fact.sourceId !in facts {
        ids := ids + [fact.sourceId];
      }
      facts := facts[fact.sourceId := fact];
      vectors := vectors[fact.sourceId := vector];
    }

    /** `ingest_many` */
    method IngestMany(more: seq<Fact>)
      requires Valid()
      modifies this
      ensures Valid() && Contents() == IngestAll(old(Contents()), more)
    {
      for i := 0 to |more|
        invariant Valid() && IngestAll(Contents(), more[i..]) == IngestAll(old(Contents()), more)
      {
        Ingest(more[i]);
        assert more[i..][1..] == more[i + 1..];
      }
    }

    /** `search` */
    method SearchStore(query: Vector, topK: int, address: Option<string>) returns (found: seq<Evidence>)
      requires Valid()
      ensures found == Search(engine, Contents(), query, topK, address)
    {
      if topK <= 0 || ids == [] {
        return [];
      }
      var scored := ScoreAll(engine, ids, facts, vectors, Unit(engine, query), address);
      found := Take(SortDescending(scored), topK);
    }
  }

  /** Writing under an existing key keeps its place; a new key goes last. */
  lemma {:induction false} ListedUpsert(ids: seq<string>, facts: map<string, Fact>, f: Fact)
    requires forall id :: id in ids ==> id in facts && facts[id].sourceId == id
    requires forall i, j :: 0 <= i < j < |ids| ==> ids[i] != ids[j]
    ensures Listed(if f.sourceId in ids then ids else ids + [f.sourceId], facts[f.sourceId := f])
            == Upsert(Listed(ids, facts), f)
  {
    var now := facts[f.sourceId := f];
    if ids == [] {
      assert Listed([f.sourceId], now) == [f];
    } else if ids[0] == f.sourceId {
      assert Listed(ids, now) == [f] + Listed(ids, facts)[1..];
    } else {
      ListedUpsert(ids[1..], facts, f);
      assert f.sourceId !in ids ==> (ids + [f.sourceId])[1..] == ids[1..] + [f.sourceId];
    }
  }

  lemma ScoredNothing(e: Engine, query: Vector, address: Option<string>)
    ensures Scored(e, [], query, address) == []
  {
  }

  /** What one fact adds to the scored list. */
  function ScoredOne(e: Engine, f: Fact, query: Vector, address: Option<string>): seq<Evidence>
  {
    if InScope(e, f, address) then [Evidence(f, Dot(query, Unit(e, e.embed(f.content))))] else []
  }

  lemma ScoredCons(e: Engine, f: Fact, rest: seq<Fact>, query: Vector, address: Option<string>)
    ensures Scored(e, [f] + rest, query, address) == ScoredOne(e, f, query, address) + Scored(e, rest, query, address)
  {
    hide InScope;
    hide Dot;
    hide Unit;
    assert ([f] + rest)[1..] == rest;
  }

  lemma {:induction false} ScoredAppend(e: Engine, facts: seq<Fact>, f: Fact, query: Vector, address: Option<string>)
    ensures Scored(e, facts + [f], query, address) == Scored(e, facts, query, address) + ScoredOne(e, f, query, address)
  {
    ScoredNothing(e, query, address);
    hide *;
    if facts == [] {
      assert facts + [f] == [f] + [];
      ScoredCons(e, f, [], query, address);
    } else {
      var first, rest := facts[0], facts[1..];
      ScoredAppend(e, rest, f, query, address);
      assert facts == [first] + rest && facts + [f] == [first] + (rest + [f]);
      ScoredCons(e, first, rest, query, address);
      ScoredCons(e, first, rest + [f], query, address);
    }
  }

  // ---- The retriever ----

  function AtLeast(s: seq<Evidence>, floor: real): seq<Evidence>
  {
    if s == [] then [] else (if s[0].score >= floor then [s[0]] else []) + AtLeast(s[1..], floor)
  }

  /** What `Retriever.retrieve` returns. */
  function Retrieve(e: Engine, facts: seq<Fact>, claim: string, topK: int, address: Option<string>): seq<Evidence>
  {
    if Blank(claim) then [] else AtLeast(Search(e, facts, e.embed(claim), topK, address), e.minScore)
  }

  /** `Retriever.retrieve` */
  method RetrieveFrom(store: VectorStore, claim: string, topK: int, address: Option<string>)
    returns (found: seq<Evidence>)
    requires store.Valid()
    ensures found == Retrieve(store.engine, store.Contents(), claim, topK, address)
  {
    if Blank(claim) {
      return [];
    }
    var evidence := store.SearchStore(store.engine.embed(claim), topK, address);
    found := AtLeast(evidence, store.engine.minScore);
  }

  lemma {:induction false} AtLeastSubset(s: seq<Evidence>, floor: real, x: Evidence)
    ensures x in AtLeast(s, floor) <==> x in s && x.score >= floor
  {
    if s == [] {
    } else {
      AtLeastSubset(s[1..], floor, x);
    }
  }

  /** Retrieval never fabricates: whatever it returns is a stored fact scoped to the address asked for. */
  lemma RetrievedIsStored(e: Engine, facts: seq<Fact>, claim: string, topK: int, address: Option<string>, x: Evidence)
    requires x in Retrieve(e, facts, claim, topK, address)
    ensures x.fact in facts && InScope(e, x.fact, address) && x.score >= e.minScore
  {
    hide Search;
    hide InScope;
    AtLeastSubset(Search(e, facts, e.embed(claim), topK, address), e.minScore, x);
    SearchInScope(e, facts, e.embed(claim), topK, address, x);
  }

  // ---- When a fact is sure to be retrieved ----

  function CountAtLeast(s: seq<Evidence>, floor: real): nat
  {
    if s == [] then 0 else (if s[0].score >= floor then 1 else 0) + CountAtLeast(s[1..], floor)
  }

  lemma {:induction false} InsertCounts(x: Evidence, s: seq<Evidence>, floor: real)
    ensures CountAtLeast(Insert(x, s), floor) == (if x.score >= floor then 1 else 0) + CountAtLeast(s, floor)
  {
    if s == [] || s[0].score <= x.score {
      assert ([x] + s)[1..] == s;
    } else {
      InsertCounts(x, s[1..], floor);
      assert ([s[0]] + Insert(x, s[1..]))[1..] == Insert(x, s[1..]);
    }
  }

  lemma {:induction false} SortCounts(s: seq<Evidence>, floor: real)
    ensures CountAtLeast(SortDescending(s), floor) == CountAtLeast(s, floor)
  {
    if s == [] {
    } else {
      SortCounts(s[1..], floor);
      InsertCounts(s[0], SortDescending(s[1..]), floor);
    }
  }

  /** In a descending list, everything up to an element at or above the floor counts. */
  lemma {:induction false} PrefixCounts(s: seq<Evidence>, i: nat, floor: real)
    requires i < |s| && forall j :: 0 <= j <= i ==> s[j].score >= floor
    ensures CountAtLeast(s, floor) >= i + 1
  {
    if i == 0 {
    } else {
      PrefixCounts(s[1..], i - 1, floor);
    }
  }

  /** The score a text would have as evidence for the claim. */
  function ScoreOf(e: Engine, claim: string, content: string): real
  {
    Dot(Unit(e, e.embed(claim)), Unit(e, e.embed(content)))
  }

  /** How many stored facts of the address score at least as high for the claim as `content` does. */
  function RankOf(e: Engine, facts: seq<Fact>, claim: string, address: Option<string>, content: string): nat
  {
    CountAtLeast(Scored(e, facts, Unit(e, e.embed(claim)), address), ScoreOf(e, claim, content))
  }

  /** An element with at most k elements scoring as high is among the first k of the sorted list. */
  lemma RankedIsTaken(all: seq<Evidence>, x: Evidence, k: nat)
    requires x in all && CountAtLeast(all, x.score) <= k
    ensures x in Take(SortDescending(all), k)
  {
    SortIsStable(all, 0.0);
    SortCounts(all, x.score);
    var sorted := SortDescending(all);
    hide SortDescending;
    assert x in multiset(all);
    assert x in multiset(sorted);
    var i :| 0 <= i < |sorted| && sorted[i] == x;
    PrefixCounts(sorted, i, x.score);
    hide *;
    TakeHolds(sorted, i, k);
  }

  lemma TakeHolds(s: seq<Evidence>, i: nat, k: nat)
    requires i < |s| && i < k
    ensures s[i] in Take(s, k)
  {
    assert k < |s| ==> s[..k][i] == s[i];
  }

  /** A stored fact of the address that is ranked within the top k and reaches the score floor is retrieved. */
  lemma RankedIsRetrieved(e: Engine, facts: seq<Fact>, claim: string, topK: int, address: Option<string>, f: Fact)
    requires f in facts && InScope(e, f, address) && !Blank(claim)
    requires ScoreOf(e, claim, f.content) >= e.minScore && RankOf(e, facts, claim, address, f.content) <= topK
    ensures exists x :: x in Retrieve(e, facts, claim, topK, address) && x.fact == f
  {
    hide InScope;
    hide Unit;
    hide Dot;
    hide Blank;
    hide Scored;
    hide CountAtLeast;
    hide Take;
    hide SortDescending;
    var query := Unit(e, e.embed(claim));
    var all := Scored(e, facts, query, address);
    var x := Evidence(f, ScoreOf(e, claim, f.content));
    ScoredIsScope(e, facts, query, address, x);
    PositiveCount(all, x);
    RankedIsTaken(all, x, topK);
    AtLeastSubset(Search(e, facts, e.embed(claim), topK, address), e.minScore, x);
  }

  lemma {:induction false} PositiveCount(s: seq<Evidence>, x: Evidence)
    requires x in s
    ensures CountAtLeast(s, x.score) > 0
  {
    if s[0] == x {
    } else {
      PositiveCount(s[1..], x);
    }
  }

  lemma {:induction false} UpsertHolds(facts: seq<Fact>, f: Fact, g: Fact)
    ensures f in Upsert(facts, f)
    ensures g in facts && g.sourceId != f.sourceId ==> g in Upsert(facts, f)
  {
    if facts == [] || facts[0].sourceId == f.sourceId {
      assert facts != [] ==> facts == [facts[0]] + facts[1..];
    } else {
      UpsertHolds(facts[1..], f, g);
    }
  }

  lemma {:induction false} IngestKeepsOther(facts: seq<Fact>, history: seq<Fact>, g: Fact)
    requires g in facts && forall f :: f in history ==> f.sourceId != g.sourceId
    ensures g in IngestAll(facts, history)
    decreases |history|
  {
    if history == [] {
    } else {
      UpsertHolds(facts, history[0], g);
      IngestKeepsOther(Upsert(facts, history[0]), history[1..], g);
    }
  }

  /** Facts with distinct ids are all in the store once ingested, whatever it held before. */
  lemma {:induction false} IngestHoldsAll(facts: seq<Fact>, history: seq<Fact>, g: Fact)
    requires DistinctIds(history) && g in history
    ensures g in IngestAll(facts, history)
    decreases |history|
  {
    if g == history[0] {
      UpsertHolds(facts, g, g);
      IngestKeepsOther(Upsert(facts, g), history[1..], g);
    } else {
      IngestHoldsAll(Upsert(facts, history[0]), history[1..], g);
    }
  }

  // ---- What scope and scores mean ----

  /** Normalised addresses are equal exactly when the lower-cased words are, in number and order. */
  lemma NormalizedIff(e: Engine, a: string, b: string)
    ensures NormalizeAddress(e, a) == NormalizeAddress(e, b) <==> Words(e.lower(a)) == Words(e.lower(b))
  {
    var u, v := Words(e.lower(a)), Words(e.lower(b));
    WordsAreWords(e.lower(a));
    WordsAreWords(e.lower(b));
    WordsOfJoin(u);
    WordsOfJoin(v);
    hide Words;
    hide Join;
  }

  /** A fact is in scope of an address exactly when it has an address of the same words; without one, all facts are. */
  lemma ScopeIff(e: Engine, f: Fact, address: Option<string>)
    ensures InScope(e, f, address) <==>
            address.None? || (f.address.Some? && Words(e.lower(f.address.value)) == Words(e.lower(address.value)))
  {
    hide NormalizeAddress;
    hide Words;
    if address.Some? && f.address.Some? {
      NormalizedIff(e, f.address.value, address.value);
    }
  }

  lemma {:induction false} DotSymmetric(u: Vector, v: Vector)
    ensures Dot(u, v) == Dot(v, u)
  {
    if u == [] || v == [] {
    } else {
      DotSymmetric(u[1..], v[1..]);
    }
  }

  /** The sum of the squared differences. */
  function Distance2(u: Vector, v: Vector): real
  {
    if u == [] || v == [] then 0.0 else (u[0] - v[0]) * (u[0] - v[0]) + Distance2(u[1..], v[1..])
  }

  lemma SquareStep(x: real, y: real)
    ensures (x - y) * (x - y) == x * x - 2.0 * (x * y) + y * y && (x - y) * (x - y) >= 0.0
  {
  }

  /** The squared distance of two vectors, through their scores. */
  lemma {:induction false} DistanceByDot(u: Vector, v: Vector)
    requires |u| == |v|
    ensures Distance2(u, v) == Dot(u, u) - 2.0 * Dot(u, v) + Dot(v, v) && Distance2(u, v) >= 0.0
  {
    if u == [] {
    } else {
      DistanceByDot(u[1..], v[1..]);
      SquareStep(u[0], v[0]);
    }
  }

  /** Among unit vectors the score falls as the distance grows, so none scores higher than the vector itself. */
  lemma UnitScore(u: Vector, v: Vector)
    requires |u| == |v| && Dot(u, u) == 1.0 && Dot(v, v) == 1.0
    ensures Dot(u, v) == 1.0 - Distance2(u, v) / 2.0 && Dot(u, v) <= Dot(u, u)
  {
    DistanceByDot(u, v);
  }

  function Times(x: real, y: real): real
  {
    x * y
  }

  lemma ScaleFirst(u: Vector, k: real)
    requires u != []
    ensures Scale(u, k) != [] && Scale(u, k)[0] == Times(u[0], k) && Scale(u, k)[1..] == Scale(u[1..], k)
  {
    var a, b := Scale(u, k)[1..], Scale(u[1..], k);
    assert |a| == |b| && forall i :: 0 <= i < |a| ==> a[i] == b[i];
  }

  lemma ScaleEmpty(u: Vector, k: real)
    ensures u == [] <==> Scale(u, k) == []
  {
  }

  lemma DotFirst(u: Vector, v: Vector)
    ensures (u == [] || v == []) ==> Dot(u, v) == 0.0
    ensures u != [] && v != [] ==> Dot(u, v) == Times(u[0], v[0]) + Dot(u[1..], v[1..])
  {
  }

  lemma TimesScaled(x: real, y: real, k: real)
    ensures Times(Times(x, k), Times(y, k)) == Times(Times(x, y), Times(k, k))
  {
  }

  lemma TimesAdds(x: real, y: real, c: real)
    ensures Times(x + y, c) == Times(x, c) + Times(y, c) && Times(0.0, c) == 0.0
  {
  }

  lemma {:induction false} DotOfScaled(u: Vector, v: Vector, k: real)
    ensures Dot(Scale(u, k), Scale(v, k)) == Times(Dot(u, v), Times(k, k))
  {
    hide *;
    var p, q := Scale(u, k), Scale(v, k);
    DotFirst(u, v);
    DotFirst(p, q);
    ScaleEmpty(u, k);
    ScaleEmpty(v, k);
    TimesAdds(0.0, 0.0, Times(k, k));
    if u == [] || v == [] {
    } else {
      ScaleFirst(u, k);
      ScaleFirst(v, k);
      DotOfScaled(u[1..], v[1..], k);
      TimesScaled(u[0], v[0], k);
      TimesAdds(Times(u[0], v[0]), Dot(u[1..], v[1..]), Times(k, k));
    }
  }

  /** With the Euclidean norm, what is stored for a non-zero embedding is a unit vector. */
  lemma UnitIsUnit(e: Engine, v: Vector)
    requires e.norm(v) != 0.0 && e.norm(v) * e.norm(v) == Dot(v, v)
    ensures Dot(Unit(e, v), Unit(e, v)) == 1.0
  {
    var n := e.norm(v);
    var k := 1.0 / n;
    DotOfScaled(v, v, k);
    InverseSquare(n);
  }

  lemma InverseSquare(n: real)
    requires n != 0.0
    ensures (n * n) * ((1.0 / n) * (1.0 / n)) == 1.0
  {
    var k := 1.0 / n;
    assert n * k == 1.0;
    assert (n * n) * (k * k) == (n * k) * (n * k);
  }
}
