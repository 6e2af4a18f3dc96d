/** Turning search results into candidate sources, and choosing which candidates to extract. */
module ResearchSelection {
  import opened Wrappers
  import opened DecisionContracts
  import opened ResearchContracts
  import opened ResearchAudit

  // ---------------------------------------------------------------- storing what a search found

  /** One result with the address policy's verdict on it: a canonical address and its domain, or a reason to block. */
  datatype SearchResult = SearchResult(
    url: Id, verdict: Result<(Id, Id), Id>, rank: int, providerNamed: bool, published: Published)

  function SourceOf(result: SearchResult): Source {
    match result.verdict
    case Failure(code) =>
      Source(SourceId(result.url), result.url, 0, result.rank, result.providerNamed, result.published, Blocked,
        [Rejection(code)])
    case Success((canonical, domain)) =>
      Source(SourceId(canonical), canonical, domain, result.rank, result.providerNamed, result.published, Discovered,
        [])
  }

  predicate Accepts(results: seq<SearchResult>, canonical: Id) {
    exists i :: 0 <= i < |results| && results[i].verdict.Success? && results[i].verdict.value.0 == canonical
  }

  function Discoveries(results: seq<SearchResult>): seq<Source> {
    if results == [] then []
    else
      var init, last := results[..|results| - 1], results[|results| - 1];
      Discoveries(init)
        + if last.verdict.Success? && Accepts(init, last.verdict.value.0) then [] else [SourceOf(last)]
  }

  function FirstResults(results: seq<SearchResult>, limit: nat): seq<SearchResult> {
    if |results| <= limit then results else results[..limit]
  }

  /** One more result accepts its own address, if it has one. */
  lemma AcceptsNext(results: seq<SearchResult>, i: nat, canonical: Id)
    requires i < |results|
    ensures Accepts(results[..i + 1], canonical) <==>
            Accepts(results[..i], canonical)
            || (results[i].verdict.Success? && results[i].verdict.value.0 == canonical)
  {
    var before, after := results[..i], results[..i + 1];
    if Accepts(before, canonical) {
      var k :| 0 <= k < i && before[k].verdict.Success? && before[k].verdict.value.0 == canonical;
      assert after[k] == before[k];
    }
    if Accepts(after, canonical) {
      var k :| 0 <= k < i + 1 && after[k].verdict.Success? && after[k].verdict.value.0 == canonical;
      assert k < i ==> before[k] == after[k];
    }
    assert after[i] == results[i];
  }

  lemma DiscoveriesNext(results: seq<SearchResult>, i: nat)
    requires i < |results|
    ensures Discoveries(results[..i + 1]) ==
            Discoveries(results[..i])
            + if results[i].verdict.Success? && Accepts(results[..i], results[i].verdict.value.0) then []
              else [SourceOf(results[i])]
  {
    assert results[..i + 1][..i] == results[..i];
  }

  method StoreDiscovery(run: ResearchRun, results: seq<SearchResult>)
    modifies run`sources
    ensures run.sources == old(run.sources) + Discoveries(FirstResults(results, run.request.maxSearchResults))
  {
    hide Accepts, SourceOf, FirstResults;
    var kept := FirstResults(results, run.request.maxSearchResults);
    var seen: set<Id> := {};
    assert forall c :: !Accepts(kept[..0], c) by { NothingAccepts(kept); }
    for i := 0 to |kept|
      invariant forall c :: c in seen <==> Accepts(kept[..i], c)
      invariant run.sources == old(run.sources) + Discoveries(kept[..i])
    {
      var result := kept[i];
      DiscoveriesNext(kept, i);
      forall c
        ensures Accepts(kept[..i + 1], c) <==>
                Accepts(kept[..i], c) || (result.verdict.Success? && result.verdict.value.0 == c)
      {
        AcceptsNext(kept, i, c);
      }
      hide Discoveries;
      if result.verdict.Failure? {
        run.sources := run.sources + [SourceOf(result)];
      } else if result.verdict.value.0 !in seen {
        seen := seen + {result.verdict.value.0};
        run.sources := run.sources + [SourceOf(result)];
      }
    }
    assert kept[..|kept|] == kept;
  }

  lemma NothingAccepts(results: seq<SearchResult>)
    ensures forall c :: !Accepts(results[..0], c)
  {
  }

  predicate DistinctDiscovered(sources: seq<Source>) {
    forall i, j :: 0 <= i < j < |sources| && sources[i].status.Discovered? && sources[j].status.Discovered? ==>
                     sources[i].id != sources[j].id
  }

  /** Each accepted address becomes one discovered source, each refused one a blocked source, and nothing else. */
  lemma {:induction false} DiscoveriesAreDistinct(results: seq<SearchResult>)
    ensures DistinctDiscovered(Discoveries(results))
    ensures forall s :: s in Discoveries(results) ==> s.status.Discovered? || s.status.Blocked?
    ensures forall s :: s in Discoveries(results) && s.status.Discovered? ==>
            Accepts(results, s.canonicalUrl) && s.id == SourceId(s.canonicalUrl)
    ensures forall c :: Accepts(results, c) ==>
            exists s :: s in Discoveries(results) && s.status.Discovered? && s.canonicalUrl == c
    ensures |Discoveries(results)| <= |results|
  {
    if results != [] {
      var init, last := results[..|results| - 1], results[|results| - 1];
      DiscoveriesAreDistinct(init);
      var before, all := Discoveries(init), Discoveries(results);
      forall c | Accepts(init, c) ensures Accepts(results, c) {
        var k :| 0 <= k < |init| && init[k].verdict.Success? && init[k].verdict.value.0 == c;
        assert results[k] == init[k];
      }
      if last.verdict.Success? {
        assert results[|init|] == last;
        assert Accepts(results, last.verdict.value.0);
      }
      forall c | Accepts(results, c) ensures exists s :: s in all && s.status.Discovered? && s.canonicalUrl == c {
        var k :| 0 <= k < |results| && results[k].verdict.Success? && results[k].verdict.value.0 == c;
        if k < |init| {
          assert init[k] == results[k];
        }
        if Accepts(init, c) {
          var s :| s in before && s.status.Discovered? && s.canonicalUrl == c;
          assert s in all;
        } else {
          assert SourceOf(last) in all;
        }
      }
    }
  }

  /**
   The source made of result i: blocked under its own address with the reason, or discovered under the canonical one,
   which no earlier result was accepted for.
   */
  predicate MadeOf(results: seq<SearchResult>, i: nat, s: Source) {
    && i < |results|
    && s.rank == results[i].rank && s.providerNamed == results[i].providerNamed && s.published == results[i].published
    && match results[i].verdict
       case Failure(code) =>
         && s.status == Blocked && s.reasons == [Rejection(code)]
         && s.id == SourceId(results[i].url) && s.canonicalUrl == results[i].url
       case Success((canonical, domain)) =>
         && s.status == Discovered && s.reasons == [] && s.domain == domain
         && s.id == SourceId(canonical) && s.canonicalUrl == canonical && !Accepts(results[..i], canonical)
  }

  /** A result gives a source unless an earlier one was accepted for its address. */
  predicate GivesSource(results: seq<SearchResult>, i: nat) {
    i < |results| && (results[i].verdict.Success? ==> !Accepts(results[..i], results[i].verdict.value.0))
  }

  /** The sources are made of the results at these places, in order; the others give none. */
  ghost predicate MadeOfAll(results: seq<SearchResult>, sources: seq<Source>, places: seq<nat>) {
    && |places| == |sources|
    && (forall m, n :: 0 <= m < n < |places| ==> places[m] < places[n])
    && (forall i: nat :: i in places <==> GivesSource(results, i))
    && (forall m :: 0 <= m < |sources| ==> MadeOf(results, places[m], sources[m]))
  }

  lemma EarlierResults(init: seq<SearchResult>, last: SearchResult, i: nat)
    requires i < |init|
    ensures GivesSource(init, i) <==> GivesSource(init + [last], i)
    ensures forall s :: MadeOf(init, i, s) <==> MadeOf(init + [last], i, s)
  {
    assert (init + [last])[..i] == init[..i] && (init + [last])[i] == init[i];
    hide Accepts;
  }

  lemma MadeOfNext(
    init: seq<SearchResult>, last: SearchResult, sources: seq<Source>, places: seq<nat>, added: seq<Source>)
    requires MadeOfAll(init, sources, places)
    requires added == if GivesSource(init + [last], |init|) then [SourceOf(last)] else []
    ensures MadeOfAll(init + [last], sources + added, if added == [] then places else places + [|init|])
  {
    var results := init + [last];
    forall i | 0 <= i < |init|
      ensures (GivesSource(init, i) <==> GivesSource(results, i)) && forall s :: MadeOf(init, i, s) <==>
              MadeOf(results, i, s)
    {
      EarlierResults(init, last, i);
    }
    assert added != [] ==> MadeOf(results, |init|, SourceOf(last));
    assert forall i :: i in places ==> i < |init|;
    assert forall i: nat :: GivesSource(init, i) ==> i < |init|;
    assert forall i: nat :: GivesSource(results, i) ==> i <= |init|;
    hide MadeOf, GivesSource, SourceOf;
    assert forall m :: 0 <= m < |places| ==> places[m] in places;
  }

  /** Source by source, in order, from exactly the results that give one. */
  lemma {:induction false} DiscoveriesAre(results: seq<SearchResult>) returns (places: seq<nat>)
    ensures MadeOfAll(results, Discoveries(results), places)
  {
    if results == [] {
      places := [];
    } else {
      var init, last := results[..|results| - 1], results[|results| - 1];
      places := DiscoveriesAre(init);
      assert results == init + [last] && results[..|init|] == init;
      var gives := GivesSource(results, |init|);
      hide MadeOfAll, Accepts, SourceOf;
      MadeOfNext(init, last, Discoveries(init), places, if gives then [SourceOf(last)] else []);
      assert Discoveries(init) + [] == Discoveries(init);
      places := if gives then places + [|init|] else places;
    }
  }

  // ---------------------------------------------------------------- choosing sources

  /** Rank first, then the source id. */
  predicate Before(a: Source, b: Source) {
    a.rank < b.rank || (a.rank == b.rank && a.id.url < b.id.url)
  }

  predicate IsSorted(sources: seq<Source>, order: seq<nat>) {
    && (forall k :: 0 <= k < |order| ==> order[k] < |sources|)
    && (forall a, b :: 0 <= a < b < |order| ==> !Before(sources[order[b]], sources[order[a]]) && order[a] != order[b])
  }

  function InsertPlace(sources: seq<Source>, k: nat, order: seq<nat>): (r: seq<nat>)
    requires k < |sources| && k !in order && IsSorted(sources, order)
    ensures IsSorted(sources, r)
    ensures forall m :: m in r <==> m == k || m in order
  {
    if order == [] then [k]
    else if Before(sources[k], sources[order[0]]) then
      InsertedFirst(sources, k, order);
      [k] + order
    else
      var rest := InsertPlace(sources, k, order[1..]);
      InsertedLater(sources, k, order, rest);
      [order[0]] + rest
  }

  lemma InsertedFirst(sources: seq<Source>, k: nat, order: seq<nat>)
    requires k < |sources| && k !in order && IsSorted(sources, order) && order != []
    requires Before(sources[k], sources[order[0]])
    ensures IsSorted(sources, [k] + order) && forall m :: m in [k] + order <==> m == k || m in order
  {
    assert forall m :: m in order ==> !Before(sources[m], sources[k]);
  }

  lemma InsertedLater(sources: seq<Source>, k: nat, order: seq<nat>, rest: seq<nat>)
    requires k < |sources| && k !in order && IsSorted(sources, order) && order != []
    requires !Before(sources[k], sources[order[0]]) && IsSorted(sources, rest)
    requires forall m :: m in rest <==> m == k || m in order[1..]
    ensures IsSorted(sources, [order[0]] + rest)
    ensures forall m :: m in [order[0]] + rest <==> m == k || m in order
  {
    assert order == [order[0]] + order[1..];
    assert forall b :: 0 <= b < |rest| ==> rest[b] in rest;
  }

  /** The eligible places among the first n sources, sorted. */
  function Ranked(sources: seq<Source>, statuses: set<SourceStatus>, n: nat): (r: seq<nat>)
    requires n <= |sources|
    ensures IsSorted(sources, r)
    ensures forall m: nat :: m in r <==> m < n && sources[m].status in statuses
  {
    if n == 0 then []
    else
      var before := Ranked(sources, statuses, n - 1);
      if sources[n - 1].status in statuses then InsertPlace(sources, n - 1, before) else before
  }

  function Select(sources: seq<Source>, limit: nat, statuses: set<SourceStatus>): seq<nat> {
    var ranked := Ranked(sources, statuses, |sources|);
    if |ranked| <= limit then ranked else ranked[..limit]
  }

  /** The chosen sources are eligible and distinct, and nothing eligible is passed over unless the limit is used up on
      sources that do not come after it. */
  lemma SelectTakesTheFirst(sources: seq<Source>, limit: nat, statuses: set<SourceStatus>)
    ensures var chosen := Select(sources, limit, statuses);
      && |chosen| <= limit
      && IsSorted(sources, chosen)
      && (forall m :: m in chosen ==> m < |sources| && sources[m].status in statuses)
      && (forall m :: 0 <= m < |sources| && sources[m].status in statuses && m !in chosen ==>
            |chosen| == limit && forall c :: c in chosen ==> !Before(sources[m], sources[c]))
  {
    var ranked, chosen := Ranked(sources, statuses, |sources|), Select(sources, limit, statuses);
    assert forall m :: m in chosen ==> m in ranked;
    assert forall k :: 0 <= k < |chosen| ==> ranked[k] in chosen;
    forall m | 0 <= m < |sources| && sources[m].status in statuses && m !in chosen
      ensures |chosen| == limit && forall c :: c in chosen ==> !Before(sources[m], sources[c])
    {
      assert m in ranked;
      var k :| 0 <= k < |ranked| && ranked[k] == m;
    }
  }
}
