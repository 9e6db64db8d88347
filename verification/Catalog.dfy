/**
The model catalog over repeated refreshes (apps/shell/src/main/model-refresher.ts): the order in which a
listing is probed, and the bookkeeping of ids that answered before.
*/
module CatalogRefresh {
  import opened Common

  // ---- the order of a listing ----

  /** An advertised model; meta stands for the metadata that came with it, None when there was none. */
  datatype Advertised = Advertised(id: string, meta: Option<int>)

  /** `new Map(ids.map((id, index) => [id, index]))`: the last index of an id counts. */
  function Rank(exact: seq<string>, id: string): Option<nat> {
    if exact == [] then None
    else if exact[|exact| - 1] == id then Some(|exact| - 1)
    else Rank(exact[..|exact| - 1], id)
  }

  lemma RankIsMembership(exact: seq<string>, id: string)
    ensures Rank(exact, id).Some? <==> id in exact
    ensures Rank(exact, id).Some? ==> Rank(exact, id).value < |exact| && exact[Rank(exact, id).value] == id
    ensures Rank(exact, id).Some? ==> forall i :: Rank(exact, id).value < i < |exact| ==> exact[i] != id
  {
  }

  function Ranked(exact: seq<string>, models: seq<Advertised>): (r: seq<Advertised>)
    ensures forall i :: 0 <= i < |r| ==> Rank(exact, r[i].id).Some?
  {
    if models == [] then []
    else if Rank(exact, models[0].id).Some? then [models[0]] + Ranked(exact, models[1..])
    else Ranked(exact, models[1..])
  }

  ghost predicate AllRanked(exact: seq<string>, models: seq<Advertised>) {
    forall i :: 0 <= i < |models| ==> Rank(exact, models[i].id).Some?
  }

  /** Array.prototype.sort is stable: a model goes before the first one that does not precede it. */
  function Insert(exact: seq<string>, m: Advertised, sorted: seq<Advertised>): (r: seq<Advertised>)
    requires Rank(exact, m.id).Some? && AllRanked(exact, sorted)
    ensures AllRanked(exact, r) && |r| == |sorted| + 1
  {
    if sorted == [] || Rank(exact, m.id).value <= Rank(exact, sorted[0].id).value then [m] + sorted
    else [sorted[0]] + Insert(exact, m, sorted[1..])
  }

  function Sort(exact: seq<string>, models: seq<Advertised>): (r: seq<Advertised>)
    requires AllRanked(exact, models)
    ensures AllRanked(exact, r) && |r| == |models|
  {
    if models == [] then [] else Insert(exact, models[0], Sort(exact, models[1..]))
  }

  /** The models with this id, in their order. */
  function OfId(models: seq<Advertised>, id: string): seq<Advertised> {
    if models == [] then []
    else if models[0].id == id then [models[0]] + OfId(models[1..], id)
    else OfId(models[1..], id)
  }

  /** listModelIds on the parsed data list; None when it throws. */
  function ListModelIds(exact: Option<seq<string>>, strict: bool, models: seq<Advertised>): Option<seq<Advertised>> {
    if models == [] && !strict then None
    else if exact.None? then Some(models)
    else
      var allowed := Sort(exact.value, Ranked(exact.value, models));
      if exact.value != [] && exact.value[0] == "auto" then
        var autos := OfId(allowed, "auto");
        Some([if autos != [] then autos[0] else Advertised("auto", None)] + Others(allowed))
      else Some(allowed)
  }

  function Others(models: seq<Advertised>): seq<Advertised> {
    if models == [] then []
    else if models[0].id != "auto" then [models[0]] + Others(models[1..])
    else Others(models[1..])
  }

  ghost predicate Ascending(exact: seq<string>, models: seq<Advertised>) {
    && AllRanked(exact, models)
    && forall i, j | 0 <= i < j < |models| :: Rank(exact, models[i].id).value <= Rank(exact, models[j].id).value
  }

  lemma {:induction false} InsertSorts(exact: seq<string>, m: Advertised, sorted: seq<Advertised>)
    requires Rank(exact, m.id).Some? && Ascending(exact, sorted)
    ensures Ascending(exact, Insert(exact, m, sorted))
    ensures forall i :: 0 <= i < |Insert(exact, m, sorted)| ==>
              Insert(exact, m, sorted)[i] == m || Insert(exact, m, sorted)[i] in sorted
  {
    if !(sorted == [] || Rank(exact, m.id).value <= Rank(exact, sorted[0].id).value) {
      InsertSorts(exact, m, sorted[1..]);
    }
  }

  lemma {:induction false} InsertIsStable(exact: seq<string>, m: Advertised, sorted: seq<Advertised>, id: string)
    requires Rank(exact, m.id).Some? && AllRanked(exact, sorted)
    ensures OfId(Insert(exact, m, sorted), id) == (if m.id == id then [m] else []) + OfId(sorted, id)
  {
    if sorted != [] && Rank(exact, m.id).value > Rank(exact, sorted[0].id).value {
      InsertIsStable(exact, m, sorted[1..], id);
    }
  }

  lemma {:induction false} SortIsStable(exact: seq<string>, models: seq<Advertised>, id: string)
    requires AllRanked(exact, models)
    ensures Ascending(exact, Sort(exact, models)) && OfId(Sort(exact, models), id) == OfId(models, id)
  {
    if models != [] {
      SortIsStable(exact, models[1..], id);
      InsertSorts(exact, models[0], Sort(exact, models[1..]));
      InsertIsStable(exact, models[0], Sort(exact, models[1..]), id);
    }
  }

  lemma {:induction false} RankedOfId(exact: seq<string>, models: seq<Advertised>, id: string)
    ensures OfId(Ranked(exact, models), id) == if Rank(exact, id).Some? then OfId(models, id) else []
  {
    if models != [] {
      RankedOfId(exact, models[1..], id);
    }
  }

  lemma {:induction false} OthersAreModels(models: seq<Advertised>)
    ensures forall i :: 0 <= i < |Others(models)| ==> Others(models)[i] in models && Others(models)[i].id != "auto"
  {
    if models != [] {
      OthersAreModels(models[1..]);
    }
  }

  /** What starts with the first of an ascending list and goes on among the others ascends. */
  lemma AscendingCons(exact: seq<string>, models: seq<Advertised>, rest: seq<Advertised>)
    requires models != [] && Ascending(exact, models) && Ascending(exact, rest)
    requires forall i :: 0 <= i < |rest| ==> rest[i] in models[1..]
    ensures Ascending(exact, [models[0]] + rest)
  {
    hide Rank;
    forall i | 0 <= i < |rest|
      ensures Rank(exact, models[0].id).value <= Rank(exact, rest[i].id).value
    {
      var j :| 0 <= j < |models[1..]| && models[1..][j] == rest[i];
      assert models[j + 1] == rest[i];
    }
  }

  lemma {:induction false} OthersAscend(exact: seq<string>, models: seq<Advertised>)
    requires Ascending(exact, models)
    ensures Ascending(exact, Others(models))
  {
    hide Rank;
    if models != [] {
      var rest := Others(models[1..]);
      OthersAscend(exact, models[1..]);
      OthersAreModels(models[1..]);
      assert Others(models) == rest || Others(models) == [models[0]] + rest;
      hide Others;
      AscendingCons(exact, models, rest);
    }
  }

  lemma {:induction false} OthersOfId(models: seq<Advertised>, id: string)
    ensures OfId(Others(models), id) == if id == "auto" then [] else OfId(models, id)
  {
    if models != [] {
      OthersOfId(models[1..], id);
    }
  }

  /** A listing against a shipped catalog that starts with auto: exactly one router entry, first; after it
      every advertised model the catalog has, in catalog order, models of one id in the order advertised
      and with their metadata; and nothing else. */
  lemma ListingFollowsTheCatalog(exact: seq<string>, strict: bool, models: seq<Advertised>, id: string)
    requires exact != [] && exact[0] == "auto" && ListModelIds(Some(exact), strict, models).Some?
    ensures var r := ListModelIds(Some(exact), strict, models).value;
            && |r| > 0 && r[0].id == "auto" && (forall i :: 1 <= i < |r| ==> r[i].id != "auto")
            && r[0] == (if OfId(models, "auto") == [] then Advertised("auto", None) else OfId(models, "auto")[0])
            && Ascending(exact, r[1..])
            && (id != "auto" ==> OfId(r, id) == if id in exact then OfId(models, id) else [])
  {
    RankIsMembership(exact, id);
    RankIsMembership(exact, "auto");
    var allowed := Sort(exact, Ranked(exact, models));
    SortIsStable(exact, Ranked(exact, models), id);
    SortIsStable(exact, Ranked(exact, models), "auto");
    RankedOfId(exact, models, id);
    RankedOfId(exact, models, "auto");
    OthersAreModels(allowed);
    OthersAscend(exact, allowed);
    OthersOfId(allowed, id);
    OfIdHasId(allowed, "auto");
    var r := ListModelIds(Some(exact), strict, models).value;
    assert r[1..] == Others(allowed);
  }

  lemma {:induction false} OfIdHasId(models: seq<Advertised>, id: string)
    ensures forall i :: 0 <= i < |OfId(models, id)| ==> OfId(models, id)[i].id == id
  {
    if models != [] {
      OfIdHasId(models[1..], id);
    }
  }

  /** The other listings: an empty one throws unless the provider is strict; without a shipped catalog the
      models stay as advertised; and a catalog that does not start with auto adds no router, it only filters
      and sorts. */
  lemma ListingsExactly(exact: Option<seq<string>>, strict: bool, models: seq<Advertised>, id: string)
    ensures ListModelIds(exact, strict, models).None? <==> models == [] && !strict
    ensures exact.None? && (models != [] || strict) ==> ListModelIds(exact, strict, models) == Some(models)
    ensures exact.Some? && (models != [] || strict) && (exact.value == [] || exact.value[0] != "auto") ==>
              var r := ListModelIds(exact, strict, models).value;
              Ascending(exact.value, r) && OfId(r, id) == if id in exact.value then OfId(models, id) else []
  {
    if exact.Some? {
      RankIsMembership(exact.value, id);
      SortIsStable(exact.value, Ranked(exact.value, models), id);
      RankedOfId(exact.value, models, id);
    }
  }

  // ---- last known good ----

  datatype FailureKind = Http | Transport | InvalidResponse

  datatype CatalogModel = CatalogModel(id: string, responds: bool, failure: Option<FailureKind>, lastKnownGood: bool)

  datatype ProviderResult = ProviderResult(provider: string, entries: seq<CatalogModel>)

  type KnownGood = map<string, seq<string>>

  /** model-catalog.json as readLastKnownGoodByProvider sees it. In a recorded set, a list that is not all
      strings is None; a catalog from before the set existed has only the models. */
  datatype CatalogFile =
    | Unreadable
    | Recorded(known: map<string, Option<seq<string>>>)
    | Older(models: map<string, seq<CatalogModel>>)

  function RespondingIds(models: seq<CatalogModel>): seq<string> {
    if models == [] then []
    else (if models[0].responds then [models[0].id] else []) + RespondingIds(models[1..])
  }

  function ReadKnownGood(file: CatalogFile): KnownGood {
    match file
    case Unreadable => map[]
    case Recorded(known) => map p | p in known && known[p].Some? :: known[p].value
    case Older(models) => map p | p in models :: RespondingIds(models[p])
  }

  predicate Spared(e: CatalogModel) {
    !e.responds && e.failure == Some(Transport)
  }

  function Before(known: KnownGood, provider: string): seq<string> {
    if provider in known then known[provider] else []
  }

  /** The ids kept for one provider. */
  function Retained(verified: seq<string>, entries: seq<CatalogModel>): seq<string> {
    if entries == [] then []
    else
      var e := entries[|entries| - 1];
      Retained(verified, entries[..|entries| - 1])
      + if e.responds || (Spared(e) && e.id in verified) then [e.id] else []
  }

  function Mark(verified: seq<string>, e: CatalogModel): CatalogModel {
    if Spared(e) && e.id in verified then e.(lastKnownGood := true) else e
  }

  /** The last result of a provider is the one that stays. */
  function EntriesFor(results: seq<ProviderResult>, provider: string): Option<seq<CatalogModel>> {
    if results == [] then None
    else if results[|results| - 1].provider == provider then Some(results[|results| - 1].entries)
    else EntriesFor(results[..|results| - 1], provider)
  }

  /** A refresh either completes, with a result for each of its targets, or throws before it writes. */
  datatype Attempt = Completed(results: seq<ProviderResult>) | Thrown

  ghost predicate Records(known: KnownGood, before: KnownGood, results: seq<ProviderResult>) {
    forall p :: (if p in known then Some(known[p]) else None)
                == match EntriesFor(results, p)
                   case None => None
                   case Some(entries) => Some(Retained(Before(before, p), entries))
  }

  /** The bookkeeping loop of refreshModels: what is recorded, and the entries with their marks. */
  function Bookkeeping(before: KnownGood, results: seq<ProviderResult>): KnownGood {
    if results == [] then map[]
    else
      var last := results[|results| - 1];
      Bookkeeping(before, results[..|results| - 1])[last.provider := Retained(Before(before, last.provider), last.entries)]
  }

  function Refresh(file: CatalogFile, a: Attempt): CatalogFile {
    match a
    case Thrown => file
    case Completed(results) =>
      var known := Bookkeeping(ReadKnownGood(file), results);
      Recorded(map p | p in known :: Some(known[p]))
  }

  function Run(file: CatalogFile, attempts: seq<Attempt>): CatalogFile {
    if attempts == [] then file else Refresh(Run(file, attempts[..|attempts| - 1]), attempts[|attempts| - 1])
  }

  predicate Known(file: CatalogFile, provider: string, id: string) {
    id in Before(ReadKnownGood(file), provider)
  }

  // ---- what a refresh observed ----

  predicate Shows(a: Attempt, provider: string, id: string, responding: bool) {
    && a.Completed? && EntriesFor(a.results, provider).Some?
    && exists i :: 0 <= i < |EntriesFor(a.results, provider).value|
                   && EntriesFor(a.results, provider).value[i].id == id
                   && (if responding then EntriesFor(a.results, provider).value[i].responds
                       else Spared(EntriesFor(a.results, provider).value[i]))
  }

  predicate Responded(a: Attempt, provider: string, id: string) {
    Shows(a, provider, id, true)
  }

  /** Probed, and it responded or the probe failed before HTTP. */
  predicate Survived(a: Attempt, provider: string, id: string) {
    a.Thrown? || Responded(a, provider, id) || Shows(a, provider, id, false)
  }

  ghost predicate SurvivedFrom(attempts: seq<Attempt>, k: int, provider: string, id: string) {
    forall j :: k <= j < |attempts| && 0 <= j ==> Survived(attempts[j], provider, id)
  }

  ghost predicate AnsweredSince(attempts: seq<Attempt>, k: int, provider: string, id: string) {
    0 <= k < |attempts| && Responded(attempts[k], provider, id) && SurvivedFrom(attempts, k + 1, provider, id)
  }

  // ---- the history theorem ----

  lemma {:induction false} BookkeepingRecords(before: KnownGood, results: seq<ProviderResult>)
    ensures Records(Bookkeeping(before, results), before, results)
  {
    if results != [] {
      BookkeepingRecords(before, results[..|results| - 1]);
    }
  }

  lemma {:induction false} RetainedHolds(verified: seq<string>, entries: seq<CatalogModel>, id: string)
    ensures id in Retained(verified, entries) <==>
            exists i :: 0 <= i < |entries| && entries[i].id == id
                        && (entries[i].responds || (Spared(entries[i]) && id in verified))
  {
    if entries != [] {
      var n := |entries| - 1;
      RetainedHolds(verified, entries[..n], id);
      if i :| 0 <= i < |entries| && entries[i].id == id && (entries[i].responds || (Spared(entries[i]) && id in verified)) {
        if i < n {
          assert entries[..n][i] == entries[i];
        }
      }
      assert forall i :: 0 <= i < n ==> entries[..n][i] == entries[i];
    }
  }

  /** One refresh. */
  lemma RefreshKnows(file: CatalogFile, a: Attempt, provider: string, id: string)
    ensures Known(Refresh(file, a), provider, id)
            <==> Responded(a, provider, id) || (Known(file, provider, id) && Survived(a, provider, id))
  {
    if a.Completed? {
      var before := ReadKnownGood(file);
      var known := Bookkeeping(before, a.results);
      BookkeepingRecords(before, a.results);
      assert ReadKnownGood(Refresh(file, a)) == known;
      var entries := EntriesFor(a.results, provider);
      if entries.Some? {
        RetainedHolds(Before(before, provider), entries.value, id);
      }
    }
  }

  lemma SurvivedFromSplits(attempts: seq<Attempt>, k: int, provider: string, id: string)
    requires attempts != [] && 0 <= k < |attempts|
    ensures SurvivedFrom(attempts, k, provider, id) <==>
            SurvivedFrom(attempts[..|attempts| - 1], k, provider, id) && Survived(attempts[|attempts| - 1], provider, id)
  {
    var n := |attempts| - 1;
    assert forall j :: 0 <= j < n ==> attempts[..n][j] == attempts[j];
    if SurvivedFrom(attempts, k, provider, id) {
      assert Survived(attempts[n], provider, id);
    }
  }

  /** After any sequence of refreshes an id is on record for a provider exactly when it responded at some
      refresh and at every later one was probed and responded or failed by transport; or when it was on
      record to begin with and that holds of all of them. Refreshes that throw count for nothing. */
  lemma {:induction false} KnownMeansAnsweredSince(file: CatalogFile, attempts: seq<Attempt>, provider: string, id: string)
    ensures Known(Run(file, attempts), provider, id) <==>
            (exists k :: AnsweredSince(attempts, k, provider, id)) || (Known(file, provider, id) && SurvivedFrom(attempts, 0, provider, id))
  {
    if attempts != [] {
      var n := |attempts| - 1;
      var earlier := attempts[..n];
      KnownMeansAnsweredSince(file, earlier, provider, id);
      RefreshKnows(Run(file, earlier), attempts[n], provider, id);
      SurvivedFromSplits(attempts, 0, provider, id);
      if k :| AnsweredSince(attempts, k, provider, id) {
        if k < n {
          SurvivedFromSplits(attempts, k + 1, provider, id);
          assert AnsweredSince(earlier, k, provider, id);
        }
      }
      if k :| AnsweredSince(earlier, k, provider, id) && Survived(attempts[n], provider, id) {
        SurvivedFromSplits(attempts, k + 1, provider, id);
        assert AnsweredSince(attempts, k, provider, id);
      }
      if Responded(attempts[n], provider, id) {
        assert AnsweredSince(attempts, n, provider, id);
      }
    }
  }

  /** A refresh that does not probe a provider forgets it: its ids must respond again. */
  lemma UnprobedProvidersAreForgotten(file: CatalogFile, results: seq<ProviderResult>, provider: string, id: string)
    requires EntriesFor(results, provider).None? || EntriesFor(results, provider) == Some([])
    ensures !Known(Refresh(file, Completed(results)), provider, id)
  {
    RefreshKnows(file, Completed(results), provider, id);
  }

  lemma {:induction false} RespondingIdsHold(models: seq<CatalogModel>, id: string)
    ensures id in RespondingIds(models) <==> exists i :: 0 <= i < |models| && models[i].id == id && models[i].responds
  {
    if models != [] {
      RespondingIdsHold(models[1..], id);
      assert forall i :: 0 < i < |models| ==> models[i] == models[1..][i - 1];
    }
  }

  /** What is on record before the first refresh: the recorded set, or from a catalog older than that set
      the models that responded. */
  lemma KnownToBeginWith(file: CatalogFile, provider: string, id: string)
    ensures Known(file, provider, id) <==>
              match file
              case Unreadable => false
              case Recorded(known) => provider in known && known[provider].Some? && id in known[provider].value
              case Older(models) =>
                provider in models
                && exists i :: 0 <= i < |models[provider]| && models[provider][i].id == id && models[provider][i].responds
  {
    if file.Older? && provider in file.models {
      RespondingIdsHold(file.models[provider], id);
    }
  }

  /** The mark an entry leaves a refresh with: set exactly when the probe failed by transport and its id was
      on record; and an id that responded or was so marked is on record afterwards. */
  lemma MarkedExactly(file: CatalogFile, results: seq<ProviderResult>, provider: string, i: nat)
    requires EntriesFor(results, provider).Some? && i < |EntriesFor(results, provider).value|
    ensures var e := EntriesFor(results, provider).value[i];
            var spared := !e.responds && e.failure == Some(Transport) && Known(file, provider, e.id);
            && Mark(Before(ReadKnownGood(file), provider), e) == e.(lastKnownGood := e.lastKnownGood || spared)
            && (e.responds || spared ==> Known(Refresh(file, Completed(results)), provider, e.id))
  {
    RefreshKnows(file, Completed(results), provider, EntriesFor(results, provider).value[i].id);
  }

  // ---- the loop ----

  /** refreshModels marks the entries in place and records what it retained. */
  method KeepBooks(before: KnownGood, results: seq<ProviderResult>) returns (known: KnownGood, marked: seq<ProviderResult>)
    ensures known == Bookkeeping(before, results)
    ensures |marked| == |results|
    ensures forall r | 0 <= r < |results| ::
              marked[r].provider == results[r].provider && |marked[r].entries| == |results[r].entries|
    ensures forall r, i | 0 <= r < |results| && 0 <= i < |results[r].entries| ::
              marked[r].entries[i] == Mark(Before(before, results[r].provider), results[r].entries[i])
  {
    hide Retained, Mark, Before;
    known, marked := map[], [];
    for r := 0 to |results|
      invariant known == Bookkeeping(before, results[..r])
      invariant |marked| == r
      invariant forall q | 0 <= q < r ::
          marked[q].provider == results[q].provider && |marked[q].entries| == |results[q].entries|
      invariant forall q, i | 0 <= q < r && 0 <= i < |results[q].entries| ::
          marked[q].entries[i] == Mark(Before(before, results[q].provider), results[q].entries[i])
    {
      var entries := results[r].entries;
      var verified := Before(before, results[r].provider);
      var retained, after := RetainOne(verified, entries);
      assert results[..r + 1][..r] == results[..r];
      known := known[results[r].provider := retained];
      marked := marked + [ProviderResult(results[r].provider, after)];
    }
    assert results[..|results|] == results;
  }

  method RetainOne(verified: seq<string>, entries: seq<CatalogModel>) returns (retained: seq<string>, after: seq<CatalogModel>)
    ensures retained == Retained(verified, entries)
    ensures |after| == |entries| && forall i :: 0 <= i < |entries| ==> after[i] == Mark(verified, entries[i])
  {
    retained, after := [], entries;
    for i := 0 to |entries|
      invariant retained == Retained(verified, entries[..i])
      invariant |after| == |entries|
      invariant forall j :: 0 <= j < |entries| ==> after[j] == if j < i then Mark(verified, entries[j]) else entries[j]
    {
      assert entries[..i + 1][..i] == entries[..i];
      var e := entries[i];
      if e.responds {
        retained := retained + [e.id];
      } else if e.failure == Some(Transport) && e.id in verified {
        after := after[i := e.(lastKnownGood := true)];
        retained := retained + [e.id];
      }
    }
    assert entries[..|entries|] == entries;
  }
}
