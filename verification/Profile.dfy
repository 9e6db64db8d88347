/**
The profile on disk as the shell's writers change it, step by step: writeHarnessSettings
(apps/shell/src/main/harness-settings.ts), seedProviders (provider-seeder.ts) and the settings half of
refreshModels (model-refresher.ts). The functions of HarnessSettings say what every method leaves.
*/
module HarnessProfile {
  import opened Common
  import opened ModelDescriptor
  import opened HarnessSettings

  // ---- entry() ----

  predicate Matches(e: Entry, llm: bool) {
    if llm then e.Llm? else e.Default?
  }

  ghost predicate TwoMatch(entries: seq<Entry>, llm: bool) {
    exists i, j | 0 <= i < j < |entries| :: Matches(entries[i], llm) && Matches(entries[j], llm)
  }

  lemma {:induction false} UnambiguousMeansNoTwo(entries: seq<Entry>)
    ensures Unambiguous(entries) <==>
            !TwoMatch(entries, true) && !TwoMatch(entries, false)
  {
    if entries != [] {
      var tail := entries[1..];
      UnambiguousMeansNoTwo(tail);
      IndexesAreFirst(tail);
      assert forall i :: 0 <= i < |tail| ==> tail[i] == entries[i + 1];
      if !Unambiguous(entries) && Unambiguous(tail) {
        var llm := entries[0].Llm?;
        var k := if llm then IndexOfLlm(tail).value else IndexOfDefault(tail).value;
        assert Matches(entries[0], llm) && Matches(entries[k + 1], llm);
      }
    }
  }

  /** The only entry with the id, or a refusal. */
  method FindEntry(entries: seq<Entry>, llm: bool) returns (found: Result<Option<nat>, string>)
    ensures found.Failure? <==> TwoMatch(entries, llm)
    ensures found.Success? ==> found.value == if llm then IndexOfLlm(entries) else IndexOfDefault(entries)
  {
    var first: Option<nat> := None;
    var more := false;
    for k := 0 to |entries|
      invariant first.Some? ==> first.value < k && Matches(entries[first.value], llm)
      invariant forall j :: 0 <= j < k && Matches(entries[j], llm) ==> first.Some? && first.value <= j
      invariant more ==> TwoMatch(entries, llm)
      invariant !more ==> forall j :: 0 <= j < k && Matches(entries[j], llm) ==> first == Some(j)
    {
      if Matches(entries[k], llm) {
        if first.Some? {
          more := true;
        } else {
          first := Some(k);
        }
      }
    }
    IndexesAreFirst(entries);
    if more {
      return Failure("Duplicate DSH profile entry");
    }
    found := Success(first);
    ghost var index := if llm then IndexOfLlm(entries) else IndexOfDefault(entries);
    if index.Some? {
      assert Matches(entries[index.value], llm);
    }
  }

  // ---- the provider mapping ----

  lemma {:induction false} WithoutAbsent(pairs: Pairs, key: string)
    requires Lookup(pairs, key).None?
    ensures Without(pairs, key) == pairs
  {
    if pairs != [] {
      WithoutAbsent(pairs[1..], key);
    }
  }

  lemma {:induction false} WithoutMiddle(a: Pairs, p: (string, Provider), b: Pairs)
    requires DistinctKeys(a + [p] + b)
    ensures Without(a + [p] + b, p.0) == a + b
  {
    var whole := a + [p] + b;
    if a == [] {
      assert whole[1..] == b;
      WithoutAbsent(b, p.0);
    } else {
      var tail := a[1..] + [p] + b;
      assert whole[1..] == tail && whole[0] == a[0];
      assert tail[|a| - 1] == p;
      MemberLookup(tail, |a| - 1);
      WithoutMiddle(a[1..], p, b);
      assert [a[0]] + (a[1..] + b) == a + b;
    }
  }

  /** One round of the deletion loop. */
  lemma DeleteOne(seen: Pairs, p: (string, Provider), ahead: Pairs, desired: Pairs)
    requires DistinctKeys(DropRetired(seen, desired) + ([p] + ahead))
    ensures var left := DropRetired(seen, desired) + ([p] + ahead);
            var next := if Managed(p.0) && Lookup(desired, p.0).None? then Without(left, p.0) else left;
            next == DropRetired(seen + [p], desired) + ahead && DistinctKeys(next)
  {
    hide Managed, Without, DropRetired, DistinctKeys, Lookup;
    var left := DropRetired(seen, desired);
    DropRetiredSplits(seen, p, desired);
    assert left + ([p] + ahead) == left + [p] + ahead;
    WithoutIsDistinct(left + [p] + ahead, p.0);
    if Managed(p.0) && Lookup(desired, p.0).None? {
      WithoutMiddle(left, p, ahead);
    }
  }

  lemma {:induction false} DropRetiredSplits(a: Pairs, p: (string, Provider), desired: Pairs)
    ensures DropRetired(a + [p], desired)
            == DropRetired(a, desired) + (if Managed(p.0) && Lookup(desired, p.0).None? then [] else [p])
  {
    if a == [] {
      assert [p][1..] == [];
    } else {
      assert (a + [p])[1..] == a[1..] + [p];
      DropRetiredSplits(a[1..], p, desired);
    }
  }

  lemma DropRetiredNothing(desired: Pairs)
    ensures DropRetired([], desired) == []
  {
  }

  method DeleteRetired(target: Pairs, desired: Pairs) returns (left: Pairs)
    requires DistinctKeys(target)
    ensures left == DropRetired(target, desired)
  {
    hide Managed, Without, DropRetired, Lookup, DistinctKeys;
    left := target;
    assert DropRetired(target[..0], desired) == [] by {
      DropRetiredNothing(desired);
    }
    for k := 0 to |target|
      invariant left == DropRetired(target[..k], desired) + target[k..]
      invariant DistinctKeys(left)
    {
      var (key, value) := target[k];
      assert target[..k + 1] == target[..k] + [target[k]] && target[k..] == [target[k]] + target[k + 1..];
      DeleteOne(target[..k], target[k], target[k + 1..], desired);
      if Managed(key) && Lookup(desired, key).None? {
        left := Without(left, key);
      }
    }
    assert target[..|target|] == target;
  }

  method SetDesired(target: Pairs, desired: Pairs) returns (merged: Pairs)
    ensures merged == SetAll(target, desired)
  {
    merged := target;
    for k := 0 to |desired|
      invariant SetAll(merged, desired[k..]) == SetAll(target, desired)
    {
      var (key, value) := desired[k];
      assert desired[k..][1..] == desired[k + 1..];
      if !Managed(key) && Lookup(merged, key).Some? {
        continue;
      }
      if Lookup(merged, key) != Some(value) {
        merged := Put(merged, key, value);
      }
    }
  }

  // ---- the maps a refresh builds ----

  /** Later nodes with an id replace earlier ones. */
  method IndexConfigured(models: seq<ModelNode>) returns (configured: map<string, Recorded>)
    ensures forall id :: (if id in configured then Some(configured[id]) else None) == Configured(models, id)
  {
    configured := map[];
    for k := 0 to |models|
      invariant forall id :: (if id in configured then Some(configured[id]) else None) == Configured(models[..k], id)
    {
      assert models[..k + 1][..k] == models[..k];
      var node := models[k];
      if !node.Bare? && ModelId(node).Some? {
        configured := configured[ModelId(node).value := if node.Described? then Record(node.descriptor) else node.recorded];
      }
    }
    assert models[..|models|] == models;
  }

  method IndexCurrent(entries: seq<Probed>) returns (current: map<string, Probed>)
    ensures forall id :: (if id in current then Some(current[id]) else None) == Current(entries, id)
  {
    current := map[];
    for k := 0 to |entries|
      invariant forall id :: (if id in current then Some(current[id]) else None) == Current(entries[..k], id)
    {
      assert entries[..k + 1][..k] == entries[..k];
      current := current[entries[k].model.id := entries[k]];
    }
    assert entries[..|entries|] == entries;
  }

  method SyncProviderModels(cfg: RefreshConfig, entries: seq<Probed>, route: Option<Provider>) returns (synced: Provider)
    ensures synced == SyncedRoute(cfg, entries, route)
  {
    synced := if route.Some? then route.value
    else Provider(Some("Phoenix"), Some(cfg.baseURL), Some(cfg.apiKeyEnv), Some([]), 0);
    if synced.apiKeyEnv != Some(cfg.apiKeyEnv) {
      synced := synced.(apiKeyEnv := Some(cfg.apiKeyEnv));
    }
    synced := synced.(baseURL := Some(cfg.baseURL));
    var current := IndexCurrent(entries);
    var nodes := if synced.models.Some? then synced.models.value else [];
    var configured := IndexConfigured(nodes);
    var models: seq<ModelNode> := [];
    for k := 0 to |cfg.exactIds|
      invariant |models| == k
      invariant forall i :: 0 <= i < k ==> models[i] == Described(DescriptorFor(cfg, entries, nodes, cfg.exactIds[i]))
    {
      var id := cfg.exactIds[k];
      var probed := if id in current then Some(current[id]) else None;
      var previous := if id in configured then Some(configured[id]) else None;
      models := models + [Described(Describe(cfg.tables, id, probed, previous))];
    }
    ghost var base := if route.Some? then route.value
    else Provider(Some("Phoenix"), Some(cfg.baseURL), Some(cfg.apiKeyEnv), Some([]), 0);
    assert models == ExactModels(cfg, entries, base.models);
    synced := synced.(models := Some(models));
  }

  // ---- the two entries ----

  method EditLlm(entries: seq<Entry>, wanted: bool, providers: Pairs) returns (edited: Result<seq<Entry>, string>)
    requires DistinctKeys(RoutesOf(entries))
    ensures IndexesHold(entries)
    ensures edited.Failure? <==> TwoMatch(entries, true)
    ensures edited.Success? ==> edited.value == WriteLlm(entries, wanted, providers)
  {
    IndexesAreFirst(entries);
    var at := FindEntry(entries, true);
    if at.Failure? {
      return Failure(at.error);
    }
    if !wanted {
      match at.value
      case None => return Success(entries);
      case Some(i) => return Success(entries[..i] + entries[i + 1..]);
    }
    var node := if at.value.Some? then entries[at.value.value] else Llm(Some(Section(None, 0)), 0);
    var section := if node.llm.Some? then node.llm.value else Section(None, 0);
    var target := if section.providers.Some? then section.providers.value else [];
    target := DeleteRetired(target, providers);
    target := SetDesired(target, providers);
    node := node.(llm := Some(section.(providers := Some(target))));
    edited := Success(if at.value.Some? then entries[at.value.value := node] else entries + [node]);
  }

  method EditDefault(entries: seq<Entry>, selected: Option<Selection>) returns (edited: Result<seq<Entry>, string>)
    ensures IndexesHold(entries)
    ensures edited.Failure? <==> TwoMatch(entries, false)
    ensures edited.Success? ==> edited.value == WriteDefault(entries, selected)
  {
    IndexesAreFirst(entries);
    var at := FindEntry(entries, false);
    if at.Failure? {
      return Failure(at.error);
    }
    match at.value
    case None => edited := Success(if selected.Some? then entries + [Default(selected, 0)] else entries);
    case Some(i) =>
      var node := entries[i];
      if selected.None? {
        return Success(if UserOwned(node) then entries else entries[..i] + entries[i + 1..]);
      }
      if UserOwned(node) && node.default.value.provider != selected.value.provider {
        return Success(entries);
      }
      edited := Success(if node.default != selected then entries[i := node.(default := selected)] else entries);
  }

  // ---- the settings object ----

  method ReseedProviders(cfg: SeedConfig, given: Pairs) returns (providers: Pairs, removed: set<string>)
    ensures providers == SeededProviders(cfg, given).0
    ensures removed == SeededProviders(cfg, given).1
  {
    providers, removed := given, LEGACY_ROUTES;
    providers := Without(providers, "deepseek-free");
    providers := Without(providers, "kilo-free");
    providers := Without(providers, "gemini-web");
    if cfg.modelIds.Some? {
      providers := Put(providers, PHOENIX, SeededRoute(cfg, cfg.modelIds.value));
    } else {
      providers := Without(providers, PHOENIX);
      removed := removed + {PHOENIX};
    }
    WithoutLookup(providers, "opencode-free", "perplexity-free");
    if Labelled(providers, "opencode-free", "OpenCode No-Auth") {
      providers := Without(providers, "opencode-free");
      removed := removed + {"opencode-free"};
    }
    if Labelled(providers, "perplexity-free", "Perplexity Free (local)") {
      providers := Without(providers, "perplexity-free");
      removed := removed + {"perplexity-free"};
    }
  }

  method Reseed(cfg: SeedConfig, settings: Settings) returns (seeded: Result<Settings, string>)
    ensures Seed(cfg, settings) == if seeded.Success? then Some(seeded.value) else None
  {
    if cfg.modelIds.Some? && !ValidIds(cfg.modelIds.value) {
      return Failure("Phoenix model IDs must be unique, start with auto, and include at least one concrete model");
    }
    var providers, removed := ReseedProviders(cfg, ProvidersOf(settings));
    var selected := settings.selected;
    if cfg.modelIds.Some? && Unseated(selected, cfg.modelIds.value) {
      selected := Some(AUTO);
    }
    if selected.Some? && selected.value.provider.Some? && selected.value.provider.value in removed {
      selected := None;
    }
    var rest := if settings.section.Some? then settings.section.value.rest else 0;
    seeded := Success(Settings(Some(Section(Some(providers), rest)), selected));
  }

  // ---- the file ----

  class Profile {
    var disk: seq<Entry>

    constructor (found: seq<Entry>)
      ensures disk == found
    {
      disk := found;
    }

    /** Works on a copy of the list and replaces the file at the end; a duplicate entry found half-way
        leaves the file as it was. Success says whether the file changed. */
    method WriteHarnessSettings(settings: Settings) returns (outcome: Result<bool, string>)
      requires DistinctKeys(RoutesOf(disk))
      modifies this
      ensures outcome.Success? <==> Unambiguous(old(disk))
      ensures disk == if Unambiguous(old(disk)) then Write(old(disk), settings) else old(disk)
      ensures outcome.Success? ==> (outcome.value <==> disk != old(disk))
    {
      UnambiguousMeansNoTwo(disk);
      var (providers, selected) := Desired(settings);
      var entries := EditLlm(disk, settings.section.Some?, providers);
      if entries.Failure? {
        return Failure(entries.error);
      }
      DefaultsAreUntouched(disk, settings.section.Some?, providers);
      entries := EditDefault(entries.value, selected);
      if entries.Failure? {
        return Failure(entries.error);
      }
      outcome := Success(entries.value != disk);
      disk := entries.value;
    }

    method SeedProviders(cfg: SeedConfig, legacy: Settings) returns (outcome: Result<bool, string>)
      requires WellKept(disk) && DistinctKeys(ProvidersOf(legacy))
      modifies this
      ensures disk == Act(old(disk), SeedNow(cfg, legacy))
      ensures outcome.Failure? <==> cfg.modelIds.Some? && !ValidIds(cfg.modelIds.value)
    {
      var settings := Reseed(cfg, Read(legacy, disk));
      if settings.Failure? {
        return Failure(settings.error);
      }
      outcome := WriteHarnessSettings(settings.value);
    }

    method ApplyRefresh(cfg: RefreshConfig, entries: seq<Probed>, others: Pairs, legacy: Settings) returns (outcome: Result<bool, string>)
      requires WellKept(disk) && DistinctKeys(ProvidersOf(legacy))
      modifies this
      ensures disk == Act(old(disk), RefreshNow(cfg, entries, others, legacy))
    {
      var settings := Read(legacy, disk);
      var providers := ProvidersOf(settings);
      var route := SyncProviderModels(cfg, entries, Lookup(providers, PHOENIX));
      providers := Put(providers, PHOENIX, route);
      providers := Spread(providers, others);
      var responders := Responders(entries);
      var preferred := Preferred(responders);
      var selected := settings.selected;
      if preferred.Some? && Replaceable(cfg, selected, responders) {
        selected := Some(Selection(Some(PHOENIX), preferred, 0));
      }
      var rest := if settings.section.Some? then settings.section.value.rest else 0;
      outcome := WriteHarnessSettings(Settings(Some(Section(Some(providers), rest)), selected));
    }
  }

  /** Writing the llm entry does not make a default entry ambiguous, or unambiguous. */
  lemma DefaultsAreUntouched(entries: seq<Entry>, wanted: bool, providers: Pairs)
    requires IndexesHold(entries)
    ensures TwoMatch(entries, false) <==> TwoMatch(WriteLlm(entries, wanted, providers), false)
  {
    var f := WriteLlm(entries, wanted, providers);
    var at := IndexOfLlm(entries);
    if !wanted && at.Some? {
      var n := at.value;
      assert forall i :: 0 <= i < n ==> f[i] == entries[i];
      assert forall i :: n <= i < |f| ==> f[i] == entries[i + 1];
      if i, j :| 0 <= i < j < |entries| && Matches(entries[i], false) && Matches(entries[j], false) {
        var i', j' := if i < n then i else i - 1, if j < n then j else j - 1;
        assert 0 <= i' < j' < |f| && Matches(f[i'], false) && Matches(f[j'], false);
      }
    } else {
      assert forall i :: 0 <= i < |entries| ==> Matches(f[i], false) == Matches(entries[i], false);
      assert forall i :: |entries| <= i < |f| ==> !Matches(f[i], false);
    }
  }
}
