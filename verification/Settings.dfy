/**
The merge of shell-managed settings into the user's profile (apps/shell/src/main/harness-settings.ts)
and the two writers that use it: the seeder (provider-seeder.ts) and the model refresh
(model-refresher.ts). A YAML mapping is a list of pairs with distinct keys; what the merge never
looks into is an opaque number.
*/
module HarnessSettings {
  import opened Common
  import opened ModelDescriptor

  const PHOENIX := "freecode-phoenix"

  const MANAGED_KEYS := {PHOENIX, "deepseek-free", "kilo-free", "opencode-free", "perplexity-free", "gemini-web"}

  predicate Managed(key: string) {
    key in MANAGED_KEYS
  }

  // ---- nodes ----

  /** An element of a models list: a bare id, a descriptor the refresh wrote, or any other mapping. */
  datatype ModelNode =
    | Bare(id: string)
    | Described(descriptor: Descriptor)
    | Mapping(modelId: Option<string>, recorded: Recorded, hidden: bool, rest: int)

  datatype Provider = Provider(
    displayName: Option<string>,
    baseURL: Option<string>,
    apiKeyEnv: Option<string>,
    models: Option<seq<ModelNode>>,   // None when there is no models list
    rest: int)

  type Pairs = seq<(string, Provider)>

  datatype Section = Section(providers: Option<Pairs>, rest: int)

  datatype Selection = Selection(provider: Option<string>, model: Option<string>, rest: int)

  /** An item of the profile's entry list; the config of a named entry is None when it is no mapping. */
  datatype Entry =
    | Foreign(node: int)
    | Llm(llm: Option<Section>, node: int)
    | Default(default: Option<Selection>, node: int)

  /** The JavaScript settings object. */
  datatype Settings = Settings(section: Option<Section>, selected: Option<Selection>)

  // ---- lists of pairs ----

  function Lookup(pairs: Pairs, key: string): Option<Provider> {
    if pairs == [] then None
    else if pairs[0].0 == key then Some(pairs[0].1)
    else Lookup(pairs[1..], key)
  }

  ghost predicate DistinctKeys(pairs: Pairs) {
    pairs != [] ==> Lookup(pairs[1..], pairs[0].0).None? && DistinctKeys(pairs[1..])
  }

  function Put(pairs: Pairs, key: string, value: Provider): Pairs {
    if pairs == [] then [(key, value)]
    else if pairs[0].0 == key then [(key, value)] + pairs[1..]
    else [pairs[0]] + Put(pairs[1..], key, value)
  }

  function Without(pairs: Pairs, key: string): Pairs {
    if pairs == [] then []
    else if pairs[0].0 == key then Without(pairs[1..], key)
    else [pairs[0]] + Without(pairs[1..], key)
  }

  lemma {:induction false} PutLookup(pairs: Pairs, key: string, value: Provider, k: string)
    ensures Lookup(Put(pairs, key, value), k) == if k == key then Some(value) else Lookup(pairs, k)
  {
    if pairs != [] {
      PutLookup(pairs[1..], key, value, k);
    }
  }

  lemma {:induction false} WithoutLookup(pairs: Pairs, key: string, k: string)
    ensures Lookup(Without(pairs, key), k) == if k == key then None else Lookup(pairs, k)
  {
    if pairs != [] {
      WithoutLookup(pairs[1..], key, k);
    }
  }

  lemma {:induction false} PutSame(pairs: Pairs, key: string, value: Provider)
    requires Lookup(pairs, key) == Some(value)
    ensures Put(pairs, key, value) == pairs
  {
    if pairs[0].0 != key {
      PutSame(pairs[1..], key, value);
    }
    assert pairs == [pairs[0]] + pairs[1..];
  }

  lemma {:induction false} PutIsDistinct(pairs: Pairs, key: string, value: Provider)
    requires DistinctKeys(pairs)
    ensures DistinctKeys(Put(pairs, key, value))
  {
    if pairs != [] && pairs[0].0 != key {
      PutIsDistinct(pairs[1..], key, value);
      PutLookup(pairs[1..], key, value, pairs[0].0);
    }
  }

  lemma {:induction false} WithoutIsDistinct(pairs: Pairs, key: string)
    requires DistinctKeys(pairs)
    ensures DistinctKeys(Without(pairs, key))
  {
    if pairs != [] {
      WithoutIsDistinct(pairs[1..], key);
      WithoutLookup(pairs[1..], key, pairs[0].0);
    }
  }

  // ---- merging the providers ----

  /** Retired managed routes are deleted from the node. */
  function DropRetired(target: Pairs, desired: Pairs): Pairs {
    if target == [] then []
    else
      var rest := DropRetired(target[1..], desired);
      if Managed(target[0].0) && Lookup(desired, target[0].0).None? then rest else [target[0]] + rest
  }

  /** A user-owned route that is there is never replayed over; anything else is brought up to date. */
  function SetOne(target: Pairs, key: string, value: Provider): Pairs {
    if !Managed(key) && Lookup(target, key).Some? then target
    else if Lookup(target, key) == Some(value) then target
    else Put(target, key, value)
  }

  function SetAll(target: Pairs, desired: Pairs): Pairs
    decreases |desired|
  {
    if desired == [] then target
    else SetAll(SetOne(target, desired[0].0, desired[0].1), desired[1..])
  }

  function MergeProviders(target: Pairs, desired: Pairs): Pairs {
    SetAll(DropRetired(target, desired), desired)
  }

  lemma {:induction false} DropRetiredLookup(target: Pairs, desired: Pairs, k: string)
    ensures Lookup(DropRetired(target, desired), k)
            == if Managed(k) && Lookup(desired, k).None? then None else Lookup(target, k)
  {
    if target != [] {
      DropRetiredLookup(target[1..], desired, k);
    }
  }

  lemma {:induction false} SetAllLookup(target: Pairs, desired: Pairs, k: string)
    requires DistinctKeys(desired)
    ensures Lookup(SetAll(target, desired), k)
            == if !Managed(k) && Lookup(target, k).Some? then Lookup(target, k)
               else if Lookup(desired, k).Some? then Lookup(desired, k)
               else Lookup(target, k)
    decreases |desired|
  {
    if desired != [] {
      var (key, value) := desired[0];
      var next := SetOne(target, key, value);
      PutLookup(target, key, value, k);
      SetAllLookup(next, desired[1..], k);
    }
  }

  /** Managed providers become exactly the desired ones; a user's provider that is there stays. */
  lemma MergedLookup(target: Pairs, desired: Pairs, k: string)
    requires DistinctKeys(desired)
    ensures Lookup(MergeProviders(target, desired), k)
            == if Managed(k) || Lookup(target, k).None? then Lookup(desired, k) else Lookup(target, k)
  {
    DropRetiredLookup(target, desired, k);
    SetAllLookup(DropRetired(target, desired), desired, k);
  }

  lemma {:induction false} SetAllIsStable(target: Pairs, desired: Pairs)
    requires forall i :: 0 <= i < |desired| ==>
               Lookup(target, desired[i].0).Some? && (Managed(desired[i].0) ==> Lookup(target, desired[i].0) == Some(desired[i].1))
    ensures SetAll(target, desired) == target
    decreases |desired|
  {
    if desired != [] {
      SetAllIsStable(target, desired[1..]);
    }
  }

  lemma {:induction false} DropRetiredIsStable(target: Pairs, desired: Pairs)
    requires forall i :: 0 <= i < |target| ==> !(Managed(target[i].0) && Lookup(desired, target[i].0).None?)
    ensures DropRetired(target, desired) == target
  {
    if target != [] {
      DropRetiredIsStable(target[1..], desired);
      assert target == [target[0]] + target[1..];
    }
  }

  lemma {:induction false} MemberLookup(pairs: Pairs, i: nat)
    requires i < |pairs|
    ensures Lookup(pairs, pairs[i].0).Some?
    ensures DistinctKeys(pairs) ==> Lookup(pairs, pairs[i].0) == Some(pairs[i].1)
  {
    if i > 0 {
      assert pairs[i] == pairs[1..][i - 1];
      MemberLookup(pairs[1..], i - 1);
    }
  }

  /** A second merge of the same settings changes no node. */
  lemma MergeProvidersIsIdempotent(target: Pairs, desired: Pairs)
    requires DistinctKeys(desired)
    ensures MergeProviders(MergeProviders(target, desired), desired) == MergeProviders(target, desired)
  {
    var once := MergeProviders(target, desired);
    forall i | 0 <= i < |once|
      ensures !(Managed(once[i].0) && Lookup(desired, once[i].0).None?)
    {
      MemberLookup(once, i);
      MergedLookup(target, desired, once[i].0);
    }
    DropRetiredIsStable(once, desired);
    forall i | 0 <= i < |desired|
      ensures Lookup(once, desired[i].0).Some? && (Managed(desired[i].0) ==> Lookup(once, desired[i].0) == Some(desired[i].1))
    {
      MemberLookup(desired, i);
      MergedLookup(target, desired, desired[i].0);
    }
    SetAllIsStable(once, desired);
  }

  // ---- the order of the routes ----

  function Keys(pairs: Pairs): seq<string> {
    seq(|pairs|, i requires 0 <= i < |pairs| => pairs[i].0)
  }

  /** The keys of the routes that stay, in their order. */
  function StayingKeys(target: Pairs, desired: Pairs): seq<string> {
    if target == [] then []
    else (if Managed(target[0].0) && Lookup(desired, target[0].0).None? then [] else [target[0].0]) + StayingKeys(target[1..], desired)
  }

  /** The keys of the desired routes that are not there, in their order. */
  function AddedKeys(target: Pairs, desired: Pairs): seq<string> {
    if desired == [] then []
    else (if Lookup(target, desired[0].0).None? then [desired[0].0] else []) + AddedKeys(target, desired[1..])
  }

  lemma {:induction false} PutKeys(pairs: Pairs, key: string, value: Provider)
    ensures Keys(Put(pairs, key, value)) == Keys(pairs) + if Lookup(pairs, key).None? then [key] else []
  {
    if pairs != [] && pairs[0].0 != key {
      PutKeys(pairs[1..], key, value);
      assert Keys(pairs) == [pairs[0].0] + Keys(pairs[1..]);
      assert Keys(Put(pairs, key, value)) == [pairs[0].0] + Keys(Put(pairs[1..], key, value));
    }
  }

  lemma {:induction false} DropRetiredKeys(target: Pairs, desired: Pairs)
    ensures Keys(DropRetired(target, desired)) == StayingKeys(target, desired)
  {
    if target != [] {
      DropRetiredKeys(target[1..], desired);
      var rest := DropRetired(target[1..], desired);
      assert Keys([target[0]] + rest) == [target[0].0] + Keys(rest);
    }
  }

  lemma {:induction false} AddedToTheSame(target: Pairs, other: Pairs, desired: Pairs)
    requires forall i :: 0 <= i < |desired| ==> (Lookup(target, desired[i].0).None? <==> Lookup(other, desired[i].0).None?)
    ensures AddedKeys(target, desired) == AddedKeys(other, desired)
  {
    if desired != [] {
      assert Lookup(target, desired[0].0).None? <==> Lookup(other, desired[0].0).None?;
      AddedToTheSame(target, other, desired[1..]);
    }
  }

  lemma SetOneKeys(target: Pairs, key: string, value: Provider, k: string)
    ensures Keys(SetOne(target, key, value)) == Keys(target) + if Lookup(target, key).None? then [key] else []
    ensures k != key ==> Lookup(SetOne(target, key, value), k) == Lookup(target, k)
  {
    PutKeys(target, key, value);
    PutLookup(target, key, value, k);
  }

  lemma AddedFirst(target: Pairs, desired: Pairs)
    requires desired != []
    ensures AddedKeys(target, desired)
            == (if Lookup(target, desired[0].0).None? then [desired[0].0] else []) + AddedKeys(target, desired[1..])
  {
  }

  lemma NextAddsTheSame(target: Pairs, desired: Pairs)
    requires desired != [] && DistinctKeys(desired)
    ensures AddedKeys(SetOne(target, desired[0].0, desired[0].1), desired[1..]) == AddedKeys(target, desired[1..])
  {
    var next, rest := SetOne(target, desired[0].0, desired[0].1), desired[1..];
    hide SetOne;
    forall i | 0 <= i < |rest|
      ensures Lookup(next, rest[i].0).None? <==> Lookup(target, rest[i].0).None?
    {
      MemberLookup(rest, i);
      SetOneKeys(target, desired[0].0, desired[0].1, rest[i].0);
    }
    AddedToTheSame(next, target, rest);
  }

  lemma {:induction false} SetAllKeys(target: Pairs, desired: Pairs)
    requires DistinctKeys(desired)
    ensures Keys(SetAll(target, desired)) == Keys(target) + AddedKeys(target, desired)
    decreases |desired|
  {
    hide Keys, SetOne, Lookup, AddedKeys;
    if desired == [] {
      NothingAdded(target);
    } else {
      var next := SetOne(target, desired[0].0, desired[0].1);
      var first := if Lookup(target, desired[0].0).None? then [desired[0].0] else [];
      SetOneKeys(target, desired[0].0, desired[0].1, "");
      SetAllKeys(next, desired[1..]);
      NextAddsTheSame(target, desired);
      AddedFirst(target, desired);
      assert Keys(next) + AddedKeys(next, desired[1..]) == Keys(target) + (first + AddedKeys(target, desired[1..]));
    }
  }

  lemma NothingAdded(target: Pairs)
    ensures AddedKeys(target, []) == []
  {
  }

  /** A merge moves no route: those that stay are in their old order, and new ones follow in theirs. */
  lemma MergeKeepsOrder(target: Pairs, desired: Pairs)
    requires DistinctKeys(desired)
    ensures Keys(MergeProviders(target, desired)) == StayingKeys(target, desired) + AddedKeys(target, desired)
  {
    var kept := DropRetired(target, desired);
    DropRetiredKeys(target, desired);
    SetAllKeys(kept, desired);
    forall i | 0 <= i < |desired|
      ensures Lookup(kept, desired[i].0).None? <==> Lookup(target, desired[i].0).None?
    {
      MemberLookup(desired, i);
      DropRetiredLookup(target, desired, desired[i].0);
    }
    AddedToTheSame(kept, target, desired);
  }

  // ---- the selection ----

  function ModelId(m: ModelNode): Option<string> {
    match m
    case Bare(id) => Some(id)
    case Described(d) => Some(d.id)
    case Mapping(id, _, _, _) => id
  }

  predicate Offers(models: Option<seq<ModelNode>>, model: Option<string>) {
    models.Some? && exists i :: 0 <= i < |models.value| && ModelId(models.value[i]) == model
  }

  predicate ListedBy(providers: Pairs, selected: Selection) {
    Lookup(providers, PHOENIX).Some? && Offers(Lookup(providers, PHOENIX).value.models, selected.model)
  }

  function ProvidersOf(s: Settings): Pairs {
    if s.section.Some? && s.section.value.providers.Some? then s.section.value.providers.value else []
  }

  /** What writeHarnessSettings takes out of the settings before it merges them: a managed route with
      an empty list, and a selection of the managed route that its list does not offer. */
  function Desired(s: Settings): (Pairs, Option<Selection>) {
    var given := ProvidersOf(s);
    var providers := if Lookup(given, PHOENIX).Some? && Lookup(given, PHOENIX).value.models == Some([])
                     then Without(given, PHOENIX) else given;
    var selected := if s.selected.Some? && s.selected.value.provider == Some(PHOENIX) && !ListedBy(providers, s.selected.value)
                    then None else s.selected;
    (providers, selected)
  }

  // ---- the entry list ----

  function IndexOfLlm(entries: seq<Entry>): Option<nat> {
    if entries == [] then None
    else if entries[0].Llm? then Some(0)
    else match IndexOfLlm(entries[1..])
         case None => None
         case Some(i) => Some(i + 1)
  }

  function IndexOfDefault(entries: seq<Entry>): Option<nat> {
    if entries == [] then None
    else if entries[0].Default? then Some(0)
    else match IndexOfDefault(entries[1..])
         case None => None
         case Some(i) => Some(i + 1)
  }

  function LlmOf(entries: seq<Entry>): Option<Section> {
    if entries == [] then None
    else if entries[0].Llm? then entries[0].llm
    else LlmOf(entries[1..])
  }

  function DefaultOf(entries: seq<Entry>): Option<Selection> {
    if entries == [] then None
    else if entries[0].Default? then entries[0].default
    else DefaultOf(entries[1..])
  }

  lemma {:induction false} IndexesAreFirst(entries: seq<Entry>)
    ensures var i := IndexOfLlm(entries);
            if i.Some? then i.value < |entries| && entries[i.value].Llm? && LlmOf(entries) == entries[i.value].llm
                               && forall j :: 0 <= j < i.value ==> !entries[j].Llm?
            else LlmOf(entries) == None && forall j :: 0 <= j < |entries| ==> !entries[j].Llm?
    ensures var i := IndexOfDefault(entries);
            if i.Some? then i.value < |entries| && entries[i.value].Default? && DefaultOf(entries) == entries[i.value].default
                               && forall j :: 0 <= j < i.value ==> !entries[j].Default?
            else DefaultOf(entries) == None && forall j :: 0 <= j < |entries| ==> !entries[j].Default?
  {
    if entries != [] {
      IndexesAreFirst(entries[1..]);
      assert forall j :: 0 < j < |entries| ==> entries[j] == entries[1..][j - 1];
    }
  }

  /** entry() refuses a profile with two entries of one id. */
  predicate Unambiguous(entries: seq<Entry>) {
    entries != [] ==>
      && Unambiguous(entries[1..])
      && (entries[0].Llm? ==> IndexOfLlm(entries[1..]).None?)
      && (entries[0].Default? ==> IndexOfDefault(entries[1..]).None?)
  }

  function MergedLlm(e: Entry, providers: Pairs): Entry
    requires e.Llm?
  {
    var section := if e.llm.Some? then e.llm.value else Section(None, 0);
    var target := if section.providers.Some? then section.providers.value else [];
    e.(llm := Some(section.(providers := Some(MergeProviders(target, providers)))))
  }

  function WriteLlm(entries: seq<Entry>, wanted: bool, providers: Pairs): seq<Entry>
    requires IndexOfLlm(entries).Some? ==> IndexOfLlm(entries).value < |entries| && entries[IndexOfLlm(entries).value].Llm?
  {
    match IndexOfLlm(entries)
    case None => if wanted then entries + [MergedLlm(Llm(Some(Section(None, 0)), 0), providers)] else entries
    case Some(i) =>
      if wanted then entries[i := MergedLlm(entries[i], providers)] else entries[..i] + entries[i + 1..]
  }

  /** A selection of a provider the shell does not manage belongs to the user. */
  predicate UserOwned(e: Entry)
    requires e.Default?
  {
    e.default.Some? && e.default.value.provider.Some? && !Managed(e.default.value.provider.value)
  }

  function WriteDefault(entries: seq<Entry>, selected: Option<Selection>): seq<Entry>
    requires IndexOfDefault(entries).Some? ==> IndexOfDefault(entries).value < |entries| && entries[IndexOfDefault(entries).value].Default?
  {
    match IndexOfDefault(entries)
    case None => if selected.Some? then entries + [Default(selected, 0)] else entries
    case Some(i) =>
      var e := entries[i];
      match selected
      case None => if UserOwned(e) then entries else entries[..i] + entries[i + 1..]
      case Some(wanted) =>
        if UserOwned(e) && e.default.value.provider != wanted.provider then entries
        else entries[i := e.(default := selected)]
  }

  /** writeHarnessSettings on the entry list of a profile without duplicates. */
  function Write(entries: seq<Entry>, s: Settings): seq<Entry> {
    IndexesAreFirst(entries);
    var (providers, selected) := Desired(s);
    var withLlm := WriteLlm(entries, s.section.Some?, providers);
    IndexesAreFirst(withLlm);
    WriteDefault(withLlm, selected)
  }

  // ---- observing a profile ----

  function RoutesOf(entries: seq<Entry>): Pairs {
    var section := LlmOf(entries);
    if section.Some? && section.value.providers.Some? then section.value.providers.value else []
  }

  function ForeignOf(entries: seq<Entry>): seq<Entry> {
    if entries == [] then []
    else (if entries[0].Foreign? then [entries[0]] else []) + ForeignOf(entries[1..])
  }

  // ---- replacing, removing and appending entries ----

  /** Everything but the llm entry looks the same. */
  ghost predicate SameApartFromLlm(e: seq<Entry>, f: seq<Entry>) {
    ForeignOf(f) == ForeignOf(e) && DefaultOf(f) == DefaultOf(e)
    && (IndexOfDefault(f).Some? <==> IndexOfDefault(e).Some?)
  }

  ghost predicate SameApartFromDefault(e: seq<Entry>, f: seq<Entry>) {
    ForeignOf(f) == ForeignOf(e) && LlmOf(f) == LlmOf(e)
    && (IndexOfLlm(f).Some? <==> IndexOfLlm(e).Some?)
  }

  lemma {:induction false} ReplaceLlm(entries: seq<Entry>, i: nat, e: Entry)
    requires i < |entries| && IndexOfLlm(entries) == Some(i) && e.Llm?
    ensures var f := entries[i := e];
            SameApartFromLlm(entries, f) && IndexOfLlm(f) == Some(i) && LlmOf(f) == e.llm && (Unambiguous(entries) ==> Unambiguous(f))
  {
    var f := entries[i := e];
    if i == 0 {
      assert f[1..] == entries[1..];
    } else {
      assert f[1..] == entries[1..][i - 1 := e];
      ReplaceLlm(entries[1..], i - 1, e);
    }
  }

  lemma {:induction false} ReplaceDefault(entries: seq<Entry>, i: nat, e: Entry)
    requires i < |entries| && IndexOfDefault(entries) == Some(i) && e.Default?
    ensures var f := entries[i := e];
            SameApartFromDefault(entries, f) && IndexOfDefault(f) == Some(i) && DefaultOf(f) == e.default
            && (Unambiguous(entries) ==> Unambiguous(f))
  {
    var f := entries[i := e];
    if i == 0 {
      assert f[1..] == entries[1..];
    } else {
      assert f[1..] == entries[1..][i - 1 := e];
      ReplaceDefault(entries[1..], i - 1, e);
    }
  }

  lemma {:induction false} RemoveLlm(entries: seq<Entry>, i: nat)
    requires i < |entries| && IndexOfLlm(entries) == Some(i) && Unambiguous(entries)
    ensures var f := entries[..i] + entries[i + 1..];
            SameApartFromLlm(entries, f) && IndexOfLlm(f) == None && LlmOf(f) == None && Unambiguous(f)
  {
    var f := entries[..i] + entries[i + 1..];
    if i == 0 {
      assert f == entries[1..];
      IndexesAreFirst(f);
    } else {
      assert f[1..] == entries[1..][..i - 1] + entries[1..][i..];
      assert f[0] == entries[0];
      RemoveLlm(entries[1..], i - 1);
    }
  }

  lemma {:induction false} RemoveDefault(entries: seq<Entry>, i: nat)
    requires i < |entries| && IndexOfDefault(entries) == Some(i) && Unambiguous(entries)
    ensures var f := entries[..i] + entries[i + 1..];
            SameApartFromDefault(entries, f) && IndexOfDefault(f) == None && DefaultOf(f) == None && Unambiguous(f)
  {
    var f := entries[..i] + entries[i + 1..];
    if i == 0 {
      assert f == entries[1..];
      IndexesAreFirst(f);
    } else {
      assert f[1..] == entries[1..][..i - 1] + entries[1..][i..];
      assert f[0] == entries[0];
      RemoveDefault(entries[1..], i - 1);
    }
  }

  lemma {:induction false} AppendEntry(entries: seq<Entry>, e: Entry)
    requires e.Llm? || e.Default?
    ensures var f := entries + [e];
            && (e.Llm? ==> SameApartFromLlm(entries, f))
            && (e.Default? ==> SameApartFromDefault(entries, f))
            && (e.Llm? && IndexOfLlm(entries).None? ==> IndexOfLlm(f) == Some(|entries|) && LlmOf(f) == e.llm)
            && (e.Default? && IndexOfDefault(entries).None? ==> IndexOfDefault(f) == Some(|entries|) && DefaultOf(f) == e.default)
    ensures Unambiguous(entries) && (if e.Llm? then IndexOfLlm(entries).None? else IndexOfDefault(entries).None?)
            ==> Unambiguous(entries + [e])
  {
    var f := entries + [e];
    if entries != [] {
      assert f[1..] == entries[1..] + [e];
      AppendEntry(entries[1..], e);
    } else {
      assert f[1..] == [];
    }
  }

  // ---- the two halves of a write ----

  lemma WriteLlmEffect(entries: seq<Entry>, providers: Pairs)
    requires Unambiguous(entries)
    ensures IndexesHold(entries)
    ensures var f := WriteLlm(entries, true, providers);
            && Unambiguous(f) && SameApartFromLlm(entries, f)
            && RoutesOf(f) == MergeProviders(RoutesOf(entries), providers)
            && LlmOf(f).Some? && LlmOf(f).value.providers == Some(RoutesOf(f))
  {
    IndexesAreFirst(entries);
    match IndexOfLlm(entries)
    case None => AppendEntry(entries, MergedLlm(Llm(Some(Section(None, 0)), 0), providers));
    case Some(i) => ReplaceLlm(entries, i, MergedLlm(entries[i], providers));
  }

  /** The first indexes found are indexes of entries of the right kind. */
  ghost predicate IndexesHold(entries: seq<Entry>) {
    && (IndexOfLlm(entries).Some? ==> IndexOfLlm(entries).value < |entries| && entries[IndexOfLlm(entries).value].Llm?)
    && (IndexOfDefault(entries).Some? ==> IndexOfDefault(entries).value < |entries| && entries[IndexOfDefault(entries).value].Default?)
  }

  /** A user's selection of another provider than the one wanted. */
  predicate Contested(current: Option<Selection>, wanted: Option<Selection>) {
    && current.Some? && current.value.provider.Some? && !Managed(current.value.provider.value)
    && (wanted.Some? ==> wanted.value.provider != current.value.provider)
  }

  lemma WriteDefaultEffect(entries: seq<Entry>, selected: Option<Selection>)
    requires Unambiguous(entries)
    ensures IndexesHold(entries)
    ensures var f := WriteDefault(entries, selected);
            && Unambiguous(f) && SameApartFromDefault(entries, f)
            && DefaultOf(f) == (if Contested(DefaultOf(entries), selected) then DefaultOf(entries) else selected)
  {
    IndexesAreFirst(entries);
    match IndexOfDefault(entries)
    case None =>
      if selected.Some? {
        AppendEntry(entries, Default(selected, 0));
      }
    case Some(i) =>
      var e := entries[i];
      if selected.None? {
        if !UserOwned(e) {
          RemoveDefault(entries, i);
        }
      } else if !(UserOwned(e) && e.default.value.provider != selected.value.provider) {
        ReplaceDefault(entries, i, e.(default := selected));
      }
  }

  // ---- the main results about the merge ----

  ghost predicate Sane(s: Settings) {
    s.section.Some? && DistinctKeys(ProvidersOf(s))
  }

  lemma DesiredIsDistinct(s: Settings)
    requires Sane(s)
    ensures DistinctKeys(Desired(s).0)
  {
    WithoutIsDistinct(ProvidersOf(s), PHOENIX);
  }

  lemma WriteEffect(entries: seq<Entry>, s: Settings)
    requires Unambiguous(entries) && Sane(s)
    ensures var (providers, selected) := Desired(s);
            var f := Write(entries, s);
            && Unambiguous(f) && ForeignOf(f) == ForeignOf(entries)
            && RoutesOf(f) == MergeProviders(RoutesOf(entries), providers)
            && LlmOf(f).Some? && LlmOf(f).value.providers == Some(RoutesOf(f))
            && DefaultOf(f) == (if Contested(DefaultOf(entries), selected) then DefaultOf(entries) else selected)
  {
    var (providers, selected) := Desired(s);
    WriteLlmEffect(entries, providers);
    WriteDefaultEffect(WriteLlm(entries, true, providers), selected);
  }

  /** However stale the snapshot behind the settings: every entry that is not one of the shell's two
      is unchanged and in place, every provider of the user's own that is on disk is unchanged, and
      the managed providers are exactly the desired ones. */
  lemma UserNodesSurvive(entries: seq<Entry>, s: Settings, key: string)
    requires Unambiguous(entries) && Sane(s)
    ensures var f := Write(entries, s);
            && ForeignOf(f) == ForeignOf(entries)
            && (!Managed(key) && Lookup(RoutesOf(entries), key).Some? ==> Lookup(RoutesOf(f), key) == Lookup(RoutesOf(entries), key))
            && (Managed(key) ==> Lookup(RoutesOf(f), key) == Lookup(Desired(s).0, key))
            && (!Managed(key) && Lookup(RoutesOf(entries), key).None? ==> Lookup(RoutesOf(f), key) == Lookup(Desired(s).0, key))
  {
    WriteEffect(entries, s);
    DesiredIsDistinct(s);
    MergedLookup(RoutesOf(entries), Desired(s).0, key);
  }

  /** A selection on disk is kept when it names a provider of the user's own that the settings do not
      name; in every other case the desired selection, or none, takes its place. */
  lemma UserSelectionSurvives(entries: seq<Entry>, s: Settings)
    requires Unambiguous(entries) && Sane(s)
    ensures DefaultOf(Write(entries, s))
            == if Contested(DefaultOf(entries), Desired(s).1) then DefaultOf(entries) else Desired(s).1
  {
    WriteEffect(entries, s);
  }

  /** No write leaves a selection of the managed route that the route on disk does not offer. */
  lemma ManagedSelectionIsListed(entries: seq<Entry>, s: Settings)
    requires Unambiguous(entries) && Sane(s)
    ensures var f := Write(entries, s);
            DefaultOf(f).Some? && DefaultOf(f).value.provider == Some(PHOENIX) ==> ListedBy(RoutesOf(f), DefaultOf(f).value)
  {
    WriteEffect(entries, s);
    UserNodesSurvive(entries, s, PHOENIX);
  }

  // ---- what stays of every entry ----

  /** An entry without what a write may change: the providers of the one, the selection of the other. */
  datatype Bone = ForeignBone(node: int) | LlmBone(node: int, rest: int) | DefaultBone(node: int)

  function BoneOf(e: Entry): Bone {
    match e
    case Foreign(node) => ForeignBone(node)
    case Llm(llm, node) => LlmBone(node, if llm.Some? then llm.value.rest else 0)
    case Default(_, node) => DefaultBone(node)
  }

  function Bones(entries: seq<Entry>): seq<Bone> {
    seq(|entries|, i requires 0 <= i < |entries| => BoneOf(entries[i]))
  }

  function DropLlm(bones: seq<Bone>): seq<Bone> {
    if bones == [] then [] else (if bones[0].LlmBone? then [] else [bones[0]]) + DropLlm(bones[1..])
  }

  function DropDefault(bones: seq<Bone>): seq<Bone> {
    if bones == [] then [] else (if bones[0].DefaultBone? then [] else [bones[0]]) + DropDefault(bones[1..])
  }

  predicate HasLlm(entries: seq<Entry>) {
    exists i :: 0 <= i < |entries| && entries[i].Llm?
  }

  predicate HasDefault(entries: seq<Entry>) {
    exists i :: 0 <= i < |entries| && entries[i].Default?
  }

  lemma {:induction false} DroppedAt(bones: seq<Bone>, i: nat)
    requires i < |bones|
    ensures bones[i].LlmBone? && (forall j :: 0 <= j < |bones| && j != i ==> !bones[j].LlmBone?) ==>
              DropLlm(bones) == bones[..i] + bones[i + 1..]
    ensures bones[i].DefaultBone? && (forall j :: 0 <= j < |bones| && j != i ==> !bones[j].DefaultBone?) ==>
              DropDefault(bones) == bones[..i] + bones[i + 1..]
  {
    if i == 0 {
      NothingDropped(bones[1..]);
    } else {
      assert forall j :: 0 <= j < |bones[1..]| ==> bones[1..][j] == bones[j + 1];
      DroppedAt(bones[1..], i - 1);
      assert bones[..i] == [bones[0]] + bones[1..][..i - 1] && bones[1..][i..] == bones[i + 1..];
    }
  }

  lemma {:induction false} NothingDropped(bones: seq<Bone>)
    ensures (forall j :: 0 <= j < |bones| ==> !bones[j].LlmBone?) ==> DropLlm(bones) == bones
    ensures (forall j :: 0 <= j < |bones| ==> !bones[j].DefaultBone?) ==> DropDefault(bones) == bones
  {
    if bones != [] {
      NothingDropped(bones[1..]);
    }
  }

  /** The two kinds of entry occur at most once each. */
  lemma {:induction false} AtMostOnce(entries: seq<Entry>)
    requires Unambiguous(entries)
    ensures forall i, j | 0 <= i < j < |entries| :: !(entries[i].Llm? && entries[j].Llm?)
    ensures forall i, j | 0 <= i < j < |entries| :: !(entries[i].Default? && entries[j].Default?)
  {
    if entries != [] {
      AtMostOnce(entries[1..]);
      IndexesAreFirst(entries[1..]);
      assert forall i :: 0 < i < |entries| ==> entries[i] == entries[1..][i - 1];
    }
  }

  lemma BonesOfReplaced(entries: seq<Entry>, i: nat, e: Entry)
    requires i < |entries| && BoneOf(e) == BoneOf(entries[i])
    ensures Bones(entries[i := e]) == Bones(entries)
    ensures HasDefault(entries[i := e]) <==> HasDefault(entries)
  {
    var f := entries[i := e];
    forall j | 0 <= j < |f|
      ensures BoneOf(f[j]) == BoneOf(entries[j]) && (f[j].Default? <==> entries[j].Default?)
    {
    }
  }

  lemma BonesOfRemoved(entries: seq<Entry>, i: nat)
    requires i < |entries|
    ensures var f := entries[..i] + entries[i + 1..];
            && Bones(f) == Bones(entries)[..i] + Bones(entries)[i + 1..]
            && (!entries[i].Default? ==> (HasDefault(f) <==> HasDefault(entries)))
  {
    var f := entries[..i] + entries[i + 1..];
    assert forall j :: 0 <= j < i ==> f[j] == entries[j];
    assert forall j :: i <= j < |f| ==> f[j] == entries[j + 1];
    if !entries[i].Default? && HasDefault(entries) {
      var j :| 0 <= j < |entries| && entries[j].Default?;
      assert f[if j < i then j else j - 1] == entries[j];
    }
  }

  lemma BonesOfAppended(entries: seq<Entry>, e: Entry)
    ensures Bones(entries + [e]) == Bones(entries) + [BoneOf(e)]
    ensures !e.Default? ==> (HasDefault(entries + [e]) <==> HasDefault(entries))
  {
    var f := entries + [e];
    assert forall j :: 0 <= j < |entries| ==> f[j] == entries[j];
  }

  lemma KindOfIndex(entries: seq<Entry>)
    requires Unambiguous(entries)
    ensures IndexesHold(entries)
    ensures HasLlm(entries) <==> IndexOfLlm(entries).Some?
    ensures HasDefault(entries) <==> IndexOfDefault(entries).Some?
    ensures IndexOfDefault(entries).Some? ==> entries[IndexOfDefault(entries).value].default == DefaultOf(entries)
    ensures IndexOfLlm(entries).Some? ==>
              var i := IndexOfLlm(entries).value; DropLlm(Bones(entries)) == Bones(entries)[..i] + Bones(entries)[i + 1..]
    ensures IndexOfLlm(entries).None? ==> DropLlm(Bones(entries)) == Bones(entries)
    ensures IndexOfDefault(entries).Some? ==>
              var i := IndexOfDefault(entries).value; DropDefault(Bones(entries)) == Bones(entries)[..i] + Bones(entries)[i + 1..]
  {
    IndexesAreFirst(entries);
    AtMostOnce(entries);
    if IndexOfLlm(entries).Some? {
      DroppedAt(Bones(entries), IndexOfLlm(entries).value);
    } else {
      NothingDropped(Bones(entries));
    }
    if IndexOfDefault(entries).Some? {
      DroppedAt(Bones(entries), IndexOfDefault(entries).value);
    }
  }

  lemma MergedBone(e: Entry, providers: Pairs)
    requires e.Llm?
    ensures MergedLlm(e, providers).Llm? && BoneOf(MergedLlm(e, providers)) == BoneOf(e)
  {
  }

  lemma LlmBones(entries: seq<Entry>, wanted: bool, providers: Pairs)
    requires Unambiguous(entries)
    ensures IndexesHold(entries)
    ensures Bones(WriteLlm(entries, wanted, providers))
            == if wanted then Bones(entries) + (if HasLlm(entries) then [] else [LlmBone(0, 0)]) else DropLlm(Bones(entries))
    ensures HasDefault(WriteLlm(entries, wanted, providers)) <==> HasDefault(entries)
  {
    hide Bones, MergedLlm, IndexOfLlm, IndexOfDefault, HasLlm, HasDefault, DropLlm, DropDefault, BoneOf, Unambiguous;
    KindOfIndex(entries);
    match IndexOfLlm(entries)
    case None =>
      MergedBone(Llm(Some(Section(None, 0)), 0), providers);
      NewBones();
      BonesOfAppended(entries, MergedLlm(Llm(Some(Section(None, 0)), 0), providers));
    case Some(i) =>
      MergedBone(entries[i], providers);
      BonesOfReplaced(entries, i, MergedLlm(entries[i], providers));
      BonesOfRemoved(entries, i);
  }

  lemma NewBones()
    ensures BoneOf(Llm(Some(Section(None, 0)), 0)) == LlmBone(0, 0)
    ensures forall selected :: BoneOf(Default(selected, 0)) == DefaultBone(0)
  {
  }

  lemma DefaultBones(entries: seq<Entry>, selected: Option<Selection>)
    requires Unambiguous(entries)
    ensures IndexesHold(entries)
    ensures Bones(WriteDefault(entries, selected))
            == if !HasDefault(entries) then Bones(entries) + (if selected.Some? then [DefaultBone(0)] else [])
               else if selected.Some? || Contested(DefaultOf(entries), None) then Bones(entries)
               else DropDefault(Bones(entries))
  {
    KindOfIndex(entries);
    NewBones();
    match IndexOfDefault(entries)
    case None =>
      BonesOfAppended(entries, Default(selected, 0));
      hide Bones;
    case Some(i) =>
      BonesOfReplaced(entries, i, entries[i].(default := selected));
      BonesOfRemoved(entries, i);
      hide Bones;
  }

  /** Every entry keeps its place, its own node and, in the shell's provider entry, every other key of its
      section; all a write adds or takes away is an entry of the shell's own. */
  lemma EntriesStayInPlace(entries: seq<Entry>, s: Settings)
    requires Unambiguous(entries)
    ensures var selected := Desired(s).1;
            var b := if s.section.Some? then Bones(entries) + (if HasLlm(entries) then [] else [LlmBone(0, 0)])
                     else DropLlm(Bones(entries));
            Bones(Write(entries, s))
            == if !HasDefault(entries) then b + (if selected.Some? then [DefaultBone(0)] else [])
               else if selected.Some? || Contested(DefaultOf(entries), None) then b
               else DropDefault(b)
  {
    var (providers, selected) := Desired(s);
    LlmBones(entries, s.section.Some?, providers);
    var f := WriteLlm(entries, s.section.Some?, providers);
    EitherEffect(entries, s.section.Some?, providers);
    DefaultBones(f, selected);
  }

  lemma EitherEffect(entries: seq<Entry>, wanted: bool, providers: Pairs)
    requires Unambiguous(entries)
    ensures IndexesHold(entries)
    ensures Unambiguous(WriteLlm(entries, wanted, providers)) && SameApartFromLlm(entries, WriteLlm(entries, wanted, providers))
  {
    IndexesAreFirst(entries);
    if wanted {
      WriteLlmEffect(entries, providers);
    } else if IndexOfLlm(entries).Some? {
      RemoveLlm(entries, IndexOfLlm(entries).value);
    }
  }

  // ---- idempotence ----

  /** Writing providers that are already merged in. */
  lemma WriteLlmIsStable(entries: seq<Entry>, providers: Pairs)
    requires LlmOf(entries).Some? && LlmOf(entries).value.providers == Some(RoutesOf(entries))
    requires MergeProviders(RoutesOf(entries), providers) == RoutesOf(entries)
    ensures IndexesHold(entries) && WriteLlm(entries, true, providers) == entries
  {
    IndexesAreFirst(entries);
    var i := IndexOfLlm(entries).value;
    assert MergedLlm(entries[i], providers) == entries[i];
  }

  /** A second write of the same settings changes no node. */
  lemma WriteIsIdempotent(entries: seq<Entry>, s: Settings)
    requires Unambiguous(entries) && Sane(s)
    ensures Write(Write(entries, s), s) == Write(entries, s)
  {
    var (providers, selected) := Desired(s);
    DesiredIsDistinct(s);
    WriteEffect(entries, s);
    MergeProvidersIsIdempotent(RoutesOf(entries), providers);
    WriteLlmIsStable(Write(entries, s), providers);
    WriteLlmEffect(entries, providers);
    WriteDefaultIsIdempotent(WriteLlm(entries, true, providers), selected);
  }

  lemma WriteDefaultIsIdempotent(entries: seq<Entry>, selected: Option<Selection>)
    requires Unambiguous(entries)
    ensures IndexesHold(entries) && IndexesHold(WriteDefault(entries, selected))
    ensures WriteDefault(WriteDefault(entries, selected), selected) == WriteDefault(entries, selected)
  {
    IndexesAreFirst(entries);
    var f := WriteDefault(entries, selected);
    IndexesAreFirst(f);
    match IndexOfDefault(entries)
    case None =>
      if selected.Some? {
        AppendEntry(entries, Default(selected, 0));
      }
    case Some(i) =>
      var e := entries[i];
      if selected.None? {
        if !UserOwned(e) {
          RemoveDefault(entries, i);
        }
      } else if !(UserOwned(e) && e.default.value.provider != selected.value.provider) {
        ReplaceDefault(entries, i, e.(default := selected));
      }
  }

  // ---- reading ----

  /** `{ ...under, ...over }`. */
  function Spread(under: Pairs, over: Pairs): Pairs
    decreases |over|
  {
    if over == [] then under else Spread(Put(under, over[0].0, over[0].1), over[1..])
  }

  /** readHarnessSettings: the active profile on top of the legacy settings file. */
  function Read(legacy: Settings, entries: seq<Entry>): Settings {
    var active := LlmOf(entries);
    Settings(
      if active.None? then legacy.section
      else Some(Section(Some(Spread(ProvidersOf(legacy), RoutesOf(entries))), active.value.rest)),
      Or(DefaultOf(entries), legacy.selected))
  }

  lemma {:induction false} SpreadLookup(under: Pairs, over: Pairs, k: string)
    requires DistinctKeys(over)
    ensures Lookup(Spread(under, over), k) == Or(Lookup(over, k), Lookup(under, k))
    ensures DistinctKeys(under) ==> DistinctKeys(Spread(under, over))
    decreases |over|
  {
    if over != [] {
      PutLookup(under, over[0].0, over[0].1, k);
      if DistinctKeys(under) {
        PutIsDistinct(under, over[0].0, over[0].1);
      }
      SpreadLookup(Put(under, over[0].0, over[0].1), over[1..], k);
    }
  }

  /** What is on disk wins over the legacy file, name by name. */
  lemma ReadSeesTheProfile(legacy: Settings, entries: seq<Entry>, key: string)
    requires DistinctKeys(ProvidersOf(legacy)) && DistinctKeys(RoutesOf(entries))
    ensures var s := Read(legacy, entries);
            && DistinctKeys(ProvidersOf(s))
            && Lookup(ProvidersOf(s), key) == Or(Lookup(RoutesOf(entries), key), Lookup(ProvidersOf(legacy), key))
            && s.selected == (if DefaultOf(entries).Some? then DefaultOf(entries) else legacy.selected)
            && (s.section.Some? <==> LlmOf(entries).Some? || legacy.section.Some?)
  {
    SpreadLookup(ProvidersOf(legacy), RoutesOf(entries), key);
  }

  // ---- seeding (provider-seeder.ts) ----

  datatype SeedConfig = SeedConfig(baseURL: string, modelIds: Option<seq<string>>, apiKeyEnv: Option<string>)

  predicate ValidIds(ids: seq<string>) {
    && |ids| >= 2 && ids[0] == "auto"
    && (forall i, j | 0 <= i < j < |ids| :: ids[i] != ids[j])
    && (forall i | 0 <= i < |ids| :: ids[i] != "")
  }

  const AUTO := Selection(Some(PHOENIX), Some("auto"), 0)

  function SeededNode(id: string): ModelNode {
    Mapping(Some(id), Recorded(None, None, Missing, None), true, 0)
  }

  /** Every shipped model is registered and none is selectable. The rest is the fixed api and input. */
  function SeededRoute(cfg: SeedConfig, ids: seq<string>): Provider {
    Provider(Some("Phoenix"), Some(cfg.baseURL),
             Some(if cfg.apiKeyEnv.Some? then cfg.apiKeyEnv.value else "FREECODE_PHOENIX_API_KEY"),
             Some(seq(|ids|, i requires 0 <= i < |ids| => SeededNode(ids[i]))), 0)
  }

  const LEGACY_ROUTES := {"deepseek-free", "kilo-free", "gemini-web"}

  /** The selection the seeder replaces by auto. */
  predicate Unseated(selected: Option<Selection>, ids: seq<string>) {
    || selected.None?
    || (selected.value.provider.Some? && selected.value.provider.value in LEGACY_ROUTES)
    || (selected.value.provider == Some(PHOENIX) && (selected.value.model.None? || selected.value.model.value !in ids))
  }

  /** A community route of an older build that this shell had written under its own label. */
  predicate Labelled(pairs: Pairs, key: string, title: string) {
    Lookup(pairs, key).Some? && Lookup(pairs, key).value.displayName == Some(title)
  }

  function DropIf(pairs: Pairs, key: string, drop: bool): Pairs {
    if drop then Without(pairs, key) else pairs
  }

  /** Whatever the seeder deletes, and the names of it. */
  function SeededProviders(cfg: SeedConfig, given: Pairs): (Pairs, set<string>) {
    var kept := Without(Without(Without(given, "deepseek-free"), "kilo-free"), "gemini-web");
    var routed := if cfg.modelIds.Some? then Put(kept, PHOENIX, SeededRoute(cfg, cfg.modelIds.value))
                  else Without(kept, PHOENIX);
    var dropOpen := Labelled(routed, "opencode-free", "OpenCode No-Auth");
    var dropPerplexity := Labelled(routed, "perplexity-free", "Perplexity Free (local)");
    (DropIf(DropIf(routed, "opencode-free", dropOpen), "perplexity-free", dropPerplexity),
     LEGACY_ROUTES + (if cfg.modelIds.Some? then {} else {PHOENIX})
     + (if dropOpen then {"opencode-free"} else {}) + (if dropPerplexity then {"perplexity-free"} else {}))
  }

  /** seedProviders up to the write; None when it throws. */
  function Seed(cfg: SeedConfig, s: Settings): Option<Settings> {
    if cfg.modelIds.Some? && !ValidIds(cfg.modelIds.value) then None
    else
      var (providers, removed) := SeededProviders(cfg, ProvidersOf(s));
      var chosen := if cfg.modelIds.Some? && Unseated(s.selected, cfg.modelIds.value) then Some(AUTO) else s.selected;
      var gone := chosen.Some? && chosen.value.provider.Some? && chosen.value.provider.value in removed;
      Some(Settings(Some(Section(Some(providers), if s.section.Some? then s.section.value.rest else 0)),
                    if gone then None else chosen))
  }

  lemma {:induction false} SeededProvidersAreDistinct(cfg: SeedConfig, given: Pairs)
    requires DistinctKeys(given)
    ensures DistinctKeys(SeededProviders(cfg, given).0)
  {
    var one := Without(given, "deepseek-free");
    var two := Without(one, "kilo-free");
    var kept := Without(two, "gemini-web");
    WithoutIsDistinct(given, "deepseek-free");
    WithoutIsDistinct(one, "kilo-free");
    WithoutIsDistinct(two, "gemini-web");
    WithoutIsDistinct(kept, PHOENIX);
    if cfg.modelIds.Some? {
      PutIsDistinct(kept, PHOENIX, SeededRoute(cfg, cfg.modelIds.value));
    }
    var routed := if cfg.modelIds.Some? then Put(kept, PHOENIX, SeededRoute(cfg, cfg.modelIds.value))
                  else Without(kept, PHOENIX);
    WithoutIsDistinct(routed, "opencode-free");
    var fewer := DropIf(routed, "opencode-free", Labelled(routed, "opencode-free", "OpenCode No-Auth"));
    WithoutIsDistinct(fewer, "perplexity-free");
  }

  lemma SeededPhoenix(cfg: SeedConfig, given: Pairs)
    ensures Lookup(SeededProviders(cfg, given).0, PHOENIX)
            == match cfg.modelIds
               case Some(ids) => Some(SeededRoute(cfg, ids))
               case None => None
  {
    var kept := Without(Without(Without(given, "deepseek-free"), "kilo-free"), "gemini-web");
    WithoutLookup(kept, PHOENIX, PHOENIX);
    if cfg.modelIds.Some? {
      PutLookup(kept, PHOENIX, SeededRoute(cfg, cfg.modelIds.value), PHOENIX);
    }
    var routed := if cfg.modelIds.Some? then Put(kept, PHOENIX, SeededRoute(cfg, cfg.modelIds.value))
                  else Without(kept, PHOENIX);
    WithoutLookup(routed, "opencode-free", PHOENIX);
    var fewer := DropIf(routed, "opencode-free", Labelled(routed, "opencode-free", "OpenCode No-Auth"));
    WithoutLookup(fewer, "perplexity-free", PHOENIX);
  }

  // ---- refreshing (model-refresher.ts, the strict exact-list lane) ----

  datatype RefreshConfig = RefreshConfig(tables: Tables, baseURL: string, apiKeyEnv: string, exactIds: seq<string>)

  /** `new Map(entries.map(...))`: the last entry of an id counts. */
  function Current(entries: seq<Probed>, id: string): Option<Probed> {
    if entries == [] then None
    else if entries[|entries| - 1].model.id == id then Some(entries[|entries| - 1])
    else Current(entries[..|entries| - 1], id)
  }

  /** The last mapping with this id in the route's list. */
  function Configured(models: seq<ModelNode>, id: string): Option<Recorded> {
    if models == [] then None
    else
      var last := models[|models| - 1];
      if !last.Bare? && ModelId(last) == Some(id)
      then Some(if last.Described? then Record(last.descriptor) else last.recorded)
      else Configured(models[..|models| - 1], id)
  }

  function Responders(entries: seq<Probed>): seq<string> {
    if entries == [] then []
    else (if entries[0].responds then [entries[0].model.id] else []) + Responders(entries[1..])
  }

  function Preferred(responders: seq<string>): Option<string> {
    if "auto" in responders then Some("auto") else if responders == [] then None else Some(responders[0])
  }

  /** The elements of the exact list, whatever the probes returned. */
  function ExactModels(cfg: RefreshConfig, entries: seq<Probed>, models: Option<seq<ModelNode>>): (r: seq<ModelNode>)
    ensures |r| == |cfg.exactIds|
    ensures forall i :: 0 <= i < |r| ==> ModelId(r[i]) == Some(cfg.exactIds[i])
  {
    var configured := if models.Some? then models.value else [];
    seq(|cfg.exactIds|, i requires 0 <= i < |cfg.exactIds| =>
      Described(DescriptorFor(cfg, entries, configured, cfg.exactIds[i])))
  }

  function DescriptorFor(cfg: RefreshConfig, entries: seq<Probed>, configured: seq<ModelNode>, id: string): (d: Descriptor)
    ensures d.id == id
  {
    CurrentHasId(entries, id);
    Describe(cfg.tables, id, Current(entries, id), Configured(configured, id))
  }

  lemma CurrentHasId(entries: seq<Probed>, id: string)
    ensures Current(entries, id).Some? ==> Current(entries, id).value.model.id == id
  {
  }

  /** Where an id is probed or listed more than once, the last entry counts. */
  lemma {:induction false} CurrentExactly(entries: seq<Probed>, id: string)
    ensures Current(entries, id).None? <==> forall i :: 0 <= i < |entries| ==> entries[i].model.id != id
    ensures Current(entries, id).Some? ==>
              exists i :: 0 <= i < |entries| && entries[i] == Current(entries, id).value && entries[i].model.id == id
                && forall j :: i < j < |entries| ==> entries[j].model.id != id
  {
    if entries != [] && entries[|entries| - 1].model.id != id {
      var n := |entries| - 1;
      CurrentExactly(entries[..n], id);
      if Current(entries[..n], id).Some? {
        var i :| 0 <= i < n && entries[..n][i] == Current(entries[..n], id).value && entries[..n][i].model.id == id
                 && forall j :: i < j < n ==> entries[..n][j].model.id != id;
        assert entries[i] == Current(entries, id).value;
        assert forall j :: i < j < n ==> entries[..n][j] == entries[j];
      } else {
        assert forall j :: 0 <= j < n ==> entries[..n][j] == entries[j];
      }
    }
  }

  /** syncProviderModels on the primary target. */
  function SyncedRoute(cfg: RefreshConfig, entries: seq<Probed>, route: Option<Provider>): Provider {
    var base := if route.Some? then route.value
                else Provider(Some("Phoenix"), Some(cfg.baseURL), Some(cfg.apiKeyEnv), Some([]), 0);
    base.(baseURL := Some(cfg.baseURL), apiKeyEnv := Some(cfg.apiKeyEnv), models := Some(ExactModels(cfg, entries, base.models)))
  }

  predicate Recoverable(cfg: RefreshConfig, selected: Option<Selection>) {
    selected.Some? && selected.value.provider == Some(PHOENIX) && selected.value.model.Some? && selected.value.model.value in cfg.exactIds
  }

  /** A selection the refresh replaces by a responder. */
  predicate Replaceable(cfg: RefreshConfig, selected: Option<Selection>, responders: seq<string>) {
    || selected.None? || selected.value.provider.None? || selected.value.model.None?
    || (selected.value.provider == Some(PHOENIX) && !Recoverable(cfg, selected) && selected.value.model.value !in responders)
  }

  /** refreshModels from the probe results to the write; the other targets may set any other routes. */
  function Refreshed(cfg: RefreshConfig, entries: seq<Probed>, others: Pairs, s: Settings): Settings {
    var given := ProvidersOf(s);
    var providers := Spread(Put(given, PHOENIX, SyncedRoute(cfg, entries, Lookup(given, PHOENIX))), others);
    var preferred := Preferred(Responders(entries));
    Settings(Some(Section(Some(providers), if s.section.Some? then s.section.value.rest else 0)),
             if preferred.Some? && Replaceable(cfg, s.selected, Responders(entries))
             then Some(Selection(Some(PHOENIX), preferred, 0)) else s.selected)
  }

  // ---- runs of seeds and refreshes ----

  datatype Action =
    | SeedNow(seed: SeedConfig, legacy: Settings)
    | RefreshNow(refresh: RefreshConfig, entries: seq<Probed>, others: Pairs, legacy: Settings)

  /** What the writer hands to writeHarnessSettings; None when it throws before. */
  function Wanted(disk: seq<Entry>, a: Action): Option<Settings> {
    match a
    case SeedNow(cfg, legacy) => Seed(cfg, Read(legacy, disk))
    case RefreshNow(cfg, entries, others, legacy) => Some(Refreshed(cfg, entries, others, Read(legacy, disk)))
  }

  /** A profile with duplicate entries is refused and stays as it is. */
  function Act(disk: seq<Entry>, a: Action): seq<Entry> {
    if Unambiguous(disk) && Wanted(disk, a).Some? then Write(disk, Wanted(disk, a).value) else disk
  }

  function Run(disk: seq<Entry>, actions: seq<Action>): seq<Entry> {
    if actions == [] then disk else Act(Run(disk, actions[..|actions| - 1]), actions[|actions| - 1])
  }

  /** Mappings have distinct keys: the YAML parser refuses anything else. */
  ghost predicate Parsed(a: Action) {
    && DistinctKeys(ProvidersOf(a.legacy))
    && (a.RefreshNow? ==> DistinctKeys(a.others) && Lookup(a.others, PHOENIX).None?)
  }

  ghost predicate AllParsed(actions: seq<Action>) {
    forall i :: 0 <= i < |actions| ==> Parsed(actions[i])
  }

  ghost predicate WellKept(disk: seq<Entry>) {
    Unambiguous(disk) && DistinctKeys(RoutesOf(disk))
  }

  lemma WantedIsSane(disk: seq<Entry>, a: Action)
    requires WellKept(disk) && Parsed(a)
    ensures Wanted(disk, a).Some? ==> Sane(Wanted(disk, a).value)
  {
    var s := Read(a.legacy, disk);
    ReadSeesTheProfile(a.legacy, disk, PHOENIX);
    match a
    case SeedNow(cfg, _) => SeededProvidersAreDistinct(cfg, ProvidersOf(s));
    case RefreshNow(cfg, entries, others, _) =>
      var route := SyncedRoute(cfg, entries, Lookup(ProvidersOf(s), PHOENIX));
      PutIsDistinct(ProvidersOf(s), PHOENIX, route);
      SpreadLookup(Put(ProvidersOf(s), PHOENIX, route), others, PHOENIX);
  }

  /** The route a refresh wants: the synced one, whatever the other targets set. */
  lemma RefreshedPhoenix(cfg: RefreshConfig, entries: seq<Probed>, others: Pairs, s: Settings)
    requires DistinctKeys(others) && Lookup(others, PHOENIX).None?
    ensures Lookup(ProvidersOf(Refreshed(cfg, entries, others, s)), PHOENIX)
            == Some(SyncedRoute(cfg, entries, Lookup(ProvidersOf(s), PHOENIX)))
  {
    var route := SyncedRoute(cfg, entries, Lookup(ProvidersOf(s), PHOENIX));
    PutLookup(ProvidersOf(s), PHOENIX, route, PHOENIX);
    SpreadLookup(Put(ProvidersOf(s), PHOENIX, route), others, PHOENIX);
  }

  lemma {:induction false} DropRetiredIsDistinct(target: Pairs, desired: Pairs)
    requires DistinctKeys(target)
    ensures DistinctKeys(DropRetired(target, desired))
  {
    if target != [] {
      DropRetiredIsDistinct(target[1..], desired);
      DropRetiredLookup(target[1..], desired, target[0].0);
    }
  }

  lemma {:induction false} SetAllIsDistinct(target: Pairs, desired: Pairs)
    requires DistinctKeys(target)
    ensures DistinctKeys(SetAll(target, desired))
    decreases |desired|
  {
    if desired != [] {
      PutIsDistinct(target, desired[0].0, desired[0].1);
      SetAllIsDistinct(SetOne(target, desired[0].0, desired[0].1), desired[1..]);
    }
  }

  lemma ActKeepsTheProfile(disk: seq<Entry>, a: Action)
    requires WellKept(disk) && Parsed(a)
    ensures WellKept(Act(disk, a))
  {
    WantedIsSane(disk, a);
    if Wanted(disk, a).Some? {
      var s := Wanted(disk, a).value;
      WriteEffect(disk, s);
      DropRetiredIsDistinct(RoutesOf(disk), Desired(s).0);
      SetAllIsDistinct(DropRetired(RoutesOf(disk), Desired(s).0), Desired(s).0);
    }
  }

  lemma {:induction false} RunKeepsTheProfile(disk: seq<Entry>, actions: seq<Action>)
    requires WellKept(disk) && AllParsed(actions)
    ensures WellKept(Run(disk, actions))
  {
    if actions != [] {
      RunKeepsTheProfile(disk, actions[..|actions| - 1]);
      ActKeepsTheProfile(Run(disk, actions[..|actions| - 1]), actions[|actions| - 1]);
    }
  }

  /** What belongs to the user is the same in both profiles: the foreign entries in their order, every
      provider the shell does not manage, a selection of such a provider, and the places, nodes and other
      keys of the shell's entries. */
  ghost predicate UserPartKept(disk: seq<Entry>, f: seq<Entry>, key: string) {
    && ForeignOf(f) == ForeignOf(disk)
    && (!Managed(key) && Lookup(RoutesOf(disk), key).Some? ==> Lookup(RoutesOf(f), key) == Lookup(RoutesOf(disk), key))
    && (Contested(DefaultOf(disk), None) ==> DefaultOf(f) == DefaultOf(disk))
    && BonesKept(disk, f)
  }

  /** Where there is a provider entry it keeps its place among the others, its node and its other keys; and
      the entry of a user's own selection stays where it is. */
  ghost predicate BonesKept(disk: seq<Entry>, f: seq<Entry>) {
    HasLlm(disk) ==>
      && HasLlm(f) && DropDefault(Bones(f)) == DropDefault(Bones(disk))
      && (Contested(DefaultOf(disk), None) ==> Bones(f) == Bones(disk))
  }

  lemma {:induction false} DroppedTwice(bones: seq<Bone>, node: int)
    ensures DropDefault(bones + [DefaultBone(node)]) == DropDefault(bones)
    ensures DropDefault(DropDefault(bones)) == DropDefault(bones)
  {
    if bones != [] {
      assert (bones + [DefaultBone(node)])[1..] == bones[1..] + [DefaultBone(node)];
      DroppedTwice(bones[1..], node);
      var rest := DropDefault(bones[1..]);
      assert ([bones[0]] + rest)[1..] == rest && [] + rest == rest;
    } else {
      assert (bones + [DefaultBone(node)])[1..] == [];
    }
  }

  lemma WriteKeepsBones(disk: seq<Entry>, s: Settings)
    requires Unambiguous(disk) && Sane(s)
    ensures BonesKept(disk, Write(disk, s))
  {
    EntriesStayInPlace(disk, s);
    DroppedTwice(Bones(disk), 0);
    WriteEffect(disk, s);
    IndexesAreFirst(disk);
    var f := Write(disk, s);
    hide Bones, Write, DropDefault, Desired;
    WithSectionHasLlm(f);
    if HasLlm(disk) {
      WithSelectionHasDefault(disk);
      assert Bones(disk) + [] == Bones(disk);
    }
  }

  lemma WithSectionHasLlm(entries: seq<Entry>)
    ensures LlmOf(entries).Some? ==> HasLlm(entries)
  {
    IndexesAreFirst(entries);
  }

  lemma WithSelectionHasDefault(entries: seq<Entry>)
    ensures DefaultOf(entries).Some? ==> HasDefault(entries)
  {
    IndexesAreFirst(entries);
  }

  lemma WriteKeepsUserPart(disk: seq<Entry>, s: Settings, key: string)
    requires Unambiguous(disk) && Sane(s)
    requires Contested(DefaultOf(disk), None) ==> Desired(s).1 == DefaultOf(disk) || Contested(DefaultOf(disk), Desired(s).1)
    ensures UserPartKept(disk, Write(disk, s), key)
  {
    UserNodesSurvive(disk, s, key);
    UserSelectionSurvives(disk, s);
    WriteKeepsBones(disk, s);
    hide BonesKept;
  }

  lemma ActKeepsUserPart(disk: seq<Entry>, a: Action, key: string)
    requires WellKept(disk) && Parsed(a)
    ensures UserPartKept(disk, Act(disk, a), key)
  {
    WantedIsSane(disk, a);
    if Wanted(disk, a).Some? {
      WriteKeepsUserPart(disk, Wanted(disk, a).value, key);
    }
  }

  /** Whatever the seeder and the refresh do, in any run, the user's part of the profile is kept. */
  lemma {:induction false} RunsKeepUserPart(disk: seq<Entry>, actions: seq<Action>, key: string)
    requires WellKept(disk) && AllParsed(actions)
    ensures UserPartKept(disk, Run(disk, actions), key)
  {
    if actions != [] {
      RunsKeepUserPart(disk, actions[..|actions| - 1], key);
      RunKeepsTheProfile(disk, actions[..|actions| - 1]);
      ActKeepsUserPart(Run(disk, actions[..|actions| - 1]), actions[|actions| - 1], key);
    }
  }

  ghost predicate PhoenixDefaultIsListed(disk: seq<Entry>) {
    DefaultOf(disk).Some? && DefaultOf(disk).value.provider == Some(PHOENIX) ==> ListedBy(RoutesOf(disk), DefaultOf(disk).value)
  }

  /** A default that names the managed route names one of the models in the route on disk, after every
      seed and refresh that writes and hence all through a run that starts so. */
  lemma {:induction false} DefaultsStayListed(disk: seq<Entry>, actions: seq<Action>)
    requires WellKept(disk) && AllParsed(actions)
    requires PhoenixDefaultIsListed(disk) || exists i :: 0 <= i < |actions| && actions[i].RefreshNow?
    ensures PhoenixDefaultIsListed(Run(disk, actions))
  {
    if actions != [] {
      var earlier := actions[..|actions| - 1];
      var before := Run(disk, earlier);
      var a := actions[|actions| - 1];
      RunKeepsTheProfile(disk, earlier);
      WantedIsSane(before, a);
      if Wanted(before, a).Some? {
        ManagedSelectionIsListed(before, Wanted(before, a).value);
      } else {
        if !PhoenixDefaultIsListed(disk) {
          var i :| 0 <= i < |actions| && actions[i].RefreshNow?;
          assert earlier[i].RefreshNow?;
        }
        DefaultsStayListed(disk, earlier);
      }
    }
  }

  /** The route on disk after a write. */
  lemma PhoenixAfterWrite(disk: seq<Entry>, s: Settings)
    requires Unambiguous(disk) && Sane(s)
    ensures Lookup(RoutesOf(Write(disk, s)), PHOENIX)
            == (var route := Lookup(ProvidersOf(s), PHOENIX);
                if route.Some? && route.value.models == Some([]) then None else route)
  {
    UserNodesSurvive(disk, s, PHOENIX);
    WithoutLookup(ProvidersOf(s), PHOENIX, PHOENIX);
  }

  /** Which descriptor a refresh reads back: the one in the route on disk, else the legacy file's. */
  function RouteRead(disk: seq<Entry>, legacy: Settings): Option<Provider> {
    Or(Lookup(RoutesOf(disk), PHOENIX), Lookup(ProvidersOf(legacy), PHOENIX))
  }

  function NodesOf(route: Option<Provider>): seq<ModelNode> {
    if route.Some? && route.value.models.Some? then route.value.models.value else []
  }

  /** After a strict refresh the route lists exactly the shipped ids in their order, whatever the
      gateway listed and whatever the probes returned; an empty catalog means no route. */
  lemma RefreshListsExactIds(disk: seq<Entry>, a: Action)
    requires WellKept(disk) && Parsed(a) && a.RefreshNow?
    ensures var route := Lookup(RoutesOf(Act(disk, a)), PHOENIX);
            && (route.Some? <==> a.refresh.exactIds != [])
            && |NodesOf(route)| == |a.refresh.exactIds|
            && (forall i :: 0 <= i < |a.refresh.exactIds| ==>
                  NodesOf(route)[i] == Described(DescriptorFor(a.refresh, a.entries, NodesOf(RouteRead(disk, a.legacy)), a.refresh.exactIds[i])))
            && (route.Some? ==>
                  var was := RouteRead(disk, a.legacy);
                  && route.value.baseURL == Some(a.refresh.baseURL) && route.value.apiKeyEnv == Some(a.refresh.apiKeyEnv)
                  && route.value.displayName == (if was.Some? then was.value.displayName else Some("Phoenix"))
                  && (was.Some? ==> route.value.rest == was.value.rest))
  {
    WantedIsSane(disk, a);
    ReadSeesTheProfile(a.legacy, disk, PHOENIX);
    var s := Read(a.legacy, disk);
    RefreshedPhoenix(a.refresh, a.entries, a.others, s);
    PhoenixAfterWrite(disk, Refreshed(a.refresh, a.entries, a.others, s));
  }

  /** A model is selectable after a refresh exactly when this refresh probed it, it responded, and it
      either is the router entry or proved tool calling. */
  lemma SelectableMeansProvedNow(disk: seq<Entry>, a: Action, i: nat)
    requires WellKept(disk) && Parsed(a) && a.RefreshNow? && i < |a.refresh.exactIds|
    ensures var id := a.refresh.exactIds[i];
            var nodes := NodesOf(Lookup(RoutesOf(Act(disk, a)), PHOENIX));
            var probed := Current(a.entries, id);
            && i < |nodes| && nodes[i].Described? && nodes[i].descriptor.id == id
            && (!nodes[i].descriptor.hidden <==>
                probed.Some? && probed.value.responds && (id == "auto" || probed.value.toolCalling))
  {
    RefreshListsExactIds(disk, a);
  }

  /** After a seed that has a verified catalog the route lists the shipped ids in order and none of them
      is selectable; without one there is no route. */
  lemma SeedListsShippedIds(disk: seq<Entry>, a: Action)
    requires WellKept(disk) && Parsed(a) && a.SeedNow? && Wanted(disk, a).Some?
    ensures var route := Lookup(RoutesOf(Act(disk, a)), PHOENIX);
            match a.seed.modelIds
            case None => route == None
            case Some(ids) =>
              && ValidIds(ids) && route.Some? && |NodesOf(route)| == |ids|
              && (forall i :: 0 <= i < |ids| ==>
                    NodesOf(route)[i] == Mapping(Some(ids[i]), Recorded(None, None, Missing, None), true, 0))
              && route.value.displayName == Some("Phoenix") && route.value.baseURL == Some(a.seed.baseURL)
              && (a.seed.apiKeyEnv.Some? ==> route.value.apiKeyEnv == a.seed.apiKeyEnv)
              && (a.seed.apiKeyEnv.None? ==> route.value.apiKeyEnv == Some("FREECODE_PHOENIX_API_KEY"))
  {
    WantedIsSane(disk, a);
    ReadSeesTheProfile(a.legacy, disk, PHOENIX);
    SeededPhoenix(a.seed, ProvidersOf(Read(a.legacy, disk)));
    PhoenixAfterWrite(disk, Wanted(disk, a).value);
  }

  // ---- pins ----

  /** Every writer of the run ships the same catalog. */
  ghost predicate Ships(a: Action, ids: seq<string>) {
    match a
    case SeedNow(cfg, _) => cfg.modelIds == Some(ids)
    case RefreshNow(cfg, _, _, _) => cfg.exactIds == ids
  }

  ghost predicate AllShip(actions: seq<Action>, ids: seq<string>) {
    forall i :: 0 <= i < |actions| ==> Ships(actions[i], ids)
  }

  lemma PinIsWanted(disk: seq<Entry>, a: Action, ids: seq<string>, pin: Selection)
    requires WellKept(disk) && Parsed(a) && Ships(a, ids)
    requires DefaultOf(disk) == Some(pin) && pin.provider == Some(PHOENIX) && pin.model.Some? && pin.model.value in ids
    requires Wanted(disk, a).Some?
    ensures Desired(Wanted(disk, a).value).1 == Some(pin)
  {
    hide Put, Spread, Without, DistinctKeys;
    var s := Read(a.legacy, disk);
    var w := Wanted(disk, a).value;
    var i :| 0 <= i < |ids| && ids[i] == pin.model.value;
    match a {
      case SeedNow(cfg, _) => SeededPhoenix(cfg, ProvidersOf(s));
      case RefreshNow(cfg, entries, others, _) => RefreshedPhoenix(cfg, entries, others, s);
    }
    var models := Lookup(ProvidersOf(w), PHOENIX).value.models.value;
    assert |models| == |ids| && ModelId(models[i]) == pin.model;
    assert w.selected == Some(pin);
  }

  /** A pin of a shipped model outlives every seed and refresh, whether or not the model answers. */
  lemma {:induction false} PinsSurvive(disk: seq<Entry>, actions: seq<Action>, ids: seq<string>, pin: Selection)
    requires WellKept(disk) && AllParsed(actions) && AllShip(actions, ids)
    requires DefaultOf(disk) == Some(pin) && pin.provider == Some(PHOENIX) && pin.model.Some? && pin.model.value in ids
    ensures DefaultOf(Run(disk, actions)) == Some(pin)
  {
    if actions != [] {
      var before := Run(disk, actions[..|actions| - 1]);
      var a := actions[|actions| - 1];
      PinsSurvive(disk, actions[..|actions| - 1], ids, pin);
      RunKeepsTheProfile(disk, actions[..|actions| - 1]);
      WantedIsSane(before, a);
      if Wanted(before, a).Some? {
        PinIsWanted(before, a, ids, pin);
        UserSelectionSurvives(before, Wanted(before, a).value);
      }
    }
  }

  // ---- descriptors on disk ----

  /** Reading the descriptor back without a probe reproduces it, hidden. */
  ghost predicate Settled(t: Tables, d: Descriptor) {
    Describe(t, d.id, None, Some(Record(d))) == d.(hidden := true)
  }

  /** The mapping the next refresh reads back for the descriptor's id is the descriptor. */
  ghost predicate OnDisk(disk: seq<Entry>, d: Descriptor) {
    Configured(NodesOf(Lookup(RoutesOf(disk), PHOENIX)), d.id) == Some(Record(d))
  }

  ghost predicate Silent(a: Action, t: Tables, id: string) {
    a.RefreshNow? && a.refresh.tables == t && id in a.refresh.exactIds && Current(a.entries, id).None?
  }

  lemma {:induction false} ConfiguredAmongEqual(nodes: seq<ModelNode>, ids: seq<string>, d: Descriptor)
    requires |nodes| == |ids| && d.id in ids
    requires forall i :: 0 <= i < |ids| ==>
               nodes[i].Described? && nodes[i].descriptor.id == ids[i] && (ids[i] == d.id ==> nodes[i].descriptor == d)
    ensures Configured(nodes, d.id) == Some(Record(d))
  {
    var n := |nodes| - 1;
    if ids[n] != d.id {
      var i :| 0 <= i < |ids| && ids[i] == d.id;
      assert ids[..n][i] == d.id;
      ConfiguredAmongEqual(nodes[..n], ids[..n], d);
    }
  }

  lemma RefreshPutsDescriptor(disk: seq<Entry>, a: Action, id: string)
    requires WellKept(disk) && Parsed(a) && a.RefreshNow? && id in a.refresh.exactIds
    ensures OnDisk(Act(disk, a), DescriptorFor(a.refresh, a.entries, NodesOf(RouteRead(disk, a.legacy)), id))
  {
    RefreshListsExactIds(disk, a);
    ConfiguredAmongEqual(NodesOf(Lookup(RoutesOf(Act(disk, a)), PHOENIX)), a.refresh.exactIds,
                         DescriptorFor(a.refresh, a.entries, NodesOf(RouteRead(disk, a.legacy)), id));
  }

  /** A settled descriptor on disk changes in no field, except that it is hidden, over any number of
      refreshes whose probe set lacks its id. */
  lemma {:induction false} SilentRefreshesKeepDescriptor(disk: seq<Entry>, actions: seq<Action>, t: Tables, d: Descriptor)
    requires WellKept(disk) && AllParsed(actions) && Settled(t, d) && OnDisk(disk, d)
    requires forall i :: 0 <= i < |actions| ==> Silent(actions[i], t, d.id)
    ensures OnDisk(Run(disk, actions), if actions == [] then d else d.(hidden := true))
  {
    if actions != [] {
      var before := Run(disk, actions[..|actions| - 1]);
      var a := actions[|actions| - 1];
      RunKeepsTheProfile(disk, actions[..|actions| - 1]);
      SilentRefreshesKeepDescriptor(disk, actions[..|actions| - 1], t, d);
      assert Silent(a, t, d.id);
      RefreshPutsDescriptor(before, a, d.id);
      assert Record(d.(hidden := true)) == Record(d);
    }
  }

  /** Every descriptor a strict refresh writes is settled, from whatever metadata and cache it came. */
  lemma RefreshSettles(disk: seq<Entry>, a: Action, id: string, listed: Option<Listed>, responds: bool, toolCalling: bool)
    requires WellKept(disk) && Parsed(a) && a.RefreshNow? && id in a.refresh.exactIds
    requires ValidTables(a.refresh.tables)
    requires listed.Some? ==> listed.value.id == id && ValidListed(listed.value)
    requires Current(a.entries, id) == Probe(a.refresh.tables, listed, responds, toolCalling)
    ensures var d := DescriptorFor(a.refresh, a.entries, NodesOf(RouteRead(disk, a.legacy)), id);
            OnDisk(Act(disk, a), d) && Settled(a.refresh.tables, d)
  {
    RefreshPutsDescriptor(disk, a, id);
    DescriptorIsFixed(a.refresh.tables, id, listed, responds, toolCalling, Configured(NodesOf(RouteRead(disk, a.legacy)), id));
  }

  // ---- which default a refresh sets ----

  predicate Answers(entries: seq<Probed>, id: string) {
    exists i :: 0 <= i < |entries| && entries[i].responds && entries[i].model.id == id
  }

  lemma {:induction false} RespondersAnswer(entries: seq<Probed>, id: string)
    ensures id in Responders(entries) <==> Answers(entries, id)
    ensures Responders(entries) == [] <==> forall i :: 0 <= i < |entries| ==> !entries[i].responds
    ensures Responders(entries) != [] ==>
              exists i :: 0 <= i < |entries| && entries[i].responds && entries[i].model.id == Responders(entries)[0]
                && forall j :: 0 <= j < i ==> !entries[j].responds
  {
    if entries != [] {
      var rest := entries[1..];
      RespondersAnswer(rest, id);
      assert forall i :: 0 < i < |entries| ==> entries[i] == rest[i - 1];
      assert forall i :: 0 <= i < |rest| ==> rest[i] == entries[i + 1];
      if Answers(rest, id) {
        var i :| 0 <= i < |rest| && rest[i].responds && rest[i].model.id == id;
        assert entries[i + 1].responds;
      }
      if entries[0].responds {
        assert Responders(entries)[0] == entries[0].model.id;
      } else if Responders(rest) != [] {
        var i :| 0 <= i < |rest| && rest[i].responds && rest[i].model.id == Responders(rest)[0]
                 && forall j :: 0 <= j < i ==> !rest[j].responds;
        assert entries[i + 1].responds;
      }
    }
  }

  /** The default a refresh starts from when it replaces one: auto if it answers, else the first that does. */
  ghost predicate Elected(entries: seq<Probed>, id: string) {
    if Answers(entries, "auto") then id == "auto"
    else exists i :: 0 <= i < |entries| && entries[i].responds && entries[i].model.id == id
           && forall j :: 0 <= j < i ==> !entries[j].responds
  }

  /** A refresh replaces the default exactly when some model answers and the default is missing or
      incomplete, or names a model of the managed route that is neither shipped nor answering; and the new
      default is the elected one. */
  lemma DefaultReplacedExactly(cfg: RefreshConfig, entries: seq<Probed>, others: Pairs, s: Settings)
    ensures var after := Refreshed(cfg, entries, others, s).selected;
            if (exists i :: 0 <= i < |entries| && entries[i].responds)
               && (s.selected.None? || s.selected.value.provider.None? || s.selected.value.model.None?
                   || (s.selected.value.provider == Some("freecode-phoenix")
                       && s.selected.value.model.value !in cfg.exactIds && !Answers(entries, s.selected.value.model.value)))
            then after.Some? && after.value.provider == Some("freecode-phoenix") && after.value.rest == 0
                 && after.value.model.Some? && Elected(entries, after.value.model.value)
            else after == s.selected
  {
    RespondersAnswer(entries, "auto");
    if s.selected.Some? && s.selected.value.model.Some? {
      RespondersAnswer(entries, s.selected.value.model.value);
    }
    hide Responders;
  }

  /** And on disk: such a default is in place after the refresh when its model is shipped, unless the profile
      holds a selection of the user's own, which stays. */
  lemma ElectedDefaultIsWritten(disk: seq<Entry>, a: Action)
    requires WellKept(disk) && Parsed(a) && a.RefreshNow?
    requires var after := Wanted(disk, a).value.selected;
             after.Some? && after.value.provider == Some("freecode-phoenix")
             && after.value.model.Some? && after.value.model.value in a.refresh.exactIds
    ensures DefaultOf(Act(disk, a))
            == if Contested(DefaultOf(disk), Wanted(disk, a).value.selected) then DefaultOf(disk)
               else Wanted(disk, a).value.selected
  {
    hide Put, Spread, Without, DistinctKeys;
    WantedIsSane(disk, a);
    var w := Wanted(disk, a).value;
    RefreshedPhoenix(a.refresh, a.entries, a.others, Read(a.legacy, disk));
    var ids := a.refresh.exactIds;
    var i :| 0 <= i < |ids| && ids[i] == w.selected.value.model.value;
    var models := Lookup(ProvidersOf(w), PHOENIX).value.models.value;
    assert |models| == |ids| && ModelId(models[i]) == w.selected.value.model;
    assert Desired(w).1 == w.selected;
    UserSelectionSurvives(disk, w);
  }

  // ---- what a seed leaves ----

  /** The routes of older builds are gone, those that a build had labelled as its own too; the managed
      route is the seeded one or none; and every other route stays. */
  lemma SeededLookup(cfg: SeedConfig, given: Pairs, k: string)
    ensures Lookup(SeededProviders(cfg, given).0, k)
            == if k in ["deepseek-free", "kilo-free", "gemini-web"] then None
               else if k == "freecode-phoenix" then (if cfg.modelIds.Some? then Some(SeededRoute(cfg, cfg.modelIds.value)) else None)
               else if Lookup(given, k).Some?
                       && ((k == "opencode-free" && Lookup(given, k).value.displayName == Some("OpenCode No-Auth"))
                           || (k == "perplexity-free" && Lookup(given, k).value.displayName == Some("Perplexity Free (local)")))
               then None
               else Lookup(given, k)
  {
    var one := Without(given, "deepseek-free");
    var two := Without(one, "kilo-free");
    var kept := Without(two, "gemini-web");
    var routed := if cfg.modelIds.Some? then Put(kept, PHOENIX, SeededRoute(cfg, cfg.modelIds.value)) else Without(kept, PHOENIX);
    var fewer := DropIf(routed, "opencode-free", Labelled(routed, "opencode-free", "OpenCode No-Auth"));
    forall key
      ensures Lookup(kept, key) == if key in ["deepseek-free", "kilo-free", "gemini-web"] then None else Lookup(given, key)
      ensures Lookup(routed, key) == if key != PHOENIX then Lookup(kept, key)
                                     else if cfg.modelIds.Some? then Some(SeededRoute(cfg, cfg.modelIds.value)) else None
    {
      WithoutLookup(given, "deepseek-free", key);
      WithoutLookup(one, "kilo-free", key);
      WithoutLookup(two, "gemini-web", key);
      WithoutLookup(kept, PHOENIX, key);
      if cfg.modelIds.Some? {
        PutLookup(kept, PHOENIX, SeededRoute(cfg, cfg.modelIds.value), key);
      }
    }
    WithoutLookup(routed, "opencode-free", k);
    WithoutLookup(routed, "opencode-free", "perplexity-free");
    WithoutLookup(fewer, "perplexity-free", k);
    hide Without, Put, SeededRoute, Lookup;
  }

  /** A seed refuses a catalog that does not begin with auto, is too short, repeats an id or holds none. */
  lemma SeedRefusesExactly(cfg: SeedConfig, s: Settings)
    ensures Seed(cfg, s).None? <==>
              cfg.modelIds.Some?
              && var ids := cfg.modelIds.value;
                 |ids| < 2 || ids[0] != "auto" || "" in ids || exists i, j | 0 <= i < j < |ids| :: ids[i] == ids[j]
  {
  }

  /** After a seed none of the routes the shell manages is left over from an older build: on disk they are
      what the seed makes of the ones it read. */
  lemma SeedRetires(disk: seq<Entry>, a: Action, k: string)
    requires WellKept(disk) && Parsed(a) && a.SeedNow? && Wanted(disk, a).Some?
    requires k in ["freecode-phoenix", "deepseek-free", "kilo-free", "opencode-free", "perplexity-free", "gemini-web"]
    ensures var given := ProvidersOf(Read(a.legacy, disk));
            Lookup(RoutesOf(Act(disk, a)), k)
            == if k in ["deepseek-free", "kilo-free", "gemini-web"] then None
               else if k == "freecode-phoenix" then
                 (if a.seed.modelIds.Some? then Some(SeededRoute(a.seed, a.seed.modelIds.value)) else None)
               else if Lookup(given, k).Some?
                       && ((k == "opencode-free" && Lookup(given, k).value.displayName == Some("OpenCode No-Auth"))
                           || (k == "perplexity-free" && Lookup(given, k).value.displayName == Some("Perplexity Free (local)")))
               then None
               else Lookup(given, k)
  {
    WantedIsSane(disk, a);
    var s := Wanted(disk, a).value;
    UserNodesSurvive(disk, s, k);
    SeededLookup(a.seed, ProvidersOf(Read(a.legacy, disk)), k);
    WithoutLookup(ProvidersOf(s), PHOENIX, k);
    SeededPhoenix(a.seed, ProvidersOf(Read(a.legacy, disk)));
    assert Managed(k);
    hide Without, Put, SeededProviders, Write;
  }

  /** The default a seed wants: auto in place of none, of one of an older build's route and of one the managed
      route does not ship; none at all when the route it names has gone; otherwise the one it read. */
  lemma SeededDefaultExactly(cfg: SeedConfig, s: Settings)
    requires Seed(cfg, s).Some?
    ensures var was, given := s.selected, ProvidersOf(s);
            var named := if was.Some? then was.value.provider else None;
            Seed(cfg, s).value.selected
            == if cfg.modelIds.Some?
                  && (was.None? || named in [Some("deepseek-free"), Some("kilo-free"), Some("gemini-web")]
                      || (named == Some("freecode-phoenix")
                          && (was.value.model.None? || was.value.model.value !in cfg.modelIds.value)))
               then Some(Selection(Some("freecode-phoenix"), Some("auto"), 0))
               else if named in [Some("deepseek-free"), Some("kilo-free"), Some("gemini-web")]
                       || (named == Some("freecode-phoenix") && cfg.modelIds.None?)
                       || (named == Some("opencode-free") && Labelled(given, "opencode-free", "OpenCode No-Auth"))
                       || (named == Some("perplexity-free") && Labelled(given, "perplexity-free", "Perplexity Free (local)"))
               then None
               else was
  {
    LabelsAreRead(cfg, s);
    hide Labelled, Lookup, Without, Put;
  }

  /** What is dropped or set first leaves the labels of the two other routes as they were. */
  lemma LabelsAreRead(cfg: SeedConfig, s: Settings)
    ensures var given := ProvidersOf(s);
            var kept := Without(Without(Without(given, "deepseek-free"), "kilo-free"), "gemini-web");
            var routed := if cfg.modelIds.Some? then Put(kept, PHOENIX, SeededRoute(cfg, cfg.modelIds.value)) else Without(kept, PHOENIX);
            && Labelled(routed, "opencode-free", "OpenCode No-Auth") == Labelled(given, "opencode-free", "OpenCode No-Auth")
            && Labelled(routed, "perplexity-free", "Perplexity Free (local)")
               == Labelled(given, "perplexity-free", "Perplexity Free (local)")
  {
    var given := ProvidersOf(s);
    var one := Without(given, "deepseek-free");
    var two := Without(one, "kilo-free");
    var kept := Without(two, "gemini-web");
    forall key | key == "opencode-free" || key == "perplexity-free"
      ensures Lookup(kept, key) == Lookup(given, key)
      ensures Lookup(Without(kept, PHOENIX), key) == Lookup(given, key)
      ensures cfg.modelIds.Some? ==> Lookup(Put(kept, PHOENIX, SeededRoute(cfg, cfg.modelIds.value)), key) == Lookup(given, key)
    {
      WithoutLookup(given, "deepseek-free", key);
      WithoutLookup(one, "kilo-free", key);
      WithoutLookup(two, "gemini-web", key);
      WithoutLookup(kept, PHOENIX, key);
      if cfg.modelIds.Some? {
        PutLookup(kept, PHOENIX, SeededRoute(cfg, cfg.modelIds.value), key);
      }
    }
    hide Without, Put, SeededRoute, Lookup;
  }
}
