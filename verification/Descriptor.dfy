/**
Registry descriptors of the strict exact-list lane (apps/shell/src/main/model-refresher.ts and
reasoning-policy.ts): what a refresh writes for one model id from gateway metadata, from the
descriptor already on disk and from the shipped tables.
*/
module ModelDescriptor {
  import opened Common

  const MAX_SAFE_INTEGER := 9_007_199_254_740_991

  datatype Level = Minimal | Low | Medium | High | Xhigh | Max

  /** `false`, or an object `{ off: null, ... }` with these levels in this order. */
  datatype Efforts = NoReasoning | Levels(levels: seq<Level>)

  datatype Listed = Listed(
    id: string,
    contextWindow: Option<int>,
    maxOutputTokens: Option<int>,
    reasoning: Option<bool>,
    efforts: Option<Efforts>,
    defaultEffort: Option<Level>)

  datatype Descriptor = Descriptor(
    id: string,
    name: Option<string>,
    contextWindow: Option<int>,
    outputMaxTokens: Option<int>,
    efforts: Efforts,
    defaultEffort: Option<Level>,
    compat: bool,
    hidden: bool)   // `selectable: false` is present

  /** The same fields as a file may hold them: numbers and names nobody has checked. */
  datatype RecordedEfforts = Missing | False | Keys(keys: seq<string>)

  datatype Recorded = Recorded(
    contextWindow: Option<int>,
    outputMaxTokens: Option<int>,
    efforts: RecordedEfforts,
    defaultEffort: Option<string>)

  /** Context windows reviewed per model id, and conservative caps for ids without an identity. */
  datatype Tables = Tables(reviewed: map<string, int>, capped: map<string, int>)

  predicate PositiveSafe(n: int) {
    0 < n <= MAX_SAFE_INTEGER
  }

  ghost predicate ValidTables(t: Tables) {
    (forall id :: id in t.reviewed ==> PositiveSafe(t.reviewed[id])) && (forall id :: id in t.capped ==> PositiveSafe(t.capped[id]))
  }

  // ---- name policies ----

  function Lower(s: string): string {
    seq(|s|, i requires 0 <= i < |s| => if 'A' <= s[i] <= 'Z' then s[i] + ('a' - 'A') else s[i])
  }

  /** `^prefix` followed by one of `next` or the end. */
  predicate StartsAs(id: string, prefix: string, next: string) {
    prefix <= Lower(id) && (|id| == |prefix| || id[|prefix|] in next)
  }

  predicate IsDeepSeek(id: string) {
    StartsAs(id, "deepseek", "-")
  }

  predicate IsDeepSeekV4(id: string) {
    StartsAs(id, "deepseek-v4", ".-")
  }

  predicate IsMimo(id: string) {
    StartsAs(id, "mimo", "-")
  }

  predicate IsThinkingCapable(id: string) {
    "qwen" <= Lower(id)
    && exists k :: 4 <= k <= |id| - 5 && ThinkAt(id, k)
  }

  /** "think" at k, with no line terminator between it and "qwen". */
  predicate ThinkAt(id: string, k: int)
    requires 4 <= k <= |id| - 5
  {
    Lower(id)[k..k + 5] == "think" && forall j :: 4 <= j < k ==> id[j] !in "\n\r\U{2028}\U{2029}"
  }

  /** reasoningEffortsForModelWithHint. */
  function PolicyEfforts(id: string, hint: Option<bool>): Efforts {
    if IsDeepSeek(id) then Levels([Low, High, Max])
    else if IsMimo(id) then Levels([High])
    else if IsThinkingCapable(id) then Levels([Low, High])
    else if hint == Some(true) then Levels([Low, High])
    else NoReasoning
  }

  // ---- merging and describing ----

  function Or<T>(a: Option<T>, b: Option<T>): Option<T> {
    if a.Some? then a else b
  }

  function Entry(table: map<string, int>, id: string): Option<int> {
    if id in table then Some(table[id]) else None
  }

  const UNKNOWN := Listed("", None, None, None, None, None)

  const V4_CAPABILITIES := Listed("", Some(1_048_576), Some(393_216), Some(true), Some(Levels([Low, High, Max])), None)

  /** mergeModelCapabilities; an absent cache is UNKNOWN. */
  function MergeCapabilities(t: Tables, m: Listed, cached: Listed): Listed {
    var explicitNonReasoning := m.reasoning == Some(false) || cached.reasoning == Some(false);
    var fallback := if IsDeepSeekV4(m.id) && !explicitNonReasoning then V4_CAPABILITIES else UNKNOWN;
    Listed(
      m.id,
      Or(m.contextWindow, Or(cached.contextWindow,
                             Or(Entry(t.reviewed, m.id), Or(Entry(t.capped, m.id), fallback.contextWindow)))),
      Or(m.maxOutputTokens, Or(cached.maxOutputTokens, fallback.maxOutputTokens)),
      Or(m.reasoning, Or(cached.reasoning, fallback.reasoning)),
      Or(m.efforts, Or(cached.efforts, fallback.efforts)),
      Or(m.defaultEffort, Or(cached.defaultEffort, fallback.defaultEffort)))
  }

  /** modelSettingsForModel. */
  function SettingsFor(m: Listed, hidden: bool): Descriptor {
    var efforts := if m.reasoning == Some(false) then NoReasoning
                   else if m.efforts.Some? then m.efforts.value
                   else PolicyEfforts(m.id, m.reasoning);
    var defaultEffort := if m.defaultEffort.Some? && efforts.Levels? && m.defaultEffort.value in efforts.levels
                         then m.defaultEffort else None;
    Descriptor(m.id, if m.id == "auto" then Some("Phoenix auto") else None,
               m.contextWindow, m.maxOutputTokens, efforts, defaultEffort, IsMimo(m.id), hidden)
  }

  // ---- reading a descriptor back ----

  function LevelName(l: Level): string {
    match l
    case Minimal => "minimal"
    case Low => "low"
    case Medium => "medium"
    case High => "high"
    case Xhigh => "xhigh"
    case Max => "max"
  }

  function ParseLevel(s: string): Option<Level> {
    var name := Lower(TrimEnd(TrimStart(s)));
    if name == "minimal" then Some(Minimal)
    else if name == "low" then Some(Low)
    else if name == "medium" then Some(Medium)
    else if name == "high" then Some(High)
    else if name == "xhigh" then Some(Xhigh)
    else if name == "max" then Some(Max)
    else None
  }

  /** The levels among the names, each once, in order of first appearance. */
  function ParseLevels(names: seq<string>): seq<Level> {
    if names == [] then []
    else
      var before := ParseLevels(names[..|names| - 1]);
      match ParseLevel(names[|names| - 1])
      case Some(l) => if l in before then before else before + [l]
      case None => before
  }

  function ParseEfforts(names: seq<string>): Efforts {
    var levels := ParseLevels(names);
    if levels == [] then NoReasoning else Levels(levels)
  }

  function Checked(n: Option<int>): Option<int> {
    if n.Some? && PositiveSafe(n.value) then n else None
  }

  /** The cache syncProviderModels builds from a recorded descriptor. */
  function CacheOf(id: string, previous: Option<Recorded>): Listed {
    match previous
    case None => UNKNOWN.(id := id)
    case Some(r) =>
      Listed(id, Checked(r.contextWindow), Checked(r.outputMaxTokens),
             if r.efforts.False? then Some(false) else None,
             match r.efforts
             case False => Some(NoReasoning)
             case Missing => None
             case Keys(keys) => Some(ParseEfforts(keys)),
             match r.defaultEffort
             case Some(s) => ParseLevel(s)
             case None => None)
  }

  /** What a probe said: the listing's metadata merged with the tables, and the verdict. */
  datatype Probed = Probed(model: Listed, responds: bool, toolCalling: bool)

  /** probeModels on what the listing said of the id, or nothing when the id was not listed. */
  function Probe(t: Tables, listed: Option<Listed>, responds: bool, toolCalling: bool): Option<Probed> {
    if listed.None? then None
    else Some(Probed(MergeCapabilities(t, listed.value, UNKNOWN), responds, toolCalling))
  }

  /** One element of the exact list after a refresh. */
  function Describe(t: Tables, id: string, probed: Option<Probed>, previous: Option<Recorded>): Descriptor {
    var m := if probed.Some? then probed.value.model else UNKNOWN.(id := id);
    var shown := probed.Some? && probed.value.responds && (id == "auto" || probed.value.toolCalling);
    SettingsFor(MergeCapabilities(t, m, CacheOf(id, previous)), !shown)
  }

  function Names(levels: seq<Level>): seq<string> {
    if levels == [] then [] else Names(levels[..|levels| - 1]) + [LevelName(levels[|levels| - 1])]
  }

  /** A descriptor as it lies in the file. */
  function Record(d: Descriptor): Recorded {
    Recorded(d.contextWindow, d.outputMaxTokens,
             match d.efforts
             case NoReasoning => False
             case Levels(levels) => Keys(["off"] + Names(levels)),
             match d.defaultEffort
             case None => None
             case Some(l) => Some(LevelName(l)))
  }

  // ---- the fixed point ----

  ghost predicate Distinct(levels: seq<Level>) {
    forall i, j :: 0 <= i < j < |levels| ==> levels[i] != levels[j]
  }

  ghost predicate GoodEfforts(e: Efforts) {
    e.Levels? ==> e.levels != [] && Distinct(e.levels)
  }

  /** What the listing parser can produce. */
  ghost predicate ValidListed(m: Listed) {
    && (m.contextWindow.Some? ==> PositiveSafe(m.contextWindow.value))
    && (m.maxOutputTokens.Some? ==> PositiveSafe(m.maxOutputTokens.value))
    && (m.efforts.Some? ==> GoodEfforts(m.efforts.value))
  }

  lemma LevelNamesParse(l: Level)
    ensures ParseLevel(LevelName(l)) == Some(l)
  {
    match l
    case Minimal => assert Lower("minimal") == "minimal";
    case Low => assert Lower("low") == "low";
    case Medium => assert Lower("medium") == "medium";
    case High => assert Lower("high") == "high";
    case Xhigh => assert Lower("xhigh") == "xhigh";
    case Max => assert Lower("max") == "max";
  }

  lemma OffIsNoLevel()
    ensures ParseLevel("off") == None
  {
    assert Lower("off") == "off";
  }

  lemma {:induction false} NamesParse(levels: seq<Level>)
    requires Distinct(levels)
    ensures ParseLevels(["off"] + Names(levels)) == levels
  {
    hide ParseLevel, LevelName;
    var all := ["off"] + Names(levels);
    if levels == [] {
      OffIsNoLevel();
      assert all[..0] == [];
    } else {
      var n := |levels| - 1;
      NamesParse(levels[..n]);
      LevelNamesParse(levels[n]);
      assert all[..|all| - 1] == ["off"] + Names(levels[..n]);
      assert levels == levels[..n] + [levels[n]];
    }
  }

  lemma {:induction false} ParsedLevelsAreDistinct(names: seq<string>)
    ensures Distinct(ParseLevels(names))
  {
    if names != [] {
      ParsedLevelsAreDistinct(names[..|names| - 1]);
    }
  }

  lemma CacheIsValid(id: string, previous: Option<Recorded>)
    ensures ValidListed(CacheOf(id, previous)) && CacheOf(id, previous).id == id
    ensures CacheOf(id, previous).reasoning == Some(false) ==> CacheOf(id, previous).efforts == Some(NoReasoning)
    ensures CacheOf(id, previous).reasoning != Some(true)
  {
    if previous.Some? && previous.value.efforts.Keys? {
      ParsedLevelsAreDistinct(previous.value.efforts.keys);
    }
  }

  lemma MergeIsValid(t: Tables, m: Listed, cached: Listed)
    requires ValidTables(t) && ValidListed(m) && ValidListed(cached)
    ensures ValidListed(MergeCapabilities(t, m, cached))
  {
  }

  /** A written descriptor is read back as it was. */
  lemma RecordReadsBack(d: Descriptor)
    requires GoodEfforts(d.efforts)
    requires d.contextWindow.Some? ==> PositiveSafe(d.contextWindow.value)
    requires d.outputMaxTokens.Some? ==> PositiveSafe(d.outputMaxTokens.value)
    ensures CacheOf(d.id, Some(Record(d)))
            == Listed(d.id, d.contextWindow, d.outputMaxTokens,
                      if d.efforts.NoReasoning? then Some(false) else None, Some(d.efforts), d.defaultEffort)
  {
    hide ParseLevel, LevelName;
    if d.efforts.Levels? {
      NamesParse(d.efforts.levels);
    }
    if d.defaultEffort.Some? {
      LevelNamesParse(d.defaultEffort.value);
    }
  }

  /** A probed V4 model whose descriptor could still gain the V4 capacities would already have them. */
  lemma V4CapacitiesAreSettled(
    t: Tables, id: string, listed: Option<Listed>, responds: bool, toolCalling: bool, previous: Option<Recorded>)
    requires ValidTables(t)
    requires listed.Some? ==> listed.value.id == id && ValidListed(listed.value)
    requires IsDeepSeekV4(id)
    ensures var d := Describe(t, id, Probe(t, listed, responds, toolCalling), previous);
            d.efforts.Levels? ==> d.contextWindow.Some? && d.outputMaxTokens.Some?
  {
    CacheIsValid(id, previous);
  }

  /** The descriptor is a fixed point: once produced from any metadata and any recorded descriptor, a
      refresh that does not probe the id changes nothing but hides the model. */
  lemma DescriptorIsFixed(
    t: Tables, id: string, listed: Option<Listed>, responds: bool, toolCalling: bool, previous: Option<Recorded>)
    requires ValidTables(t)
    requires listed.Some? ==> listed.value.id == id && ValidListed(listed.value)
    ensures var d := Describe(t, id, Probe(t, listed, responds, toolCalling), previous);
            Describe(t, id, None, Some(Record(d))) == d.(hidden := true)
  {
    var probed := Probe(t, listed, responds, toolCalling);
    var m := if probed.Some? then probed.value.model else UNKNOWN.(id := id);
    if listed.Some? {
      MergeIsValid(t, listed.value, UNKNOWN);
    }
    CacheIsValid(id, previous);
    MergeIsValid(t, m, CacheOf(id, previous));
    var merged := MergeCapabilities(t, m, CacheOf(id, previous));
    var d := Describe(t, id, Probe(t, listed, responds, toolCalling), previous);
    if IsDeepSeekV4(id) {
      V4CapacitiesAreSettled(t, id, listed, responds, toolCalling, previous);
    }
    RecordReadsBack(d);
    RereadingKeeps(t, d, merged);
  }

  /** Merging a read-back descriptor with no metadata gives the descriptor again. */
  lemma RereadingKeeps(t: Tables, d: Descriptor, merged: Listed)
    requires d == SettingsFor(merged, d.hidden)
    requires GoodEfforts(d.efforts)
    requires d.contextWindow.None? ==> d.id !in t.reviewed && d.id !in t.capped
    requires IsDeepSeekV4(d.id) && d.efforts.Levels? ==> d.contextWindow.Some? && d.outputMaxTokens.Some?
    ensures var cache := Listed(d.id, d.contextWindow, d.outputMaxTokens,
                                if d.efforts.NoReasoning? then Some(false) else None, Some(d.efforts), d.defaultEffort);
            SettingsFor(MergeCapabilities(t, UNKNOWN.(id := d.id), cache), true) == d.(hidden := true)
  {
  }

  /** Any number of refreshes without a probe of the id leave the descriptor as the first one did. */
  function Unprobed(t: Tables, d: Descriptor, n: nat): Descriptor {
    if n == 0 then d else Describe(t, d.id, None, Some(Record(Unprobed(t, d, n - 1))))
  }

  lemma {:induction false} DescriptorSurvivesSilence(
    t: Tables, id: string, listed: Option<Listed>, responds: bool, toolCalling: bool, previous: Option<Recorded>, n: nat)
    requires ValidTables(t) && n > 0
    requires listed.Some? ==> listed.value.id == id && ValidListed(listed.value)
    ensures var d := Describe(t, id, Probe(t, listed, responds, toolCalling), previous);
            Unprobed(t, d, n) == d.(hidden := true)
  {
    var d := Describe(t, id, Probe(t, listed, responds, toolCalling), previous);
    if n == 1 {
      DescriptorIsFixed(t, id, listed, responds, toolCalling, previous);
    } else {
      DescriptorSurvivesSilence(t, id, listed, responds, toolCalling, previous, n - 1);
      DescriptorIsFixed(t, id, listed, responds, toolCalling, previous);
      assert Record(d.(hidden := true)) == Record(d);
    }
  }

  /** The window the tables and the V4 defaults give a listing that declares none. */
  function ShippedWindow(t: Tables, listed: Listed): Option<int> {
    Or(Entry(t.reviewed, listed.id),
       Or(Entry(t.capped, listed.id),
          if IsDeepSeekV4(listed.id) && listed.reasoning != Some(false) then V4_CAPABILITIES.contextWindow else None))
  }

  /** The silence matters: a probe of the id merges the tables before the recorded descriptor is
      consulted. A recorded window stays exactly when the id is not listed, or the listing declares
      that window, or it declares none and what is shipped for the id is none or the same. */
  lemma BareListingForgetsTheRecordedWindow(
    t: Tables, id: string, listed: Option<Listed>, responds: bool, toolCalling: bool, previous: Recorded, w: int)
    requires previous.contextWindow == Some(w) && PositiveSafe(w)
    requires listed.Some? ==> listed.value.id == id
    ensures Describe(t, id, Probe(t, listed, responds, toolCalling), Some(previous)).contextWindow == Some(w)
            <==> || listed.None?
                 || listed.value.contextWindow == Some(w)
                 || (listed.value.contextWindow.None?
                     && (ShippedWindow(t, listed.value).None? || ShippedWindow(t, listed.value) == Some(w)))
  {
    hide IsDeepSeekV4, ParseEfforts, PolicyEfforts;
  }

  // ---- what a descriptor may advertise ----

  /** Neither the listing nor the recorded descriptor says which efforts the model takes. */
  predicate Undeclared(listed: Option<Listed>, previous: Option<Recorded>) {
    (listed.None? || listed.value.efforts.None?) && (previous.None? || previous.value.efforts.Missing?)
  }

  /** A default effort is always one of the advertised ones; a model declared not to reason advertises
      none. With nothing declared, the top level is for DeepSeek ids alone, a MiMo id has one level,
      and any level at all needs a known name or a gateway that says the model reasons. */
  lemma EffortsAreJustified(
    t: Tables, id: string, listed: Option<Listed>, responds: bool, toolCalling: bool, previous: Option<Recorded>)
    requires listed.Some? ==> listed.value.id == id
    ensures var d := Describe(t, id, Probe(t, listed, responds, toolCalling), previous);
            && (d.defaultEffort.Some? ==> d.efforts.Levels? && d.defaultEffort.value in d.efforts.levels)
            && (listed.Some? && listed.value.reasoning == Some(false) ==> d.efforts == NoReasoning)
            && (listed.None? && previous.Some? && previous.value.efforts.False? ==> d.efforts == NoReasoning)
            && (Undeclared(listed, previous) && d.efforts.Levels? ==>
                  && (Max in d.efforts.levels ==> IsDeepSeek(id))
                  && (IsMimo(id) ==> d.efforts.levels == [High])
                  && (IsDeepSeek(id) || IsMimo(id) || IsThinkingCapable(id)
                      || (listed.Some? && listed.value.reasoning == Some(true))))
            && (d.compat <==> IsMimo(id))
  {
    hide IsThinkingCapable, ParseLevel, ParseEfforts;
    V4IsDeepSeek(id);
    MimoIsNoDeepSeek(id);
  }

  lemma V4IsDeepSeek(id: string)
    ensures IsDeepSeekV4(id) ==> IsDeepSeek(id)
  {
    if IsDeepSeekV4(id) {
      var low := Lower(id);
      assert "deepseek-v4"[..8] == "deepseek";
      assert low[..8] == low[..11][..8];
      assert low[8] == low[..11][8] == '-';
    }
  }

  lemma MimoIsNoDeepSeek(id: string)
    ensures !(IsMimo(id) && IsDeepSeek(id))
  {
    if IsMimo(id) {
      assert Lower(id)[0] == "mimo"[0];
    }
  }

  // ---- which source a field comes from ----

  /** The first of these that is given. */
  ghost function FirstGiven<T>(options: seq<Option<T>>): Option<T> {
    if options == [] then None else if options[0].Some? then options[0] else FirstGiven(options[1..])
  }

  lemma FirstCons<T>(a: Option<T>, rest: seq<Option<T>>)
    ensures FirstGiven([a] + rest) == if a.Some? then a else FirstGiven(rest)
  {
    assert ([a] + rest)[1..] == rest;
  }

  lemma FirstOfThree<T>(a: Option<T>, b: Option<T>, c: Option<T>)
    ensures FirstGiven([a, b, c]) == if a.Some? then a else if b.Some? then b else c
  {
    assert [a, b, c] == [a] + [b, c] && [b, c] == [b] + [c] && [c] == [c] + [];
    FirstCons(a, [b, c]);
    FirstCons(b, [c]);
    FirstCons(c, []);
  }

  lemma FirstOfFour<T>(a: Option<T>, b: Option<T>, c: Option<T>, d: Option<T>)
    ensures FirstGiven([a, b, c, d]) == if a.Some? then a else if b.Some? then b else if c.Some? then c else d
  {
    assert [a, b, c, d] == [a] + [b, c, d];
    FirstCons(a, [b, c, d]);
    FirstOfThree(b, c, d);
  }

  lemma FirstOfEight<T>(a: Option<T>, b: Option<T>, c: Option<T>, d: Option<T>,
                        e: Option<T>, f: Option<T>, g: Option<T>, h: Option<T>)
    ensures FirstGiven([a, b, c, d, e, f, g, h])
            == if a.Some? then a else if b.Some? then b else if c.Some? then c else if d.Some? then d
               else FirstGiven([e, f, g, h])
  {
    hide FirstGiven;
    var last := [e, f, g, h];
    assert [a, b, c, d, e, f, g, h] == [a] + ([b] + ([c] + ([d] + last)));
    FirstCons(a, [b] + ([c] + ([d] + last)));
    FirstCons(b, [c] + ([d] + last));
    FirstCons(c, [d] + last);
    FirstCons(d, last);
  }

  function When<T>(b: bool, value: T): Option<T> {
    if b then Some(value) else None
  }

  /** What the probe said of the id, and what the file recorded of it, where they said nothing included. */
  function Said(listed: Option<Listed>): Listed {
    if listed.Some? then listed.value else UNKNOWN
  }

  function Written(previous: Option<Recorded>): Recorded {
    if previous.Some? then previous.value else Recorded(None, None, Missing, None)
  }

  /** Each field comes from the first source that has it: what the listing said; for an id that was listed,
      the shipped tables and the V4 defaults, before the record is consulted; the record, as far as it is
      well-formed; and the tables and defaults again. The defaults are for DeepSeek V4 ids that nobody
      declared not to reason. */
  lemma WindowByPrecedence(
    t: Tables, id: string, listed: Option<Listed>, responds: bool, toolCalling: bool, previous: Option<Recorded>)
    requires listed.Some? ==> listed.value.id == id
    ensures var d := Describe(t, id, Probe(t, listed, responds, toolCalling), previous);
            var said, written := Said(listed), Written(previous);
            var first := listed.Some? && IsDeepSeekV4(id) && said.reasoning != Some(false);
            var last := IsDeepSeekV4(id) && said.reasoning != Some(false) && !written.efforts.False?;
            && d.id == id
            && d.contextWindow == FirstGiven([
                 said.contextWindow,
                 if listed.Some? then Entry(t.reviewed, id) else None,
                 if listed.Some? then Entry(t.capped, id) else None,
                 When(first, 1_048_576),
                 Checked(written.contextWindow), Entry(t.reviewed, id), Entry(t.capped, id), When(last, 1_048_576)])
  {
    hide IsDeepSeekV4, PolicyEfforts, ParseEfforts, ParseLevel, FirstGiven;
    var said, written := Said(listed), Written(previous);
    var first := listed.Some? && IsDeepSeekV4(id) && said.reasoning != Some(false);
    var last := IsDeepSeekV4(id) && said.reasoning != Some(false) && !written.efforts.False?;
    FirstOfEight(
      said.contextWindow,
      if listed.Some? then Entry(t.reviewed, id) else None,
      if listed.Some? then Entry(t.capped, id) else None,
      When(first, 1_048_576),
      Checked(written.contextWindow), Entry(t.reviewed, id), Entry(t.capped, id), When(last, 1_048_576));
    FirstOfFour(Checked(written.contextWindow), Entry(t.reviewed, id), Entry(t.capped, id), When(last, 1_048_576));
  }

  lemma OutputByPrecedence(
    t: Tables, id: string, listed: Option<Listed>, responds: bool, toolCalling: bool, previous: Option<Recorded>)
    requires listed.Some? ==> listed.value.id == id
    ensures var d := Describe(t, id, Probe(t, listed, responds, toolCalling), previous);
            var said, written := Said(listed), Written(previous);
            var first := listed.Some? && IsDeepSeekV4(id) && said.reasoning != Some(false);
            var last := IsDeepSeekV4(id) && said.reasoning != Some(false) && !written.efforts.False?;
            && d.outputMaxTokens == FirstGiven([
                 said.maxOutputTokens, When(first, 393_216), Checked(written.outputMaxTokens), When(last, 393_216)])
            && d.name == When(id == "auto", "Phoenix auto")
  {
    hide IsDeepSeekV4, PolicyEfforts, ParseEfforts, ParseLevel, FirstGiven;
    var said, written := Said(listed), Written(previous);
    var first := listed.Some? && IsDeepSeekV4(id) && said.reasoning != Some(false);
    var last := IsDeepSeekV4(id) && said.reasoning != Some(false) && !written.efforts.False?;
    FirstOfFour(said.maxOutputTokens, When(first, 393_216), Checked(written.outputMaxTokens), When(last, 393_216));
  }

  /** The efforts a file recorded, if it recorded any. */
  function WrittenEfforts(r: RecordedEfforts): Option<Efforts> {
    match r
    case Missing => None
    case False => Some(NoReasoning)
    case Keys(keys) => Some(ParseEfforts(keys))
  }

  lemma ReasoningByPrecedence(
    t: Tables, id: string, listed: Option<Listed>, responds: bool, toolCalling: bool, previous: Option<Recorded>)
    requires listed.Some? ==> listed.value.id == id
    ensures var d := Describe(t, id, Probe(t, listed, responds, toolCalling), previous);
            var said, written := Said(listed), Written(previous);
            var first := listed.Some? && IsDeepSeekV4(id) && said.reasoning != Some(false);
            var last := IsDeepSeekV4(id) && said.reasoning != Some(false) && !written.efforts.False?;
            var reasoning := FirstGiven([said.reasoning, When(first, true), When(written.efforts.False?, false), When(last, true)]);
            var declared := FirstGiven([said.efforts, When(first, Levels([Low, High, Max])),
                                        WrittenEfforts(written.efforts), When(last, Levels([Low, High, Max]))]);
            var level := FirstGiven([
              said.defaultEffort, if written.defaultEffort.Some? then ParseLevel(written.defaultEffort.value) else None, None]);
            && d.efforts == (if reasoning == Some(false) then NoReasoning
                             else if declared.Some? then declared.value
                             else PolicyEfforts(id, reasoning))
            && d.defaultEffort == (if level.Some? && d.efforts.Levels? && level.value in d.efforts.levels then level else None)
  {
    hide IsDeepSeekV4, PolicyEfforts, ParseEfforts, ParseLevel, FirstGiven;
    var said, written := Said(listed), Written(previous);
    var first := listed.Some? && IsDeepSeekV4(id) && said.reasoning != Some(false);
    var last := IsDeepSeekV4(id) && said.reasoning != Some(false) && !written.efforts.False?;
    FirstOfFour(said.reasoning, When(first, true), When(written.efforts.False?, false), When(last, true));
    FirstOfFour(said.efforts, When(first, Levels([Low, High, Max])),
                WrittenEfforts(written.efforts), When(last, Levels([Low, High, Max])));
    FirstOfThree(said.defaultEffort, if written.defaultEffort.Some? then ParseLevel(written.defaultEffort.value) else None, None);
  }

  /** A recorded number counts when JavaScript holds it as a positive integer without rounding. */
  lemma CheckedExactly(n: int)
    ensures Checked(Some(n)) == When(1 <= n <= 0x1F_FFFF_FFFF_FFFF, n) && Checked(None) == None
  {
  }

  // ---- names, letter by letter ----

  /** Only the ASCII capitals change, each to its own small letter. */
  lemma LowerLetterByLetter(s: string, i: nat)
    requires i < |s|
    ensures |Lower(s)| == |s|
    ensures Lower(s)[i] as int == s[i] as int + if 65 <= s[i] as int <= 90 then 32 else 0
  {
  }

  /** A family of ids is its name in any case, alone or with a separator and more. */
  lemma FamiliesByName(id: string)
    ensures IsDeepSeek(id) <==> Lower(id) == "deepseek" || "deepseek-" <= Lower(id)
    ensures IsDeepSeekV4(id) <==> Lower(id) == "deepseek-v4" || "deepseek-v4." <= Lower(id) || "deepseek-v4-" <= Lower(id)
    ensures IsMimo(id) <==> Lower(id) == "mimo" || "mimo-" <= Lower(id)
  {
    StartsWithName(id, "deepseek", "-");
    StartsWithName(id, "deepseek-v4", ".-");
    StartsWithName(id, "mimo", "-");
    assert "deepseek" + ['-'] == "deepseek-" && "mimo" + ['-'] == "mimo-";
    assert "deepseek-v4" + ['-'] == "deepseek-v4-" && "deepseek-v4" + ['.'] == "deepseek-v4.";
    hide StartsAs, Lower;
  }

  lemma StartsWithName(id: string, prefix: string, next: string)
    requires next == "-" || next == ".-"
    ensures StartsAs(id, prefix, next) <==>
              Lower(id) == prefix || prefix + ['-'] <= Lower(id) || ('.' in next && prefix + ['.'] <= Lower(id))
  {
    var low := Lower(id);
    if |id| > |prefix| {
      LowerLetterByLetter(id, |prefix|);
      assert prefix + ['-'] <= low <==> prefix <= low && low[|prefix|] == '-';
      assert prefix + ['.'] <= low <==> prefix <= low && low[|prefix|] == '.';
      assert id[|prefix|] == '-' <==> low[|prefix|] == '-';
      assert id[|prefix|] == '.' <==> low[|prefix|] == '.';
    }
  }

  predicate OneLine(s: string) {
    forall i :: 0 <= i < |s| ==> s[i] !in "\n\r\U{2028}\U{2029}"
  }

  lemma LowerKeepsLines(id: string, k: int)
    requires 4 <= k <= |id|
    ensures OneLine(Lower(id)[4..k]) <==> forall j :: 4 <= j < k ==> id[j] !in "\n\r\U{2028}\U{2029}"
  {
    var low := Lower(id);
    forall j | 4 <= j < k
      ensures low[4..k][j - 4] in "\n\r\U{2028}\U{2029}" <==> id[j] in "\n\r\U{2028}\U{2029}"
    {
      LowerLetterByLetter(id, j);
    }
  }

  /** And a thinking Qwen is `qwen`, anything on the same line, and `think`. */
  lemma ThinkingByName(id: string)
    ensures IsThinkingCapable(id) <==>
              exists mid, rest :: Lower(id) == "qwen" + mid + "think" + rest && OneLine(mid)
  {
    hide OneLine, Lower;
    var low := Lower(id);
    assert |low| == |id| by {
      LowerLength(id);
    }
    if IsThinkingCapable(id) {
      var k :| 4 <= k <= |id| - 5 && ThinkAt(id, k);
      LowerKeepsLines(id, k);
      assert low == low[..4] + low[4..k] + low[k..k + 5] + low[k + 5..];
      assert low[..4] == "qwen";
    }
    forall mid, rest | low == "qwen" + mid + "think" + rest && OneLine(mid)
      ensures IsThinkingCapable(id)
    {
      var k := 4 + |mid|;
      assert low[4..k] == mid && low[k..k + 5] == "think";
      LowerKeepsLines(id, k);
      assert ThinkAt(id, k);
    }
  }

  lemma LowerLength(s: string)
    ensures |Lower(s)| == |s|
  {
  }

  /** A level is read from its name, in any case and with blanks around it, and from nothing else. */
  lemma LevelsInWords(s: string)
    ensures var word := Lower(TrimEnd(TrimStart(s)));
            && (ParseLevel(s) == Some(Minimal) <==> word == "minimal") && (ParseLevel(s) == Some(Low) <==> word == "low")
            && (ParseLevel(s) == Some(Medium) <==> word == "medium") && (ParseLevel(s) == Some(High) <==> word == "high")
            && (ParseLevel(s) == Some(Xhigh) <==> word == "xhigh") && (ParseLevel(s) == Some(Max) <==> word == "max")
  {
  }

  /** The policy by name: the first family an id belongs to decides, and outside them the gateway's hint. */
  lemma PolicyByName(id: string, hint: Option<bool>)
    ensures var low := Lower(id);
            PolicyEfforts(id, hint)
            == if low == "deepseek" || "deepseek-" <= low then Levels([Low, High, Max])
               else if low == "mimo" || "mimo-" <= low then Levels([High])
               else if IsThinkingCapable(id) || hint == Some(true) then Levels([Low, High])
               else NoReasoning
  {
    FamiliesByName(id);
    hide IsDeepSeek, IsMimo, Lower;
  }

  // ---- the shipped tables ----

  const SHIPPED := Tables(
    map["kilo/minimax/minimax-m3.1-flash:free" := 1_000_000,
        "kilo/poolside/laguna-s-2.1:free" := 1_000_000,
        "kilo/dots-studio/dots-3-note-preview:free" := 512_000,
        "ovh/Qwen3.5-397B-A17B" := 262_144,
        "ovh/Qwen3.6-27B" := 262_144,
        "ovh/Qwen3.8-27B" := 262_144,
        "ovh/Qwen3.5-9B" := 262_144,
        "ovh/Qwen3-Coder-30B-A3B-Instruct" := 262_144,
        "ovh/gpt-oss-120b" := 131_072,
        "ovh/gpt-oss-20b" := 131_072,
        "llm7/gpt-oss:20b" := 131_072,
        "pollinations/openai" := 131_072,
        "pollinations/openai-fast" := 131_072,
        "pollinations/gpt-oss" := 131_072,
        "ovh/Meta-Llama-3_3-70B-Instruct" := 131_072,
        "ovh/Qwen2.5-VL-72B-Instruct" := 128_000,
        "ovh/Mistral-Small-3.2-24B-Instruct-2506" := 131_072,
        "ovh/Mistral-Nemo-Instruct-2407" := 131_072,
        "llm7/codestral-latest" := 131_072,
        "ovh/Mistral-7B-Instruct-v0.3" := 32_768],
    map["auto" := 32_768,
        "llm7/default" := 32_768,
        "llm7/fast" := 32_768,
        "pollinations/ovh-reasoning" := 32_768,
        "freeai/qwen3-coder" := 32_768,
        "freeai/qwen-coder" := 32_768,
        "freeai/qwen-vl" := 32_768,
        "freeai/qwen7b" := 32_768,
        "freeai/qwen25-vl" := 32_768,
        "freeai/deepseek-r1" := 32_768,
        "freeai/mistral" := 32_768,
        "freeai/qwen3-8b" := 32_768])

  lemma ShippedTablesAreValid()
    ensures ValidTables(SHIPPED)
  {
  }
}
