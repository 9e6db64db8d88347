/**
The next-start migration that retires a removed runtime (apps/shell/src/main/retired-runtime.ts), as a
machine that can be cut off after any change it makes to the disk and started again.
*/
module RetiredRuntime {
  import opened Common

  const RETIRED_PROVIDER := "freecode-omniroute"
  const RETIRED_MODEL := "auto/coding:free"
  const FREE := "deepseek-free"
  const RECEIPT := ".freecode-verified.json"

  // ---- what lies on disk ----

  datatype Route = Route(baseURL: string, models: Option<seq<Option<string>>>, rest: int)

  datatype Choice = Choice(provider: Option<string>, model: Option<string>, rest: int)

  datatype Settings = Settings(routes: map<string, Route>, selected: Option<Choice>, rest: int)

  /** Malformed: the YAML does not parse or is no mapping. */
  datatype SettingsFile = Absent | Malformed | Mapping(settings: Settings)

  datatype Lease = Lease(previous: Option<Choice>, given: Option<Choice>)

  datatype Catalog = Catalog(providers: map<string, int>, rest: int)

  datatype Receipt = Receipt(version: string, sha256: string)

  /** A directory with everything below it by path; a file is a receipt when it parses as one. */
  datatype Folder = Missing | Link | Tree(files: map<string, Option<Receipt>>)

  datatype Temp = SettingsTemp | CatalogTemp | PendingTemp

  /** JSON files are what json() makes of them: None when missing or unreadable. */
  datatype Disk = Disk(
    settings: SettingsFile,
    lease: Option<Lease>,
    catalog: Option<Catalog>,
    cache: Folder,
    data: Folder,
    pending: Option<int>,   // its schemaVersion
    temps: set<Temp>)

  // ---- decisions ----

  predicate Digit(c: char) {
    '0' <= c <= '9'
  }

  predicate HexDigit(c: char) {
    Digit(c) || 'a' <= c <= 'f'
  }

  /** `^http:\/\/127\.0\.0\.1:\d+\/v1\/?$` */
  predicate LoopbackRoute(url: string) {
    var body := if url != "" && url[|url| - 1] == '/' then url[..|url| - 1] else url;
    && |body| > 20 && body[..17] == "http://127.0.0.1:" && body[|body| - 3..] == "/v1"
    && forall i :: 17 <= i < |body| - 3 ==> Digit(body[i])
  }

  predicate OwnedLease(lease: Option<Lease>) {
    && lease.Some? && lease.value.previous.Some? && lease.value.given.Some?
    && lease.value.previous.value.provider == Some(FREE) && lease.value.previous.value.model.Some?
    && Retired(lease.value.given)
  }

  predicate Retired(choice: Option<Choice>) {
    choice.Some? && choice.value.provider == Some(RETIRED_PROVIDER) && choice.value.model == Some(RETIRED_MODEL)
  }

  predicate OwnedRoute(s: Settings) {
    && RETIRED_PROVIDER in s.routes
    && LoopbackRoute(s.routes[RETIRED_PROVIDER].baseURL)
    && s.routes[RETIRED_PROVIDER].models.Some?
    && forall i :: 0 <= i < |s.routes[RETIRED_PROVIDER].models.value| ==> s.routes[RETIRED_PROVIDER].models.value[i] == Some(RETIRED_MODEL)
  }

  function FirstId(models: seq<Option<string>>): Option<string> {
    if models == [] then None else if models[0].Some? then models[0] else FirstId(models[1..])
  }

  /** The choice that takes the place of the retired one. */
  function Replacement(routes: map<string, Route>, lease: Option<Lease>): Option<Choice> {
    if OwnedLease(lease) then lease.value.previous
    else if FREE in routes && routes[FREE].models.Some? && FirstId(routes[FREE].models.value).Some?
    then Some(Choice(Some(FREE), FirstId(routes[FREE].models.value), 0))
    else None
  }

  function EditSettings(s: Settings, lease: Option<Lease>): Settings {
    var routes := if OwnedRoute(s) then s.routes - {RETIRED_PROVIDER} else s.routes;
    Settings(routes,
             if (OwnedRoute(s) || OwnedLease(lease)) && Retired(s.selected) then Replacement(routes, lease) else s.selected,
             s.rest)
  }

  function EditCatalog(c: Catalog): Catalog {
    c.(providers := c.providers - {RETIRED_PROVIDER})
  }

  predicate Verified(receipt: Option<Receipt>) {
    && receipt.Some? && receipt.value.version == "3.8.51" && |receipt.value.sha256| == 64
    && forall i :: 0 <= i < 64 ==> HexDigit(receipt.value.sha256[i])
  }

  function ReceiptIn(cache: Folder): Option<Receipt> {
    if cache.Tree? && RECEIPT in cache.files then cache.files[RECEIPT] else None
  }

  /** The caches may be deleted. */
  predicate Authorised(d: Disk) {
    Verified(ReceiptIn(d.cache)) || d.pending == Some(1)
  }

  predicate Linked(d: Disk) {
    d.cache.Link? || d.data.Link?
  }

  predicate SettingsSettled(d: Disk) {
    d.settings.Mapping? ==> EditSettings(d.settings.settings, d.lease) == d.settings.settings
  }

  predicate CatalogSettled(d: Disk) {
    d.catalog.Some? ==> RETIRED_PROVIDER !in d.catalog.value.providers
  }

  // ---- one uninterrupted run ----

  datatype Outcome = Outcome(disk: Disk, refused: bool)

  function AfterSettings(d: Disk): Disk {
    if SettingsSettled(d) then d
    else d.(settings := Mapping(EditSettings(d.settings.settings, d.lease)), temps := d.temps - {SettingsTemp})
  }

  function AfterLease(d: Disk): Disk {
    if OwnedLease(d.lease) then d.(lease := None) else d
  }

  function AfterCatalog(d: Disk): Disk {
    if CatalogSettled(d) then d
    else d.(catalog := Some(EditCatalog(d.catalog.value)), temps := d.temps - {CatalogTemp})
  }

  function AfterCaches(d: Disk): Outcome {
    if Linked(d) then Outcome(d, true)
    else if !Authorised(d) then Outcome(d, false)
    else Outcome(d.(cache := Missing, data := Missing, pending := None, temps := d.temps - {PendingTemp}), false)
  }

  /** retireRemovedRuntime without interruption. */
  function Retire(d: Disk): Outcome {
    if d.settings.Malformed? then Outcome(d, true)
    else AfterCaches(AfterCatalog(AfterLease(AfterSettings(d))))
  }

  // ---- the run, one change of the disk at a time ----

  /** Where a run stands, with the values it has read. */
  datatype Pc =
    | Start
    | RenameSettings(edited: Settings, owned: bool)
    | DropLease(owned: bool)
    | LookAtCatalog
    | RenameCatalog(catalog: Catalog)
    | LookAtCaches
    | RenamePending
    | RemoveCache
    | RemoveData
    | RemovePending
    | Done
    | Refused

  datatype Machine = Machine(disk: Disk, pc: Pc)

  /** Advance makes the next change; a recursive delete removes any of the files that are left. An
      interruption, a power cut or an exception, loses where the run stood and what it had read. */
  datatype Event = Advance(pick: string) | Interrupt

  function RemoveOne(folder: Folder, pick: string): Folder {
    if !folder.Tree? then Missing
    else if folder.files == map[] then Missing
    else folder.(files := folder.files - {pick})
  }

  function Advanced(m: Machine, pick: string): Machine {
    var d := m.disk;
    match m.pc
    case Start =>
      if d.settings.Malformed? then m.(pc := Refused)
      else if SettingsSettled(d) then m.(pc := DropLease(OwnedLease(d.lease)))
      else Machine(d.(temps := d.temps + {SettingsTemp}),
                   RenameSettings(EditSettings(d.settings.settings, d.lease), OwnedLease(d.lease)))
    case RenameSettings(edited, owned) =>
      Machine(d.(settings := Mapping(edited), temps := d.temps - {SettingsTemp}), DropLease(owned))
    case DropLease(owned) =>
      Machine(if owned then d.(lease := None) else d, LookAtCatalog)
    case LookAtCatalog =>
      if CatalogSettled(d) then m.(pc := LookAtCaches)
      else Machine(d.(temps := d.temps + {CatalogTemp}), RenameCatalog(EditCatalog(d.catalog.value)))
    case RenameCatalog(catalog) =>
      Machine(d.(catalog := Some(catalog), temps := d.temps - {CatalogTemp}), LookAtCaches)
    case LookAtCaches =>
      if Linked(d) then m.(pc := Refused)
      else if !Authorised(d) then m.(pc := Done)
      else Machine(d.(temps := d.temps + {PendingTemp}), RenamePending)
    case RenamePending =>
      Machine(d.(pending := Some(1), temps := d.temps - {PendingTemp}), RemoveCache)
    case RemoveCache =>
      if d.cache.Missing? then m.(pc := RemoveData) else m.(disk := d.(cache := RemoveOne(d.cache, pick)))
    case RemoveData =>
      if d.data.Missing? then m.(pc := RemovePending) else m.(disk := d.(data := RemoveOne(d.data, pick)))
    case RemovePending =>
      Machine(d.(pending := None), Done)
    case Done => m
    case Refused => m
  }

  function Step(m: Machine, e: Event): Machine {
    match e
    case Advance(pick) => Advanced(m, pick)
    case Interrupt => m.(pc := Start)
  }

  function Run(d: Disk, events: seq<Event>): Machine {
    if events == [] then Machine(d, Start) else Step(Run(d, events[..|events| - 1]), events[|events| - 1])
  }

  // ---- what holds where ----

  ghost predicate Settled(d: Disk) {
    !d.settings.Malformed? && SettingsSettled(d) && !OwnedLease(d.lease)
  }

  ghost predicate Tidy(d: Disk) {
    Settled(d) && CatalogSettled(d)
  }

  ghost predicate Deleting(d: Disk) {
    Tidy(d) && !Linked(d) && d.pending == Some(1) && PendingTemp !in d.temps
  }

  ghost predicate Holds(m: Machine) {
    var d := m.disk;
    match m.pc
    case Start => true
    case RenameSettings(edited, owned) =>
      && d.settings.Mapping? && !SettingsSettled(d) && SettingsTemp in d.temps
      && edited == EditSettings(d.settings.settings, d.lease) && owned == OwnedLease(d.lease)
    case DropLease(owned) => !d.settings.Malformed? && SettingsSettled(d) && owned == OwnedLease(d.lease)
    case LookAtCatalog => Settled(d)
    case RenameCatalog(catalog) =>
      Settled(d) && !CatalogSettled(d) && CatalogTemp in d.temps && catalog == EditCatalog(d.catalog.value)
    case LookAtCaches => Tidy(d)
    case RenamePending => Tidy(d) && !Linked(d) && Authorised(d) && PendingTemp in d.temps
    case RemoveCache => Deleting(d)
    case RemoveData => Deleting(d) && d.cache.Missing?
    case RemovePending => Deleting(d) && d.cache.Missing? && d.data.Missing?
    case Done => Tidy(d) && !Linked(d) && !Authorised(d)
    case Refused => d.settings.Malformed? || (Tidy(d) && Linked(d))
  }

  // ---- the edits are settled once made ----

  lemma EditedSettingsAreSettled(s: Settings, lease: Option<Lease>)
    ensures EditSettings(EditSettings(s, lease), lease) == EditSettings(s, lease)
    ensures OwnedLease(lease) ==> EditSettings(EditSettings(s, lease), None) == EditSettings(s, lease)
  {
  }

  /** Without an owned lease the lease does not matter. */
  lemma SettingsSettledWithoutLease(s: Settings, lease: Option<Lease>)
    requires EditSettings(s, lease) == s
    ensures EditSettings(s, None) == s
  {
  }

  /** One change keeps what the rest of the migration relies on, and where the migration will end. */
  lemma AdvanceKeeps(m: Machine, pick: string)
    requires Holds(m)
    ensures Holds(Advanced(m, pick))
    ensures Retire(Advanced(m, pick).disk) == Retire(m.disk)
  {
    var d := m.disk;
    if d.settings.Mapping? {
      EditedSettingsAreSettled(d.settings.settings, d.lease);
      if SettingsSettled(d) {
        SettingsSettledWithoutLease(d.settings.settings, d.lease);
      }
    }
    TempsComeAndGo(d.temps, SettingsTemp);
    TempsComeAndGo(d.temps, CatalogTemp);
    TempsComeAndGo(d.temps, PendingTemp);
  }

  lemma TempsComeAndGo(temps: set<Temp>, t: Temp)
    ensures temps + {t} - {t} == temps - {t}
    ensures temps - {t} - {t} == temps - {t}
    ensures t !in temps ==> temps - {t} == temps
  {
  }

  /** However often the migration is interrupted, and whatever a recursive delete had removed by then: the
      outcome it is heading for is that of one uninterrupted run from the original disk. */
  lemma {:induction false} InterruptionsAreHarmless(d: Disk, events: seq<Event>)
    ensures Holds(Run(d, events)) && Retire(Run(d, events).disk) == Retire(d)
  {
    if events != [] {
      var e := events[|events| - 1];
      InterruptionsAreHarmless(d, events[..|events| - 1]);
      if e.Advance? {
        AdvanceKeeps(Run(d, events[..|events| - 1]), e.pick);
      }
    }
  }

  /** So the disk a finished run leaves is the same as without interruptions, and running the migration
      again leaves it as it is. */
  lemma FinishedAsUninterrupted(d: Disk, events: seq<Event>)
    requires Run(d, events).pc.Done? || Run(d, events).pc.Refused?
    ensures var m := Run(d, events);
            && Retire(d) == Outcome(m.disk, m.pc.Refused?)
            && Retire(m.disk) == Outcome(m.disk, m.pc.Refused?)
  {
    InterruptionsAreHarmless(d, events);
  }

  // ---- only what was vouched for is deleted ----

  lemma {:induction false} OnlyAuthorisedDeletes(d: Disk, events: seq<Event>)
    ensures var m := Run(d, events);
            && (Authorised(m.disk) || m.pc.RenamePending? || m.pc.RemoveCache? || m.pc.RemoveData? || m.pc.RemovePending? ==> Authorised(d))
            && (!Authorised(d) ==> m.disk.cache == d.cache && m.disk.data == d.data && m.disk.pending == d.pending)
            && (d.cache.Link? ==> m.disk.cache.Link?) && (d.data.Link? ==> m.disk.data.Link?)
            && (Linked(d) ==> m.disk.cache == d.cache && m.disk.data == d.data)
  {
    if events != [] {
      var before := events[..|events| - 1];
      OnlyAuthorisedDeletes(d, before);
      InterruptionsAreHarmless(d, before);
      if Linked(Run(d, before).disk) {
        LinkedIsRefused(Run(d, before));
      }
    }
  }

  lemma LinkedIsRefused(m: Machine)
    requires Holds(m) && Linked(m.disk)
    ensures !m.pc.RenamePending? && !m.pc.RemoveCache? && !m.pc.RemoveData? && !m.pc.RemovePending?
  {
  }

  // ---- a run ends ----

  function FilesIn(folder: Folder): nat {
    match folder
    case Missing => 0
    case Link => 1
    case Tree(files) => 1 + |files|
  }

  /** An upper bound for the changes still to come. */
  function StepsLeft(m: Machine): nat {
    FilesIn(m.disk.cache) + FilesIn(m.disk.data)
    + match m.pc
      case Start => 10
      case RenameSettings(_, _) => 9
      case DropLease(_) => 8
      case LookAtCatalog => 7
      case RenameCatalog(_) => 6
      case LookAtCaches => 5
      case RenamePending => 4
      case RemoveCache => 3
      case RemoveData => 2
      case RemovePending => 1
      case Done => 0
      case Refused => 0
  }

  /** A recursive delete picks a file that is there. */
  predicate Picks(m: Machine, pick: string) {
    && (m.pc.RemoveCache? && m.disk.cache.Tree? && m.disk.cache.files != map[] ==> pick in m.disk.cache.files)
    && (m.pc.RemoveData? && m.disk.data.Tree? && m.disk.data.files != map[] ==> pick in m.disk.data.files)
  }

  lemma RemovingShrinks(files: map<string, Option<Receipt>>, pick: string)
    requires pick in files
    ensures |files - {pick}| < |files|
  {
    assert (files - {pick}).Keys == files.Keys - {pick};
    assert |(files - {pick}).Keys| < |files.Keys|;
  }

  /** Left alone, the migration finishes. */
  lemma EveryAdvanceCounts(m: Machine, pick: string)
    requires Picks(m, pick) && !m.pc.Done? && !m.pc.Refused?
    ensures StepsLeft(Advanced(m, pick)) < StepsLeft(m)
  {
    if m.disk.cache.Tree? && pick in m.disk.cache.files {
      RemovingShrinks(m.disk.cache.files, pick);
    }
    if m.disk.data.Tree? && pick in m.disk.data.files {
      RemovingShrinks(m.disk.data.files, pick);
    }
  }

  /** From wherever an interrupted run left the disk, the next start finishes in so many steps, with the
      outcome of a run that was never interrupted. */
  lemma RestartFinishes(d: Disk, events: seq<Event>) returns (more: seq<Event>)
    ensures |more| <= 10 + FilesIn(Run(d, events).disk.cache) + FilesIn(Run(d, events).disk.data)
    ensures forall i :: 0 <= i < |more| ==> more[i].Advance?
    ensures Run(d, events + [Interrupt]) == Machine(Run(d, events).disk, Start)
    ensures var m := Run(d, events + [Interrupt] + more);
            (m.pc.Done? || m.pc.Refused?) && Retire(d) == Outcome(m.disk, m.pc.Refused?)
  {
    OneMore(d, events, Interrupt);
    more := LeftAloneItFinishes(d, events + [Interrupt]);
    FinishedAsUninterrupted(d, events + [Interrupt] + more);
  }

  lemma OneMore(d: Disk, events: seq<Event>, e: Event)
    ensures Run(d, events + [e]) == Step(Run(d, events), e)
  {
    assert (events + [e])[..|events|] == events;
  }

  lemma {:induction false} LeftAloneItFinishes(d: Disk, events: seq<Event>) returns (more: seq<Event>)
    ensures |more| <= StepsLeft(Run(d, events))
    ensures forall i :: 0 <= i < |more| ==> more[i].Advance?
    ensures var m := Run(d, events + more); m.pc.Done? || m.pc.Refused?
    decreases StepsLeft(Run(d, events))
  {
    hide Run, StepsLeft, Advanced, Picks;
    var m := Run(d, events);
    if m.pc.Done? || m.pc.Refused? {
      more := [];
      assert events + [] == events;
    } else {
      var pick := SomePick(m);
      EveryAdvanceCounts(m, pick);
      OneMore(d, events, Advance(pick));
      var rest := LeftAloneItFinishes(d, events + [Advance(pick)]);
      more := [Advance(pick)] + rest;
      assert events + more == events + [Advance(pick)] + rest;
    }
  }

  lemma SomePick(m: Machine) returns (pick: string)
    ensures Picks(m, pick)
  {
    pick := "";
    if m.pc.RemoveCache? && m.disk.cache.Tree? && m.disk.cache.files != map[] {
      pick :| pick in m.disk.cache.files;
    }
    if m.pc.RemoveData? && m.disk.data.Tree? && m.disk.data.files != map[] {
      pick :| pick in m.disk.data.files;
    }
  }

  /** One step of a recursive delete: a file goes, or the empty directory, or the link itself. */
  ghost predicate OneLess(before: Folder, after: Folder, pick: string) {
    || after == before
    || (before.Tree? && before.files != map[] && after == Tree(before.files - {pick}))
    || (after.Missing? && (before.Tree? ==> before.files == map[]))
  }

  /** The grain at which the migration can be cut off: a step changes at most one of the places it works on,
      a recursive delete takes one file at a time, and nothing is put in place that was not written beside
      it first. */
  lemma OneChangeAtATime(m: Machine, pick: string)
    requires Holds(m)
    ensures var d, e := m.disk, Advanced(m, pick).disk;
            && OneLess(d.cache, e.cache, pick) && OneLess(d.data, e.data, pick)
            && (e.settings != d.settings ==> e == d.(settings := e.settings, temps := e.temps) && SettingsTemp in d.temps)
            && (e.catalog != d.catalog ==> e == d.(catalog := e.catalog, temps := e.temps) && CatalogTemp in d.temps)
            && (e.pending != d.pending ==> e == d.(pending := e.pending, temps := e.temps) && (PendingTemp in d.temps || e.pending.None?))
            && (e.lease != d.lease ==> e == d.(lease := None))
            && (e.cache != d.cache ==> e == d.(cache := e.cache)) && (e.data != d.data ==> e == d.(data := e.data))
  {
  }

  // ---- what is edited, and to what ----

  ghost predicate AllIn(s: string, letters: string) {
    forall i :: 0 <= i < |s| ==> s[i] in letters
  }

  lemma PortOfLoopback(url: string) returns (port: string)
    requires LoopbackRoute(url)
    ensures port != "" && AllIn(port, "0123456789")
    ensures url == "http://127.0.0.1:" + port + "/v1" || url == "http://127.0.0.1:" + port + "/v1/"
  {
    var body := if url[|url| - 1] == '/' then url[..|url| - 1] else url;
    port := body[17..|body| - 3];
    forall i | 0 <= i < |port|
      ensures port[i] in "0123456789"
    {
      assert port[i] == body[17 + i] && Digit(port[i]);
      DigitsAre(port[i]);
    }
    assert body == body[..17] + port + body[|body| - 3..];
    assert body == "http://127.0.0.1:" + port + "/v1";
    assert url == body || url == body + "/";
    assert body + "/" == "http://127.0.0.1:" + port + "/v1/";
  }

  lemma LoopbackOfPort(port: string, slash: bool)
    requires port != "" && AllIn(port, "0123456789")
    ensures LoopbackRoute("http://127.0.0.1:" + port + if slash then "/v1/" else "/v1")
  {
    var body := "http://127.0.0.1:" + port + "/v1";
    var url := "http://127.0.0.1:" + port + if slash then "/v1/" else "/v1";
    assert |body| == 17 + |port| + 3 && body[..17] == "http://127.0.0.1:" && body[|body| - 3..] == "/v1";
    assert slash ==> url[|url| - 1] == '/' && url[..|url| - 1] == body;
    assert !slash ==> url == body && url[|url| - 1] == '1';
    forall i | 17 <= i < |body| - 3
      ensures Digit(body[i])
    {
      assert body[i] == port[i - 17];
      DigitsAre(body[i]);
    }
  }

  /** The routes the removed runtime wrote: the loopback address, a port, and an optional last slash. */
  lemma LoopbackRouteExactly(url: string)
    ensures LoopbackRoute(url) <==>
              exists port :: port != "" && AllIn(port, "0123456789")
                && (url == "http://127.0.0.1:" + port + "/v1" || url == "http://127.0.0.1:" + port + "/v1/")
  {
    hide LoopbackRoute, AllIn;
    if LoopbackRoute(url) {
      var port := PortOfLoopback(url);
    }
    forall port | port != "" && AllIn(port, "0123456789")
      && (url == "http://127.0.0.1:" + port + "/v1" || url == "http://127.0.0.1:" + port + "/v1/")
      ensures LoopbackRoute(url)
    {
      LoopbackOfPort(port, url == "http://127.0.0.1:" + port + "/v1/");
    }
  }

  lemma DigitsAre(c: char)
    ensures Digit(c) <==> c in "0123456789"
    ensures HexDigit(c) <==> c in "0123456789abcdef"
  {
    if Digit(c) {
      assert c == "0123456789"[c as int - '0' as int];
      assert c == "0123456789abcdef"[c as int - '0' as int];
    } else if HexDigit(c) {
      assert c == "0123456789abcdef"[c as int - 'a' as int + 10];
    }
  }

  /** Deleting needs a receipt of the one released version with a SHA-256 in lower-case hexadecimal, under
      its own name in the cache, or the marker of a deletion already begun. */
  lemma AuthorisedExactly(d: Disk)
    ensures Authorised(d) <==>
              || d.pending == Some(1)
              || (exists sha :: |sha| == 64 && AllIn(sha, "0123456789abcdef") && d.cache.Tree?
                    && ".freecode-verified.json" in d.cache.files
                    && d.cache.files[".freecode-verified.json"] == Some(Receipt("3.8.51", sha)))
  {
    if d.cache.Tree? && RECEIPT in d.cache.files && d.cache.files[RECEIPT].Some? {
      var receipt := d.cache.files[RECEIPT].value;
      forall i | 0 <= i < |receipt.sha256|
        ensures HexDigit(receipt.sha256[i]) <==> receipt.sha256[i] in "0123456789abcdef"
      {
        DigitsAre(receipt.sha256[i]);
      }
      assert |receipt.sha256| == 64 ==> (AllIn(receipt.sha256, "0123456789abcdef") <==> forall i :: 0 <= i < 64 ==> HexDigit(receipt.sha256[i]));
      assert receipt == Receipt(receipt.version, receipt.sha256);
    }
  }

  lemma {:induction false} FirstIdExactly(models: seq<Option<string>>, id: string)
    ensures FirstId(models) == Some(id) <==>
              exists i :: 0 <= i < |models| && models[i] == Some(id) && forall j :: 0 <= j < i ==> models[j] == None
    ensures FirstId(models) == None <==> forall i :: 0 <= i < |models| ==> models[i] == None
  {
    if models != [] {
      var rest := models[1..];
      FirstIdExactly(rest, id);
      if i :| 0 <= i < |models| && models[i] == Some(id) && forall j :: 0 <= j < i ==> models[j] == None {
        if i > 0 {
          assert rest[i - 1] == Some(id) && forall j :: 0 <= j < i - 1 ==> rest[j] == models[j + 1];
        }
      }
      if i :| 0 <= i < |rest| && rest[i] == Some(id) && forall j :: 0 <= j < i ==> rest[j] == None {
        assert models[i + 1] == Some(id);
        assert forall j :: 0 < j < i + 1 ==> models[j] == rest[j - 1];
      }
    }
  }

  /** The retired choice, whatever else it carries. */
  ghost predicate Chosen(choice: Option<Choice>) {
    exists rest :: choice == Some(Choice(Some("freecode-omniroute"), Some("auto/coding:free"), rest))
  }

  /** A route the removed runtime wrote: on loopback, and offering nothing but the retired model. */
  ghost predicate Ours(route: Route) {
    && LoopbackRoute(route.baseURL) && route.models.Some?
    && forall id :: id in route.models.value ==> id == Some("auto/coding:free")
  }

  /** A lease that records the choice the retired one was put in place of. */
  ghost predicate Leased(lease: Option<Lease>) {
    exists model, rest, given ::
      lease == Some(Lease(Some(Choice(Some("deepseek-free"), Some(model), rest)), given)) && Chosen(given)
  }

  lemma ChosenIsRetired(choice: Option<Choice>)
    ensures Retired(choice) <==> Chosen(choice)
  {
    if Retired(choice) {
      assert choice == Some(Choice(Some("freecode-omniroute"), Some("auto/coding:free"), choice.value.rest));
    }
  }

  lemma LeasedIsOwned(lease: Option<Lease>)
    ensures OwnedLease(lease) <==> Leased(lease)
  {
    if lease.Some? {
      ChosenIsRetired(lease.value.given);
    }
    if OwnedLease(lease) {
      var previous := lease.value.previous.value;
      assert lease == Some(Lease(Some(Choice(Some("deepseek-free"), Some(previous.model.value), previous.rest)), lease.value.given));
    }
  }

  /** What the migration does to the settings: its own route goes and every other stays; the retired choice
      goes exactly when a route or a lease says it was this runtime's doing, in favour of what the lease
      recorded, else of the first model listed for the free route, else of none; no other choice is touched. */
  lemma SettingsEditedExactly(s: Settings, lease: Option<Lease>)
    ensures var t := EditSettings(s, lease);
            var ours := "freecode-omniroute" in s.routes && Ours(s.routes["freecode-omniroute"]);
            var free := if "deepseek-free" in s.routes && s.routes["deepseek-free"].models.Some?
                        then FirstId(s.routes["deepseek-free"].models.value) else None;
            && t.rest == s.rest
            && (forall name :: name in t.routes <==> name in s.routes && !(ours && name == "freecode-omniroute"))
            && (forall name :: name in t.routes ==> t.routes[name] == s.routes[name])
            && t.selected == (if !(ours || Leased(lease)) || !Chosen(s.selected) then s.selected
                              else if Leased(lease) then lease.value.previous
                              else if free.Some? then Some(Choice(Some("deepseek-free"), free, 0)) else None)
            && (ours || Leased(lease) ==> !Chosen(t.selected))
  {
    var t := EditSettings(s, lease);
    if RETIRED_PROVIDER in s.routes {
      OursIsOwned(s);
    }
    LeasedIsOwned(lease);
    ChosenIsRetired(s.selected);
    ChosenIsRetired(t.selected);
    hide Ours, Leased, Chosen, LoopbackRoute;
  }

  lemma OursIsOwned(s: Settings)
    requires RETIRED_PROVIDER in s.routes
    ensures OwnedRoute(s) <==> Ours(s.routes[RETIRED_PROVIDER])
  {
    var route := s.routes[RETIRED_PROVIDER];
    if Ours(route) {
      assert forall i :: 0 <= i < |route.models.value| ==> route.models.value[i] in route.models.value;
    }
    if OwnedRoute(s) {
      forall id | id in route.models.value
        ensures id == Some("auto/coding:free")
      {
        var i :| 0 <= i < |route.models.value| && route.models.value[i] == id;
      }
    }
  }

  // ---- the migration itself ----

  class UserData {
    var disk: Disk

    constructor (found: Disk)
      ensures disk == found
    {
      disk := found;
    }

    method EditSettingsFile(ownedLease: bool)
      requires disk.settings.Mapping? && ownedLease == OwnedLease(disk.lease)
      modifies this
      ensures disk == AfterSettings(old(disk))
    {
      var settings := disk.settings.settings;
      var before := settings;
      var ownedRoute := OwnedRoute(settings);
      var changed := false;
      if ownedRoute {
        settings := settings.(routes := settings.routes - {RETIRED_PROVIDER});
        changed := true;
      }
      if (ownedRoute || ownedLease) && Retired(settings.selected) {
        settings := settings.(selected := Replacement(settings.routes, disk.lease));
        changed := true;
      }
      assert changed ==> settings != before;
      if changed {
        disk := disk.(temps := disk.temps + {SettingsTemp});
        disk := disk.(settings := Mapping(settings), temps := disk.temps - {SettingsTemp});
      }
    }

    /** rm with recursive and force. */
    method RemoveAll(folder: Folder) returns (left: Folder)
      ensures left == Missing
    {
      left := folder;
      while left != Missing
        invariant folder.Tree? ==> left.Missing? || left.Tree?
        decreases FilesIn(left)
      {
        if left.Tree? && left.files != map[] {
          var pick :| pick in left.files;
          RemovingShrinks(left.files, pick);
          left := RemoveOne(left, pick);
        } else {
          left := Missing;
        }
      }
    }

    method RetireRemovedRuntime() returns (refused: bool)
      modifies this
      ensures Retire(old(disk)) == Outcome(disk, refused)
    {
      var ownedLease := OwnedLease(disk.lease);
      if disk.settings.Malformed? {
        return true;
      }
      if disk.settings.Mapping? {
        EditSettingsFile(ownedLease);
      }
      if ownedLease {
        disk := disk.(lease := None);
      }
      if disk.catalog.Some? && RETIRED_PROVIDER in disk.catalog.value.providers {
        var catalog := disk.catalog.value;
        catalog := catalog.(providers := catalog.providers - {RETIRED_PROVIDER});
        disk := disk.(temps := disk.temps + {CatalogTemp});
        disk := disk.(catalog := Some(catalog), temps := disk.temps - {CatalogTemp});
      }
      if disk.cache.Link? || disk.data.Link? {
        return true;
      }
      if !Verified(ReceiptIn(disk.cache)) && disk.pending != Some(1) {
        return false;
      }
      disk := disk.(temps := disk.temps + {PendingTemp});
      disk := disk.(pending := Some(1), temps := disk.temps - {PendingTemp});
      var left := RemoveAll(disk.cache);
      disk := disk.(cache := left);
      left := RemoveAll(disk.data);
      disk := disk.(data := left);
      disk := disk.(pending := None);
      refused := false;
    }
  }
}
