/**
Promotion of a staged runtime over the installed one (apps/shell/src/main/harness-updater.ts,
promoteHarnessRuntime) and the bootstrap that relies on it (harness-bootstrap.ts).

The disk is a map from names to nodes. A `Fates` value decides, call by call, what the file
system does, so a statement for all fates covers every pattern of failures; the trace of a disk
holds every state it went through, so a statement about the trace covers every crash.
*/
module RuntimePromotion {
  import opened Common

  /** `run` stands for the process id, time stamp or random suffix in the name. */
  datatype Path =
    | LiveHarness
    | LiveManifest
    | BackupHarness(run: nat)
    | BackupManifest(run: nat)
    | StagedHarness(run: nat)
    | StagedManifest(run: nat)

  /** Debris is what an interrupted recursive removal leaves of a tree. */
  datatype Node = Tree(id: nat) | Debris | File(id: nat)

  type Files = map<Path, Node>

  datatype Fate = Works | Fails | FailsPartway | Lies

  type Fates = nat -> Fate

  type Validator = (Node, Node) -> bool

  datatype Disk = Disk(files: Files, trace: seq<Files>, calls: nat)

  // ---- the file-system interface ----

  function Move(f: Files, from: Path, to: Path): Files
    requires from in f
  {
    f[to := f[from]] - {from}
  }

  /** existsSync swallows errors: it may deny a name that is there, never the reverse. */
  function Exists(fates: Fates, d: Disk, p: Path): (bool, Disk) {
    (p in d.files && !fates(d.calls).Lies?, d.(calls := d.calls + 1))
  }

  /** A file replaces a file; nothing replaces a tree. */
  predicate Renamable(f: Files, from: Path, to: Path) {
    from in f && from != to && (to in f ==> f[from].File? && f[to].File?)
  }

  function Rename(fates: Fates, d: Disk, from: Path, to: Path): (bool, Disk) {
    if fates(d.calls).Works? && Renamable(d.files, from, to) then
      var f := Move(d.files, from, to);
      (true, Disk(f, d.trace + [f], d.calls + 1))
    else
      (false, d.(calls := d.calls + 1))
  }

  function Remove(fates: Fates, d: Disk, p: Path, recursive: bool): (bool, Disk) {
    if p !in d.files then (true, d.(calls := d.calls + 1))
    else if d.files[p].File? then
      if fates(d.calls).Works? then (true, Disk(d.files - {p}, d.trace + [d.files - {p}], d.calls + 1))
      else (false, d.(calls := d.calls + 1))
    else
      var halfway := d.files[p := Debris];
      if recursive && fates(d.calls).Works? then
        (true, Disk(d.files - {p}, d.trace + [halfway, d.files - {p}], d.calls + 1))
      else if recursive && fates(d.calls).FailsPartway? then
        (false, Disk(halfway, d.trace + [halfway], d.calls + 1))
      else
        (false, d.(calls := d.calls + 1))
  }

  predicate LivePairValid(valid: Validator, f: Files) {
    LiveHarness in f && LiveManifest in f && valid(f[LiveHarness], f[LiveManifest])
  }

  /** Validation only reads, and may fail although the pair is valid. */
  function Validate(fates: Fates, d: Disk, valid: Validator): (bool, Disk) {
    (fates(d.calls).Works? && LivePairValid(valid, d.files), d.(calls := d.calls + 1))
  }

  // ---- promotion ----

  datatype Outcome = Promoted | Rethrown | Incomplete

  datatype Progress = Progress(
    disk: Disk,
    harnessBackedUp: bool,
    manifestBackedUp: bool,
    harnessPromoted: bool,
    manifestPromoted: bool,
    failed: bool)

  /** Move a live half aside if it is there. */
  function BackUpHarness(fates: Fates, p: Progress, run: nat): Progress {
    if p.failed then p else
    var (there, d1) := Exists(fates, p.disk, LiveHarness);
    if !there then p.(disk := d1) else
    var (ok, d2) := Rename(fates, d1, LiveHarness, BackupHarness(run));
    p.(disk := d2, harnessBackedUp := ok, failed := !ok)
  }

  function BackUpManifest(fates: Fates, p: Progress, run: nat): Progress {
    if p.failed then p else
    var (there, d1) := Exists(fates, p.disk, LiveManifest);
    if !there then p.(disk := d1) else
    var (ok, d2) := Rename(fates, d1, LiveManifest, BackupManifest(run));
    p.(disk := d2, manifestBackedUp := ok, failed := !ok)
  }

  function InstallHarness(fates: Fates, p: Progress, run: nat): Progress {
    if p.failed then p else
    var (ok, d) := Rename(fates, p.disk, StagedHarness(run), LiveHarness);
    p.(disk := d, harnessPromoted := ok, failed := !ok)
  }

  function InstallManifest(fates: Fates, p: Progress, run: nat): Progress {
    if p.failed then p else
    var (ok, d) := Rename(fates, p.disk, StagedManifest(run), LiveManifest);
    p.(disk := d, manifestPromoted := ok, failed := !ok)
  }

  function ValidateLive(fates: Fates, p: Progress, valid: Validator): Progress {
    if p.failed then p else
    var (ok, d) := Validate(fates, p.disk, valid);
    p.(disk := d, failed := !ok)
  }

  /** The body of the try block. */
  function Forward(fates: Fates, d: Disk, run: nat, valid: Validator): Progress {
    var p0 := Progress(d, false, false, false, false, false);
    var p1 := BackUpHarness(fates, p0, run);
    var p2 := BackUpManifest(fates, p1, run);
    var p3 := InstallHarness(fates, p2, run);
    var p4 := InstallManifest(fates, p3, run);
    ValidateLive(fates, p4, valid)
  }

  /** One guarded removal of a promoted half: the disk, and whether an error was collected. */
  function UndoPromotion(fates: Fates, d: Disk, promoted: bool, p: Path, recursive: bool): (bool, Disk) {
    if !promoted then (true, d) else
    var (there, d1) := Exists(fates, d, p);
    if !there then (true, d1) else Remove(fates, d1, p, recursive)
  }

  function RestoreBackup(fates: Fates, d: Disk, backedUp: bool, backup: Path, live: Path): (bool, Disk) {
    if !backedUp then (true, d) else
    var (there, d1) := Exists(fates, d, backup);
    if !there then (true, d1) else Rename(fates, d1, backup, live)
  }

  function RollBack(fates: Fates, p: Progress, run: nat): (Outcome, Disk) {
    var (ok1, d1) := UndoPromotion(fates, p.disk, p.harnessPromoted, LiveHarness, true);
    var (ok2, d2) := RestoreBackup(fates, d1, p.harnessBackedUp, BackupHarness(run), LiveHarness);
    var (ok3, d3) := UndoPromotion(fates, d2, p.manifestPromoted, LiveManifest, false);
    var (ok4, d4) := RestoreBackup(fates, d3, p.manifestBackedUp, BackupManifest(run), LiveManifest);
    (if ok1 && ok2 && ok3 && ok4 then Rethrown else Incomplete, d4)
  }

  /** Dropping the backups after the commit; failures are ignored. */
  function CleanUp(fates: Fates, p: Progress, run: nat): Disk {
    var d1 := UndoPromotion(fates, p.disk, p.harnessBackedUp, BackupHarness(run), true).1;
    UndoPromotion(fates, d1, p.manifestBackedUp, BackupManifest(run), false).1
  }

  function Promote(fates: Fates, d: Disk, run: nat, valid: Validator): (Outcome, Disk) {
    var (staged, d0) := Exists(fates, d, StagedManifest(run));
    if !staged then (Rethrown, d0) else
    var p := Forward(fates, d0, run, valid);
    if p.failed then RollBack(fates, p, run) else (Promoted, CleanUp(fates, p, run))
  }

  // ---- what the promises are about ----

  /** One half of the runtime: the name it is served from, its backup name and its staged name. */
  datatype Half = Half(live: Path, backup: Path, staged: Path)

  function HarnessHalf(run: nat): Half {
    Half(LiveHarness, BackupHarness(run), StagedHarness(run))
  }

  function ManifestHalf(run: nat): Half {
    Half(LiveManifest, BackupManifest(run), StagedManifest(run))
  }

  /** Harness names hold trees, manifest names hold files, and the backup names are unused. */
  ghost predicate Fit(f: Files, run: nat) {
    && BackupHarness(run) !in f && BackupManifest(run) !in f
    && (LiveHarness in f ==> !f[LiveHarness].File?)
    && (StagedHarness(run) in f ==> !f[StagedHarness(run)].File?)
    && (LiveManifest in f ==> f[LiveManifest].File?)
    && (StagedManifest(run) in f ==> f[StagedManifest(run)].File?)
  }

  ghost predicate Holds(f: Files, p: Path, node: Node) {
    p in f && f[p] == node
  }

  ghost predicate SameAt(before: Files, f: Files, p: Path) {
    if p in before then Holds(f, p, before[p]) else p !in f
  }

  /** The old half is still there, under its live or its backup name. */
  ghost predicate Kept(before: Files, f: Files, h: Half) {
    h.live in before ==> Holds(f, h.live, before[h.live]) || Holds(f, h.backup, before[h.live])
  }

  /** Both live names are exactly as before, and neither backup is left. */
  ghost predicate AsBefore(before: Files, f: Files, run: nat) {
    && SameAt(before, f, LiveHarness) && SameAt(before, f, LiveManifest)
    && BackupHarness(run) !in f && BackupManifest(run) !in f
  }

  ghost predicate BothKept(before: Files, f: Files, run: nat) {
    Kept(before, f, HarnessHalf(run)) && Kept(before, f, ManifestHalf(run))
  }

  ghost predicate Honest(fates: Fates) {
    forall n :: !fates(n).Lies?
  }

  // ---- where a half is, given the flags ----

  ghost predicate Placed(before: Files, f: Files, h: Half, backedUp: bool, promoted: bool) {
    && (h.backup in f <==> backedUp)
    && (backedUp ==> h.live in before && Holds(f, h.backup, before[h.live]))
    && (promoted ==> h.staged in before && Holds(f, h.live, before[h.staged]))
    && (!promoted ==> if backedUp then h.live !in f else SameAt(before, f, h.live))
    && (!promoted ==> SameAt(before, f, h.staged))
  }

  /** Placed, and nothing was there when a half was promoted without a backup. */
  ghost predicate Side(before: Files, f: Files, h: Half, backedUp: bool, promoted: bool) {
    Placed(before, f, h, backedUp, promoted) && (promoted && !backedUp ==> h.live !in before)
  }

  /** The manifest half as the flags describe it, unless its check denied a file that is there. */
  ghost predicate ManifestSide(before: Files, p: Progress, run: nat) {
    Side(before, p.disk.files, ManifestHalf(run), p.manifestBackedUp, p.manifestPromoted)
  }

  ghost predicate HarnessSide(before: Files, p: Progress, run: nat) {
    Side(before, p.disk.files, HarnessHalf(run), p.harnessBackedUp, p.harnessPromoted)
  }

  ghost predicate Sides(before: Files, p: Progress, run: nat) {
    HarnessSide(before, p, run) && ManifestSide(before, p, run)
  }

  ghost predicate TraceKept(before: Files, d: Disk, run: nat) {
    forall i :: 0 <= i < |d.trace| ==> BothKept(before, d.trace[i], run)
  }

  /** The check of the live manifest sees a manifest that is there. */
  ghost predicate ManifestSeen(fates: Fates, d: Disk, run: nat) {
    LiveManifest in d.files ==>
      var p := BackUpHarness(fates, Progress(Exists(fates, d, StagedManifest(run)).1,
                                             false, false, false, false, false), run);
      p.failed || !fates(p.disk.calls).Lies?
  }

  // ---- the five states of the forward path ----

  /** What lies under the two live names: both halves of before, then one or none of them, then
      the new harness alone, then the new pair. Never a half of before beside a new one. */
  ghost predicate ForwardLive(before: Files, f: Files, run: nat) {
    || (SameAt(before, f, LiveHarness) && SameAt(before, f, LiveManifest))
    || (LiveHarness !in f && SameAt(before, f, LiveManifest))
    || (SameAt(before, f, LiveHarness) && LiveManifest !in f)
    || (LiveHarness !in f && LiveManifest !in f)
    || (StagedHarness(run) in before && Holds(f, LiveHarness, before[StagedHarness(run)]) && LiveManifest !in f)
    || (&& StagedHarness(run) in before && Holds(f, LiveHarness, before[StagedHarness(run)])
        && StagedManifest(run) in before && Holds(f, LiveManifest, before[StagedManifest(run)]))
  }

  ghost predicate TraceForward(before: Files, d: Disk, run: nat) {
    forall i :: 0 <= i < |d.trace| ==> ForwardLive(before, d.trace[i], run)
  }

  // ---- the forward path, stage by stage ----

  /** Both halves are where the flags say, and every state so far keeps the old ones. */
  ghost predicate Recoverable(before: Files, p: Progress, run: nat) {
    Fit(before, run) && Sides(before, p, run) && TraceKept(before, p.disk, run)
  }

  ghost predicate Stage(before: Files, p: Progress, run: nat) {
    Recoverable(before, p, run) && TraceForward(before, p.disk, run)
  }

  lemma BackUpHarnessStage(fates: Fates, before: Files, p: Progress, run: nat)
    requires Stage(before, p, run) && !p.failed
    requires p.disk.files == before && !p.harnessBackedUp && !p.manifestBackedUp && !p.harnessPromoted && !p.manifestPromoted
    ensures var q := BackUpHarness(fates, p, run);
            && Stage(before, q, run) && !q.harnessPromoted && !q.manifestPromoted && !q.manifestBackedUp
            && SameAt(before, q.disk.files, LiveManifest)
            && SameAt(before, q.disk.files, StagedManifest(run))
  {
  }

  lemma BackUpManifestStage(fates: Fates, before: Files, p: Progress, run: nat)
    requires Stage(before, p, run) && !p.harnessPromoted && !p.manifestPromoted && !p.manifestBackedUp
    ensures var q := BackUpManifest(fates, p, run);
            && Stage(before, q, run) && !q.harnessPromoted && !q.manifestPromoted
            && q.harnessBackedUp == p.harnessBackedUp
            && (!q.failed && (LiveManifest in p.disk.files ==> !fates(p.disk.calls).Lies?) ==>
                  LiveManifest !in q.disk.files)
  {
  }

  lemma InstallHarnessStage(fates: Fates, before: Files, p: Progress, run: nat)
    requires Stage(before, p, run) && !p.harnessPromoted && !p.manifestPromoted
    requires !p.failed ==> LiveManifest !in p.disk.files
    ensures var q := InstallHarness(fates, p, run);
            && Stage(before, q, run) && !q.manifestPromoted
            && (!q.failed ==> q.harnessPromoted && LiveManifest !in q.disk.files)
  {
  }

  lemma InstallManifestStage(fates: Fates, before: Files, p: Progress, run: nat)
    requires Stage(before, p, run) && !p.manifestPromoted
    requires !p.failed ==> p.harnessPromoted && LiveManifest !in p.disk.files
    ensures var q := InstallManifest(fates, p, run);
            && Stage(before, q, run)
            && (!q.failed ==> q.harnessPromoted && q.manifestPromoted)
  {
  }

  ghost predicate AfterForward(before: Files, p: Progress, run: nat) {
    Stage(before, p, run) && (!p.failed ==> p.harnessPromoted && p.manifestPromoted)
  }

  /** The forward path for any fates that let it see the manifest it is about to replace. */
  lemma ForwardStages(fates: Fates, d: Disk, run: nat, valid: Validator)
    requires Fit(d.files, run) && d.trace == []
    requires ManifestSeen(fates, d, run)
    ensures var p := Forward(fates, Exists(fates, d, StagedManifest(run)).1, run, valid);
            && AfterForward(d.files, p, run)
            && (!p.failed ==> LivePairValid(valid, p.disk.files))
  {
    var before, d0 := d.files, Exists(fates, d, StagedManifest(run)).1;
    var p0 := Progress(d0, false, false, false, false, false);
    BackUpHarnessStage(fates, before, p0, run);
    var p1 := BackUpHarness(fates, p0, run);
    BackUpManifestStage(fates, before, p1, run);
    var p2 := BackUpManifest(fates, p1, run);
    InstallHarnessStage(fates, before, p2, run);
    var p3 := InstallHarness(fates, p2, run);
    InstallManifestStage(fates, before, p3, run);
  }

  // ---- the forward path under any fates ----

  /** The new manifest was renamed over one that nobody had backed up. */
  predicate Overwritten(before: Files, p: Progress) {
    p.manifestPromoted && !p.manifestBackedUp && LiveManifest in before
  }

  /** What the flags say of both halves whatever the checks answered: a tree is never renamed over a
      tree, but a manifest may be renamed over a manifest. */
  ghost predicate Laid(before: Files, p: Progress, run: nat) {
    && Fit(before, run) && HarnessSide(before, p, run)
    && Placed(before, p.disk.files, ManifestHalf(run), p.manifestBackedUp, p.manifestPromoted)
    && (p.manifestPromoted ==> p.harnessPromoted)
    && (!Overwritten(before, p) ==> Recoverable(before, p, run))
  }

  lemma InstallHarnessLays(fates: Fates, before: Files, p: Progress, run: nat)
    requires Recoverable(before, p, run) && !p.harnessPromoted && !p.manifestPromoted
    ensures var q := InstallHarness(fates, p, run);
            Recoverable(before, q, run) && !q.manifestPromoted && (!q.failed ==> q.harnessPromoted)
            && q.manifestBackedUp == p.manifestBackedUp
  {
  }

  lemma ForwardLays(fates: Fates, d: Disk, run: nat, valid: Validator)
    requires Fit(d.files, run) && d.trace == []
    ensures var p := Forward(fates, d, run, valid);
            && Laid(d.files, p, run)
            && (!p.failed ==> p.harnessPromoted && p.manifestPromoted && LivePairValid(valid, p.disk.files))
  {
    var before := d.files;
    var p0 := Progress(d, false, false, false, false, false);
    BackUpHarnessStage(fates, before, p0, run);
    var p1 := BackUpHarness(fates, p0, run);
    BackUpManifestStage(fates, before, p1, run);
    var p2 := BackUpManifest(fates, p1, run);
    InstallHarnessLays(fates, before, p2, run);
    var p3 := InstallHarness(fates, p2, run);
    InstallManifestLays(fates, before, p3, run);
    ValidateLays(fates, before, InstallManifest(fates, p3, run), run, valid);
    hide Laid, Stage, Recoverable, BackUpHarness, BackUpManifest, InstallHarness, InstallManifest, ValidateLive;
  }

  lemma InstallManifestLays(fates: Fates, before: Files, p: Progress, run: nat)
    requires Recoverable(before, p, run) && !p.manifestPromoted && (!p.failed ==> p.harnessPromoted)
    ensures var q := InstallManifest(fates, p, run);
            Laid(before, q, run) && (!q.failed ==> q.harnessPromoted && q.manifestPromoted)
  {
  }

  lemma ValidateLays(fates: Fates, before: Files, p: Progress, run: nat, valid: Validator)
    requires Laid(before, p, run)
    ensures var q := ValidateLive(fates, p, valid);
            && Laid(before, q, run) && (!q.failed ==> !p.failed && LivePairValid(valid, q.disk.files))
            && q.harnessPromoted == p.harnessPromoted && q.manifestPromoted == p.manifestPromoted
  {
  }

  /** The check of the live manifest denies it, everything before it was in order, and both installing
      renames work. */
  predicate DeniedAndReplaced(fates: Fates, d: Disk, run: nat) {
    var c := d.calls;
    var k := if LiveHarness in d.files then c + 2 else c + 1;
    && LiveManifest in d.files && StagedHarness(run) in d.files && StagedManifest(run) in d.files
    && (LiveHarness in d.files ==> !fates(c).Lies? && fates(c + 1).Works?)
    && fates(k).Lies? && fates(k + 1).Works? && fates(k + 2).Works?
  }

  /** That is the only way for the old manifest to be overwritten. */
  lemma OverwrittenExactlyWhenDenied(fates: Fates, d: Disk, run: nat, valid: Validator)
    requires Fit(d.files, run)
    ensures Overwritten(d.files, Forward(fates, d, run, valid)) <==> DeniedAndReplaced(fates, d, run)
  {
    var p1 := BackUpHarness(fates, Progress(d, false, false, false, false, false), run);
    var p2 := BackUpManifest(fates, p1, run);
    var p3 := InstallHarness(fates, p2, run);
    var p4 := InstallManifest(fates, p3, run);
    assert Forward(fates, d, run, valid).manifestPromoted == p4.manifestPromoted;
  }

  // ---- rollback ----

  lemma UndoKeeps(fates: Fates, before: Files, d: Disk, run: nat, h: Half, other: Half,
                  backedUp: bool, promoted: bool, otherBackedUp: bool, otherPromoted: bool, recursive: bool)
    requires (h == HarnessHalf(run) && other == ManifestHalf(run))
          || (h == ManifestHalf(run) && other == HarnessHalf(run))
    requires Side(before, d.files, h, backedUp, promoted)
    requires TraceKept(before, d, run)
    requires Kept(before, d.files, other)
    ensures var (ok, e) := UndoPromotion(fates, d, promoted, h.live, recursive);
            && TraceKept(before, e, run)
            && (forall p :: p != h.live ==> SameAt(d.files, e.files, p))
            && (ok && Honest(fates) && promoted ==> h.live !in e.files)
            && (!promoted ==> e == d && ok)
  {
  }

  lemma RestoreKeeps(fates: Fates, before: Files, d: Disk, run: nat, h: Half, other: Half, backedUp: bool)
    requires (h == HarnessHalf(run) && other == ManifestHalf(run))
          || (h == ManifestHalf(run) && other == HarnessHalf(run))
    requires h.backup in d.files <==> backedUp
    requires backedUp ==> h.live in before && Holds(d.files, h.backup, before[h.live])
    requires TraceKept(before, d, run)
    requires Kept(before, d.files, h) && Kept(before, d.files, other)
    ensures var (ok, e) := RestoreBackup(fates, d, backedUp, h.backup, h.live);
            && TraceKept(before, e, run)
            && (forall p :: p != h.live && p != h.backup ==> SameAt(d.files, e.files, p))
            && Kept(before, e.files, h)
            && (ok && Honest(fates) && backedUp ==> SameAt(before, e.files, h.live) && h.backup !in e.files)
            && (!backedUp ==> e == d && ok)
  {
  }

  lemma RollBackKeeps(fates: Fates, before: Files, p: Progress, run: nat)
    requires Recoverable(before, p, run) && p.failed
    ensures var (o, e) := RollBack(fates, p, run);
            && !o.Promoted? && TraceKept(before, e, run) && BothKept(before, e.files, run)
            && (o.Rethrown? && Honest(fates) ==> AsBefore(before, e.files, run))
  {
    var hh, mh := HarnessHalf(run), ManifestHalf(run);
    var f := p.disk.files;
    var d1 := UndoPromotion(fates, p.disk, p.harnessPromoted, LiveHarness, true).1;
    UndoKeeps(fates, before, p.disk, run, hh, mh, p.harnessBackedUp, p.harnessPromoted,
              p.manifestBackedUp, p.manifestPromoted, true);
    assert SameAt(f, d1.files, BackupHarness(run));
    assert SameAt(f, d1.files, LiveManifest) && SameAt(f, d1.files, BackupManifest(run)) && SameAt(f, d1.files, StagedManifest(run));
    var d2 := RestoreBackup(fates, d1, p.harnessBackedUp, BackupHarness(run), LiveHarness).1;
    RestoreKeeps(fates, before, d1, run, hh, mh, p.harnessBackedUp);
    assert SameAt(d1.files, d2.files, LiveManifest) && SameAt(d1.files, d2.files, BackupManifest(run)) && SameAt(d1.files, d2.files, StagedManifest(run));
    var d3 := UndoPromotion(fates, d2, p.manifestPromoted, LiveManifest, false).1;
    UndoKeeps(fates, before, d2, run, mh, hh, p.manifestBackedUp, p.manifestPromoted,
              p.harnessBackedUp, p.harnessPromoted, false);
    assert SameAt(d2.files, d3.files, LiveHarness) && SameAt(d2.files, d3.files, BackupHarness(run));
    assert SameAt(d2.files, d3.files, BackupManifest(run));
    var d4 := RestoreBackup(fates, d3, p.manifestBackedUp, BackupManifest(run), LiveManifest).1;
    RestoreKeeps(fates, before, d3, run, mh, hh, p.manifestBackedUp);
    assert SameAt(d3.files, d4.files, LiveHarness) && SameAt(d3.files, d4.files, BackupHarness(run));
  }

  // ---- what a rollback leaves, step by step ----

  function HarnessUndone(fates: Fates, p: Progress): Disk {
    UndoPromotion(fates, p.disk, p.harnessPromoted, LiveHarness, true).1
  }

  function HarnessRestored(fates: Fates, p: Progress, run: nat): Disk {
    RestoreBackup(fates, HarnessUndone(fates, p), p.harnessBackedUp, BackupHarness(run), LiveHarness).1
  }

  function ManifestUndone(fates: Fates, p: Progress, run: nat): Disk {
    UndoPromotion(fates, HarnessRestored(fates, p, run), p.manifestPromoted, LiveManifest, false).1
  }

  /** Each check that decides whether an old half comes back answers truthfully: that of a backup that
      was made, and that of a promoted half which had no predecessor. */
  predicate ChecksTrue(fates: Fates, p: Progress, run: nat) {
    && (p.harnessPromoted && !p.harnessBackedUp ==> !fates(p.disk.calls).Lies?)
    && (p.harnessBackedUp ==> !fates(HarnessUndone(fates, p).calls).Lies?)
    && (p.manifestPromoted && !p.manifestBackedUp ==> !fates(HarnessRestored(fates, p, run).calls).Lies?)
    && (p.manifestBackedUp ==> !fates(ManifestUndone(fates, p, run).calls).Lies?)
  }

  /** One half, undone and restored without an error. */
  lemma HalfComesBack(fates: Fates, before: Files, d: Disk, h: Half, backedUp: bool, promoted: bool, tree: bool)
    requires h.live != h.backup && Side(before, d.files, h, backedUp, promoted)
    requires h.live in before ==> before[h.live].File? == !tree
    requires h.staged in before ==> before[h.staged].File? == !tree
    requires UndoPromotion(fates, d, promoted, h.live, tree).0
    requires var e := UndoPromotion(fates, d, promoted, h.live, tree).1; RestoreBackup(fates, e, backedUp, h.backup, h.live).0
    ensures var e := UndoPromotion(fates, d, promoted, h.live, tree).1;
            var f := RestoreBackup(fates, e, backedUp, h.backup, h.live).1.files;
            (SameAt(before, f, h.live) && h.backup !in f)
            <==> (promoted && !backedUp ==> !fates(d.calls).Lies?) && (backedUp ==> !fates(e.calls).Lies?)
  {
  }

  /** A rollback that collects no error has put everything back exactly when those checks were true. */
  lemma RollBackCleansExactly(fates: Fates, before: Files, p: Progress, run: nat)
    requires Recoverable(before, p, run) && p.failed && RollBack(fates, p, run).0.Rethrown?
    ensures AsBefore(before, RollBack(fates, p, run).1.files, run) <==> ChecksTrue(fates, p, run)
  {
    hide Placed, SameAt, Fit, AsBefore;
    var hh, mh := HarnessHalf(run), ManifestHalf(run);
    var d1, d2, d3 := HarnessUndone(fates, p), HarnessRestored(fates, p, run), ManifestUndone(fates, p, run);
    FitMeansKinds(before, run);
    HalfComesBack(fates, before, p.disk, hh, p.harnessBackedUp, p.harnessPromoted, true);
    HarnessStepsSpareManifest(fates, p, run);
    SideElsewhere(before, p.disk.files, d2.files, mh, p.manifestBackedUp, p.manifestPromoted);
    HalfComesBack(fates, before, d2, mh, p.manifestBackedUp, p.manifestPromoted, false);
    var e := RollBack(fates, p, run).1;
    ManifestStepsSpareHarness(fates, p, run);
    AsBeforeByHalves(before, d2.files, e.files, run);
  }

  lemma FitMeansKinds(before: Files, run: nat)
    requires Fit(before, run)
    ensures LiveHarness in before ==> !before[LiveHarness].File?
    ensures StagedHarness(run) in before ==> !before[StagedHarness(run)].File?
    ensures LiveManifest in before ==> before[LiveManifest].File?
    ensures StagedManifest(run) in before ==> before[StagedManifest(run)].File?
  {
  }

  /** The two disks hold the same under each name of the half. */
  ghost predicate SameHalf(f: Files, g: Files, h: Half) {
    SameAt(f, g, h.live) && SameAt(f, g, h.backup) && SameAt(f, g, h.staged)
  }

  lemma SideElsewhere(before: Files, f: Files, g: Files, h: Half, backedUp: bool, promoted: bool)
    requires SameHalf(f, g, h)
    ensures Side(before, f, h, backedUp, promoted) ==> Side(before, g, h, backedUp, promoted)
    ensures Placed(before, f, h, backedUp, promoted) ==> Placed(before, g, h, backedUp, promoted)
  {
  }

  lemma AsBeforeByHalves(before: Files, f: Files, g: Files, run: nat)
    requires SameHalf(f, g, HarnessHalf(run))
    ensures AsBefore(before, g, run) <==>
            && SameAt(before, f, LiveHarness) && BackupHarness(run) !in f
            && SameAt(before, g, LiveManifest) && BackupManifest(run) !in g
  {
  }

  lemma HarnessStepsSpareManifest(fates: Fates, p: Progress, run: nat)
    ensures SameHalf(p.disk.files, HarnessUndone(fates, p).files, ManifestHalf(run))
    ensures SameHalf(p.disk.files, HarnessRestored(fates, p, run).files, ManifestHalf(run))
  {
    var d1, d2 := HarnessUndone(fates, p), HarnessRestored(fates, p, run);
    UndoTouchesOneName(fates, p.disk, p.harnessPromoted, LiveHarness, true);
    RestoreTouchesTwoNames(fates, d1, p.harnessBackedUp, BackupHarness(run), LiveHarness);
    hide UndoPromotion, RestoreBackup;
    SameHalfChains(p.disk.files, d1.files, d2.files, ManifestHalf(run));
  }

  lemma ManifestStepsSpareHarness(fates: Fates, p: Progress, run: nat)
    ensures SameHalf(HarnessRestored(fates, p, run).files, ManifestUndone(fates, p, run).files, HarnessHalf(run))
    ensures SameHalf(HarnessRestored(fates, p, run).files, RollBack(fates, p, run).1.files, HarnessHalf(run))
  {
    var d2, d3 := HarnessRestored(fates, p, run), ManifestUndone(fates, p, run);
    UndoTouchesOneName(fates, d2, p.manifestPromoted, LiveManifest, false);
    RestoreTouchesTwoNames(fates, d3, p.manifestBackedUp, BackupManifest(run), LiveManifest);
    hide UndoPromotion, RestoreBackup;
    SameHalfChains(d2.files, d3.files, RollBack(fates, p, run).1.files, HarnessHalf(run));
  }

  lemma SameHalfChains(f: Files, g: Files, k: Files, h: Half)
    requires SameHalf(f, g, h) && SameHalf(g, k, h)
    ensures SameHalf(f, k, h)
  {
  }

  // ---- the main results ----

  /** The staged pair is live, as a whole, and valid. */
  ghost predicate NewPairLive(before: Files, f: Files, run: nat, valid: Validator) {
    && StagedHarness(run) in before && Holds(f, LiveHarness, before[StagedHarness(run)])
    && StagedManifest(run) in before && Holds(f, LiveManifest, before[StagedManifest(run)])
    && LivePairValid(valid, f)
  }

  /** Two manifests that differ. */
  ghost predicate ManifestsDiffer(before: Files, run: nat) {
    LiveManifest in before && StagedManifest(run) in before ==> before[LiveManifest] != before[StagedManifest(run)]
  }

  /** The staged manifest is seen, and the live one is denied and replaced. */
  predicate LosesManifest(fates: Fates, d: Disk, run: nat) {
    var (staged, d0) := Exists(fates, d, StagedManifest(run));
    staged && DeniedAndReplaced(fates, d0, run)
  }

  /** Under any fates at all: a promotion that reports success has the new pair live and valid, and one
      that does not keeps each old half under its live or backup name, except exactly when the check of
      the live manifest denied it and both installing renames then worked. */
  lemma PromotionUnderAnyFates(fates: Fates, d: Disk, run: nat, valid: Validator)
    requires Fit(d.files, run) && d.trace == []
    ensures var (o, e) := Promote(fates, d, run, valid);
            && (o.Promoted? ==> NewPairLive(d.files, e.files, run, valid))
            && (!o.Promoted? && !LosesManifest(fates, d, run) ==> BothKept(d.files, e.files, run))
            && (!o.Promoted? && LosesManifest(fates, d, run) && ManifestsDiffer(d.files, run) ==>
                  !Kept(d.files, e.files, ManifestHalf(run)))
  {
    var (staged, d0) := Exists(fates, d, StagedManifest(run));
    if staged {
      ForwardLays(fates, d0, run, valid);
      OverwrittenExactlyWhenDenied(fates, d0, run, valid);
      var p := Forward(fates, d0, run, valid);
      hide Forward, RollBack, CleanUp, DeniedAndReplaced;
      if !p.failed {
        CleanUpSparesLive(fates, p, run);
      } else if !Overwritten(d.files, p) {
        RollBackKeeps(fates, d.files, p, run);
      } else if ManifestsDiffer(d.files, run) {
        OverwrittenIsNotKept(fates, d.files, p, run);
      }
    }
  }

  lemma OverwrittenIsNotKept(fates: Fates, before: Files, p: Progress, run: nat)
    requires Laid(before, p, run) && Overwritten(before, p) && ManifestsDiffer(before, run)
    ensures !Kept(before, RollBack(fates, p, run).1.files, ManifestHalf(run))
    ensures !SameAt(before, RollBack(fates, p, run).1.files, LiveManifest)
  {
    var d2 := HarnessRestored(fates, p, run);
    HarnessStepsSpareManifest(fates, p, run);
    SideElsewhere(before, p.disk.files, d2.files, ManifestHalf(run), false, true);
    assert RollBack(fates, p, run).1 == ManifestUndone(fates, p, run);
    hide HarnessRestored;
  }

  /** Every check of the rollback that matters is true; vacuously so when nothing was tried. */
  predicate PromotionChecksTrue(fates: Fates, d: Disk, run: nat, valid: Validator) {
    var (staged, d0) := Exists(fates, d, StagedManifest(run));
    staged ==> ChecksTrue(fates, Forward(fates, d0, run, valid), run)
  }

  /** And under any fates, a promotion that rethrows the original error, with none from the rollback,
      has left everything as before exactly when the old manifest was not lost and those checks were
      true. Otherwise the loss is silent: nothing in the error tells of it. */
  lemma RethrownMeansAsBeforeExactly(fates: Fates, d: Disk, run: nat, valid: Validator)
    requires Fit(d.files, run) && d.trace == [] && ManifestsDiffer(d.files, run)
    requires Promote(fates, d, run, valid).0.Rethrown?
    ensures AsBefore(d.files, Promote(fates, d, run, valid).1.files, run)
            <==> !LosesManifest(fates, d, run) && PromotionChecksTrue(fates, d, run, valid)
  {
    var (staged, d0) := Exists(fates, d, StagedManifest(run));
    if staged {
      ForwardLays(fates, d0, run, valid);
      OverwrittenExactlyWhenDenied(fates, d0, run, valid);
      var p := Forward(fates, d0, run, valid);
      hide Forward, RollBack, CleanUp, DeniedAndReplaced, ChecksTrue;
      if Overwritten(d.files, p) {
        OverwrittenIsNotKept(fates, d.files, p, run);
      } else {
        RollBackCleansExactly(fates, d.files, p, run);
      }
    }
  }

  /** So where every check is truthful a promotion ends in one of three ways, whatever renames, removals
      and validation do: the staged pair is live and valid; the error is rethrown and everything is as
      before; or an aggregate error is thrown and each old half is still there under its live or backup
      name. */
  lemma PromotionEndsInOneOfThreeWays(fates: Fates, d: Disk, run: nat, valid: Validator)
    requires Fit(d.files, run) && d.trace == [] && Honest(fates)
    ensures var (o, e) := Promote(fates, d, run, valid);
            match o
            case Promoted => NewPairLive(d.files, e.files, run, valid)
            case Rethrown => AsBefore(d.files, e.files, run)
            case Incomplete => BothKept(d.files, e.files, run)
  {
    PromotionUnderAnyFates(fates, d, run, valid);
    var (staged, d0) := Exists(fates, d, StagedManifest(run));
    if staged {
      ForwardLays(fates, d0, run, valid);
      OverwrittenExactlyWhenDenied(fates, d0, run, valid);
      var p := Forward(fates, d0, run, valid);
      hide Forward, RollBack, CleanUp;
      if p.failed {
        RollBackKeeps(fates, d.files, p, run);
      }
    }
  }

  /** An undo of one name leaves every other name alone in every state it goes through. */
  lemma UndoTouchesOneName(fates: Fates, d: Disk, promoted: bool, p: Path, recursive: bool)
    ensures var e := UndoPromotion(fates, d, promoted, p, recursive).1;
            && d.trace <= e.trace
            && (forall q :: q != p ==> SameAt(d.files, e.files, q))
            && forall i, q :: |d.trace| <= i < |e.trace| && q != p ==> SameAt(d.files, e.trace[i], q)
  {
  }

  lemma RestoreTouchesTwoNames(fates: Fates, d: Disk, backedUp: bool, backup: Path, live: Path)
    ensures var e := RestoreBackup(fates, d, backedUp, backup, live).1;
            && d.trace <= e.trace
            && (forall q :: q != backup && q != live ==> SameAt(d.files, e.files, q))
  {
  }

  lemma CleanUpSparesLive(fates: Fates, p: Progress, run: nat)
    ensures var e := CleanUp(fates, p, run);
            && SameAt(p.disk.files, e.files, LiveHarness) && SameAt(p.disk.files, e.files, LiveManifest)
            && p.disk.trace <= e.trace
            && forall i :: |p.disk.trace| <= i < |e.trace| ==>
                 SameAt(p.disk.files, e.trace[i], LiveHarness) && SameAt(p.disk.files, e.trace[i], LiveManifest)
  {
    var d1 := UndoPromotion(fates, p.disk, p.harnessBackedUp, BackupHarness(run), true).1;
    UndoTouchesOneName(fates, p.disk, p.harnessBackedUp, BackupHarness(run), true);
    UndoTouchesOneName(fates, d1, p.manifestBackedUp, BackupManifest(run), false);
    var e := CleanUp(fates, p, run);
    forall i | |p.disk.trace| <= i < |e.trace|
      ensures SameAt(p.disk.files, e.trace[i], LiveHarness) && SameAt(p.disk.files, e.trace[i], LiveManifest)
    {
      if i < |d1.trace| {
        assert e.trace[i] == d1.trace[i];
      } else {
        assert SameAt(d1.files, e.trace[i], LiveHarness) && SameAt(d1.files, e.trace[i], LiveManifest);
      }
    }
  }

  /** Cut off after any step, a promotion that has not committed leaves each old half under its live
      or backup name, unless it is one that loses the manifest; and until it commits or turns to
      rollback, the live names never pair a half of before with a new one, if the live manifest is seen.
      After the commit the new pair stays live. */
  lemma EveryCrashIsRecoverable(fates: Fates, d: Disk, run: nat, valid: Validator, i: nat)
    requires Fit(d.files, run) && d.trace == []
    requires i < |Promote(fates, d, run, valid).1.trace|
    ensures var p := Forward(fates, Exists(fates, d, StagedManifest(run)).1, run, valid);
            var f := Promote(fates, d, run, valid).1.trace[i];
            if p.failed || i < |p.disk.trace|
            then !LosesManifest(fates, d, run) ==> BothKept(d.files, f, run)
            else && StagedHarness(run) in d.files && Holds(f, LiveHarness, d.files[StagedHarness(run)])
                 && StagedManifest(run) in d.files && Holds(f, LiveManifest, d.files[StagedManifest(run)])
    ensures var p := Forward(fates, Exists(fates, d, StagedManifest(run)).1, run, valid);
            ManifestSeen(fates, d, run) ==> forall j :: 0 <= j < |p.disk.trace| ==> ForwardLive(d.files, p.disk.trace[j], run)
  {
    if ManifestSeen(fates, d, run) {
      ForwardStages(fates, d, run, valid);
    }
    var d0 := Exists(fates, d, StagedManifest(run)).1;
    ForwardLays(fates, d0, run, valid);
    OverwrittenExactlyWhenDenied(fates, d0, run, valid);
    var p := Forward(fates, d0, run, valid);
    hide Forward, RollBack, CleanUp, DeniedAndReplaced, ManifestSeen;
    if !p.failed {
      CleanUpSparesLive(fates, p, run);
    } else if !LosesManifest(fates, d, run) {
      RollBackKeeps(fates, d.files, p, run);
    }
  }

  /** A new runtime is accepted only from the staged pair as a whole. */
  lemma ForwardLiveIsNeverMixed(before: Files, f: Files, run: nat)
    requires ForwardLive(before, f, run) && LiveHarness in f && LiveManifest in f
    ensures || (Holds(before, LiveHarness, f[LiveHarness]) && Holds(before, LiveManifest, f[LiveManifest]))
            || (Holds(before, StagedHarness(run), f[LiveHarness]) && Holds(before, StagedManifest(run), f[LiveManifest]))
  {
  }

  // ---- when the live pair is mixed ----

  /** The old and the new halves are whole and can be told apart. */
  ghost predicate Distinct(before: Files, run: nat) {
    && ManifestsDiffer(before, run)
    && (LiveHarness in before ==> before[LiveHarness] != Debris)
    && (StagedHarness(run) in before ==> before[StagedHarness(run)] != Debris)
    && (LiveHarness in before && StagedHarness(run) in before ==> before[LiveHarness] != before[StagedHarness(run)])
  }

  ghost predicate OldBesideNew(before: Files, f: Files, run: nat) {
    && LiveHarness in before && Holds(f, LiveHarness, before[LiveHarness])
    && StagedManifest(run) in before && Holds(f, LiveManifest, before[StagedManifest(run)])
  }

  ghost predicate NewBesideOld(before: Files, f: Files, run: nat) {
    && StagedHarness(run) in before && Holds(f, LiveHarness, before[StagedHarness(run)])
    && LiveManifest in before && Holds(f, LiveManifest, before[LiveManifest])
  }

  /** Call n is a check that answers truthfully and the call after it an operation that works. */
  predicate Acts(fates: Fates, n: nat) {
    !fates(n).Lies? && fates(n + 1).Works?
  }

  /** Call n is a check that lies, or the removal after it fails before it touches the tree. */
  predicate Idles(fates: Fates, n: nat) {
    fates(n).Lies? || fates(n + 1).Fails? || fates(n + 1).Lies?
  }

  /** The old harness comes back: the new one, if promoted, is removed, and the backup renamed. */
  predicate HarnessReturns(fates: Fates, p: Progress) {
    && p.harnessBackedUp && (p.harnessPromoted ==> Acts(fates, p.disk.calls))
    && Acts(fates, HarnessUndone(fates, p).calls)
  }

  /** The new harness stays whole: its removal does not start. */
  predicate HarnessStays(fates: Fates, p: Progress) {
    p.harnessPromoted && Idles(fates, p.disk.calls)
  }

  /** The old manifest comes back, over the new one if that is still there. */
  predicate ManifestReturns(fates: Fates, p: Progress, run: nat) {
    p.manifestBackedUp && Acts(fates, ManifestUndone(fates, p, run).calls)
  }

  /** The new manifest stays until the backup is renamed: it is not removed. */
  predicate ManifestStays(fates: Fates, p: Progress, run: nat) {
    p.manifestPromoted && !Acts(fates, HarnessRestored(fates, p, run).calls)
  }

  /** The old manifest had never been moved. */
  predicate ManifestUntouched(before: Files, p: Progress) {
    LiveManifest in before && !p.manifestBackedUp && !p.manifestPromoted
  }

  /** What lies under the live harness name after the harness steps. */
  lemma HarnessPlaces(fates: Fates, before: Files, p: Progress, run: nat)
    requires Laid(before, p, run) && Distinct(before, run)
    ensures var f := HarnessRestored(fates, p, run).files;
            && (p.harnessBackedUp ==> (Holds(f, LiveHarness, before[LiveHarness]) <==> HarnessReturns(fates, p)))
            && (p.harnessPromoted ==> (Holds(f, LiveHarness, before[StagedHarness(run)]) <==> HarnessStays(fates, p)))
            && (p.harnessPromoted && !p.harnessBackedUp ==> LiveHarness !in before)
            && (StagedHarness(run) in before && !p.harnessPromoted ==> !Holds(f, LiveHarness, before[StagedHarness(run)]))
  {
    hide Recoverable;
    HarnessUndonePlaces(fates, before, p, run);
    hide UndoPromotion, HarnessUndone;
  }

  lemma HarnessUndonePlaces(fates: Fates, before: Files, p: Progress, run: nat)
    requires Laid(before, p, run) && Distinct(before, run)
    ensures var d := HarnessUndone(fates, p);
            && SameAt(p.disk.files, d.files, BackupHarness(run))
            && (!p.harnessPromoted ==> d == p.disk)
            && (p.harnessPromoted ==>
                  && (Acts(fates, p.disk.calls) ==> LiveHarness !in d.files)
                  && (Idles(fates, p.disk.calls) ==> Holds(d.files, LiveHarness, before[StagedHarness(run)]))
                  && (!Acts(fates, p.disk.calls) && !Idles(fates, p.disk.calls) ==> Holds(d.files, LiveHarness, Debris)))
  {
    hide Recoverable;
  }

  /** What lies under the live manifest name before and after the two manifest steps. */
  lemma ManifestPlaces(fates: Fates, before: Files, p: Progress, run: nat)
    requires Laid(before, p, run) && Distinct(before, run)
    ensures var (f, g, e) := (HarnessRestored(fates, p, run).files, ManifestUndone(fates, p, run).files, RollBack(fates, p, run).1.files);
            && SameAt(p.disk.files, f, LiveManifest)
            && (p.manifestPromoted ==>
                  && Holds(f, LiveManifest, before[StagedManifest(run)])
                  && (Holds(g, LiveManifest, before[StagedManifest(run)]) <==> ManifestStays(fates, p, run))
                  && (Holds(e, LiveManifest, before[StagedManifest(run)]) <==> ManifestStays(fates, p, run) && !ManifestReturns(fates, p, run)))
            && (!p.manifestPromoted && StagedManifest(run) in before ==>
                  && !Holds(f, LiveManifest, before[StagedManifest(run)]) && !Holds(g, LiveManifest, before[StagedManifest(run)])
                  && !Holds(e, LiveManifest, before[StagedManifest(run)]))
            && (LiveManifest in before ==>
                  && (Holds(f, LiveManifest, before[LiveManifest]) <==> ManifestUntouched(before, p))
                  && (Holds(g, LiveManifest, before[LiveManifest]) <==> ManifestUntouched(before, p))
                  && (Holds(e, LiveManifest, before[LiveManifest]) <==> ManifestUntouched(before, p) || ManifestReturns(fates, p, run)))
  {
    hide Recoverable;
    var d2 := HarnessRestored(fates, p, run);
    HarnessStepsSpareManifest(fates, p, run);
    SideElsewhere(before, p.disk.files, d2.files, ManifestHalf(run), p.manifestBackedUp, p.manifestPromoted);
    assert RollBack(fates, p, run).1 == RestoreBackup(fates, ManifestUndone(fates, p, run), p.manifestBackedUp, BackupManifest(run), LiveManifest).1;
    hide HarnessRestored, RollBack;
  }

  /** The live pair that a failed promotion leaves is mixed, under any fates, exactly so: the old harness
      came back and the new manifest was neither removed nor replaced; or the removal of the new harness
      never started and the old manifest is there. */
  lemma RollBackEndsMixedExactly(fates: Fates, before: Files, p: Progress, run: nat)
    requires Laid(before, p, run) && Distinct(before, run)
    ensures var e := RollBack(fates, p, run).1.files;
            && (OldBesideNew(before, e, run) <==>
                HarnessReturns(fates, p) && ManifestStays(fates, p, run) && !ManifestReturns(fates, p, run))
            && (NewBesideOld(before, e, run) <==>
                HarnessStays(fates, p) && (ManifestUntouched(before, p) || ManifestReturns(fates, p, run)))
  {
    HarnessPlaces(fates, before, p, run);
    ManifestPlaces(fates, before, p, run);
    ManifestStepsSpareHarness(fates, p, run);
    hide RollBack, HarnessRestored, ManifestUndone, HarnessReturns, HarnessStays, ManifestReturns, ManifestStays, Recoverable;
    assert SameAt(HarnessRestored(fates, p, run).files, RollBack(fates, p, run).1.files, LiveHarness);
  }

  /** A state the disk is in when the rollback starts or goes through until it ends. */
  ghost predicate DuringRollBack(fates: Fates, p: Progress, run: nat, f: Files) {
    var t := RollBack(fates, p, run).1.trace;
    f == p.disk.files || InTrace(t, |p.disk.trace|, f)
  }

  ghost predicate InTrace(t: seq<Files>, from: nat, f: Files) {
    exists i :: from <= i < |t| && t[i] == f
  }

  /** The states between two steps, and those inside the removal of the harness. */
  ghost predicate BetweenSteps(fates: Fates, p: Progress, run: nat, f: Files) {
    || f == p.disk.files || f == HarnessRestored(fates, p, run).files
    || f == ManifestUndone(fates, p, run).files || f == RollBack(fates, p, run).1.files
  }

  /** The trace of e goes on from that of d, ends with e itself if anything changed, and in between has
      at most the harness half removed. */
  ghost predicate Records(d: Disk, e: Disk) {
    && d.trace <= e.trace
    && (e.files == d.files || (|e.trace| > |d.trace| && e.trace[|e.trace| - 1] == e.files))
    && forall i :: |d.trace| <= i < |e.trace| ==> e.trace[i] == e.files || Holds(e.trace[i], LiveHarness, Debris)
  }

  lemma RemoveRecords(fates: Fates, d: Disk, p: Path, recursive: bool)
    requires recursive ==> p == LiveHarness
    ensures Records(d, Remove(fates, d, p, recursive).1)
  {
  }

  lemma RenameRecords(fates: Fates, d: Disk, from: Path, to: Path)
    ensures Records(d, Rename(fates, d, from, to).1)
  {
    hide Move;
  }

  lemma UndoRecords(fates: Fates, d: Disk, promoted: bool, p: Path, recursive: bool)
    requires recursive ==> p == LiveHarness
    ensures Records(d, UndoPromotion(fates, d, promoted, p, recursive).1)
  {
    RemoveRecords(fates, Exists(fates, d, p).1, p, recursive);
    hide Remove;
  }

  lemma RestoreRecords(fates: Fates, d: Disk, backedUp: bool, backup: Path, live: Path)
    ensures Records(d, RestoreBackup(fates, d, backedUp, backup, live).1)
  {
    RenameRecords(fates, Exists(fates, d, backup).1, backup, live);
    hide Rename;
  }

  lemma RecordedStates(d: Disk, e: Disk, t: seq<Files>, from: nat)
    requires Records(d, e) && e.trace <= t && from <= |d.trace|
    ensures e.files == d.files || InTrace(t, from, e.files)
    ensures forall i :: |d.trace| <= i < |e.trace| ==> t[i] == e.files || Holds(t[i], LiveHarness, Debris)
  {
    if e.files != d.files {
      assert t[|e.trace| - 1] == e.files;
    }
  }

  lemma FourSteps(d0: Disk, d1: Disk, d2: Disk, d3: Disk, e: Disk, f: Files)
    requires Records(d0, d1) && Records(d1, d2) && Records(d2, d3) && Records(d3, e)
    ensures f == d2.files || f == d3.files || f == e.files ==> f == d0.files || InTrace(e.trace, |d0.trace|, f)
    ensures InTrace(e.trace, |d0.trace|, f) ==>
              f == d1.files || f == d2.files || f == d3.files || f == e.files || Holds(f, LiveHarness, Debris)
  {
    RecordedStates(d0, d1, e.trace, |d0.trace|);
    RecordedStates(d1, d2, e.trace, |d0.trace|);
    RecordedStates(d2, d3, e.trace, |d0.trace|);
    RecordedStates(d3, e, e.trace, |d0.trace|);
    hide Records, Holds;
  }

  lemma StatesOfRollBack(fates: Fates, p: Progress, run: nat, f: Files)
    ensures BetweenSteps(fates, p, run, f) ==> DuringRollBack(fates, p, run, f)
    ensures DuringRollBack(fates, p, run, f) ==>
              BetweenSteps(fates, p, run, f) || f == HarnessUndone(fates, p).files || Holds(f, LiveHarness, Debris)
  {
    hide UndoPromotion, RestoreBackup;
    var d1, d2, d3, e := HarnessUndone(fates, p), HarnessRestored(fates, p, run), ManifestUndone(fates, p, run), RollBack(fates, p, run).1;
    UndoRecords(fates, p.disk, p.harnessPromoted, LiveHarness, true);
    RestoreRecords(fates, d1, p.harnessBackedUp, BackupHarness(run), LiveHarness);
    UndoRecords(fates, d2, p.manifestPromoted, LiveManifest, false);
    RestoreRecords(fates, d3, p.manifestBackedUp, BackupManifest(run), LiveManifest);
    hide Records, InTrace, Holds;
    FourSteps(p.disk, d1, d2, d3, e, f);
  }

  /** And a rollback is ever in a mixed state, under any fates, exactly so: the old harness came back
      while the new manifest was live, or the new harness stayed whole and the old manifest came back,
      or the two were together from the start because that manifest had never been moved. */
  lemma RollBackMixesExactly(fates: Fates, before: Files, p: Progress, run: nat)
    requires Laid(before, p, run) && Distinct(before, run)
    ensures (exists f :: DuringRollBack(fates, p, run, f) && OldBesideNew(before, f, run))
            <==> p.manifestPromoted && HarnessReturns(fates, p)
    ensures (exists f :: DuringRollBack(fates, p, run, f) && NewBesideOld(before, f, run))
            <==> (p.harnessPromoted && ManifestUntouched(before, p)) || (HarnessStays(fates, p) && ManifestReturns(fates, p, run))
  {
    var d2, d3, e := HarnessRestored(fates, p, run), ManifestUndone(fates, p, run), RollBack(fates, p, run).1;
    StatesOfRollBack(fates, p, run, p.disk.files);
    StatesOfRollBack(fates, p, run, d2.files);
    StatesOfRollBack(fates, p, run, e.files);
    forall f | DuringRollBack(fates, p, run, f)
      ensures OldBesideNew(before, f, run) ==> p.manifestPromoted && HarnessReturns(fates, p)
      ensures NewBesideOld(before, f, run) ==>
                (p.harnessPromoted && ManifestUntouched(before, p)) || (HarnessStays(fates, p) && ManifestReturns(fates, p, run))
    {
      MixedOnlySo(fates, before, p, run, f);
    }
    MixedIndeed(fates, before, p, run);
  }

  lemma MixedOnlySo(fates: Fates, before: Files, p: Progress, run: nat, f: Files)
    requires Laid(before, p, run) && Distinct(before, run) && DuringRollBack(fates, p, run, f)
    ensures OldBesideNew(before, f, run) ==> p.manifestPromoted && HarnessReturns(fates, p)
    ensures NewBesideOld(before, f, run) ==>
              (p.harnessPromoted && ManifestUntouched(before, p)) || (HarnessStays(fates, p) && ManifestReturns(fates, p, run))
  {
    StatesOfRollBack(fates, p, run, f);
    HarnessPlaces(fates, before, p, run);
    HarnessUndonePlaces(fates, before, p, run);
    ManifestPlaces(fates, before, p, run);
    HarnessStepsSpareManifest(fates, p, run);
    ManifestStepsSpareHarness(fates, p, run);
    hide RollBack, HarnessUndone, HarnessRestored, ManifestUndone, DuringRollBack, Recoverable;
    hide HarnessReturns, HarnessStays, ManifestReturns, ManifestStays, Acts, Idles;
  }

  lemma MixedIndeed(fates: Fates, before: Files, p: Progress, run: nat)
    requires Laid(before, p, run) && Distinct(before, run)
    ensures p.manifestPromoted && HarnessReturns(fates, p) ==> OldBesideNew(before, HarnessRestored(fates, p, run).files, run)
    ensures p.harnessPromoted && ManifestUntouched(before, p) ==> NewBesideOld(before, p.disk.files, run)
    ensures HarnessStays(fates, p) && ManifestReturns(fates, p, run) ==> NewBesideOld(before, RollBack(fates, p, run).1.files, run)
  {
    HarnessPlaces(fates, before, p, run);
    ManifestPlaces(fates, before, p, run);
    RollBackEndsMixedExactly(fates, before, p, run);
    hide RollBack, HarnessUndone, HarnessRestored, ManifestUndone, Recoverable;
  }

  /** On the way forward only one mixture is possible, and exactly when the live manifest was there and not
      moved aside before the new harness went in. */
  lemma ForwardMixesExactly(fates: Fates, d: Disk, run: nat, valid: Validator)
    requires Fit(d.files, run) && d.trace == [] && Distinct(d.files, run)
    ensures var p := Forward(fates, d, run, valid);
            && ((exists i :: 0 <= i < |p.disk.trace| && NewBesideOld(d.files, p.disk.trace[i], run))
                <==> p.harnessPromoted && LiveManifest in d.files && !p.manifestBackedUp)
            && (forall i :: 0 <= i < |p.disk.trace| ==> !OldBesideNew(d.files, p.disk.trace[i], run))
  {
    var before, p0 := d.files, Progress(d, false, false, false, false, false);
    BackUpHarnessStage(fates, before, p0, run);
    var p1 := BackUpHarness(fates, p0, run);
    BackUpManifestStage(fates, before, p1, run);
    var p2 := BackUpManifest(fates, p1, run);
    assert forall i :: 0 <= i < |p2.disk.trace| ==> !OldBesideNew(before, p2.disk.trace[i], run) && !NewBesideOld(before, p2.disk.trace[i], run);
    InstallHarnessLays(fates, before, p2, run);
    HarnessInstallMixes(fates, before, p2, run);
    var p3 := InstallHarness(fates, p2, run);
    var p4 := InstallManifest(fates, p3, run);
    ManifestInstallMixesNot(fates, before, p3, run);
    assert p4.disk.trace == Forward(fates, d, run, valid).disk.trace;
    if p3.harnessPromoted && LiveManifest in before && !p3.manifestBackedUp {
      assert p4.disk.trace[|p3.disk.trace| - 1] == p3.disk.trace[|p3.disk.trace| - 1];
    }
  }

  lemma HarnessInstallMixes(fates: Fates, before: Files, p: Progress, run: nat)
    requires Recoverable(before, p, run) && !p.harnessPromoted && !p.manifestPromoted && Distinct(before, run)
    ensures var q := InstallHarness(fates, p, run);
            && p.disk.trace <= q.disk.trace
            && (forall i :: |p.disk.trace| <= i < |q.disk.trace| ==>
                  !OldBesideNew(before, q.disk.trace[i], run)
                  && (NewBesideOld(before, q.disk.trace[i], run) <==> LiveManifest in before && !p.manifestBackedUp))
            && (q.harnessPromoted <==> |q.disk.trace| > |p.disk.trace|)
  {
  }

  lemma ManifestInstallMixesNot(fates: Fates, before: Files, p: Progress, run: nat)
    requires Recoverable(before, p, run) && !p.manifestPromoted && (!p.failed ==> p.harnessPromoted) && Distinct(before, run)
    ensures var q := InstallManifest(fates, p, run);
            && p.disk.trace <= q.disk.trace
            && (forall i :: |p.disk.trace| <= i < |q.disk.trace| ==>
                  !OldBesideNew(before, q.disk.trace[i], run) && !NewBesideOld(before, q.disk.trace[i], run))
            && q.harnessPromoted == p.harnessPromoted && q.manifestBackedUp == p.manifestBackedUp
  {
  }

  // ---- where the promises stop: single runs ----

  const Installed: Files := map[
    LiveHarness := Tree(1), LiveManifest := File(1), StagedHarness(0) := Tree(2), StagedManifest(0) := File(2)]

  /** All renames work and the new pair is refused, at call c + 6. */
  lemma ForwardIsRefused(fates: Fates, d: Disk, run: nat, valid: Validator)
    requires Fit(d.files, run) && LiveHarness in d.files && LiveManifest in d.files
    requires StagedHarness(run) in d.files && StagedManifest(run) in d.files
    requires !valid(d.files[StagedHarness(run)], d.files[StagedManifest(run)])
    requires forall n :: d.calls <= n < d.calls + 7 ==> fates(n).Works?
    ensures var p := Forward(fates, d, run, valid);
            && p.failed && p.harnessBackedUp && p.manifestBackedUp && p.harnessPromoted && p.manifestPromoted
            && p.disk.calls == d.calls + 7
  {
  }

  /** The promotion of Installed up to its rollback, when the first eight calls work. */
  lemma InstalledIsRefused(fates: Fates, valid: Validator) returns (p: Progress)
    requires !valid(Tree(2), File(2)) && forall n :: 0 <= n < 8 ==> fates(n).Works?
    ensures Promote(fates, Disk(Installed, [], 0), 0, valid) == RollBack(fates, p, 0)
    ensures Laid(Installed, p, 0) && Distinct(Installed, 0)
    ensures p.failed && p.harnessBackedUp && p.manifestBackedUp && p.harnessPromoted && p.manifestPromoted && p.disk.calls == 8
  {
    var d0 := Exists(fates, Disk(Installed, [], 0), StagedManifest(0)).1;
    p := Forward(fates, d0, 0, valid);
    ForwardIsRefused(fates, d0, 0, valid);
    ForwardLays(fates, d0, 0, valid);
    hide Forward, RollBack;
  }

  /** Nothing fails but the validation: the rollback ends as it began, by way of the old harness beside the
      new manifest. */
  lemma RollbackPassesThroughAMixedPair(valid: Validator)
    requires !valid(Tree(2), File(2))
    ensures var (o, e) := Promote(_ => Works, Disk(Installed, [], 0), 0, valid);
            && o.Rethrown? && AsBefore(Installed, e.files, 0)
            && exists i :: 0 <= i < |e.trace| && OldBesideNew(Installed, e.trace[i], 0)
  {
    var fates: Fates := _ => Works;
    var p := InstalledIsRefused(fates, valid);
    RollBackMixesExactly(fates, Installed, p, 0);
    RollBackKeeps(fates, Installed, p, 0);
    assert HarnessReturns(fates, p);
    assert !OldBesideNew(Installed, p.disk.files, 0);
  }

  function FailAt(at: nat): Fates {
    n => if n == at then Fails else Works
  }

  function LieAt(at: nat): Fates {
    n => if n == at then Lies else Works
  }

  lemma RemovalFails(fates: Fates, before: Files, p: Progress, run: nat)
    requires Laid(before, p, run) && p.harnessPromoted && !fates(p.disk.calls).Lies? && fates(p.disk.calls + 1).Fails?
    ensures !UndoPromotion(fates, p.disk, p.harnessPromoted, LiveHarness, true).0
    ensures ManifestUndone(fates, p, run).calls >= p.disk.calls + 2
  {
    hide Recoverable;
  }

  /** The removal of the new harness fails: the new harness and the old manifest are what stays live. */
  lemma FailedRemovalLeavesAMixedPair(valid: Validator)
    requires !valid(Tree(2), File(2))
    ensures var (o, e) := Promote(FailAt(9), Disk(Installed, [], 0), 0, valid);
            o.Incomplete? && NewBesideOld(Installed, e.files, 0)
  {
    hide RollBack, Promote, UndoPromotion, RestoreBackup, Laid, Distinct, HarnessRestored, ManifestUndone, OldBesideNew, NewBesideOld;
    var fates := FailAt(9);
    var p := InstalledIsRefused(fates, valid);
    RollBackEndsMixedExactly(fates, Installed, p, 0);
    NoErrorsMeansRethrown(fates, p, 0);
    RemovalFails(fates, Installed, p, 0);
    assert HarnessStays(fates, p);
    assert ManifestReturns(fates, p, 0);
  }

  /** The check of the harness backup is denied: the error is the original one, the live harness is gone,
      and its backup is left behind. */
  lemma DeniedBackupIsSilent(valid: Validator)
    requires !valid(Tree(2), File(2))
    ensures var (o, e) := Promote(LieAt(10), Disk(Installed, [], 0), 0, valid);
            o.Rethrown? && LiveHarness !in e.files && Holds(e.files, BackupHarness(0), Tree(1))
  {
    var fates := LieAt(10);
    var p := InstalledIsRefused(fates, valid);
    HarnessStepsUnderDenial(fates, Installed, p, 0);
    ManifestStepsWork(fates, Installed, p, 0);
    ManifestStepsSpareHarness(fates, p, 0);
    NoErrorsMeansRethrown(fates, p, 0);
    var f := HarnessRestored(fates, p, 0).files;
    hide HarnessUndone, HarnessRestored, ManifestUndone, UndoPromotion, RestoreBackup, Laid, RollBack, Promote, Distinct;
    assert SameAt(f, RollBack(fates, p, 0).1.files, LiveHarness) && SameAt(f, RollBack(fates, p, 0).1.files, BackupHarness(0));
  }

  lemma NoErrorsMeansRethrown(fates: Fates, p: Progress, run: nat)
    ensures RollBack(fates, p, run).0.Rethrown? <==>
            && UndoPromotion(fates, p.disk, p.harnessPromoted, LiveHarness, true).0
            && RestoreBackup(fates, HarnessUndone(fates, p), p.harnessBackedUp, BackupHarness(run), LiveHarness).0
            && UndoPromotion(fates, HarnessRestored(fates, p, run), p.manifestPromoted, LiveManifest, false).0
            && RestoreBackup(fates, ManifestUndone(fates, p, run), p.manifestBackedUp, BackupManifest(run), LiveManifest).0
    ensures !RollBack(fates, p, run).0.Promoted?
  {
    hide UndoPromotion, RestoreBackup;
  }

  lemma HarnessStepsUnderDenial(fates: Fates, before: Files, p: Progress, run: nat)
    requires Laid(before, p, run) && p.harnessBackedUp && p.harnessPromoted
    requires Acts(fates, p.disk.calls) && fates(p.disk.calls + 2).Lies?
    ensures var d := HarnessRestored(fates, p, run);
            && UndoPromotion(fates, p.disk, p.harnessPromoted, LiveHarness, true).0
            && RestoreBackup(fates, HarnessUndone(fates, p), p.harnessBackedUp, BackupHarness(run), LiveHarness).0
            && LiveHarness !in d.files && Holds(d.files, BackupHarness(run), before[LiveHarness])
            && d.calls == p.disk.calls + 3
  {
    hide Recoverable;
  }

  lemma ManifestStepsWork(fates: Fates, before: Files, p: Progress, run: nat)
    requires Laid(before, p, run) && p.manifestBackedUp && p.manifestPromoted
    requires Acts(fates, HarnessRestored(fates, p, run).calls) && Acts(fates, HarnessRestored(fates, p, run).calls + 2)
    ensures UndoPromotion(fates, HarnessRestored(fates, p, run), p.manifestPromoted, LiveManifest, false).0
    ensures RestoreBackup(fates, ManifestUndone(fates, p, run), p.manifestBackedUp, BackupManifest(run), LiveManifest).0
  {
    var d := HarnessRestored(fates, p, run);
    HarnessStepsSpareManifest(fates, p, run);
    SideElsewhere(before, p.disk.files, d.files, ManifestHalf(run), true, true);
    hide HarnessRestored, Recoverable;
  }

  /** No name holds this node except perhaps one. */
  ghost predicate OnlyAt(f: Files, node: Node, p: Path) {
    forall q :: q in f && q != p ==> f[q] != node
  }

  ghost predicate Gone(f: Files, node: Node) {
    forall q :: q in f ==> f[q] != node
  }

  lemma UndoNeverRevives(fates: Fates, d: Disk, promoted: bool, p: Path, recursive: bool, node: Node)
    requires Gone(d.files, node) && node.File?
    ensures Gone(UndoPromotion(fates, d, promoted, p, recursive).1.files, node)
  {
  }

  lemma RestoreNeverRevives(fates: Fates, d: Disk, backedUp: bool, backup: Path, live: Path, node: Node)
    requires Gone(d.files, node)
    ensures Gone(RestoreBackup(fates, d, backedUp, backup, live).1.files, node)
  {
  }

  lemma ForwardLosesDeniedManifest(fates: Fates, d: Disk, run: nat, valid: Validator)
    requires LiveManifest in d.files && d.files[LiveManifest].File?
    requires OnlyAt(d.files, d.files[LiveManifest], LiveManifest)
    requires var p := Forward(fates, d, run, valid); p.manifestPromoted && !p.manifestBackedUp
    ensures Gone(Forward(fates, d, run, valid).disk.files, d.files[LiveManifest])
  {
    var node := d.files[LiveManifest];
    var p1 := BackUpHarness(fates, Progress(d, false, false, false, false, false), run);
    assert OnlyAt(p1.disk.files, node, LiveManifest) && Holds(p1.disk.files, LiveManifest, node);
    var p2 := BackUpManifest(fates, p1, run);
    assert OnlyAt(p2.disk.files, node, LiveManifest) && Holds(p2.disk.files, LiveManifest, node);
    var p3 := InstallHarness(fates, p2, run);
    assert OnlyAt(p3.disk.files, node, LiveManifest) && Holds(p3.disk.files, LiveManifest, node);
  }

  /** The check of the live manifest is what the old manifest depends on: once it has denied a manifest
      that is there, and the two installing renames work, no later step can bring it back; and nothing
      else loses the old manifest of a promotion that does not succeed. */
  lemma DeniedManifestIsLost(fates: Fates, d: Disk, run: nat, valid: Validator)
    requires Fit(d.files, run) && d.trace == []
    requires LiveManifest in d.files && OnlyAt(d.files, d.files[LiveManifest], LiveManifest)
    ensures var (o, e) := Promote(fates, d, run, valid);
            && (LosesManifest(fates, d, run) ==> Gone(e.files, d.files[LiveManifest]))
            && (!o.Promoted? ==> (Gone(e.files, d.files[LiveManifest]) <==> LosesManifest(fates, d, run)))
  {
    PromotionUnderAnyFates(fates, d, run, valid);
    if LosesManifest(fates, d, run) {
      var d0 := Exists(fates, d, StagedManifest(run)).1;
      OverwrittenExactlyWhenDenied(fates, d0, run, valid);
      OverwrittenIsGone(fates, d0, run, valid);
    }
  }

  lemma OverwrittenIsGone(fates: Fates, d: Disk, run: nat, valid: Validator)
    requires LiveManifest in d.files && d.files[LiveManifest].File?
    requires OnlyAt(d.files, d.files[LiveManifest], LiveManifest)
    requires Overwritten(d.files, Forward(fates, d, run, valid))
    ensures var p := Forward(fates, d, run, valid);
            Gone(if p.failed then RollBack(fates, p, run).1.files else CleanUp(fates, p, run).files, d.files[LiveManifest])
  {
    var node, p := d.files[LiveManifest], Forward(fates, d, run, valid);
    ForwardLosesDeniedManifest(fates, d, run, valid);
    hide Forward, UndoPromotion, RestoreBackup;
    if p.failed {
      UndoNeverRevives(fates, p.disk, p.harnessPromoted, LiveHarness, true, node);
      RestoreNeverRevives(fates, HarnessUndone(fates, p), p.harnessBackedUp, BackupHarness(run), LiveHarness, node);
      UndoNeverRevives(fates, HarnessRestored(fates, p, run), p.manifestPromoted, LiveManifest, false, node);
      RestoreNeverRevives(fates, ManifestUndone(fates, p, run), p.manifestBackedUp, BackupManifest(run), LiveManifest, node);
    } else {
      UndoNeverRevives(fates, p.disk, p.harnessBackedUp, BackupHarness(run), true, node);
      var d1 := UndoPromotion(fates, p.disk, p.harnessBackedUp, BackupHarness(run), true).1;
      UndoNeverRevives(fates, d1, p.manifestBackedUp, BackupManifest(run), false, node);
    }
  }

  /** One lie suffices. */
  lemma OneLieLosesTheManifest(valid: Validator)
    ensures Gone(Promote(LieAt(3), Disk(Installed, [], 0), 0, valid).1.files, File(1))
  {
    hide Promote;
    DeniedManifestIsLost(LieAt(3), Disk(Installed, [], 0), 0, valid);
  }

  // ---- exactly when a promotion succeeds ----

  /** The call that asks for the live manifest, once the live harness, if any, has been moved aside. */
  function ManifestCheck(d: Disk): nat {
    d.calls + if LiveHarness in d.files then 3 else 2
  }

  predicate ManifestMoves(fates: Fates, d: Disk) {
    LiveManifest in d.files && !fates(ManifestCheck(d)).Lies?
  }

  /** The call that installs the staged harness; the staged manifest and the validation follow it. */
  function InstallCall(fates: Fates, d: Disk): nat {
    ManifestCheck(d) + if ManifestMoves(fates, d) then 2 else 1
  }

  /** Both live names are out of the way, or seen to be empty. */
  predicate MovesAside(fates: Fates, d: Disk) {
    && (LiveHarness in d.files ==> !fates(d.calls + 1).Lies? && fates(d.calls + 2).Works?)
    && (ManifestMoves(fates, d) ==> fates(ManifestCheck(d) + 1).Works?)
  }

  /** Call by call: the staged manifest is seen and both staged halves are there; the live harness, if any,
      is seen and moved aside, and so is the live manifest if it is seen; both installing renames work; and
      the validation works, on a valid pair. */
  predicate Succeeds(fates: Fates, d: Disk, run: nat, valid: Validator) {
    var c, j := d.calls, InstallCall(fates, d);
    && StagedHarness(run) in d.files && StagedManifest(run) in d.files && !fates(c).Lies?
    && MovesAside(fates, d)
    && fates(j).Works? && fates(j + 1).Works? && fates(j + 2).Works?
    && valid(d.files[StagedHarness(run)], d.files[StagedManifest(run)])
  }

  function BothAside(fates: Fates, d: Disk, run: nat): Progress {
    BackUpManifest(fates, BackUpHarness(fates, Progress(d.(calls := d.calls + 1), false, false, false, false, false), run), run)
  }

  lemma MovesAsideExactly(fates: Fates, d: Disk, run: nat)
    requires Fit(d.files, run)
    ensures var p := BothAside(fates, d, run);
            && (!p.failed && LiveHarness !in p.disk.files <==> MovesAside(fates, d))
            && (MovesAside(fates, d) ==>
                  && p == Progress(p.disk, LiveHarness in d.files, ManifestMoves(fates, d), false, false, false)
                  && p.disk.calls == InstallCall(fates, d)
                  && SameAt(d.files, p.disk.files, StagedHarness(run)) && SameAt(d.files, p.disk.files, StagedManifest(run))
                  && (LiveManifest in p.disk.files ==> p.disk.files[LiveManifest].File?))
  {
  }

  /** A tree is never renamed over a tree. */
  lemma InstallsExactly(fates: Fates, p: Progress, run: nat, valid: Validator)
    requires !p.failed
    requires StagedHarness(run) in p.disk.files ==> !p.disk.files[StagedHarness(run)].File?
    requires StagedManifest(run) in p.disk.files && p.disk.files[StagedManifest(run)].File?
    requires LiveManifest in p.disk.files ==> p.disk.files[LiveManifest].File?
    ensures var f, j := p.disk.files, p.disk.calls;
            var q := ValidateLive(fates, InstallManifest(fates, InstallHarness(fates, p, run), run), valid);
            && (!q.failed <==> LiveHarness !in f && StagedHarness(run) in f
                               && fates(j).Works? && fates(j + 1).Works? && fates(j + 2).Works?
                               && valid(f[StagedHarness(run)], f[StagedManifest(run)]))
            && (!q.failed ==> q.disk.calls == j + 3
                              && q.harnessBackedUp == p.harnessBackedUp && q.manifestBackedUp == p.manifestBackedUp
                              && StagedHarness(run) !in q.disk.files && StagedManifest(run) !in q.disk.files
                              && SameAt(f, q.disk.files, BackupHarness(run)) && SameAt(f, q.disk.files, BackupManifest(run)))
  {
  }

  lemma FailureStays(fates: Fates, p: Progress, run: nat, valid: Validator)
    requires p.failed
    ensures ValidateLive(fates, InstallManifest(fates, InstallHarness(fates, p, run), run), valid) == p
  {
  }

  lemma ForwardSucceedsExactly(fates: Fates, d: Disk, run: nat, valid: Validator)
    requires Fit(d.files, run) && StagedManifest(run) in d.files && !fates(d.calls).Lies?
    ensures var p := Forward(fates, d.(calls := d.calls + 1), run, valid);
            && (!p.failed <==> Succeeds(fates, d, run, valid))
            && (!p.failed ==>
                  && p.disk.calls == InstallCall(fates, d) + 3
                  && p.harnessBackedUp == (LiveHarness in d.files) && p.manifestBackedUp == ManifestMoves(fates, d))
  {
    hide BackUpHarness, BackUpManifest, InstallHarness, InstallManifest, ValidateLive, MovesAside, ManifestMoves;
    MovesAsideExactly(fates, d, run);
    var p := BothAside(fates, d, run);
    BackupsLeaveStaging(fates, d, run);
    if p.failed {
      FailureStays(fates, p, run, valid);
    } else {
      InstallsExactly(fates, p, run, valid);
    }
  }

  lemma BackupsLeaveStaging(fates: Fates, d: Disk, run: nat)
    requires Fit(d.files, run)
    ensures var f := BothAside(fates, d, run).disk.files;
            && SameAt(d.files, f, StagedHarness(run)) && SameAt(d.files, f, StagedManifest(run))
            && (LiveManifest in f ==> f[LiveManifest].File?)
  {
  }

  /** Under any fates at all, a promotion succeeds exactly when those calls go well. */
  lemma PromotedExactly(fates: Fates, d: Disk, run: nat, valid: Validator)
    requires Fit(d.files, run)
    ensures Promote(fates, d, run, valid).0.Promoted? <==> Succeeds(fates, d, run, valid)
  {
    hide Forward, CleanUp, Succeeds, UndoPromotion, RestoreBackup;
    if StagedManifest(run) in d.files && !fates(d.calls).Lies? {
      assert Exists(fates, d, StagedManifest(run)) == (true, d.(calls := d.calls + 1));
      ForwardSucceedsExactly(fates, d, run, valid);
    } else {
      assert !Succeeds(fates, d, run, valid) by { NotStaged(fates, d, run, valid); }
    }
  }

  lemma NotStaged(fates: Fates, d: Disk, run: nat, valid: Validator)
    requires StagedManifest(run) !in d.files || fates(d.calls).Lies?
    ensures !Succeeds(fates, d, run, valid)
  {
  }

  // ---- exactly how far it gets, and what a rollback reports ----

  /** The forward path ends at its first failing call, and the flags say exactly which one that was. */
  lemma ForwardStopsAtTheFirstFailure(fates: Fates, d: Disk, run: nat, valid: Validator)
    requires Fit(d.files, run)
    ensures var f, c, p := d.files, d.calls, Forward(fates, d, run, valid);
            var harness := LiveHarness in f && !fates(c).Lies?;
            var k := if LiveHarness in f && harness then c + 2 else c + 1;
            var manifest := LiveManifest in f && !fates(k).Lies?;
            var j := if manifest then k + 2 else k + 1;
            var end := p.(disk := d, failed := false);
            if harness && !fates(c + 1).Works? then
              p == Progress(d.(calls := c + 2), false, false, false, false, true)
            else if manifest && !fates(k + 1).Works? then
              p.failed && p.disk.calls == k + 2 && end == Progress(d, harness, false, false, false, false)
            else if StagedHarness(run) !in f || (LiveHarness in f && !harness) || !fates(j).Works? then
              p.failed && p.disk.calls == j + 1 && end == Progress(d, harness, manifest, false, false, false)
            else if StagedManifest(run) !in f || !fates(j + 1).Works? then
              p.failed && p.disk.calls == j + 2 && end == Progress(d, harness, manifest, true, false, false)
            else
              && p.disk.calls == j + 3 && end == Progress(d, harness, manifest, true, true, false)
              && (p.failed <==> !(fates(j + 2).Works? && valid(f[StagedHarness(run)], f[StagedManifest(run)])))
  {
    var p0 := Progress(d, false, false, false, false, false);
    var p1 := BackUpHarness(fates, p0, run);
    BackUpsStop(fates, d, run);
    var p2 := BackUpManifest(fates, p1, run);
    hide BackUpHarness, BackUpManifest;
    if p2.failed {
      FailureStays(fates, p2, run, valid);
    } else {
      InstallsStop(fates, p2, run, valid);
    }
    hide InstallHarness, InstallManifest, ValidateLive;
  }

  lemma BackUpsStop(fates: Fates, d: Disk, run: nat)
    requires Fit(d.files, run)
    ensures var f, c := d.files, d.calls;
            var p := BackUpManifest(fates, BackUpHarness(fates, Progress(d, false, false, false, false, false), run), run);
            var harness := LiveHarness in f && !fates(c).Lies?;
            var k := if LiveHarness in f && harness then c + 2 else c + 1;
            var manifest := LiveManifest in f && !fates(k).Lies?;
            var j := if manifest then k + 2 else k + 1;
            if harness && !fates(c + 1).Works? then
              p == Progress(d.(calls := c + 2), false, false, false, false, true)
            else if manifest && !fates(k + 1).Works? then
              p == Progress(p.disk, harness, false, false, false, true) && p.disk.calls == k + 2
            else
              && p == Progress(p.disk, harness, manifest, false, false, false) && p.disk.calls == j
              && SameAt(f, p.disk.files, StagedHarness(run)) && SameAt(f, p.disk.files, StagedManifest(run))
              && (LiveManifest in p.disk.files ==> p.disk.files[LiveManifest].File?)
              && (LiveHarness in p.disk.files <==> LiveHarness in f && !harness)
              && (StagedHarness(run) in f ==> !f[StagedHarness(run)].File?)
              && (StagedManifest(run) in f ==> f[StagedManifest(run)].File?)
  {
  }

  lemma InstallsStop(fates: Fates, p: Progress, run: nat, valid: Validator)
    requires !p.failed
    requires StagedHarness(run) in p.disk.files ==> !p.disk.files[StagedHarness(run)].File?
    requires StagedManifest(run) in p.disk.files ==> p.disk.files[StagedManifest(run)].File?
    requires LiveManifest in p.disk.files ==> p.disk.files[LiveManifest].File?
    requires !p.harnessPromoted && !p.manifestPromoted
    ensures var f, j := p.disk.files, p.disk.calls;
            var q := ValidateLive(fates, InstallManifest(fates, InstallHarness(fates, p, run), run), valid);
            && q.harnessBackedUp == p.harnessBackedUp && q.manifestBackedUp == p.manifestBackedUp
            && if StagedHarness(run) !in f || LiveHarness in f || !fates(j).Works? then
                 q.failed && q.disk.calls == j + 1 && !q.harnessPromoted && !q.manifestPromoted
               else if StagedManifest(run) !in f || !fates(j + 1).Works? then
                 q.failed && q.disk.calls == j + 2 && q.harnessPromoted && !q.manifestPromoted
               else
                 && q.disk.calls == j + 3 && q.harnessPromoted && q.manifestPromoted
                 && (q.failed <==> !(fates(j + 2).Works? && valid(f[StagedHarness(run)], f[StagedManifest(run)])))
  {
  }

  /** The call after a guarded operation that starts at call n, if it is tried at all. */
  function CallAfter(fates: Fates, n: nat, tried: bool): nat {
    if !tried then n else if fates(n).Lies? then n + 1 else n + 2
  }

  lemma UndoExactly(fates: Fates, d: Disk, promoted: bool, p: Path, tree: bool)
    requires promoted ==> p in d.files && d.files[p].File? == !tree
    ensures var (ok, e) := UndoPromotion(fates, d, promoted, p, tree);
            && (ok <==> !(promoted && !fates(d.calls).Lies? && !fates(d.calls + 1).Works?))
            && e.calls == CallAfter(fates, d.calls, promoted) && (!promoted ==> e == d)
            && (promoted ==> (p in e.files <==> fates(d.calls).Lies? || !fates(d.calls + 1).Works?))
            && (promoted && p in e.files ==> (e.files[p].File? <==> d.files[p].File?))
            && forall q :: q != p ==> SameAt(d.files, e.files, q)
  {
  }

  lemma RestoreExactly(fates: Fates, d: Disk, backedUp: bool, backup: Path, live: Path)
    requires backup != live && (backedUp ==> backup in d.files)
    ensures var (ok, e) := RestoreBackup(fates, d, backedUp, backup, live);
            && (ok <==> !(backedUp && !fates(d.calls).Lies? && !(fates(d.calls + 1).Works? && Renamable(d.files, backup, live))))
            && e.calls == CallAfter(fates, d.calls, backedUp)
            && forall q :: q != backup && q != live ==> SameAt(d.files, e.files, q)
  {
  }

  lemma LaidMeansKinds(before: Files, p: Progress, run: nat)
    requires Laid(before, p, run)
    ensures var f := p.disk.files;
            && (p.harnessPromoted ==> LiveHarness in f && !f[LiveHarness].File?)
            && (p.harnessBackedUp ==> BackupHarness(run) in f && !f[BackupHarness(run)].File?)
            && (p.harnessBackedUp && !p.harnessPromoted ==> LiveHarness !in f)
            && (p.manifestPromoted ==> LiveManifest in f && f[LiveManifest].File?)
            && (p.manifestBackedUp ==> BackupManifest(run) in f && f[BackupManifest(run)].File?)
            && (p.manifestBackedUp && !p.manifestPromoted ==> LiveManifest !in f)
  {
    hide Recoverable;
  }

  /** Under any fates, a rollback reports that it is incomplete exactly when a guarded operation of it is
      tried and fails: it does not work, or the old harness is to go where the new one was seen to be gone
      and is not. */
  lemma IncompleteExactly(fates: Fates, before: Files, p: Progress, run: nat)
    requires Laid(before, p, run)
    ensures var c0 := p.disk.calls;
            var c1 := CallAfter(fates, c0, p.harnessPromoted);
            var c2 := CallAfter(fates, c1, p.harnessBackedUp);
            var c3 := CallAfter(fates, c2, p.manifestPromoted);
            var (o, e) := RollBack(fates, p, run);
            && !o.Promoted? && e.calls == CallAfter(fates, c3, p.manifestBackedUp)
            && (o.Incomplete? <==>
                  || (p.harnessPromoted && !fates(c0).Lies? && !fates(c0 + 1).Works?)
                  || (p.harnessBackedUp && !fates(c1).Lies?
                      && (!fates(c1 + 1).Works? || (p.harnessPromoted && fates(c0).Lies?)))
                  || (p.manifestPromoted && !fates(c2).Lies? && !fates(c2 + 1).Works?)
                  || (p.manifestBackedUp && !fates(c3).Lies? && !fates(c3 + 1).Works?))
  {
    hide UndoPromotion, RestoreBackup, Laid;
    LaidMeansKinds(before, p, run);
    var f := p.disk.files;
    var d1, d2, d3 := HarnessUndone(fates, p), HarnessRestored(fates, p, run), ManifestUndone(fates, p, run);
    UndoExactly(fates, p.disk, p.harnessPromoted, LiveHarness, true);
    assert SameAt(f, d1.files, BackupHarness(run));
    RestoreExactly(fates, d1, p.harnessBackedUp, BackupHarness(run), LiveHarness);
    assert SameAt(f, d1.files, LiveManifest) && SameAt(f, d1.files, BackupManifest(run));
    assert SameAt(d1.files, d2.files, LiveManifest) && SameAt(d1.files, d2.files, BackupManifest(run));
    UndoExactly(fates, d2, p.manifestPromoted, LiveManifest, false);
    assert SameAt(d2.files, d3.files, BackupManifest(run));
    RestoreExactly(fates, d3, p.manifestBackedUp, BackupManifest(run), LiveManifest);
  }

  /** Where the clean-up starts on each backup, and where it ends. */
  function CleanHarness(fates: Fates, d: Disk): nat {
    InstallCall(fates, d) + 3
  }

  function CleanManifest(fates: Fates, d: Disk): nat {
    var m := CleanHarness(fates, d);
    if LiveHarness !in d.files then m else if fates(m).Lies? then m + 1 else m + 2
  }

  function CleanEnd(fates: Fates, d: Disk): nat {
    var n := CleanManifest(fates, d);
    if !ManifestMoves(fates, d) then n else if fates(n).Lies? then n + 1 else n + 2
  }

  /** Seen and removed, in the two calls from n on. */
  predicate Dropped(fates: Fates, n: nat) {
    !fates(n).Lies? && fates(n + 1).Works?
  }

  lemma ForwardEndsWith(fates: Fates, d: Disk, run: nat, valid: Validator)
    requires Fit(d.files, run) && Succeeds(fates, d, run, valid)
    ensures var f := Forward(fates, d.(calls := d.calls + 1), run, valid).disk.files;
            && StagedHarness(run) !in f && StagedManifest(run) !in f
            && (BackupHarness(run) in f <==> LiveHarness in d.files)
            && (BackupManifest(run) in f <==> ManifestMoves(fates, d))
            && (BackupHarness(run) in f ==> !f[BackupHarness(run)].File?)
            && (BackupManifest(run) in f ==> f[BackupManifest(run)].File?)
  {
    hide BackUpHarness, BackUpManifest, InstallHarness, InstallManifest, ValidateLive, MovesAside, ManifestMoves, InstallCall;
    MovesAsideExactly(fates, d, run);
    BackupsLeaveStaging(fates, d, run);
    InstallsExactly(fates, BothAside(fates, d, run), run, valid);
    BothAsideBackups(fates, d, run);
  }

  lemma BothAsideBackups(fates: Fates, d: Disk, run: nat)
    requires Fit(d.files, run) && MovesAside(fates, d)
    ensures var f := BothAside(fates, d, run).disk.files;
            && (BackupHarness(run) in f <==> LiveHarness in d.files)
            && (BackupManifest(run) in f <==> ManifestMoves(fates, d))
            && (BackupHarness(run) in f ==> !f[BackupHarness(run)].File?)
            && (BackupManifest(run) in f ==> f[BackupManifest(run)].File?)
  {
  }

  lemma CleanUpEndsWith(fates: Fates, p: Progress, run: nat)
    requires BackupHarness(run) in p.disk.files <==> p.harnessBackedUp
    requires BackupManifest(run) in p.disk.files <==> p.manifestBackedUp
    requires p.harnessBackedUp ==> !p.disk.files[BackupHarness(run)].File?
    requires p.manifestBackedUp ==> p.disk.files[BackupManifest(run)].File?
    ensures var f, g, m := p.disk.files, CleanUp(fates, p, run).files, p.disk.calls;
            var n := if !p.harnessBackedUp then m else if fates(m).Lies? then m + 1 else m + 2;
            && (BackupHarness(run) in g <==> p.harnessBackedUp && !Dropped(fates, m))
            && (BackupManifest(run) in g <==> p.manifestBackedUp && !Dropped(fates, n))
            && (forall q :: q != BackupHarness(run) && q != BackupManifest(run) ==> SameAt(f, g, q))
            && CleanUp(fates, p, run).calls
               == if !p.manifestBackedUp then n else if fates(n).Lies? then n + 1 else n + 2
  {
  }

  /** What a successful promotion leaves beside the new pair: nothing staged, and a backup exactly where
      there was something to back up and the clean-up did not see or could not remove it. */
  lemma PromotedLeavesExactly(fates: Fates, d: Disk, run: nat, valid: Validator)
    requires Fit(d.files, run) && d.trace == [] && Succeeds(fates, d, run, valid)
    ensures var e := Promote(fates, d, run, valid).1;
            && NewPairLive(d.files, e.files, run, valid)
            && StagedHarness(run) !in e.files && StagedManifest(run) !in e.files
            && (BackupHarness(run) in e.files <==> LiveHarness in d.files && !Dropped(fates, CleanHarness(fates, d)))
            && (BackupManifest(run) in e.files <==> ManifestMoves(fates, d) && !Dropped(fates, CleanManifest(fates, d)))
            && e.calls == CleanEnd(fates, d)
  {
    hide Forward, CleanUp, Dropped, ManifestMoves, MovesAside, NewPairLive, InstallCall, UndoPromotion, RestoreBackup;
    PromotionUnderAnyFates(fates, d, run, valid);
    PromotedExactly(fates, d, run, valid);
    ForwardSucceedsExactly(fates, d, run, valid);
    ForwardEndsWith(fates, d, run, valid);
    var p := Forward(fates, d.(calls := d.calls + 1), run, valid);
    CleanUpEndsWith(fates, p, run);
    assert SameAt(p.disk.files, CleanUp(fates, p, run).files, StagedHarness(run));
    assert SameAt(p.disk.files, CleanUp(fates, p, run).files, StagedManifest(run));
  }

  // ---- other runs' names ----

  ghost predicate Foreign(p: Path, run: nat) {
    !p.LiveHarness? && !p.LiveManifest? && p.run != run
  }

  /** A promotion never touches the names of another run, so backups an earlier crash left stay. */
  lemma PromotionSparesOtherRuns(fates: Fates, d: Disk, run: nat, valid: Validator, q: Path)
    requires Foreign(q, run)
    ensures SameAt(d.files, Promote(fates, d, run, valid).1.files, q)
  {
    hide Forward;
    var d0 := Exists(fates, d, StagedManifest(run)).1;
    ForwardSparesOtherRuns(fates, d0, run, valid, q);
    var p := Forward(fates, d0, run, valid);
    if p.failed {
      var d1 := UndoPromotion(fates, p.disk, p.harnessPromoted, LiveHarness, true).1;
      UndoTouchesOneName(fates, p.disk, p.harnessPromoted, LiveHarness, true);
      var d2 := RestoreBackup(fates, d1, p.harnessBackedUp, BackupHarness(run), LiveHarness).1;
      RestoreTouchesTwoNames(fates, d1, p.harnessBackedUp, BackupHarness(run), LiveHarness);
      var d3 := UndoPromotion(fates, d2, p.manifestPromoted, LiveManifest, false).1;
      UndoTouchesOneName(fates, d2, p.manifestPromoted, LiveManifest, false);
      RestoreTouchesTwoNames(fates, d3, p.manifestBackedUp, BackupManifest(run), LiveManifest);
      assert SameAt(p.disk.files, d1.files, q) && SameAt(d1.files, d2.files, q) && SameAt(d2.files, d3.files, q);
    } else {
      var d1 := UndoPromotion(fates, p.disk, p.harnessBackedUp, BackupHarness(run), true).1;
      UndoTouchesOneName(fates, p.disk, p.harnessBackedUp, BackupHarness(run), true);
      UndoTouchesOneName(fates, d1, p.manifestBackedUp, BackupManifest(run), false);
      assert SameAt(p.disk.files, d1.files, q);
    }
  }

  lemma ForwardSparesOtherRuns(fates: Fates, d: Disk, run: nat, valid: Validator, q: Path)
    requires Foreign(q, run)
    ensures SameAt(d.files, Forward(fates, d, run, valid).disk.files, q)
  {
    var p1 := BackUpHarness(fates, Progress(d, false, false, false, false, false), run);
    var p2 := BackUpManifest(fates, p1, run);
    var p3 := InstallHarness(fates, p2, run);
    assert SameAt(d.files, p1.disk.files, q) && SameAt(p1.disk.files, p2.disk.files, q);
    assert SameAt(p2.disk.files, p3.disk.files, q);
  }

  // ---- when every call works ----

  ghost predicate AllWork(fates: Fates) {
    forall n :: fates(n).Works?
  }

  /** The staged pair in place of the live one, and nothing else changed. */
  function Replaced(f: Files, run: nat): Files
    requires StagedHarness(run) in f && StagedManifest(run) in f
  {
    f[LiveHarness := f[StagedHarness(run)]][LiveManifest := f[StagedManifest(run)]] - {StagedHarness(run), StagedManifest(run)}
  }

  lemma SameByNames(f: Files, g: Files)
    requires forall q :: SameAt(f, g, q)
    ensures f == g
  {
    forall q
      ensures q in f <==> q in g
    {
      assert SameAt(f, g, q);
    }
    forall q | q in f
      ensures f[q] == g[q]
    {
      assert SameAt(f, g, q);
    }
  }

  lemma WorkingPromotionReplaces(fates: Fates, d: Disk, run: nat, valid: Validator)
    requires Fit(d.files, run) && d.trace == [] && AllWork(fates) && Succeeds(fates, d, run, valid)
    ensures Promote(fates, d, run, valid).1.files == Replaced(d.files, run)
  {
    hide Promote, Succeeds;
    PromotedLeavesExactly(fates, d, run, valid);
    var e := Promote(fates, d, run, valid).1.files;
    forall q | Foreign(q, run)
      ensures SameAt(d.files, e, q)
    {
      PromotionSparesOtherRuns(fates, d, run, valid, q);
    }
    ReplacedByNames(d.files, e, run, valid);
  }

  lemma ReplacedByNames(before: Files, f: Files, run: nat, valid: Validator)
    requires Fit(before, run) && NewPairLive(before, f, run, valid)
    requires StagedHarness(run) !in f && StagedManifest(run) !in f
    requires BackupHarness(run) !in f && BackupManifest(run) !in f
    requires forall q :: Foreign(q, run) ==> SameAt(before, f, q)
    ensures f == Replaced(before, run)
  {
    forall q
      ensures SameAt(f, Replaced(before, run), q)
    {
      assert Foreign(q, run) ==> SameAt(before, f, q);
      match q
      case LiveHarness =>
      case LiveManifest =>
      case BackupHarness(r) => assert r == run ==> q == BackupHarness(run);
      case BackupManifest(r) => assert r == run ==> q == BackupManifest(run);
      case StagedHarness(r) => assert r == run ==> q == StagedHarness(run);
      case StagedManifest(r) => assert r == run ==> q == StagedManifest(run);
    }
    SameByNames(f, Replaced(before, run));
  }

  lemma WorkingHalfComesBack(fates: Fates, before: Files, d: Disk, h: Half, backedUp: bool, promoted: bool, tree: bool)
    requires AllWork(fates) && h.live != h.backup && Side(before, d.files, h, backedUp, promoted)
    requires h.live in before ==> before[h.live].File? == !tree
    requires h.staged in before ==> before[h.staged].File? == !tree
    ensures UndoPromotion(fates, d, promoted, h.live, tree).0
    ensures var e := UndoPromotion(fates, d, promoted, h.live, tree).1; RestoreBackup(fates, e, backedUp, h.backup, h.live).0
  {
  }

  lemma WorkingRollBack(fates: Fates, before: Files, p: Progress, run: nat)
    requires AllWork(fates) && Recoverable(before, p, run) && p.failed
    ensures RollBack(fates, p, run).0.Rethrown?
  {
    FitMeansKinds(before, run);
    var d2 := HarnessRestored(fates, p, run);
    var mh := ManifestHalf(run);
    WorkingHalfComesBack(fates, before, p.disk, HarnessHalf(run), p.harnessBackedUp, p.harnessPromoted, true);
    HarnessStepsSpareManifest(fates, p, run);
    SideElsewhere(before, p.disk.files, d2.files, mh, p.manifestBackedUp, p.manifestPromoted);
    WorkingHalfComesBack(fates, before, d2, mh, p.manifestBackedUp, p.manifestPromoted, false);
    NoErrorsMeansRethrown(fates, p, run);
  }

  /** So when every call works, a valid staged pair replaces what is live, whatever that is, and the disk
      is otherwise as it was; an incomplete or invalid pair is refused, and the live names are as before. */
  lemma WorkingCallsPromote(fates: Fates, d: Disk, run: nat, valid: Validator)
    requires Fit(d.files, run) && d.trace == [] && AllWork(fates)
    ensures var (o, e) := Promote(fates, d, run, valid);
            if StagedHarness(run) in d.files && StagedManifest(run) in d.files
               && valid(d.files[StagedHarness(run)], d.files[StagedManifest(run)])
            then o.Promoted? && e.files == Replaced(d.files, run)
            else o.Rethrown? && AsBefore(d.files, e.files, run)
  {
    PromotedExactly(fates, d, run, valid);
    if Succeeds(fates, d, run, valid) {
      WorkingPromotionReplaces(fates, d, run, valid);
    } else {
      PromotionEndsInOneOfThreeWays(fates, d, run, valid);
      WorkingRefusal(fates, d, run, valid);
    }
    hide Promote;
  }

  lemma WorkingRefusal(fates: Fates, d: Disk, run: nat, valid: Validator)
    requires Fit(d.files, run) && d.trace == [] && AllWork(fates)
    ensures !Promote(fates, d, run, valid).0.Incomplete?
  {
    var (staged, d0) := Exists(fates, d, StagedManifest(run));
    if staged {
      ForwardLays(fates, d0, run, valid);
      OverwrittenExactlyWhenDenied(fates, d0, run, valid);
      var p := Forward(fates, d0, run, valid);
      if p.failed {
        WorkingRollBack(fates, d.files, p, run);
      }
    }
    hide Forward, RollBack, CleanUp;
  }

  // ---- the bootstrap ----

  /** What the release check and the download come to. */
  datatype Offer = Offer(available: bool, versionAccepted: bool, hasDigest: bool, arrives: bool, harness: Node, manifest: Node)

  datatype Answer = ReadyExisting | ReadyDownloaded | Thrown

  function RemoveStaging(fates: Fates, d: Disk, run: nat): (bool, Disk) {
    if fates(d.calls).Works? then
      var f := d.files - {StagedHarness(run), StagedManifest(run)};
      (true, Disk(f, d.trace + [f], d.calls + 1))
    else
      (false, d.(calls := d.calls + 1))
  }

  /** installHarnessRuntime once the archive has been fetched: stage, validate, promote, tidy up. */
  function Install(fates: Fates, d: Disk, run: nat, valid: Validator, offer: Offer): (bool, Disk) {
    if !offer.hasDigest then (false, d)
    else if !offer.arrives then (false, RemoveStaging(fates, d, run).1)
    else
      var f := d.files[StagedHarness(run) := offer.harness][StagedManifest(run) := offer.manifest];
      var d1 := Disk(f, d.trace + [f], d.calls);
      if !(fates(d1.calls).Works? && valid(offer.harness, offer.manifest)) then
        (false, RemoveStaging(fates, d1.(calls := d1.calls + 1), run).1)
      else
        var (o, d2) := Promote(fates, Disk(f, [], d1.calls + 1), run, valid);
        var (tidy, d3) := RemoveStaging(fates, d2.(trace := d1.trace + d2.trace), run);
        (o.Promoted? && tidy, d3)
  }

  function Ensure(fates: Fates, d: Disk, run: nat, valid: Validator, abiMatches: bool, offer: Offer): (Answer, Disk) {
    if !abiMatches then (Thrown, d) else
    var (h, d1) := Exists(fates, d, LiveHarness);
    var (m, d2) := if h then Exists(fates, d1, LiveManifest) else (false, d1);
    var (ok, d3) := if m then Validate(fates, d2, valid) else (false, d2);
    if ok then (ReadyExisting, d3)
    else if !offer.available || !offer.versionAccepted then (Thrown, d3)
    else
      var (installed, d4) := Install(fates, d3, run, valid, offer);
      if !installed then (Thrown, d4) else
      var (again, d5) := Validate(fates, d4, valid);
      (if again then ReadyDownloaded else Thrown, d5)
  }

  /** Whatever an earlier crash left behind, a bootstrap that reports ready leaves a live pair that
      validates, and one that finds such a pair does not touch the disk. */
  lemma ReadyMeansValid(fates: Fates, d: Disk, run: nat, valid: Validator, abiMatches: bool, offer: Offer)
    ensures var (a, e) := Ensure(fates, d, run, valid, abiMatches, offer);
            && (!a.Thrown? ==> abiMatches && LivePairValid(valid, e.files))
            && (a.ReadyExisting? ==> e.files == d.files && e.trace == d.trace)
    ensures (abiMatches && LivePairValid(valid, d.files) && forall n :: d.calls <= n < d.calls + 3 ==> fates(n).Works?) ==>
              Ensure(fates, d, run, valid, abiMatches, offer).0.ReadyExisting?
  {
  }

  /** The disk a promotion starts from, with what was downloaded staged beside it. */
  function StagedDisk(d: Disk, run: nat, offer: Offer): Disk {
    Disk(d.files[StagedHarness(run) := offer.harness][StagedManifest(run) := offer.manifest], [], d.calls + 1)
  }

  /** A download with a digest arrives and validates, its promotion succeeds and its staging is tidied up. */
  predicate InstallSucceeds(fates: Fates, d: Disk, run: nat, valid: Validator, offer: Offer) {
    && offer.hasDigest && offer.arrives && fates(d.calls).Works? && valid(offer.harness, offer.manifest)
    && Succeeds(fates, StagedDisk(d, run, offer), run, valid)
    && fates(CleanEnd(fates, StagedDisk(d, run, offer))).Works?
  }

  /** The downloaded pair is live, and nothing is staged. */
  ghost predicate OfferLive(f: Files, run: nat, valid: Validator, offer: Offer) {
    && Holds(f, LiveHarness, offer.harness) && Holds(f, LiveManifest, offer.manifest) && LivePairValid(valid, f)
    && StagedHarness(run) !in f && StagedManifest(run) !in f
  }

  /** Promoting from the middle of a run: only the trace differs. */
  lemma RemoveStagingWorksExactly(fates: Fates, d: Disk, run: nat)
    ensures var (ok, e) := RemoveStaging(fates, d, run);
            && (ok <==> fates(d.calls).Works?) && e.calls == d.calls + 1
            && (ok ==> StagedHarness(run) !in e.files && StagedManifest(run) !in e.files)
            && (ok ==> e.files == d.files - {StagedHarness(run), StagedManifest(run)})
            && SameAt(d.files, e.files, LiveHarness) && SameAt(d.files, e.files, LiveManifest)
  {
  }

  /** Under any fates, exactly when an installation succeeds; its pair is then the live one. */
  lemma InstalledExactly(fates: Fates, d: Disk, run: nat, valid: Validator, offer: Offer)
    requires Fit(d.files, run) && !offer.harness.File? && offer.manifest.File?
    ensures var (ok, e) := Install(fates, d, run, valid, offer);
            && (ok <==> InstallSucceeds(fates, d, run, valid, offer))
            && (ok ==> OfferLive(e.files, run, valid, offer) && e.calls == CleanEnd(fates, StagedDisk(d, run, offer)) + 1)
  {
    hide Promote, RemoveStaging, Succeeds, CleanEnd, Fit;
    var start := StagedDisk(d, run, offer);
    StagingIsAside(d.files, start.files, run, run + 1, valid, offer);
    PromotedExactly(fates, start, run, valid);
    if Succeeds(fates, start, run, valid) {
      PromotedLeavesExactly(fates, start, run, valid);
    }
    var d2 := Promote(fates, start, run, valid).1;
    RemoveStagingWorksExactly(fates, d2.(trace := d.trace + [start.files] + d2.trace), run);
  }

  /** The look at what is installed: what it finds, and the call after it. */
  predicate FindsLive(fates: Fates, d: Disk, valid: Validator) {
    var c := d.calls;
    LivePairValid(valid, d.files) && !fates(c).Lies? && !fates(c + 1).Lies? && fates(c + 2).Works?
  }

  function LookEnd(fates: Fates, d: Disk): nat {
    d.calls + if LiveHarness !in d.files || fates(d.calls).Lies? then 1
              else if LiveManifest !in d.files || fates(d.calls + 1).Lies? then 2 else 3
  }

  /** A bootstrap downloads and installs exactly when the ABI matches, no valid pair is found, a release is
      offered and accepted, the installation succeeds and the last validation works. */
  predicate Downloads(fates: Fates, d: Disk, run: nat, valid: Validator, abiMatches: bool, offer: Offer) {
    var look := d.(calls := LookEnd(fates, d));
    && abiMatches && !FindsLive(fates, d, valid) && offer.available && offer.versionAccepted
    && InstallSucceeds(fates, look, run, valid, offer)
    && fates(CleanEnd(fates, StagedDisk(look, run, offer)) + 1).Works?
  }

  /** Under any fates, what a bootstrap comes to. */
  lemma EnsureExactly(fates: Fates, d: Disk, run: nat, valid: Validator, abiMatches: bool, offer: Offer)
    requires Fit(d.files, run) && !offer.harness.File? && offer.manifest.File?
    ensures var (a, e) := Ensure(fates, d, run, valid, abiMatches, offer);
            && (a.ReadyExisting? <==> abiMatches && FindsLive(fates, d, valid))
            && (a.ReadyDownloaded? <==> Downloads(fates, d, run, valid, abiMatches, offer))
            && (a.ReadyDownloaded? ==> OfferLive(e.files, run, valid, offer))
  {
    hide Install, InstallSucceeds, CleanEnd, Fit;
    var look := d.(calls := LookEnd(fates, d));
    InstalledExactly(fates, look, run, valid, offer);
  }

  /** An offer that can be installed. */
  predicate Acceptable(valid: Validator, offer: Offer) {
    && offer.available && offer.versionAccepted && offer.hasDigest && offer.arrives
    && valid(offer.harness, offer.manifest)
  }

  lemma WorkingInstallSucceeds(fates: Fates, d: Disk, run: nat, valid: Validator, offer: Offer)
    requires AllWork(fates)
    ensures InstallSucceeds(fates, d, run, valid, offer)
            <==> offer.hasDigest && offer.arrives && valid(offer.harness, offer.manifest)
  {
  }

  lemma RefusalSparesOthers(fates: Fates, d: Disk, run: nat, valid: Validator, offer: Offer)
    requires !offer.hasDigest || !offer.arrives || !fates(d.calls).Works? || !valid(offer.harness, offer.manifest)
    ensures SameButStaging(d.files, Install(fates, d, run, valid, offer).1.files, run)
  {
    hide Promote, RemoveStaging;
    var start := StagedDisk(d, run, offer);
    var d1 := Disk(start.files, d.trace + [start.files], d.calls + 1);
    RemoveStagingSpares(fates, d, run);
    RemoveStagingSpares(fates, d1, run);
    assert Install(fates, d, run, valid, offer).1 == d
           || Install(fates, d, run, valid, offer).1 == RemoveStaging(fates, d, run).1
           || Install(fates, d, run, valid, offer).1 == RemoveStaging(fates, d1, run).1;
    forall q: Path | q != StagedHarness(run) && q != StagedManifest(run)
      ensures SameAt(d.files, Install(fates, d, run, valid, offer).1.files, q)
    {
      assert SameAt(d.files, start.files, q);
      assert SameAt(start.files, RemoveStaging(fates, d1, run).1.files, q);
    }
  }

  lemma WorkingInstallReplaces(fates: Fates, d: Disk, run: nat, valid: Validator, offer: Offer)
    requires AllWork(fates) && Fit(d.files, run) && !offer.harness.File? && offer.manifest.File?
    requires offer.hasDigest && offer.arrives && valid(offer.harness, offer.manifest)
    ensures Install(fates, d, run, valid, offer).1.files == Replaced(StagedDisk(d, run, offer).files, run)
  {
    hide Promote, RemoveStaging, Fit, Replaced;
    var start := StagedDisk(d, run, offer);
    StagingIsAside(d.files, start.files, run, run + 1, valid, offer);
    WorkingCallsPromote(fates, start, run, valid);
    var d2 := Promote(fates, start, run, valid).1;
    RemoveStagingWorksExactly(fates, d2.(trace := d.trace + [start.files] + d2.trace), run);
    ReplacedIsTidy(start.files, run);
  }

  /** However an installation that began ends, it tidies up its staging, as far as that call works. */
  lemma StagingIsTidied(fates: Fates, d: Disk, run: nat, valid: Validator, offer: Offer)
    requires AllWork(fates) && offer.hasDigest
    ensures var f := Install(fates, d, run, valid, offer).1.files; StagedHarness(run) !in f && StagedManifest(run) !in f
  {
    hide Promote, RemoveStaging;
    var start := StagedDisk(d, run, offer);
    var d1 := Disk(start.files, d.trace + [start.files], d.calls + 1);
    var d2 := Promote(fates, start, run, valid).1;
    RemoveStagingWorksExactly(fates, d, run);
    RemoveStagingWorksExactly(fates, d1, run);
    RemoveStagingWorksExactly(fates, d2.(trace := d.trace + [start.files] + d2.trace), run);
  }

  lemma ReplacedIsTidy(f: Files, run: nat)
    requires StagedHarness(run) in f && StagedManifest(run) in f
    ensures Replaced(f, run) - {StagedHarness(run), StagedManifest(run)} == Replaced(f, run)
  {
  }

  lemma Unchanged(f: Files, run: nat)
    ensures SameButStaging(f, f, run)
  {
  }

  /** When every call works a bootstrap ends as it should: with a valid live pair it changes nothing;
      without one it puts an acceptable offer in its place, and nothing else changes; and it throws only
      when there is neither, with everything but the staged names as it was. */
  lemma WorkingBootstrap(fates: Fates, d: Disk, run: nat, valid: Validator, abiMatches: bool, offer: Offer)
    requires AllWork(fates) && Fit(d.files, run) && !offer.harness.File? && offer.manifest.File?
    ensures var (a, e) := Ensure(fates, d, run, valid, abiMatches, offer);
            if abiMatches && LivePairValid(valid, d.files) then a.ReadyExisting? && e.files == d.files
            else if abiMatches && Acceptable(valid, offer) then
              a.ReadyDownloaded? && e.files == Replaced(StagedDisk(d, run, offer).files, run)
            else a.Thrown? && SameButStaging(d.files, e.files, run)
  {
    var look := d.(calls := LookEnd(fates, d));
    hide Install, InstallSucceeds, CleanEnd, Fit, SameButStaging, Replaced;
    EnsureExactly(fates, d, run, valid, abiMatches, offer);
    WorkingInstallSucceeds(fates, look, run, valid, offer);
    InstalledExactly(fates, look, run, valid, offer);
    if InstallSucceeds(fates, look, run, valid, offer) {
      WorkingInstallReplaces(fates, look, run, valid, offer);
    } else {
      RefusalSparesOthers(fates, look, run, valid, offer);
    }
    Unchanged(d.files, run);
  }

  /** The names of the crashed run are as they were; and a validated pair is live, or what was live
      still lies under its live name or the backup name of this run. */
  ghost predicate NothingLost(before: Files, f: Files, run: nat, crashed: nat, valid: Validator) {
    && SameAt(before, f, BackupHarness(crashed)) && SameAt(before, f, BackupManifest(crashed))
    && (LivePairValid(valid, f) || BothKept(before, f, run))
  }

  /** f and g differ at most in the staged names. */
  ghost predicate SameButStaging(f: Files, g: Files, run: nat) {
    forall q: Path :: q != StagedHarness(run) && q != StagedManifest(run) ==> SameAt(f, g, q)
  }

  lemma StagingDoesNotMatter(before: Files, f: Files, g: Files, run: nat, crashed: nat, valid: Validator)
    requires SameButStaging(f, g, run) && crashed != run
    requires NothingLost(before, f, run, crashed, valid)
    ensures NothingLost(before, g, run, crashed, valid)
  {
    assert SameAt(f, g, LiveHarness) && SameAt(f, g, LiveManifest);
    assert SameAt(f, g, BackupHarness(run)) && SameAt(f, g, BackupManifest(run));
    assert SameAt(f, g, BackupHarness(crashed)) && SameAt(f, g, BackupManifest(crashed));
  }

  lemma RemoveStagingSpares(fates: Fates, d: Disk, run: nat)
    ensures SameButStaging(d.files, RemoveStaging(fates, d, run).1.files, run)
  {
  }

  lemma PromoteLosesNothing(fates: Fates, before: Files, d: Disk, run: nat, crashed: nat, valid: Validator)
    requires Fit(d.files, run) && d.trace == [] && Honest(fates) && crashed != run
    requires SameButStaging(before, d.files, run)
    ensures NothingLost(before, Promote(fates, d, run, valid).1.files, run, crashed, valid)
  {
    PromotionEndsInOneOfThreeWays(fates, d, run, valid);
    PromotionSparesOtherRuns(fates, d, run, valid, BackupHarness(crashed));
    PromotionSparesOtherRuns(fates, d, run, valid, BackupManifest(crashed));
    assert SameAt(before, d.files, LiveHarness) && SameAt(before, d.files, LiveManifest);
    assert SameAt(before, d.files, BackupHarness(crashed)) && SameAt(before, d.files, BackupManifest(crashed));
  }

  lemma StagingIsAside(before: Files, f: Files, run: nat, crashed: nat, valid: Validator, offer: Offer)
    requires Fit(before, run) && !offer.harness.File? && offer.manifest.File?
    requires f == before[StagedHarness(run) := offer.harness][StagedManifest(run) := offer.manifest]
    ensures SameButStaging(before, f, run) && Fit(f, run) && NothingLost(before, before, run, crashed, valid)
  {
  }

  lemma InstallLosesNothing(fates: Fates, d: Disk, run: nat, crashed: nat, valid: Validator, offer: Offer)
    requires Fit(d.files, run) && Honest(fates) && crashed != run
    requires !offer.harness.File? && offer.manifest.File?
    ensures NothingLost(d.files, Install(fates, d, run, valid, offer).1.files, run, crashed, valid)
  {
    hide Promote, RemoveStaging, NothingLost, SameButStaging, Fit;
    var f := d.files[StagedHarness(run) := offer.harness][StagedManifest(run) := offer.manifest];
    StagingIsAside(d.files, f, run, crashed, valid, offer);
    if !offer.hasDigest {
    } else if !offer.arrives {
      RemoveStagingSpares(fates, d, run);
      StagingDoesNotMatter(d.files, d.files, RemoveStaging(fates, d, run).1.files, run, crashed, valid);
    } else if !(fates(d.calls).Works? && valid(offer.harness, offer.manifest)) {
      var d1 := Disk(f, d.trace + [f], d.calls + 1);
      StagingDoesNotMatter(d.files, d.files, f, run, crashed, valid);
      RemoveStagingSpares(fates, d1, run);
      StagingDoesNotMatter(d.files, f, RemoveStaging(fates, d1, run).1.files, run, crashed, valid);
    } else {
      var start := Disk(f, [], d.calls + 1);
      PromoteLosesNothing(fates, d.files, start, run, crashed, valid);
      var d2 := Promote(fates, start, run, valid).1;
      var d3 := d2.(trace := d.trace + [f] + d2.trace);
      RemoveStagingSpares(fates, d3, run);
      StagingDoesNotMatter(d.files, d2.files, RemoveStaging(fates, d3, run).1.files, run, crashed, valid);
    }
  }

  /** A bootstrap after a crash cannot make things worse, however it ends. */
  lemma BootstrapAfterCrashLosesNothing(
    fates: Fates, d: Disk, run: nat, crashed: nat, valid: Validator, abiMatches: bool, offer: Offer)
    requires Fit(d.files, run) && Honest(fates) && crashed != run
    requires !offer.harness.File? && offer.manifest.File?
    ensures NothingLost(d.files, Ensure(fates, d, run, valid, abiMatches, offer).1.files, run, crashed, valid)
  {
    var (h, d1) := Exists(fates, d, LiveHarness);
    var (m, d2) := if h then Exists(fates, d1, LiveManifest) else (false, d1);
    var (ok, d3) := if m then Validate(fates, d2, valid) else (false, d2);
    assert d3.files == d.files;
    InstallLosesNothing(fates, d3, run, crashed, valid, offer);
    assert NothingLost(d.files, d.files, run, crashed, valid);
  }

  // ---- the code in its own form ----

  /** A file system whose calls do what `fates` says. */
  class FileSystem {
    const fates: Fates
    var disk: Disk

    constructor (fates: Fates, files: Files)
      ensures this.fates == fates && disk == Disk(files, [], 0)
    {
      this.fates := fates;
      disk := Disk(files, [], 0);
    }

    method ExistsSync(p: Path) returns (there: bool)
      modifies this
      ensures (there, disk) == Exists(fates, old(disk), p)
    {
      there := p in disk.files && !fates(disk.calls).Lies?;
      disk := disk.(calls := disk.calls + 1);
    }

    method RenameSync(from: Path, to: Path) returns (ok: bool)
      modifies this
      ensures (ok, disk) == Rename(fates, old(disk), from, to)
    {
      ok := fates(disk.calls).Works? && Renamable(disk.files, from, to);
      if ok {
        var f := disk.files[to := disk.files[from]] - {from};
        disk := Disk(f, disk.trace + [f], disk.calls);
      }
      disk := disk.(calls := disk.calls + 1);
    }

    method RmSync(p: Path, recursive: bool) returns (ok: bool)
      modifies this
      ensures (ok, disk) == Remove(fates, old(disk), p, recursive)
    {
      var fate := fates(disk.calls);
      ok := p !in disk.files || (fate.Works? && (recursive || disk.files[p].File?));
      if p in disk.files {
        if !disk.files[p].File? && recursive && (fate.Works? || fate.FailsPartway?) {
          var halfway := disk.files[p := Debris];
          disk := Disk(halfway, disk.trace + [halfway], disk.calls);
        }
        if ok {
          var gone := disk.files - {p};
          assert gone == old(disk.files) - {p};
          ghost var halfway := old(disk.files)[p := Debris];
          assert old(disk.trace) + [halfway] + [gone] == old(disk.trace) + [halfway, gone];
          disk := Disk(gone, disk.trace + [gone], disk.calls);
        }
      }
      disk := disk.(calls := disk.calls + 1);
    }

    method CheckLive(valid: Validator) returns (ok: bool)
      modifies this
      ensures (ok, disk) == Validate(fates, old(disk), valid)
    {
      ok := fates(disk.calls).Works? && LivePairValid(valid, disk.files);
      disk := disk.(calls := disk.calls + 1);
    }
  }

  /** attemptRollback around a guarded removal: true when no error was collected. */
  method AttemptRemoval(fs: FileSystem, flag: bool, p: Path, recursive: bool) returns (ok: bool)
    modifies fs
    ensures (ok, fs.disk) == UndoPromotion(fs.fates, old(fs.disk), flag, p, recursive)
  {
    ok := true;
    if flag {
      var there := fs.ExistsSync(p);
      if there {
        ok := fs.RmSync(p, recursive);
      }
    }
  }

  method AttemptRestore(fs: FileSystem, flag: bool, backup: Path, live: Path) returns (ok: bool)
    modifies fs
    ensures (ok, fs.disk) == RestoreBackup(fs.fates, old(fs.disk), flag, backup, live)
  {
    ok := true;
    if flag {
      var there := fs.ExistsSync(backup);
      if there {
        ok := fs.RenameSync(backup, live);
      }
    }
  }

  /** The try block, with its four flags. */
  method RunForward(fs: FileSystem, run: nat, valid: Validator) returns (p: Progress)
    modifies fs
    ensures p == Forward(fs.fates, old(fs.disk), run, valid) && p.disk == fs.disk
  {
    ghost var p0 := Progress(fs.disk, false, false, false, false, false);
    var harnessBackedUp, manifestBackedUp, harnessPromoted, manifestPromoted := false, false, false, false;
    var ok := true;
    var there := fs.ExistsSync(LiveHarness);
    if there {
      ok := fs.RenameSync(LiveHarness, BackupHarness(run));
      harnessBackedUp := ok;
    }
    ghost var p1 := Progress(fs.disk, harnessBackedUp, false, false, false, !ok);
    assert p1 == BackUpHarness(fs.fates, p0, run);
    if ok {
      there := fs.ExistsSync(LiveManifest);
      if there {
        ok := fs.RenameSync(LiveManifest, BackupManifest(run));
        manifestBackedUp := ok;
      }
    }
    ghost var p2 := Progress(fs.disk, harnessBackedUp, manifestBackedUp, false, false, !ok);
    assert p2 == BackUpManifest(fs.fates, p1, run);
    if ok {
      ok := fs.RenameSync(StagedHarness(run), LiveHarness);
      harnessPromoted := ok;
    }
    ghost var p3 := Progress(fs.disk, harnessBackedUp, manifestBackedUp, harnessPromoted, false, !ok);
    assert p3 == InstallHarness(fs.fates, p2, run);
    if ok {
      ok := fs.RenameSync(StagedManifest(run), LiveManifest);
      manifestPromoted := ok;
    }
    ghost var p4 := Progress(fs.disk, harnessBackedUp, manifestBackedUp, harnessPromoted, manifestPromoted, !ok);
    assert p4 == InstallManifest(fs.fates, p3, run);
    if ok {
      ok := fs.CheckLive(valid);
    }
    p := Progress(fs.disk, harnessBackedUp, manifestBackedUp, harnessPromoted, manifestPromoted, !ok);
  }

  method PromoteHarnessRuntime(fs: FileSystem, run: nat, valid: Validator) returns (outcome: Outcome)
    modifies fs
    ensures (outcome, fs.disk) == Promote(fs.fates, old(fs.disk), run, valid)
  {
    var staged := fs.ExistsSync(StagedManifest(run));
    if !staged {
      return Rethrown;
    }
    var p := RunForward(fs, run, valid);
    if p.failed {
      var ok1 := AttemptRemoval(fs, p.harnessPromoted, LiveHarness, true);
      var ok2 := AttemptRestore(fs, p.harnessBackedUp, BackupHarness(run), LiveHarness);
      var ok3 := AttemptRemoval(fs, p.manifestPromoted, LiveManifest, false);
      var ok4 := AttemptRestore(fs, p.manifestBackedUp, BackupManifest(run), LiveManifest);
      return if ok1 && ok2 && ok3 && ok4 then Rethrown else Incomplete;
    }
    var _ := AttemptRemoval(fs, p.harnessBackedUp, BackupHarness(run), true);
    var _ := AttemptRemoval(fs, p.manifestBackedUp, BackupManifest(run), false);
    outcome := Promoted;
  }
}
