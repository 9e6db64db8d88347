/**
The rotating log file (apps/shell/src/main/logger.ts, RotatingDestination). File 0 is app.log and
file i is app.log.i. `renames` decides call by call whether a rename works; rotation ignores those
that do not.
*/
module RotatingLog {
  import opened Common

  type Bytes = seq<bv8>

  type Files = map<nat, Bytes>

  type Renames = nat -> bool

  type Count = n: nat | n >= 1 witness 1

  datatype Limits = Limits(maxBytes: nat, maxFiles: Count)

  /** The constructor's clamping of its options. */
  function Clamp(maxBytes: int, maxFiles: int): Limits {
    Limits(if maxBytes < 1_024 then 1_024 else maxBytes, if maxFiles < 1 then 1 else maxFiles)
  }

  datatype Log = Log(files: Files, bytes: nat, calls: nat)

  /** One guarded rename of the rotation. */
  function MoveUp(renames: Renames, log: Log, i: nat): Log {
    if i !in log.files then log
    else
      log.(files := if renames(log.calls) then log.files[i + 1 := log.files[i]] - {i} else log.files,
           calls := log.calls + 1)
  }

  /** The loop over the archives, from number i down to 1. */
  function MoveArchives(renames: Renames, log: Log, i: nat): Log
    decreases i
  {
    if i == 0 then log else MoveArchives(renames, MoveUp(renames, log, i), i - 1)
  }

  function Rotate(renames: Renames, limits: Limits, log: Log): Log
  {
    var moved := MoveUp(renames, MoveArchives(renames, log, limits.maxFiles - 1), 0);
    moved.(files := if 0 in moved.files then moved.files else moved.files[0 := []], bytes := 0)
  }

  predicate MustRotate(limits: Limits, log: Log, chunk: Bytes) {
    log.bytes > 0 && log.bytes + |chunk| > limits.maxBytes
  }

  /** _write, when writeSync accepts the first `written` bytes of the chunk. */
  function Write(renames: Renames, limits: Limits, log: Log, chunk: Bytes, written: nat): Log
    requires written <= |chunk|
  {
    var ready := if MustRotate(limits, log, chunk) then Rotate(renames, limits, log) else log;
    var content := if 0 in ready.files then ready.files[0] else [];
    ready.(files := ready.files[0 := content + chunk[..written]], bytes := ready.bytes + written)
  }

  /** A fresh log in an empty directory. */
  const Fresh := Log(map[0 := []], 0, 0)

  function WriteAll(renames: Renames, limits: Limits, chunks: seq<Bytes>): Log
  {
    if chunks == [] then Fresh
    else
      var n := |chunks| - 1;
      Write(renames, limits, WriteAll(renames, limits, chunks[..n]), chunks[n], |chunks[n]|)
  }

  /** The options count from the least sensible values up. */
  lemma LimitsExactly(maxBytes: int, maxFiles: int)
    ensures var l := Clamp(maxBytes, maxFiles);
            && l.maxBytes >= 1_024 && l.maxBytes >= maxBytes && (l.maxBytes == 1_024 || l.maxBytes == maxBytes)
            && l.maxFiles >= 1 && l.maxFiles >= maxFiles && (l.maxFiles == 1 || l.maxFiles == maxFiles)
  {
  }

  /** A write goes on in the current file, and touches no other, exactly when that file is new or has room
      for the whole chunk; otherwise the count starts over. Either way the current file's share of the log,
      as the destination counts it, exceeds the limit by at most one chunk that is too long by itself. */
  lemma WritesGoOnExactly(renames: Renames, limits: Limits, log: Log, chunk: Bytes, written: nat)
    requires written <= |chunk| && 0 in log.files
    ensures var t := Write(renames, limits, log, chunk, written);
            && (if log.bytes == 0 || log.bytes + |chunk| <= limits.maxBytes
                then t == Log(log.files[0 := log.files[0] + chunk[..written]], log.bytes + written, log.calls)
                else t.bytes == written && t.calls > log.calls)
            && (t.bytes <= limits.maxBytes || t.bytes == written)
  {
    if MustRotate(limits, log, chunk) {
      MovesCount(renames, log, limits.maxFiles - 1);
    }
  }

  /** Every rename tried counts, and archives do not touch the current file. */
  lemma {:induction false} MovesCount(renames: Renames, log: Log, i: nat)
    ensures var t := MoveArchives(renames, log, i); t.calls >= log.calls && t.bytes == log.bytes
    ensures 0 in log.files ==> 0 in MoveArchives(renames, log, i).files
    decreases i
  {
    if i > 0 {
      MovesCount(renames, MoveUp(renames, log, i), i - 1);
    }
  }

  // ---- what the files hold ----

  /** Files 0 to n, oldest first. */
  function Concat(files: Files, n: nat): Bytes
    requires forall i :: 0 <= i <= n ==> i in files
  {
    if n == 0 then files[0] else files[n] + Concat(files, n - 1)
  }

  function Flatten(chunks: seq<Bytes>): Bytes {
    if chunks == [] then [] else Flatten(chunks[..|chunks| - 1]) + chunks[|chunks| - 1]
  }

  ghost predicate IsSuffix(part: Bytes, whole: Bytes) {
    |part| <= |whole| && part == whole[|whole| - |part|..]
  }

  /** The archives are numbered 1 to n without a gap. */
  ghost predicate Numbered(files: Files, n: nat) {
    forall i: nat :: i in files <==> i <= n
  }

  ghost predicate Bounded(limits: Limits, content: Bytes, chunks: seq<Bytes>) {
    |content| <= limits.maxBytes || content in chunks
  }

  ghost predicate Sound(limits: Limits, log: Log, chunks: seq<Bytes>, n: nat) {
    && Numbered(log.files, n) && n <= limits.maxFiles
    && log.bytes == |log.files[0]|
    && IsSuffix(Concat(log.files, n), Flatten(chunks))
    && forall i: nat :: i <= n ==> Bounded(limits, log.files[i], chunks)
  }

  ghost predicate AllWork(renames: Renames) {
    forall k :: renames(k)
  }

  // ---- rotation ----

  ghost predicate SameFile(f: Files, g: Files, k: nat) {
    (k in g <==> k in f) && (k in f ==> g[k] == f[k])
  }

  /** What the loop started at i leaves under number k, when files up to i are those up to n. */
  ghost predicate Moved(f: Files, g: Files, i: nat, n: nat, k: nat) {
    if 2 <= k <= i + 1 && k - 1 <= n then k in g && k - 1 in f && g[k] == f[k - 1]
    else if k == 1 && i >= 1 then k !in g
    else SameFile(f, g, k)
  }

  lemma {:induction false} ArchivesMove(renames: Renames, log: Log, i: nat, n: nat)
    requires AllWork(renames)
    requires forall j: nat :: j <= i ==> (j in log.files <==> j <= n)
    ensures forall k: nat :: Moved(log.files, MoveArchives(renames, log, i).files, i, n, k)
    decreases i
  {
    if i > 0 {
      var next := MoveUp(renames, log, i);
      ArchivesMove(renames, next, i - 1, n);
      var g := MoveArchives(renames, log, i).files;
      forall k: nat
        ensures Moved(log.files, g, i, n, k)
      {
        assert Moved(next.files, g, i - 1, n, k);
      }
    }
  }

  /** Rotation moves every file one place up, drops the oldest beyond the limit and starts a new one. */
  lemma RotationMovesEveryFile(renames: Renames, limits: Limits, log: Log, n: nat)
    requires AllWork(renames)
    requires Numbered(log.files, n) && n <= limits.maxFiles
    ensures var m, g := Min(n + 1, limits.maxFiles), Rotate(renames, limits, log).files;
            && Numbered(g, m) && g[0] == []
            && forall i: nat :: 1 <= i <= m ==> g[i] == log.files[i - 1]
  {
    var top := limits.maxFiles - 1;
    ArchivesMove(renames, log, top, n);
    var f, g := log.files, MoveArchives(renames, log, top).files;
    var h := Rotate(renames, limits, log).files;
    assert Moved(f, g, top, n, 0);
    assert h == (g[1 := g[0]] - {0})[0 := []];
    var m := Min(n + 1, limits.maxFiles);
    forall i: nat
      ensures i in h <==> i <= m
      ensures 1 <= i <= m ==> h[i] == f[i - 1]
    {
      assert Moved(f, g, top, n, i);
    }
  }

  lemma {:induction false} ConcatShifted(f: Files, g: Files, m: nat)
    requires m >= 1
    requires forall i :: 0 <= i <= m ==> i in g
    requires forall i :: 0 <= i < m ==> i in f
    requires g[0] == [] && forall i: nat :: 1 <= i <= m ==> g[i] == f[i - 1]
    ensures Concat(g, m) == Concat(f, m - 1)
  {
    if m == 1 {
      assert Concat(g, 1) == g[1] + g[0];
    } else {
      ConcatShifted(f, g, m - 1);
    }
  }

  lemma {:induction false} ConcatAppends(f: Files, g: Files, n: nat, more: Bytes)
    requires forall i :: 0 <= i <= n ==> i in f && i in g
    requires g[0] == f[0] + more && forall i: nat :: 1 <= i <= n ==> g[i] == f[i]
    ensures Concat(g, n) == Concat(f, n) + more
  {
    if n > 0 {
      ConcatAppends(f, g, n - 1, more);
      assert f[n] + (Concat(f, n - 1) + more) == f[n] + Concat(f, n - 1) + more;
    }
  }

  lemma DroppingIsSuffix(dropped: Bytes, kept: Bytes, whole: Bytes)
    requires IsSuffix(dropped + kept, whole)
    ensures IsSuffix(kept, whole)
  {
    var d, k, w := |dropped|, |kept|, |whole|;
    assert kept == (dropped + kept)[d..];
    assert whole[w - (d + k)..][d..] == whole[w - k..];
  }

  lemma AppendingIsSuffix(part: Bytes, whole: Bytes, more: Bytes)
    requires IsSuffix(part, whole)
    ensures IsSuffix(part + more, whole + more)
  {
    var n := |whole| - |part|;
    assert (whole + more)[n..] == whole[n..] + more;
  }

  lemma RotationKeepsASuffix(renames: Renames, limits: Limits, log: Log, whole: Bytes, n: nat)
    requires AllWork(renames)
    requires Numbered(log.files, n) && n <= limits.maxFiles && IsSuffix(Concat(log.files, n), whole)
    ensures var g, m := Rotate(renames, limits, log).files, Min(n + 1, limits.maxFiles);
            Numbered(g, m) && IsSuffix(Concat(g, m), whole)
  {
    var m := Min(n + 1, limits.maxFiles);
    RotationMovesEveryFile(renames, limits, log, n);
    ConcatShifted(log.files, Rotate(renames, limits, log).files, m);
    if m == n {
      DroppingIsSuffix(log.files[n], Concat(log.files, n - 1), whole);
    }
  }

  ghost predicate AllBounded(limits: Limits, files: Files, chunks: seq<Bytes>, n: nat)
    requires Numbered(files, n)
  {
    forall i: nat :: i <= n ==> Bounded(limits, files[i], chunks)
  }

  lemma RotationKeepsBounds(renames: Renames, limits: Limits, log: Log, chunks: seq<Bytes>, n: nat)
    requires AllWork(renames)
    requires Numbered(log.files, n) && n <= limits.maxFiles && AllBounded(limits, log.files, chunks, n)
    ensures var g, m := Rotate(renames, limits, log).files, Min(n + 1, limits.maxFiles);
            Numbered(g, m) && AllBounded(limits, g, chunks, m) && g[0] == []
  {
    RotationMovesEveryFile(renames, limits, log, n);
  }

  lemma RotateIsSound(renames: Renames, limits: Limits, log: Log, chunks: seq<Bytes>, n: nat)
    requires AllWork(renames) && Sound(limits, log, chunks, n)
    ensures Sound(limits, Rotate(renames, limits, log), chunks, Min(n + 1, limits.maxFiles))
    ensures Rotate(renames, limits, log).files[0] == []
  {
    RotationKeepsASuffix(renames, limits, log, Flatten(chunks), n);
    RotationKeepsBounds(renames, limits, log, chunks, n);
  }

  /** Appending a chunk to a log that need not rotate for it. */
  lemma AppendIsSound(limits: Limits, log: Log, chunks: seq<Bytes>, chunk: Bytes, n: nat)
    requires Sound(limits, log, chunks, n) && !MustRotate(limits, log, chunk)
    ensures Sound(limits, Log(log.files[0 := log.files[0] + chunk], log.bytes + |chunk|, log.calls), chunks + [chunk], n)
  {
    var g := log.files[0 := log.files[0] + chunk];
    ConcatAppends(log.files, g, n, chunk);
    AppendingIsSuffix(Concat(log.files, n), Flatten(chunks), chunk);
    forall i: nat | i <= n
      ensures Bounded(limits, g[i], chunks + [chunk])
    {
      assert Bounded(limits, log.files[i], chunks);
      if i == 0 && log.bytes == 0 {
        assert g[0] == chunk;
      }
    }
  }

  lemma WriteIsSound(renames: Renames, limits: Limits, log: Log, chunks: seq<Bytes>, chunk: Bytes, n: nat)
    requires AllWork(renames) && Sound(limits, log, chunks, n)
    ensures var m := if MustRotate(limits, log, chunk) then Min(n + 1, limits.maxFiles) else n;
            Sound(limits, Write(renames, limits, log, chunk, |chunk|), chunks + [chunk], m)
  {
    assert chunk[..|chunk|] == chunk;
    if MustRotate(limits, log, chunk) {
      RotateIsSound(renames, limits, log, chunks, n);
      AppendIsSound(limits, Rotate(renames, limits, log), chunks, chunk, Min(n + 1, limits.maxFiles));
    } else {
      AppendIsSound(limits, log, chunks, chunk, n);
    }
  }

  /** The number of archives after these chunks. */
  function Archives(renames: Renames, limits: Limits, chunks: seq<Bytes>): nat
  {
    if chunks == [] then 0
    else
      var n := |chunks| - 1;
      var before := Archives(renames, limits, chunks[..n]);
      if MustRotate(limits, WriteAll(renames, limits, chunks[..n]), chunks[n]) then Min(before + 1, limits.maxFiles) else before
  }

  /** While renames and writes succeed, the files read oldest first are always a suffix of everything
      written; the archives have no gap in their numbers, there are at most maxFiles + 1 files, and
      each holds at most maxBytes or a single chunk. */
  lemma {:induction false} LogIsASuffix(renames: Renames, limits: Limits, chunks: seq<Bytes>)
    requires AllWork(renames)
    ensures Sound(limits, WriteAll(renames, limits, chunks), chunks, Archives(renames, limits, chunks))
  {
    if chunks != [] {
      var k := |chunks| - 1;
      LogIsASuffix(renames, limits, chunks[..k]);
      WriteIsSound(renames, limits, WriteAll(renames, limits, chunks[..k]), chunks[..k], chunks[k],
                   Archives(renames, limits, chunks[..k]));
      assert chunks == chunks[..k] + [chunks[k]];
    }
  }

  /** Nothing is lost at all until the archives are full. */
  lemma {:induction false} ArchivesFillBeforeLoss(renames: Renames, limits: Limits, log: Log, n: nat)
    requires AllWork(renames)
    requires Numbered(log.files, n) && n < limits.maxFiles
    ensures var g := Rotate(renames, limits, log).files;
            Numbered(g, n + 1) && Concat(g, n + 1) == Concat(log.files, n)
  {
    RotationMovesEveryFile(renames, limits, log, n);
    ConcatShifted(log.files, Rotate(renames, limits, log).files, n + 1);
  }

  // ---- rotation when renames fail ----

  /** How many files with numbers above i and below max there are; each is one call of rename. */
  function PresentAbove(files: Files, i: nat, max: nat): nat
    decreases max - i
  {
    if i + 1 >= max then 0 else (if i + 1 in files then 1 else 0) + PresentAbove(files, i + 1, max)
  }

  /** File i is there, is not the last archive, and its own call of rename works. */
  predicate MovesBelow(renames: Renames, log: Log, max: nat, i: nat) {
    i in log.files && i < max && renames(log.calls + PresentAbove(log.files, i, max))
  }

  function MoveSet(renames: Renames, limits: Limits, log: Log): (moves: set<nat>)
    ensures forall i: nat :: i in moves <==> MovesBelow(renames, log, limits.maxFiles, i)
  {
    set i | i in log.files.Keys && MovesBelow(renames, log, limits.maxFiles, i)
  }

  /** The files once these have moved up by one: each may have replaced the next. */
  function Shifted<C>(f: map<nat, C>, moves: set<nat>): (g: map<nat, C>)
    requires moves <= f.Keys
  {
    map k | k in ShiftedKeys(f.Keys, moves) :: ShiftedValue(f, moves, k)
  }

  function ShiftedKeys(keys: set<nat>, moves: set<nat>): (r: set<nat>)
    ensures forall k: nat :: k in r <==> (k in keys && k !in moves) || (k >= 1 && k - 1 in moves)
  {
    var up := set i | i in moves :: i + 1;
    assert forall i :: i in moves ==> i + 1 in up;
    (keys - moves) + up
  }

  function ShiftedValue<C>(f: map<nat, C>, moves: set<nat>, k: nat): C
    requires moves <= f.Keys && k in ShiftedKeys(f.Keys, moves)
  {
    if k >= 1 && k - 1 in moves then f[k - 1] else f[k]
  }

  /** A file that stays in place while the one before it moves onto it. */
  predicate Replaced<C>(f: map<nat, C>, moves: set<nat>, i: nat) {
    i in f && i !in moves && i >= 1 && i - 1 in moves
  }

  lemma ShiftedAt<C>(f: map<nat, C>, moves: set<nat>, k: nat)
    requires moves <= f.Keys
    ensures var g := Shifted(f, moves);
            if k >= 1 && k - 1 in moves then k in g && g[k] == f[k - 1]
            else (k in g <==> k in f && k !in moves) && (k in g ==> g[k] == f[k])
  {
  }

  lemma {:induction false} PresentSplits(files: Files, j: nat, i: nat)
    requires j < i
    ensures PresentAbove(files, j, i + 1) == PresentAbove(files, j, i) + if i in files then 1 else 0
    decreases i - j
  {
    if j + 1 < i {
      PresentSplits(files, j + 1, i);
    }
  }

  lemma {:induction false} PresentIsLocal(f: Files, g: Files, j: nat, max: nat)
    requires forall k: nat :: j < k < max ==> (k in f <==> k in g)
    ensures PresentAbove(f, j, max) == PresentAbove(g, j, max)
    decreases max - j
  {
    if j + 1 < max {
      PresentIsLocal(f, g, j + 1, max);
    }
  }

  /** What the loop started at i leaves under number k, whichever renames fail. */
  ghost predicate LoopMoved(renames: Renames, log: Log, g: Files, i: nat, k: nat) {
    if 2 <= k <= i + 1 && MovesBelow(renames, log, i + 1, k - 1) then k in g && g[k] == log.files[k - 1]
    else if 1 <= k <= i && MovesBelow(renames, log, i + 1, k) then k !in g
    else SameFile(log.files, g, k)
  }

  lemma {:induction false} LoopExactly(renames: Renames, log: Log, i: nat)
    ensures var after := MoveArchives(renames, log, i);
            && after.calls == log.calls + PresentAbove(log.files, 0, i + 1)
            && forall k: nat :: LoopMoved(renames, log, after.files, i, k)
    decreases i
  {
    if i > 0 {
      var next, after := MoveUp(renames, log, i), MoveArchives(renames, log, i);
      LoopExactly(renames, next, i - 1);
      PresentSplits(log.files, 0, i);
      PresentIsLocal(log.files, next.files, 0, i);
      forall k: nat
        ensures LoopMoved(renames, log, after.files, i, k)
      {
        assert LoopMoved(renames, next, after.files, i - 1, k);
        SameMoves(renames, log, i, k);
        if k >= 1 {
          SameMoves(renames, log, i, k - 1);
        }
      }
    }
  }

  /** After the move of file i the ones below are moved by the same calls. */
  lemma SameMoves(renames: Renames, log: Log, i: nat, j: nat)
    requires i > 0
    ensures j < i ==> (MovesBelow(renames, log, i + 1, j) <==> MovesBelow(renames, MoveUp(renames, log, i), i, j))
    ensures MovesBelow(renames, log, i + 1, i) <==> i in log.files && renames(log.calls)
  {
    if j < i {
      PresentSplits(log.files, j, i);
      PresentIsLocal(log.files, MoveUp(renames, log, i).files, j, i);
    }
  }

  function WithCurrent(files: Files): Files {
    if 0 in files then files else files[0 := []]
  }

  lemma LastMove(renames: Renames, log: Log, after: Log, max: nat, moves: set<nat>, k: nat)
    requires max >= 1 && after.calls == log.calls + PresentAbove(log.files, 0, max)
    requires LoopMoved(renames, log, after.files, max - 1, 0) && LoopMoved(renames, log, after.files, max - 1, 1)
    requires LoopMoved(renames, log, after.files, max - 1, k)
    requires moves <= log.files.Keys && forall i: nat :: i in moves <==> MovesBelow(renames, log, max, i)
    ensures SameFile(Shifted(log.files, moves), MoveUp(renames, after, 0).files, k)
  {
    ShiftedAt(log.files, moves, k);
    hide Shifted, PresentAbove;
  }

  /** Rotation of any log, whichever of its renames fail. */
  lemma RotationExactly(renames: Renames, limits: Limits, log: Log)
    ensures Rotate(renames, limits, log).files == WithCurrent(Shifted(log.files, MoveSet(renames, limits, log)))
  {
    var top := limits.maxFiles - 1;
    var moves := MoveSet(renames, limits, log);
    var after := MoveArchives(renames, log, top);
    hide Shifted, MovesBelow, PresentAbove, MoveArchives, LoopMoved, SameFile, MoveUp;
    LoopExactly(renames, log, top);
    forall k: nat
      ensures SameFile(Shifted(log.files, moves), MoveUp(renames, after, 0).files, k)
    {
      assert LoopMoved(renames, log, after.files, top, 0) && LoopMoved(renames, log, after.files, top, 1);
      LastMove(renames, log, after, limits.maxFiles, moves, k);
    }
    SameFilesAreEqual(Shifted(log.files, moves), MoveUp(renames, after, 0).files);
  }

  lemma SameFilesAreEqual(f: Files, g: Files)
    requires forall k: nat :: SameFile(f, g, k)
    ensures f == g
  {
    forall k: nat
      ensures k in f <==> k in g
      ensures k in f ==> f[k] == g[k]
    {
      assert SameFile(f, g, k);
    }
  }

  ghost predicate Holds(files: Files, content: Bytes) {
    exists k :: k in files && files[k] == content
  }

  /** The contents can be told apart. */
  ghost predicate Distinct(files: Files) {
    && (forall i :: i in files ==> files[i] != [])
    && (forall i, j :: i in files && j in files && i != j ==> files[i] != files[j])
  }

  /** The rename of file i fails, or i is the last archive, and the rename of the file before it works. */
  predicate StaysAndIsReplaced(renames: Renames, limits: Limits, log: Log, i: nat) {
    i >= 1 && !MovesBelow(renames, log, limits.maxFiles, i) && MovesBelow(renames, log, limits.maxFiles, i - 1)
  }

  /** The content of a file is gone after a rotation exactly then. */
  lemma FailedRenameLosesAnArchive(renames: Renames, limits: Limits, log: Log, i: nat)
    requires Distinct(log.files) && i in log.files
    ensures !Holds(Rotate(renames, limits, log).files, log.files[i])
            <==> StaysAndIsReplaced(renames, limits, log, i)
  {
    var f, moves := log.files, MoveSet(renames, limits, log);
    var g := Shifted(f, moves);
    RotationExactly(renames, limits, log);
    ShiftedAt(f, moves, i);
    ShiftedAt(f, moves, i + 1);
    if Replaced(f, moves, i) {
      forall k | k in WithCurrent(g)
        ensures WithCurrent(g)[k] != f[i]
      {
        ShiftedAt(f, moves, k);
      }
    } else if i in moves {
      assert WithCurrent(g)[i + 1] == f[i];
    } else {
      assert WithCurrent(g)[i] == f[i];
    }
  }

  /** So of a log without gaps something beyond the oldest file is lost exactly when an archive fails to
      move while the file before it moves. That app.log alone fails to move loses nothing. */
  lemma RotationLosesExactly(renames: Renames, limits: Limits, log: Log, n: nat)
    requires Distinct(log.files) && Numbered(log.files, n) && n <= limits.maxFiles
    ensures (exists i: nat :: i < n && !Holds(Rotate(renames, limits, log).files, log.files[i]))
            <==> (exists i: nat :: i < n && StaysAndIsReplaced(renames, limits, log, i))
  {
    forall i: nat | i < n
      ensures !Holds(Rotate(renames, limits, log).files, log.files[i])
              <==> StaysAndIsReplaced(renames, limits, log, i)
    {
      FailedRenameLosesAnArchive(renames, limits, log, i);
    }
    hide StaysAndIsReplaced, Holds, Rotate;
  }

  // ---- runs in which renames fail ----

  /** The stretch of everything written that a file holds. */
  datatype Span = Span(from: nat, to: nat)

  type Spans = map<nat, Span>

  /** Where each file's content comes from: rotation moves the spans as it moves the files, a new app.log
      starts at the end, and a chunk lengthens the span of app.log. */
  function SpansAfter(renames: Renames, limits: Limits, chunks: seq<Bytes>): (spans: Spans)
    ensures spans.Keys == WriteAll(renames, limits, chunks).files.Keys && 0 in spans
  {
    if chunks == [] then map[0 := Span(0, 0)]
    else
      var n := |chunks| - 1;
      NextSpans(renames, limits, WriteAll(renames, limits, chunks[..n]), SpansAfter(renames, limits, chunks[..n]),
                |Flatten(chunks[..n])|, chunks[n])
  }

  function NextSpans(renames: Renames, limits: Limits, log: Log, spans: Spans, end: nat, chunk: Bytes): (r: Spans)
    requires spans.Keys == log.files.Keys && 0 in spans
    ensures r.Keys == Write(renames, limits, log, chunk, |chunk|).files.Keys && 0 in r
  {
    Extended(if MustRotate(limits, log, chunk) then RotatedSpans(renames, limits, log, spans, end) else spans, |chunk|)
  }

  function Extended(spans: Spans, more: nat): (r: Spans)
    requires 0 in spans
    ensures r.Keys == spans.Keys
  {
    spans[0 := Span(spans[0].from, spans[0].to + more)]
  }

  function RotatedSpans(renames: Renames, limits: Limits, log: Log, spans: Spans, end: nat): (r: Spans)
    requires spans.Keys == log.files.Keys
    ensures r.Keys == Rotate(renames, limits, log).files.Keys && 0 in r
  {
    RotationExactly(renames, limits, log);
    WithCurrentSpan(Shifted(spans, MoveSet(renames, limits, log)), end)
  }

  /** The spans lie one behind the other, the higher number first, and the last ends at the end; only
      app.log may be empty. */
  ghost predicate Ordered(spans: Spans, end: nat) {
    && 0 in spans && spans[0].to == end
    && (forall i :: i in spans ==> spans[i].from <= spans[i].to && (i > 0 ==> spans[i].from < spans[i].to))
    && (forall i, j :: i in spans && j in spans && i < j ==> spans[j].to <= spans[i].from)
  }

  /** No hole: every file but the oldest begins where an older one ends. */
  ghost predicate Contiguous(spans: Spans) {
    forall i :: i in spans ==> Oldest(spans, i) || exists j :: Joined(spans, i, j)
  }

  ghost predicate Oldest(spans: Spans, i: nat) {
    forall j :: j in spans ==> j <= i
  }

  ghost predicate Tracks(files: Files, spans: Spans, whole: Bytes) {
    && spans.Keys == files.Keys
    && forall i :: i in spans ==> spans[i].from <= spans[i].to <= |whole| && files[i] == whole[spans[i].from..spans[i].to]
  }

  /** A file that is not the oldest is replaced where it is. */
  ghost predicate MakesHole<C>(f: map<nat, C>, moves: set<nat>) {
    exists i: nat, j: nat :: Replaced(f, moves, i) && j in f && j > i
  }

  /** Where the file that ends up under k was, and where file i goes. */
  function Source(moves: set<nat>, k: nat): nat {
    if k >= 1 && k - 1 in moves then k - 1 else k
  }

  function Target(moves: set<nat>, i: nat): nat {
    if i in moves then i + 1 else i
  }

  lemma SourceAt(spans: Spans, moves: set<nat>, k: nat)
    requires moves <= spans.Keys && k in Shifted(spans, moves)
    ensures var i := Source(moves, k);
            i in spans && Shifted(spans, moves)[k] == spans[i] && Target(moves, i) == k && !Replaced(spans, moves, i)
  {
    ShiftedAt(spans, moves, k);
  }

  lemma TargetAt(spans: Spans, moves: set<nat>, i: nat)
    requires moves <= spans.Keys && i in spans && !Replaced(spans, moves, i)
    ensures var k := Target(moves, i); k in Shifted(spans, moves) && Shifted(spans, moves)[k] == spans[i] && Source(moves, k) == i
  {
    ShiftedAt(spans, moves, Target(moves, i));
  }

  /** Files never overtake each other. */
  lemma TargetIsMonotone(spans: Spans, moves: set<nat>, i: nat, j: nat)
    requires moves <= spans.Keys && i in spans && j in spans
    requires !Replaced(spans, moves, i) && !Replaced(spans, moves, j)
    ensures i < j <==> Target(moves, i) < Target(moves, j)
  {
  }

  ghost predicate Proper(i: nat, span: Span) {
    span.from <= span.to && (i > 0 ==> span.from < span.to)
  }

  lemma OrderedPair(spans: Spans, end: nat, i: nat, j: nat)
    requires Ordered(spans, end)
    ensures i in spans && j in spans && i < j ==> spans[j].to <= spans[i].from
    ensures i in spans ==> Proper(i, spans[i]) && spans[i].to <= end
  {
    if i in spans && i > 0 {
      assert spans[i].to <= spans[0].from;
    }
  }

  lemma ShiftedPair(spans: Spans, moves: set<nat>, end: nat, i: nat, j: nat)
    requires moves <= spans.Keys && Ordered(spans, end) && spans[0].from < end
    ensures var g := Shifted(spans, moves);
            && (i in g && j in g && i < j ==> g[j].to <= g[i].from)
            && (i in g ==> g[i].from < g[i].to <= end)
            && (0 in g ==> g[0].to == end)
  {
    var g := Shifted(spans, moves);
    if 0 in g {
      SourceAt(spans, moves, 0);
    }
    if i in g {
      SourceAt(spans, moves, i);
      OrderedPair(spans, end, Source(moves, i), 0);
      if j in g && i < j {
        SourceAt(spans, moves, j);
        TargetIsMonotone(spans, moves, Source(moves, i), Source(moves, j));
        OrderedPair(spans, end, Source(moves, i), Source(moves, j));
      }
    }
  }

  function WithCurrentSpan(g: Spans, end: nat): Spans {
    if 0 in g then g else g[0 := Span(end, end)]
  }

  lemma ShiftedIsOrdered(spans: Spans, moves: set<nat>, end: nat)
    requires moves <= spans.Keys && Ordered(spans, end) && spans[0].from < end
    ensures Ordered(WithCurrentSpan(Shifted(spans, moves), end), end)
  {
    var g := Shifted(spans, moves);
    var h := WithCurrentSpan(g, end);
    ShiftedPair(spans, moves, end, 0, 0);
    forall i: nat, j: nat
      ensures i in h ==> h[i].from <= h[i].to && (i > 0 ==> h[i].from < h[i].to)
      ensures i in h && j in h && i < j ==> h[j].to <= h[i].from
    {
      ShiftedPair(spans, moves, end, i, j);
      ShiftedPair(spans, moves, end, j, i);
    }
  }

  /** A file has an older neighbour that ends where it begins. */
  ghost predicate Joined(spans: Spans, i: nat, j: nat) {
    i in spans && j in spans && j > i && spans[j].to == spans[i].from
  }

  /** Two joined files have none between them. */
  lemma JoinedAreNeighbours(spans: Spans, end: nat, i: nat, j: nat, k: nat)
    requires Ordered(spans, end) && Joined(spans, i, j) && i < k < j
    ensures k !in spans
  {
    if k in spans {
      OrderedPair(spans, end, i, k);
      OrderedPair(spans, end, k, j);
    }
  }

  lemma OldestStays(spans: Spans, moves: set<nat>, i: nat)
    requires moves <= spans.Keys && i in spans && !Replaced(spans, moves, i)
    requires forall j: nat :: j in spans && j > i ==> Replaced(spans, moves, j)
    ensures Oldest(Shifted(spans, moves), Target(moves, i))
  {
    forall k: nat | k in Shifted(spans, moves)
      ensures k <= Target(moves, i)
    {
      SourceAt(spans, moves, k);
      TargetIsMonotone(spans, moves, i, Source(moves, k));
    }
  }

  /** The older neighbour of a file that is kept is kept too, or the file is now the oldest. */
  lemma NeighbourStays(spans: Spans, moves: set<nat>, end: nat, i: nat)
    requires moves <= spans.Keys && Ordered(spans, end) && Contiguous(spans) && !MakesHole(spans, moves)
    requires i in spans && !Replaced(spans, moves, i)
    ensures var g, k := Shifted(spans, moves), Target(moves, i);
            Oldest(g, k) || exists j :: Joined(g, k, j)
  {
    TargetAt(spans, moves, i);
    if Oldest(spans, i) {
      OldestStays(spans, moves, i);
    } else {
      var j :| Joined(spans, i, j);
      if Replaced(spans, moves, j) {
        forall k: nat | k in spans && k > i
          ensures k == j
        {
          if k < j {
            JoinedAreNeighbours(spans, end, i, j, k);
          } else if k > j {
            assert false;
          }
        }
        OldestStays(spans, moves, i);
      } else {
        TargetAt(spans, moves, j);
        TargetIsMonotone(spans, moves, i, j);
        assert Joined(Shifted(spans, moves), Target(moves, i), Target(moves, j));
      }
    }
  }

  lemma NoHoleStays(spans: Spans, moves: set<nat>, end: nat)
    requires moves <= spans.Keys && Ordered(spans, end) && spans[0].from < end && Contiguous(spans) && !MakesHole(spans, moves)
    ensures Contiguous(WithCurrentSpan(Shifted(spans, moves), end))
  {
    hide Shifted, Ordered, MakesHole;
    StartsTheLog(spans, end);
    var g := Shifted(spans, moves);
    var h := WithCurrentSpan(g, end);
    forall k: nat | k in h
      ensures Oldest(h, k) || exists j :: Joined(h, k, j)
    {
      if k in g {
        SourceAt(spans, moves, k);
        NeighbourStays(spans, moves, end, Source(moves, k));
        if j :| Joined(g, k, j) {
          assert Joined(h, k, j);
        }
      } else {
        ShiftedAt(spans, moves, 0);
        assert 0 in moves;
        TargetAt(spans, moves, 0);
        assert Joined(h, 0, 1);
      }
    }
  }

  lemma StartsTheLog(spans: Spans, end: nat)
    requires Ordered(spans, end)
    ensures 0 in spans && spans[0].to == end
  {
  }

  /** Where file i was replaced, what lies beyond it now ends before it began. */
  lemma BeyondReplaced(spans: Spans, moves: set<nat>, end: nat, i: nat, k: nat)
    requires moves <= spans.Keys && Ordered(spans, end) && spans[0].from < end && Replaced(spans, moves, i)
    ensures var g := Shifted(spans, moves);
            && i in g && g[i] == spans[i - 1]
            && (k in g && k > i ==> g[k].to < g[i].from)
  {
    hide Shifted, Ordered;
    StartsTheLog(spans, end);
    var g := Shifted(spans, moves);
    ShiftedAt(spans, moves, i);
    OrderedPair(spans, end, i - 1, i);
    if k in g && k > i {
      SourceAt(spans, moves, k);
      OrderedPair(spans, end, i, Source(moves, k));
    }
  }

  lemma NotJoinedBeyond(h: Spans, i: nat)
    requires i in h && forall k: nat :: k in h && k > i ==> h[k].to < h[i].from
    requires exists k: nat :: k in h && k > i
    ensures !Contiguous(h)
  {
    assert !Oldest(h, i);
    assert forall j: nat :: !Joined(h, i, j);
  }

  /** A hole that is made is there: the file before the one replaced begins where none ends. */
  lemma HoleIsMade(spans: Spans, moves: set<nat>, end: nat)
    requires moves <= spans.Keys && Ordered(spans, end) && spans[0].from < end && MakesHole(spans, moves)
    ensures !Contiguous(WithCurrentSpan(Shifted(spans, moves), end))
  {
    hide Contiguous, Shifted, Ordered;
    var g := Shifted(spans, moves);
    var h := WithCurrentSpan(g, end);
    var i: nat, j: nat :| Replaced(spans, moves, i) && j in spans && j > i;
    KeptBeyond(spans, moves, i, j);
    var kept: nat :| kept in g && kept > i;
    BeyondReplaced(spans, moves, end, i, kept);
    forall k: nat | k in h && k > i
      ensures h[k].to < h[i].from
    {
      BeyondReplaced(spans, moves, end, i, k);
    }
    assert kept in h;
    NotJoinedBeyond(h, i);
  }

  lemma KeptBeyond(spans: Spans, moves: set<nat>, i: nat, j: nat)
    requires moves <= spans.Keys && Replaced(spans, moves, i) && j in spans && j > i
    ensures exists k: nat :: k in Shifted(spans, moves) && k > i
  {
    var kept := if Replaced(spans, moves, j) then j - 1 else j;
    TargetAt(spans, moves, kept);
    assert Target(moves, kept) > i;
  }

  // ---- when the files are a suffix ----

  /** Lengthening app.log at the end. */
  lemma ExtendSpans(spans: Spans, end: nat, more: nat)
    requires Ordered(spans, end)
    ensures Ordered(Extended(spans, more), end + more)
    ensures Contiguous(Extended(spans, more)) <==> Contiguous(spans)
  {
    var g := Extended(spans, more);
    forall i, j
      ensures Joined(g, i, j) <==> Joined(spans, i, j)
    {
    }
    forall i
      ensures Oldest(g, i) <==> Oldest(spans, i)
    {
      assert forall j :: j in g <==> j in spans;
    }
  }

  /** Rotating is only due when app.log is not empty. */
  ghost predicate Counted(log: Log, spans: Spans, end: nat) {
    && spans.Keys == log.files.Keys && Ordered(spans, end)
    && (log.bytes > 0 ==> spans[0].from < end)
  }

  lemma NextIsCounted(renames: Renames, limits: Limits, log: Log, spans: Spans, end: nat, chunk: Bytes)
    requires Counted(log, spans, end)
    ensures Counted(Write(renames, limits, log, chunk, |chunk|), NextSpans(renames, limits, log, spans, end, chunk), end + |chunk|)
  {
    hide Ordered, Shifted, MoveArchives, MoveUp, Rotate, RotatedSpans;
    ZeroEndsLast(spans, end);
    if MustRotate(limits, log, chunk) {
      RotatedIsOrdered(renames, limits, log, spans, end);
      ExtendSpans(RotatedSpans(renames, limits, log, spans, end), end, |chunk|);
    } else {
      ExtendSpans(spans, end, |chunk|);
    }
  }

  lemma ZeroEndsLast(spans: Spans, end: nat)
    requires Ordered(spans, end)
    ensures spans[0].from <= end
  {
  }

  lemma RotatedIsOrdered(renames: Renames, limits: Limits, log: Log, spans: Spans, end: nat)
    requires spans.Keys == log.files.Keys && Ordered(spans, end) && spans[0].from < end
    ensures var r := RotatedSpans(renames, limits, log, spans, end);
            Ordered(r, end) && r[0].from <= end && Rotate(renames, limits, log).bytes == 0
  {
    ShiftedIsOrdered(spans, MoveSet(renames, limits, log), end);
    ZeroEndsLast(RotatedSpans(renames, limits, log, spans, end), end);
    hide Ordered, Shifted, MoveArchives, MoveUp;
  }

  /** The rotation before the next chunk, if one is due, replaces a file that is not the oldest. */
  ghost predicate LosesInside(renames: Renames, limits: Limits, log: Log, chunk: Bytes) {
    MustRotate(limits, log, chunk) && MakesHole(log.files, MoveSet(renames, limits, log))
  }

  lemma NextIsContiguous(renames: Renames, limits: Limits, log: Log, spans: Spans, end: nat, chunk: Bytes)
    requires Counted(log, spans, end) && Contiguous(spans)
    ensures Contiguous(NextSpans(renames, limits, log, spans, end, chunk)) <==> !LosesInside(renames, limits, log, chunk)
  {
    hide Contiguous, MakesHole, Shifted, MoveArchives, MoveUp;
    var moves := MoveSet(renames, limits, log);
    if MustRotate(limits, log, chunk) {
      SameHoles(spans, log.files, moves);
      ShiftedIsOrdered(spans, moves, end);
      ExtendSpans(RotatedSpans(renames, limits, log, spans, end), end, |chunk|);
      if MakesHole(spans, moves) {
        HoleIsMade(spans, moves, end);
      } else {
        NoHoleStays(spans, moves, end);
      }
    } else {
      ExtendSpans(spans, end, |chunk|);
    }
  }

  lemma {:induction false} SpansAreCounted(renames: Renames, limits: Limits, chunks: seq<Bytes>)
    ensures Counted(WriteAll(renames, limits, chunks), SpansAfter(renames, limits, chunks), |Flatten(chunks)|)
  {
    if chunks != [] {
      hide Counted, NextSpans, Write;
      var n := |chunks| - 1;
      SpansAreCounted(renames, limits, chunks[..n]);
      NextIsCounted(renames, limits, WriteAll(renames, limits, chunks[..n]), SpansAfter(renames, limits, chunks[..n]),
                    |Flatten(chunks[..n])|, chunks[n]);
    }
  }

  lemma WriteKeepsContiguous(renames: Renames, limits: Limits, chunks: seq<Bytes>)
    requires chunks != []
    requires var n := |chunks| - 1; Contiguous(SpansAfter(renames, limits, chunks[..n]))
    ensures var n := |chunks| - 1;
            Contiguous(SpansAfter(renames, limits, chunks))
            <==> !LosesInside(renames, limits, WriteAll(renames, limits, chunks[..n]), chunks[n])
  {
    hide Counted, NextSpans, Write, Contiguous, LosesInside;
    var n := |chunks| - 1;
    SpansAreCounted(renames, limits, chunks[..n]);
    NextIsContiguous(renames, limits, WriteAll(renames, limits, chunks[..n]), SpansAfter(renames, limits, chunks[..n]),
                     |Flatten(chunks[..n])|, chunks[n]);
  }

  lemma SameHoles(spans: Spans, files: Files, moves: set<nat>)
    requires spans.Keys == files.Keys
    ensures MakesHole(spans, moves) <==> MakesHole(files, moves)
  {
    assert forall i: nat :: Replaced(spans, moves, i) <==> Replaced(files, moves, i);
  }

  /** The files after the first n chunks cover one stretch of what was written, up to its end. */
  ghost predicate WholeAfter(renames: Renames, limits: Limits, chunks: seq<Bytes>, n: nat)
    requires n <= |chunks|
  {
    Contiguous(SpansAfter(renames, limits, chunks[..n]))
  }

  ghost predicate LosesInsideAt(renames: Renames, limits: Limits, chunks: seq<Bytes>, n: nat)
    requires n < |chunks|
  {
    LosesInside(renames, limits, WriteAll(renames, limits, chunks[..n]), chunks[n])
  }

  lemma WholeGoesOn(renames: Renames, limits: Limits, chunks: seq<Bytes>, n: nat)
    requires n < |chunks| && WholeAfter(renames, limits, chunks, n)
    ensures WholeAfter(renames, limits, chunks, n + 1) <==> !LosesInsideAt(renames, limits, chunks, n)
  {
    var prefix := chunks[..n + 1];
    assert prefix[..n] == chunks[..n] && prefix[n] == chunks[n];
    hide Contiguous, LosesInside, WriteAll, SpansAfter;
    WriteKeepsContiguous(renames, limits, prefix);
  }

  lemma WholeAtFirst(renames: Renames, limits: Limits, chunks: seq<Bytes>)
    ensures WholeAfter(renames, limits, chunks, 0)
  {
    assert chunks[..0] == [];
    assert Oldest(map[0 := Span(0, 0)], 0);
  }

  /** Whichever renames fail: the files, oldest first, cover one stretch up to the end of everything written
      after every chunk, exactly when no rotation replaced a file that was not the oldest. */
  lemma {:induction false} WholeExactlyWithoutInnerLoss(renames: Renames, limits: Limits, chunks: seq<Bytes>, m: nat)
    requires m <= |chunks|
    ensures (forall n: nat :: n <= m ==> WholeAfter(renames, limits, chunks, n))
            <==> (forall n: nat :: n < m ==> !LosesInsideAt(renames, limits, chunks, n))
  {
    hide WholeAfter, LosesInsideAt;
    WholeAtFirst(renames, limits, chunks);
    if m > 0 {
      WholeExactlyWithoutInnerLoss(renames, limits, chunks, m - 1);
      if WholeAfter(renames, limits, chunks, m - 1) {
        WholeGoesOn(renames, limits, chunks, m - 1);
      }
    }
  }

  // ---- reading the files back ----

  /** The files that are there, from number top down. */
  function ReadDown(files: Files, top: nat): Bytes {
    (if top in files then files[top] else []) + if top == 0 then [] else ReadDown(files, top - 1)
  }

  /** The highest number up to k that is there. */
  function Highest(spans: Spans, k: nat): (i: nat)
    requires 0 in spans
    ensures i <= k && i in spans && forall j: nat :: i < j <= k ==> j !in spans
  {
    if k in spans then k else Highest(spans, k - 1)
  }

  lemma NeighbourOf(spans: Spans, end: nat, k: nat)
    requires Ordered(spans, end) && Contiguous(spans) && k > 0 && k in spans
    ensures spans[k].to == spans[Highest(spans, k - 1)].from
  {
    hide Ordered;
    StartsTheLog(spans, end);
    var i := Highest(spans, k - 1);
    assert !Oldest(spans, i);
    var j: nat :| Joined(spans, i, j);
    if j > k {
      JoinedAreNeighbours(spans, end, i, j, k);
    }
  }

  lemma {:induction false} ReadIsAStretch(files: Files, spans: Spans, whole: Bytes, k: nat)
    requires Tracks(files, spans, whole) && Ordered(spans, |whole|) && Contiguous(spans)
    ensures var from := spans[Highest(spans, k)].from; from <= |whole| && ReadDown(files, k) == whole[from..]
  {
    hide Tracks, Ordered, Contiguous;
    StartsTheLog(spans, |whole|);
    ReadOne(files, spans, whole, k);
    if k > 0 {
      ReadIsAStretch(files, spans, whole, k - 1);
      if k in spans {
        NeighbourOf(spans, |whole|, k);
        StretchesMeet(whole, spans[k].from, spans[k].to);
      }
    }
  }

  lemma ReadOne(files: Files, spans: Spans, whole: Bytes, k: nat)
    requires Tracks(files, spans, whole) && Ordered(spans, |whole|)
    ensures k in files <==> k in spans
    ensures k in spans ==> spans[k].from <= spans[k].to <= |whole| && files[k] == whole[spans[k].from..spans[k].to]
    ensures spans[0].from <= |whole| && files[0] == whole[spans[0].from..]
  {
    assert whole[spans[0].from..|whole|] == whole[spans[0].from..];
  }

  lemma StretchesMeet(whole: Bytes, a: nat, b: nat)
    requires a <= b <= |whole|
    ensures whole[a..b] + whole[b..] == whole[a..]
  {
  }

  lemma ExtendTracks(files: Files, spans: Spans, whole: Bytes, chunk: Bytes)
    requires Tracks(files, spans, whole) && Ordered(spans, |whole|)
    ensures Tracks(files[0 := files[0] + chunk], Extended(spans, |chunk|), whole + chunk)
  {
    var more, g, h := whole + chunk, files[0 := files[0] + chunk], Extended(spans, |chunk|);
    forall i | i in h
      ensures h[i].from <= h[i].to <= |more| && g[i] == more[h[i].from..h[i].to]
    {
      if i > 0 {
        assert more[spans[i].from..spans[i].to] == whole[spans[i].from..spans[i].to];
      }
    }
  }

  lemma ShiftedTracks(files: Files, spans: Spans, whole: Bytes, moves: set<nat>)
    requires Tracks(files, spans, whole) && moves <= files.Keys
    ensures Tracks(WithCurrent(Shifted(files, moves)), WithCurrentSpan(Shifted(spans, moves), |whole|), whole)
  {
    var g, h := WithCurrent(Shifted(files, moves)), WithCurrentSpan(Shifted(spans, moves), |whole|);
    forall i: nat
      ensures i in h <==> i in g
      ensures i in h ==> h[i].from <= h[i].to <= |whole| && g[i] == whole[h[i].from..h[i].to]
    {
      ShiftedAt(files, moves, i);
      ShiftedAt(spans, moves, i);
    }
  }

  lemma NextTracks(renames: Renames, limits: Limits, log: Log, spans: Spans, whole: Bytes, chunk: Bytes)
    requires Counted(log, spans, |whole|) && Tracks(log.files, spans, whole)
    ensures Tracks(Write(renames, limits, log, chunk, |chunk|).files, NextSpans(renames, limits, log, spans, |whole|, chunk), whole + chunk)
  {
    assert chunk[..|chunk|] == chunk;
    hide Tracks, Shifted, MoveArchives, MoveUp, Rotate, Ordered;
    if MustRotate(limits, log, chunk) {
      RotationExactly(renames, limits, log);
      ShiftedTracks(log.files, spans, whole, MoveSet(renames, limits, log));
      RotatedIsOrdered(renames, limits, log, spans, |whole|);
      ExtendTracks(Rotate(renames, limits, log).files, RotatedSpans(renames, limits, log, spans, |whole|), whole, chunk);
    } else {
      ExtendTracks(log.files, spans, whole, chunk);
    }
  }

  /** The spans say truly where each file's content comes from. */
  lemma {:induction false} SpansTrack(renames: Renames, limits: Limits, chunks: seq<Bytes>)
    ensures Tracks(WriteAll(renames, limits, chunks).files, SpansAfter(renames, limits, chunks), Flatten(chunks))
  {
    if chunks != [] {
      hide Counted, NextSpans, Write, Tracks;
      var n := |chunks| - 1;
      SpansTrack(renames, limits, chunks[..n]);
      SpansAreCounted(renames, limits, chunks[..n]);
      NextTracks(renames, limits, WriteAll(renames, limits, chunks[..n]), SpansAfter(renames, limits, chunks[..n]),
                 Flatten(chunks[..n]), chunks[n]);
    }
  }

  /** So whichever renames fail, the files read oldest first are a suffix of everything written as long as no
      rotation has replaced a file that was not the oldest. */
  lemma LogIsASuffixWithoutInnerLoss(renames: Renames, limits: Limits, chunks: seq<Bytes>, top: nat)
    requires forall n: nat :: n < |chunks| ==> !LosesInsideAt(renames, limits, chunks, n)
    ensures IsSuffix(ReadDown(WriteAll(renames, limits, chunks).files, top), Flatten(chunks))
  {
    WholeExactlyWithoutInnerLoss(renames, limits, chunks, |chunks|);
    assert WholeAfter(renames, limits, chunks, |chunks|) && chunks[..|chunks|] == chunks;
    SpansAreCounted(renames, limits, chunks);
    SpansTrack(renames, limits, chunks);
    var files, spans := WriteAll(renames, limits, chunks).files, SpansAfter(renames, limits, chunks);
    ReadIsAStretch(files, spans, Flatten(chunks), top);
    hide WriteAll, SpansAfter, LosesInsideAt, Ordered, Contiguous, ReadDown;
    var from := spans[Highest(spans, top)].from;
    assert IsSuffix(Flatten(chunks)[from..], Flatten(chunks));
  }

  // ---- the code in its own form ----

  class RotatingDestination {
    const renames: Renames
    const limits: Limits
    var files: Files
    var bytes: nat
    var calls: nat

    function View(): Log
      reads this
    {
      Log(files, bytes, calls)
    }

    /** Opening appends to what is there: `bytes` starts at the size of the file found. */
    constructor (renames: Renames, existing: Files, maxBytes: int, maxFiles: int)
      ensures this.renames == renames && limits == Clamp(maxBytes, maxFiles)
      ensures files == (if 0 in existing then existing else existing[0 := []])
      ensures bytes == |files[0]| && calls == 0
      ensures existing == map[] ==> View() == Fresh
    {
      this.renames := renames;
      limits := Clamp(maxBytes, maxFiles);
      files := if 0 in existing then existing else existing[0 := []];
      bytes := if 0 in existing then |existing[0]| else 0;
      calls := 0;
    }

    method TryRename(i: nat)
      requires i in files
      modifies this`files, this`calls
      ensures View() == MoveUp(renames, old(View()), i)
    {
      if renames(calls) {
        files := files[i + 1 := files[i]] - {i};
      }
      calls := calls + 1;
    }

    method DoRotate()
      modifies this
      ensures View() == Rotate(renames, limits, old(View()))
    {
      var i := limits.maxFiles - 1;
      while i >= 1
        invariant 0 <= i < limits.maxFiles
        invariant MoveArchives(renames, View(), i) == MoveArchives(renames, old(View()), limits.maxFiles - 1)
        invariant bytes == old(bytes)
      {
        if i in files {
          TryRename(i);
        }
        i := i - 1;
      }
      if 0 in files {
        TryRename(0);
      }
      if 0 !in files {
        files := files[0 := []];
      }
      bytes := 0;
    }

    method WriteChunk(chunk: Bytes, accepted: nat)
      requires accepted <= |chunk|
      modifies this
      ensures View() == Write(renames, limits, old(View()), chunk, accepted)
    {
      if bytes > 0 && bytes + |chunk| > limits.maxBytes {
        DoRotate();
      }
      var content := if 0 in files then files[0] else [];
      files := files[0 := content + chunk[..accepted]];
      bytes := bytes + accepted;
    }
  }
}
