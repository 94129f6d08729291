/** The rotating file sink, over a file system whose removes, renames and opens may fail at any
    time. Writes to an open file succeed. */
module RotatingFileSink {
  import opened Options
  import opened FileNames
  import opened Rotation

  const MAX_FILES := 200000

  class FileSystem {
    var files: Files

    method Remove(name: string)
      modifies this
      ensures files == old(files) || files == old(files) - {name}
    {
      var granted: bool := *;
      if granted {
        files := files - {name};
      }
    }

    method Rename(src: string, target: string) returns (ok: bool)
      modifies this
      ensures ok ==> src in old(files) && files == (old(files) - {src})[target := old(files)[src]]
      ensures !ok ==> files == old(files)
    {
      var granted: bool := *;
      ok := granted && src in files;
      if ok {
        files := (files - {src})[target := files[src]];
      }
    }

    // Open for appending, creating the file if it is missing; optionally empty it first.
    method Open(name: string, truncate: bool) returns (ok: bool)
      modifies this
      ensures ok ==> files == old(files)[name := if truncate || name !in old(files) then [] else old(files)[name]]
      ensures !ok ==> files == old(files) || (truncate && files == old(files)[name := []])
    {
      ok := *;
      if truncate {
        var emptied: bool := *;
        if emptied || ok {
          files := files[name := []];
        }
      } else if ok && name !in files {
        files := files[name := []];
      }
    }
  }

  // At most the limit, or a single message longer than it.
  ghost predicate Bounded(b: Blocks, maxSize: nat) {
    Size(b) <= maxSize || exists k :: 0 <= k < |b| && |b[k]| == Size(b)
  }

  ghost predicate AllBounded(f: Files, base: string, n: nat, started: set<nat>, maxSize: nat) {
    forall i :: i in started && i <= n && Slot(f, base, i).Some? ==> Bounded(Slot(f, base, i).value, maxSize)
  }

  ghost predicate StartedAfterShift(f: Files, base: string, n: nat, k: nat, started: set<nat>, j: nat) {
    if j < k then j in started
    else if j == k then k == n && j in started
    else if Slot(f, base, j - 1).Some? then j - 1 in started
    else j == n && j in started
  }

  // Where the files in `started` are after a shift.
  ghost function ShiftStarted(f: Files, base: string, n: nat, k: nat, started: set<nat>): set<nat> {
    set j | 0 <= j <= n && StartedAfterShift(f, base, n, k, started, j)
  }

  // Which files the sink has started once the renames down to k and the attempt to empty file 0
  // have led to the files g.
  ghost function StartedAfter(f: Files, g: Files, base: string, n: nat, k: nat, started: set<nat>): set<nat> {
    ShiftStarted(f, base, n, k, started) + if Slot(g, base, 0) == Some([]) then {0} else {}
  }

  // What a failed rotation leaves: the renames stopped somewhere.
  ghost predicate Interrupted(f: Files, g: Files, base: string, n: nat, before: set<nat>, after: set<nat>) {
    exists k: nat :: Stopped(f, g, base, n, k) && after == StartedAfter(f, g, base, n, k, before)
  }

  // Every file of the family has been started by the sink.
  ghost predicate AllStarted(f: Files, base: string, n: nat, started: set<nat>) {
    forall i: nat :: i <= n && Slot(f, base, i).Some? ==> i in started
  }

  lemma StoppedKeepsStarted(f: Files, g: Files, base: string, n: nat, k: nat, started: set<nat>)
    requires Stopped(f, g, base, n, k) && AllStarted(f, base, n, started)
    ensures AllStarted(g, base, n, StartedAfter(f, g, base, n, k, started))
  {
    forall i: nat | i <= n && Slot(g, base, i).Some? ensures i in StartedAfter(f, g, base, n, k, started) {
      if i > k && Slot(f, base, i - 1).Some? {
        assert i - 1 in started;
      }
    }
  }

  lemma ShiftKeepsBounds(f: Files, g: Files, base: string, n: nat, k: nat, started: set<nat>, maxSize: nat)
    requires Shifted(f, g, base, n, k) && AllBounded(f, base, n, started, maxSize)
    ensures AllBounded(g, base, n, ShiftStarted(f, base, n, k, started), maxSize)
  {
  }

  lemma TruncationKeepsBounds(f: Files, base: string, n: nat, started: set<nat>, maxSize: nat)
    requires AllBounded(f, base, n, started, maxSize)
    ensures AllBounded(f[base := []], base, n, started + {0}, maxSize)
  {
    TruncationFrame(f, base, []);
    assert Bounded([], maxSize);
  }

  lemma RemovalKeepsBounds(f: Files, base: string, n: nat, name: string, started: set<nat>, maxSize: nat)
    requires AllBounded(f, base, n, started, maxSize)
    ensures AllBounded(f - {name}, base, n, started, maxSize)
  {
    forall i | i in started && i <= n && Slot(f - {name}, base, i).Some?
      ensures Bounded(Slot(f - {name}, base, i).value, maxSize)
    {
      assert Slot(f, base, i) == Slot(f - {name}, base, i);
    }
  }

  lemma OldestRemoved(g: Files, base: string, n: nat)
    ensures Subsequence(Family(g - {CalcFilename(base, n)}, base, n), Family(g, base, n))
  {
    var h := g - {CalcFilename(base, n)};
    assert Content(h, base, n) == [];
    if n > 0 {
      forall j: nat | j <= n - 1 ensures Slot(h, base, j) == Slot(g, base, j) {
        if CalcFilename(base, j) == CalcFilename(base, n) { CalcFilenameInjective(base, j, n); }
      }
      FamilyFrame(g, h, base, n - 1);
      assert Family(h, base, n) == Family(g, base, n - 1);
      ConcatSuffix(Content(g, base, n), Family(g, base, n - 1));
    } else {
      assert Family(h, base, 0) == [];
    }
  }

  // Removing the file a rename is about to replace changes nothing, unless it is the oldest one.
  lemma RemovalKeepsOrder(f: Files, g: Files, base: string, n: nat, k: nat)
    requires Shifted(f, g, base, n, k)
    ensures Subsequence(Family(g - {CalcFilename(base, k)}, base, n), Family(f, base, n))
  {
    InterruptedRotationKeepsOrder(f, g, base, n, k);
    if k == n {
      OldestRemoved(g, base, n);
      SubsequenceTrans(Family(g - {CalcFilename(base, n)}, base, n), Family(g, base, n), Family(f, base, n));
    } else {
      assert Slot(g, base, k) == None;
      assert g - {CalcFilename(base, k)} == g;
    }
  }

  // The log on disk is in order with respect to the history, and the files the sink has started
  // keep the limit.
  ghost predicate SoundFiles(f: Files, base: string, n: nat, history: Blocks, started: set<nat>, maxSize: nat) {
    Subsequence(Family(f, base, n), history) && AllBounded(f, base, n, started, maxSize)
  }

  // After the renames of a rotation, both before and after file 0 has been emptied.
  lemma RenamesKeepSound(was: Files, now: Files, base: string, n: nat, history: Blocks, started: set<nat>, maxSize: nat)
    requires SoundFiles(was, base, n, history, started, maxSize) && Shifted(was, now, base, n, 0)
    ensures SoundFiles(now, base, n, history, ShiftStarted(was, base, n, 0, started), maxSize)
    ensures SoundFiles(now[base := []], base, n, history, ShiftStarted(was, base, n, 0, started) + {0}, maxSize)
  {
    InterruptedRotationKeepsOrder(was, now, base, n, 0);
    SubsequenceTrans(Family(now, base, n), Family(was, base, n), history);
    SubsequenceTrans(Family(now[base := []], base, n), Family(was, base, n), history);
    ShiftKeepsBounds(was, now, base, n, 0, started, maxSize);
    TruncationKeepsBounds(now, base, n, ShiftStarted(was, base, n, 0, started), maxSize);
  }

  lemma RenamesKeepSuffix(was: Files, now: Files, base: string, n: nat, history: Blocks)
    requires IsSuffix(Family(was, base, n), history) && Shifted(was, now, base, n, 0)
    ensures IsSuffix(Family(now[base := []], base, n), history)
  {
    RotationKeepsHistory(was, now, base, n);
    SuffixTrans(Family(now[base := []], base, n), Family(was, base, n), history);
  }

  // After the rename of file k - 1 to file k has failed, which may have removed file k.
  lemma FailureKeepsSound(was: Files, before: Files, now: Files, base: string, n: nat, k: nat,
                          history: Blocks, started: set<nat>, maxSize: nat)
    requires SoundFiles(was, base, n, history, started, maxSize) && Shifted(was, before, base, n, k)
    requires now == before || now == before - {CalcFilename(base, k)}
    ensures SoundFiles(now, base, n, history, ShiftStarted(was, base, n, k, started), maxSize)
    ensures SoundFiles(now[base := []], base, n, history, ShiftStarted(was, base, n, k, started) + {0}, maxSize)
  {
    var shifted := ShiftStarted(was, base, n, k, started);
    InterruptedRotationKeepsOrder(was, before, base, n, k);
    RemovalKeepsOrder(was, before, base, n, k);
    SubsequenceTrans(Family(now, base, n), Family(was, base, n), history);
    TruncationLosesOnly(now, base, n);
    SubsequenceTrans(Family(now[base := []], base, n), Family(now, base, n), history);
    ShiftKeepsBounds(was, before, base, n, k, started, maxSize);
    RemovalKeepsBounds(before, base, n, CalcFilename(base, k), shifted, maxSize);
    TruncationKeepsBounds(now, base, n, shifted, maxSize);
  }

  // After the renames, whether or not the attempt to reopen file 0 has emptied it.
  lemma ReopenKeepsSound(was: Files, now: Files, g: Files, base: string, n: nat, k: nat,
                         history: Blocks, started: set<nat>, maxSize: nat)
    requires var shifted := ShiftStarted(was, base, n, k, started);
             && SoundFiles(now, base, n, history, shifted, maxSize)
             && SoundFiles(now[base := []], base, n, history, shifted + {0}, maxSize)
    requires Stopped(was, now, base, n, k) && (g == now || g == now[base := []])
    ensures SoundFiles(g, base, n, history, StartedAfter(was, g, base, n, k, started), maxSize)
    ensures Stopped(was, g, base, n, k)
    ensures AllStarted(was, base, n, started) ==> AllStarted(g, base, n, StartedAfter(was, g, base, n, k, started))
  {
    TruncationFrame(now, base, []);
    EmptiedStops(was, now, base, n, k);
    if AllStarted(was, base, n, started) {
      StoppedKeepsStarted(was, g, base, n, k, started);
    }
    if Slot(g, base, 0) == Some([]) {
      assert g == now[base := []];
    } else {
      assert StartedAfter(was, g, base, n, k, started) == ShiftStarted(was, base, n, k, started);
    }
  }

  // File 0 can be gone, and the handle closed, while the size counter still says what it held:
  // all renames have succeeded and file 0 could not be opened again.
  lemma CounterCanOutliveFile0()
    ensures var f, g := map["log" := ["x"]], map[CalcFilename("log", 1) := ["x"]];
            && Shifted(f, g, "log", 1, 0)
            && Size(Content(f, "log", 0)) == 1 && Size(Content(g, "log", 0)) == 0
  {
    if CalcFilename("log", 1) == CalcFilename("log", 0) { CalcFilenameInjective("log", 1, 0); }
    assert ["x"][..0] == [] && Size([]) == 0;
  }

  // There is room for a message: the file is empty, or stays within the limit.
  ghost predicate Fits(b: Blocks, m: string, maxSize: nat) {
    Size(b) == 0 || Size(b) + |m| <= maxSize
  }

  lemma AppendIsBounded(b: Blocks, m: string, maxSize: nat)
    ensures Size(b + [m]) == Size(b) + |m|
    ensures Fits(b, m, maxSize) ==> Bounded(b + [m], maxSize)
  {
    assert (b + [m])[..|b|] == b && (b + [m])[|b|] == m;
  }

  // Appending a message to file 0 keeps the order, the limit if there is room, and the files the sink has started.
  lemma AppendKeepsOrder(f: Files, base: string, n: nat, m: string, history: Blocks)
    requires base in f && Subsequence(Family(f, base, n), history)
    ensures var g := f[base := f[base] + [m]];
            && Subsequence(Family(g, base, n), history + [m])
            && (IsSuffix(Family(f, base, n), history) ==> IsSuffix(Family(g, base, n), history + [m]))
  {
    AppendExtendsFamily(f, base, n, m);
    SubsequenceSnoc(Family(f, base, n), history, m);
    if IsSuffix(Family(f, base, n), history) {
      SuffixSnoc(Family(f, base, n), history, m);
    }
  }

  lemma AppendKeepsLimit(f: Files, base: string, n: nat, m: string, started: set<nat>, maxSize: nat)
    requires base in f
    ensures Size(f[base] + [m]) == Size(f[base]) + |m|
    ensures AllBounded(f, base, n, started, maxSize) && Fits(f[base], m, maxSize) ==>
              AllBounded(f[base := f[base] + [m]], base, n, started, maxSize)
  {
    AppendIsBounded(f[base], m, maxSize);
    TruncationFrame(f, base, f[base] + [m]);
  }

  lemma AppendKeepsStarted(f: Files, base: string, n: nat, m: string, started: set<nat>)
    requires base in f
    ensures AllStarted(f, base, n, started) ==> AllStarted(f[base := f[base] + [m]], base, n, started)
  {
    TruncationFrame(f, base, f[base] + [m]);
    assert Slot(f, base, 0) == Some(f[base]);
  }

  // What opening file 0 for appending makes of the files.
  function Opened(f: Files, base: string): Files {
    f[base := if base in f then f[base] else []]
  }

  lemma OpeningKeepsLog(f: Files, base: string, n: nat)
    ensures Family(Opened(f, base), base, n) == Family(f, base, n)
    ensures SameOutside(f, Opened(f, base), base, n)
    ensures Content(Opened(f, base), base, 0) == Content(f, base, 0)
    ensures Size(Content(f, base, 0)) > 0 ==> Opened(f, base) == f
  {
    WritingFile0(f, base, n, if base in f then f[base] else []);
    if base in f {
      assert Opened(f, base) == f;
    } else {
      TruncatingNothing(f, base, n);
    }
  }

  // Opening creates at most file 0, which the sink has then started, and which is empty.
  lemma OpeningKeepsStarted(f: Files, base: string, n: nat, maxSize: nat)
    ensures var started := if Size(Content(f, base, 0)) == 0 then {0} else {};
            && AllBounded(Opened(f, base), base, n, started, maxSize)
            && (AllStarted(f, base, n, {}) ==> AllStarted(Opened(f, base), base, n, started))
  {
    TruncationFrame(f, base, if base in f then f[base] else []);
    assert base in f ==> Slot(f, base, 0) == Some(f[base]);
  }

  // A shift moves nothing the sink has started if it has started nothing.
  lemma NothingStarted(f: Files, base: string, n: nat)
    ensures ShiftStarted(f, base, n, 0, {}) == {}
  {
  }

  class RotatingSink {
    const baseFilename: string
    const maxSize: nat
    const maxFiles: nat
    const fs: FileSystem
    var currentSize: nat
    var isOpen: bool          // the file handle is not null

    ghost var history: Blocks    // the log found at the start, then every message received
    ghost var started: set<nat>  // the indices of the files this sink has started
    ghost var clean: bool        // no rename or open has failed

    ghost function Log(): Blocks
      reads this, fs
    {
      Family(fs.files, baseFilename, maxFiles)
    }

    ghost predicate InOrder()
      reads this, fs
    {
      && Subsequence(Log(), history)
      && (clean ==> isOpen && IsSuffix(Log(), history))
      && (isOpen ==> baseFilename in fs.files)
    }

    ghost predicate WithinLimit()
      reads this, fs
    {
      AllBounded(fs.files, baseFilename, maxFiles, started, maxSize)
    }

    ghost predicate Sound()
      reads this, fs
    {
      InOrder() && WithinLimit()
    }

    // The counter is the size of file 0; a missing file counts as empty.
    ghost predicate SizeExact()
      reads this, fs
    {
      currentSize == Size(Content(fs.files, baseFilename, 0))
    }

    ghost predicate Valid()
      reads this, fs
    {
      Sound() && (isOpen ==> SizeExact())
    }

    // All files of the family are the sink's own, so the limit holds for all of them.
    ghost predicate OwnsAll()
      reads this, fs
    {
      AllStarted(fs.files, baseFilename, maxFiles, started)
    }

    constructor (fs: FileSystem, baseFilename: string, maxSize: nat, maxFiles: nat)
      ensures this.fs == fs && this.baseFilename == baseFilename
      ensures this.maxSize == maxSize && this.maxFiles == maxFiles
      ensures fs.files == old(fs.files)
      ensures history == Family(fs.files, baseFilename, maxFiles) && started == {} && !isOpen && !clean
      ensures Valid()
    {
      this.fs := fs;
      this.baseFilename := baseFilename;
      this.maxSize := maxSize;
      this.maxFiles := maxFiles;
      currentSize := 0;
      isOpen := false;
      history := Family(fs.files, baseFilename, maxFiles);
      started := {};
      clean := false;
      new;
      SubsequenceRefl(history);
    }

    // What the source's constructor does; no sink is returned where it throws.
    static method Create(fs: FileSystem, baseFilename: string, maxSize: nat, maxFiles: nat, rotateOnOpen: bool)
      returns (sink: RotatingSink?)
      modifies fs
      ensures maxSize == 0 || maxFiles > MAX_FILES ==> sink == null && fs.files == old(fs.files)
      ensures sink != null ==>
                && fresh(sink) && sink.fs == fs && sink.baseFilename == baseFilename
                && sink.maxSize == maxSize && sink.maxFiles == maxFiles
                && sink.Valid() && sink.isOpen && sink.clean
                && sink.history == Family(old(fs.files), baseFilename, maxFiles)
                && var had := Size(Content(old(fs.files), baseFilename, 0));
                   && (if rotateOnOpen && had > 0 then Rotated(old(fs.files), fs.files, baseFilename, maxFiles, [])
                       else sink.Log() == sink.history && sink.currentSize == had)
                   && sink.started == (if rotateOnOpen || had == 0 then {0} else {})
      ensures sink != null && old(AllStarted(fs.files, baseFilename, maxFiles, {})) ==> sink.OwnsAll()
      ensures SameOutside(old(fs.files), fs.files, baseFilename, maxFiles)
    {
      if maxSize == 0 || maxFiles > MAX_FILES {
        return null;
      }
      sink := new RotatingSink(fs, baseFilename, maxSize, maxFiles);
      var ok := sink.Start(rotateOnOpen);
      if !ok {
        sink := null;
      }
    }

    // Opens file 0, creating it if it is missing, and finds out its size.
    method OpenBase() returns (ok: bool)
      requires started == {} && history == Log()
      modifies this`currentSize, this`isOpen, this`started, this`clean, fs
      ensures SameOutside(old(fs.files), fs.files, baseFilename, maxFiles)
      ensures ok ==>
                && Valid() && isOpen && clean && Log() == history
                && currentSize == Size(Content(old(fs.files), baseFilename, 0))
                && (currentSize > 0 ==> fs.files == old(fs.files))
                && started == if currentSize == 0 then {0} else {}
      ensures ok && old(OwnsAll()) ==> OwnsAll()
    {
      ok := fs.Open(baseFilename, false);
      if ok {
        assert fs.files == Opened(old(fs.files), baseFilename);
        OpeningKeepsLog(old(fs.files), baseFilename, maxFiles);
        OpeningKeepsStarted(old(fs.files), baseFilename, maxFiles, maxSize);
        SubsequenceRefl(history);
        isOpen, clean := true, true;
        currentSize := Length(fs.files[baseFilename]);
        started := if currentSize == 0 then {0} else {};
      }
    }

    // Opens file 0, and rotates if that is asked for and it is not empty.
    method Start(rotateOnOpen: bool) returns (ok: bool)
      requires started == {} && history == Log()
      modifies this`currentSize, this`isOpen, this`started, this`clean, fs
      ensures SameOutside(old(fs.files), fs.files, baseFilename, maxFiles)
      ensures ok ==>
                && Valid() && isOpen && clean
                && var had := Size(Content(old(fs.files), baseFilename, 0));
                   && (if rotateOnOpen && had > 0 then Rotated(old(fs.files), fs.files, baseFilename, maxFiles, [])
                       else Log() == history && currentSize == had)
                   && started == (if rotateOnOpen || had == 0 then {0} else {})
      ensures ok && old(OwnsAll()) ==> OwnsAll()
    {
      ok := OpenBase();
      if ok && rotateOnOpen && currentSize > 0 {
        ghost var was := fs.files;
        NothingStarted(was, baseFilename, maxFiles);
        ok := Rotate();
        currentSize := 0;
      }
    }

    // The size of a file as the operating system reports it.
    static method Length(b: Blocks) returns (n: nat)
      ensures n == Size(b)
    {
      n := 0;
      for i := 0 to |b|
        invariant n == Size(b[..i])
      {
        assert b[..i + 1][..i] == b[..i];
        n := n + |b[i]|;
      }
      assert b[..|b|] == b;
    }

    method RenameFile(src: string, target: string) returns (ok: bool)
      requires src != target
      modifies fs
      ensures ok ==> src in old(fs.files) && fs.files == (old(fs.files) - {src})[target := old(fs.files)[src]]
      ensures !ok ==> fs.files == old(fs.files) || fs.files == old(fs.files) - {target}
    {
      fs.Remove(target);
      ok := fs.Rename(src, target);
    }

    method RenameWithRetry(src: string, target: string) returns (ok: bool)
      requires src != target
      modifies fs
      ensures ok ==> src in old(fs.files) && fs.files == (old(fs.files) - {src})[target := old(fs.files)[src]]
      ensures !ok ==> fs.files == old(fs.files) || fs.files == old(fs.files) - {target}
    {
      ok := RenameFile(src, target);
      if !ok {
        ok := RenameFile(src, target);
      }
    }

    // Shift every file up by one and start a new file 0. Fails, with file 0 emptied, when a
    // rename fails twice, and with the handle closed when file 0 cannot be reopened; the counter
    // is then left alone.
    method Rotate() returns (ok: bool)
      requires Sound()
      modifies this`currentSize, this`isOpen, this`started, this`clean, fs
      ensures Sound() && SameOutside(old(fs.files), fs.files, baseFilename, maxFiles)
      ensures ok ==>
                && isOpen && clean == old(clean) && currentSize == old(currentSize)
                && Rotated(old(fs.files), fs.files, baseFilename, maxFiles, [])
                && started == ShiftStarted(old(fs.files), baseFilename, maxFiles, 0, old(started)) + {0}
      ensures !ok ==> !clean && Interrupted(old(fs.files), fs.files, baseFilename, maxFiles, old(started), started)
      ensures !ok ==> if isOpen then Slot(fs.files, baseFilename, 0) == Some([]) && currentSize == 0
                      else currentSize == old(currentSize)
      ensures old(OwnsAll()) ==> OwnsAll()
    {
      isOpen := false;
      ghost var was := fs.files;
      var shifted, i, before := ShiftFiles();
      if !shifted {
        ok := GiveUp(was, before, i);
        return;
      }
      RenamesKeepSound(was, fs.files, baseFilename, maxFiles, history, started, maxSize);
      ShiftStops(was, fs.files, baseFilename, maxFiles);
      File0Written(was, fs.files, baseFilename, maxFiles, []);
      if clean {
        RenamesKeepSuffix(was, fs.files, baseFilename, maxFiles, history);
      }
      ok := Reopen(was, 0);
    }

    // Empties and opens file 0 after the renames have come down to file k.
    method Reopen(ghost was: Files, ghost k: nat) returns (ok: bool)
      requires var shifted := ShiftStarted(was, baseFilename, maxFiles, k, started);
               && SoundFiles(fs.files, baseFilename, maxFiles, history, shifted, maxSize)
               && SoundFiles(fs.files[baseFilename := []], baseFilename, maxFiles, history, shifted + {0}, maxSize)
      requires Stopped(was, fs.files, baseFilename, maxFiles, k)
      requires clean ==> IsSuffix(Family(fs.files[baseFilename := []], baseFilename, maxFiles), history)
      modifies this`isOpen, this`started, this`clean, fs
      ensures Sound() && SameOutside(old(fs.files), fs.files, baseFilename, maxFiles)
      ensures isOpen == ok && clean == (old(clean) && ok)
      ensures ok ==> fs.files == old(fs.files)[baseFilename := []]
      ensures started == StartedAfter(was, fs.files, baseFilename, maxFiles, k, old(started))
      ensures Stopped(was, fs.files, baseFilename, maxFiles, k)
      ensures AllStarted(was, baseFilename, maxFiles, old(started)) ==> OwnsAll()
    {
      ghost var now := fs.files;
      ok := fs.Open(baseFilename, true);
      WritingFile0(now, baseFilename, maxFiles, []);
      ReopenKeepsSound(was, now, fs.files, baseFilename, maxFiles, k, history, started, maxSize);
      isOpen := ok;
      clean := clean && ok;
      started := StartedAfter(was, fs.files, baseFilename, maxFiles, k, started);
    }

    // One turn of the loop of the rotation: rename file k - 1 to file k if it exists.
    method ShiftFile(k: nat) returns (ok: bool)
      requires 0 < k <= maxFiles
      modifies fs
      ensures SameOutside(old(fs.files), fs.files, baseFilename, maxFiles)
      ensures var src, target := CalcFilename(baseFilename, k - 1), CalcFilename(baseFilename, k);
              if !ok then fs.files == old(fs.files) || fs.files == old(fs.files) - {target}
              else if src in old(fs.files) then
                fs.files == (old(fs.files) - {src})[target := old(fs.files)[src]]
              else fs.files == old(fs.files)
    {
      ok := true;
      var src := CalcFilename(baseFilename, k - 1);
      if src in fs.files {
        var target := CalcFilename(baseFilename, k);
        assert InFamily(src, baseFilename, maxFiles) && InFamily(target, baseFilename, maxFiles);
        if src == target { CalcFilenameInjective(baseFilename, k - 1, k); }
        ok := RenameWithRetry(src, target);
      }
    }

    // The loop of the rotation. When a rename has failed twice, `i` says which target it had and
    // `before` what the files were.
    method ShiftFiles() returns (ok: bool, ghost i: nat, ghost before: Files)
      modifies fs
      ensures SameOutside(old(fs.files), fs.files, baseFilename, maxFiles)
      ensures ok ==> Shifted(old(fs.files), fs.files, baseFilename, maxFiles, 0)
      ensures !ok ==>
                && 0 < i && Shifted(old(fs.files), before, baseFilename, maxFiles, i)
                && (fs.files == before || fs.files == before - {CalcFilename(baseFilename, i)})
    {
      ghost var was := fs.files;
      var k: nat := maxFiles;
      while k > 0
        invariant Shifted(was, fs.files, baseFilename, maxFiles, k)
        invariant SameOutside(was, fs.files, baseFilename, maxFiles)
      {
        i, before := k, fs.files;
        ok := ShiftFile(k);
        if !ok {
          return;
        }
        TurnExtendsShift(was, before, fs.files, baseFilename, maxFiles, k);
        k := k - 1;
      }
      ok, i, before := true, 0, fs.files;
    }

    // The second attempt to rename file i - 1 to file i has failed: empty file 0 anyway, to keep
    // it from growing beyond its limit, and report the failure.
    method GiveUp(ghost was: Files, ghost before: Files, ghost i: nat) returns (ok: bool)
      requires SoundFiles(was, baseFilename, maxFiles, history, started, maxSize)
      requires !isOpen && 0 < i && Shifted(was, before, baseFilename, maxFiles, i)
      requires fs.files == before || fs.files == before - {CalcFilename(baseFilename, i)}
      modifies this`currentSize, this`isOpen, this`started, this`clean, fs
      ensures Sound() && !ok && !clean
      ensures SameOutside(old(fs.files), fs.files, baseFilename, maxFiles)
      ensures Interrupted(was, fs.files, baseFilename, maxFiles, old(started), started)
      ensures if isOpen then Slot(fs.files, baseFilename, 0) == Some([]) && currentSize == 0
              else currentSize == old(currentSize)
      ensures AllStarted(was, baseFilename, maxFiles, old(started)) ==> OwnsAll()
    {
      FailureKeepsSound(was, before, fs.files, baseFilename, maxFiles, i, history, started, maxSize);
      FailedRenameStops(was, before, fs.files, baseFilename, maxFiles, i);
      clean := false;
      var reopened := Reopen(was, i);
      if reopened {
        currentSize := 0;
      }
      ok := false;
    }

    // File 0 is not empty and the message would take it over the limit.
    ghost predicate MustRotate(formatted: string)
      reads this
    {
      isOpen && currentSize > 0 && currentSize + |formatted| > maxSize
    }

    // What the sink does when a message might exceed the limit: it asks for the real size of the
    // file, which throws if the handle is closed, and rotates if the file is not empty.
    method MakeRoom() returns (ok: bool, rotated: bool)
      requires Valid()
      modifies this`currentSize, this`isOpen, this`started, this`clean, fs
      ensures Sound() && SameOutside(old(fs.files), fs.files, baseFilename, maxFiles) && clean == (old(clean) && ok)
      ensures !old(isOpen) || old(currentSize) == 0 ==>
                && ok == old(isOpen) && !rotated && isOpen == old(isOpen) && started == old(started)
                && fs.files == old(fs.files) && currentSize == old(currentSize)
      ensures old(isOpen) && old(currentSize) > 0 ==> rotated == ok
      ensures rotated ==>
                && isOpen && Rotated(old(fs.files), fs.files, baseFilename, maxFiles, [])
                && started == ShiftStarted(old(fs.files), baseFilename, maxFiles, 0, old(started)) + {0}
      ensures !ok && old(isOpen) ==>
                && Interrupted(old(fs.files), fs.files, baseFilename, maxFiles, old(started), started)
                && (if isOpen then Slot(fs.files, baseFilename, 0) == Some([]) && currentSize == 0
                    else currentSize == old(currentSize))
      ensures old(OwnsAll()) ==> OwnsAll()
    {
      rotated := false;
      if !isOpen {
        return false, false;
      }
      var realSize := Length(fs.files[baseFilename]);
      ok := true;
      if realSize > 0 {
        ok := Rotate();
        rotated := ok;
      }
    }

    // Returns false where the source throws.
    method SinkIt(formatted: string) returns (ok: bool)
      requires Valid()
      modifies this`currentSize, this`isOpen, this`started, this`clean, this`history, fs
      ensures Valid() && SameOutside(old(fs.files), fs.files, baseFilename, maxFiles)
      ensures history == old(history) + [formatted] && clean == (old(clean) && ok)
      ensures !old(isOpen) ==>
                && ok == (old(currentSize) + |formatted| <= maxSize)
                && !isOpen && fs.files == old(fs.files) && started == old(started)
                && currentSize == old(currentSize) + if ok then |formatted| else 0
      ensures old(isOpen) && !old(MustRotate(formatted)) ==>
                && ok && isOpen && started == old(started)
                && fs.files == old(fs.files)[baseFilename := old(fs.files)[baseFilename] + [formatted]]
      ensures old(MustRotate(formatted)) && ok ==>
                && isOpen && Rotated(old(fs.files), fs.files, baseFilename, maxFiles, [formatted])
                && started == ShiftStarted(old(fs.files), baseFilename, maxFiles, 0, old(started)) + {0}
      ensures old(MustRotate(formatted)) && !ok ==>
                && Interrupted(old(fs.files), fs.files, baseFilename, maxFiles, old(started), started)
                && (isOpen ==> Slot(fs.files, baseFilename, 0) == Some([]))
                && (!isOpen ==> currentSize == old(currentSize))
      ensures !ok && old(isOpen) ==>
                (SizeExact() <==> isOpen || Slot(fs.files, baseFilename, 0) == old(Slot(fs.files, baseFilename, 0)))
      ensures old(OwnsAll()) ==> OwnsAll()
    {
      var newSize := currentSize + |formatted|;
      if newSize > maxSize {
        var rotated;
        ok, rotated := MakeRoom();
        if !ok {
          Drop(formatted);
          return;
        }
        if rotated {
          newSize := |formatted|;
          File0Written(old(fs.files), fs.files, baseFilename, maxFiles, [formatted]);
        }
      }
      Write(formatted);
      currentSize := newSize;
      ok := true;
    }

    // Append to the open file; without an open file the message is lost silently.
    method Write(formatted: string)
      requires InOrder()
      modifies this`history, fs
      ensures InOrder() && history == old(history) + [formatted]
      ensures !isOpen ==> fs.files == old(fs.files)
      ensures isOpen ==>
                && fs.files == old(fs.files)[baseFilename := old(fs.files)[baseFilename] + [formatted]]
                && Size(fs.files[baseFilename]) == Size(old(fs.files)[baseFilename]) + |formatted|
      ensures old(WithinLimit()) && (isOpen ==> Fits(old(fs.files)[baseFilename], formatted, maxSize)) ==> WithinLimit()
      ensures old(OwnsAll()) ==> OwnsAll()
    {
      if isOpen {
        AppendKeepsOrder(fs.files, baseFilename, maxFiles, formatted, history);
        AppendKeepsLimit(fs.files, baseFilename, maxFiles, formatted, started, maxSize);
        AppendKeepsStarted(fs.files, baseFilename, maxFiles, formatted, started);
        fs.files := fs.files[baseFilename := fs.files[baseFilename] + [formatted]];
      } else {
        SubsequenceSnoc(Log(), history, formatted);
      }
      history := history + [formatted];
    }

    // A message that was received but not written.
    ghost method Drop(formatted: string)
      requires Sound() && !clean
      modifies this`history
      ensures Sound() && history == old(history) + [formatted]
    {
      SubsequenceSnoc(Log(), history, formatted);
      history := history + [formatted];
    }
  }
}
