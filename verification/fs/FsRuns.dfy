/** Runs: every disciplined sequence of calls, failures that change nothing, and what is written being read back. */
module FsRuns {
  import opened Collections
  import opened Memory
  import opened FsState
  import opened AbstractFs
  import opened FsInvariant
  import opened FsOperations
  import opened FsCounting
  import opened FsNaming
  import opened FsRefinement
  import opened FsTheorems

  // ---------- every run ----------

  /** The discipline along a run. */
  ghost predicate Follows(s: Fs, calls: seq<Call>)
    requires Inv(s)
  {
    AbsIsValid(s, NameMap(Dir(s.disk)), InodeMap(Dir(s.disk)));
    DisciplinedRun(Abs(s), calls)
  }

  /** The calls one after the other on the tables. */
  ghost function Run(s: Fs, calls: seq<Call>): (r: (Fs, seq<Reply>))
    requires Inv(s) && Follows(s, calls)
    ensures |r.1| == |calls|
    decreases |calls|
  {
    if calls == [] then (s, [])
    else
      FirstCall(s, calls);
      var (s1, reply) := Step(s, calls[0]);
      var (s2, replies) := Run(s1, calls[1..]);
      (s2, [reply] + replies)
  }

  lemma FirstCall(s: Fs, calls: seq<Call>)
    requires Inv(s) && calls != [] && Follows(s, calls)
    ensures Callable(s.disk.params, calls[0]) && Disciplined(Abs(s), calls[0])
    ensures Inv(Step(s, calls[0]).0) && Follows(Step(s, calls[0]).0, calls[1..])
  {
    hide Core;
    hide Dir;
    hide NameMap;
    hide InodeMap;
    hide HandlesOk;
    hide AbsWith;
    AbsParams(s);
    StepRefines(s, calls[0]);
  }

  /** Every disciplined run replies as the abstract file system does, call by call, and ends standing for its result. */
  lemma {:induction false} RunRefines(s: Fs, calls: seq<Call>)
    requires Inv(s) && Follows(s, calls)
    ensures AbsValid(Abs(s)) && Inv(Run(s, calls).0)
    ensures (Abs(Run(s, calls).0), Run(s, calls).1) == AbsRun(Abs(s), calls)
    decreases |calls|
  {
    hide Core;
    hide Dir;
    hide NameMap;
    hide InodeMap;
    hide HandlesOk;
    hide AbsWith;
    AbsIsValid(s, NameMap(Dir(s.disk)), InodeMap(Dir(s.disk)));
    if calls != [] {
      FirstCall(s, calls);
      StepRefines(s, calls[0]);
      RunRefines(Step(s, calls[0]).0, calls[1..]);
    }
  }

  /** From tfs_init on. */
  lemma EveryRun(p: Params, m: Uninitialised, s: Fs, calls: seq<Call>)
    requires Allocated(p, m) && TfsInit(p, m) == (s, 0)
    requires DisciplinedRun(AbsFs(p, map[], map[]), calls)
    ensures Inv(s) && Follows(s, calls) && Inv(Run(s, calls).0)
    ensures (Abs(Run(s, calls).0), Run(s, calls).1) == AbsRun(AbsFs(p, map[], map[]), calls)
  {
    hide DiskInv;
    hide HandlesOk;
    hide TfsInit;
    hide AbsWith;
    hide DisciplinedRun;
    hide AbsRun;
    hide Run;
    InitRefines(p, m);
    RunRefines(s, calls);
  }

  // ---------- opens and closes ----------

  /** The opens that returned a handle. */
  function Opens(calls: seq<Call>, replies: seq<Reply>): nat
    requires |calls| == |replies|
  {
    if calls == [] then 0
    else (if calls[0].Open? && replies[0].ret != -1 then 1 else 0) + Opens(calls[1..], replies[1..])
  }

  /** The closes that succeeded. */
  function Closes(calls: seq<Call>, replies: seq<Reply>): nat
    requires |calls| == |replies|
  {
    if calls == [] then 0
    else (if calls[0].Close? && replies[0].ret == 0 then 1 else 0) + Closes(calls[1..], replies[1..])
  }

  /** One call opens a handle, closes one, or leaves them as many. */
  lemma StepHandles(a: AbsFs, c: Call)
    requires AbsValid(a)
    ensures |AbsStep(a, c).0.handles| == |a.handles|
                                         + (if c.Open? && AbsStep(a, c).1.ret != -1 then 1 else 0)
                                         - (if c.Close? && AbsStep(a, c).1.ret == 0 then 1 else 0)
  {
    match c
    case Open(path, mode) => OpenHandles(a, path, mode);
    case Close(h) =>
      if h in a.handles {
        assert (a.handles - {h}).Keys == a.handles.Keys - {h};
      }
    case Write(h, buffer) =>
      if h in a.handles {
        var n := Min(|buffer|, a.params.blockSize - a.handles[h].offset);
        SameHandles(a.handles, h, Opened(a.handles[h].name, a.handles[h].offset + n));
      }
    case Read(h, len) =>
      if h in a.handles {
        var n := Min(len, |a.files[a.handles[h].name]| - a.handles[h].offset);
        SameHandles(a.handles, h, Opened(a.handles[h].name, a.handles[h].offset + n));
      }
    case Unlink(path) =>
  }

  lemma SameHandles(handles: map<int, Opened>, h: int, o: Opened)
    requires h in handles
    ensures |handles[h := o]| == |handles|
  {
    assert handles[h := o].Keys == handles.Keys;
  }

  lemma AddedHandle(a: AbsFs, name: CString, offset: nat)
    ensures |AbsAddHandle(a, name, offset).0.handles|
         == |a.handles| + if AbsAddHandle(a, name, offset).1.ret != -1 then 1 else 0
  {
    var h := LowestHandle(a.handles, 0, a.params.maxOpenFiles);
    if h != a.params.maxOpenFiles {
      assert a.handles[h := Opened(name, offset)].Keys == a.handles.Keys + {h};
    }
  }

  lemma OpenHandles(a: AbsFs, path: Path, mode: Mode)
    requires AbsValid(a)
    ensures |AbsOpen(a, path, mode).0.handles| == |a.handles| + if AbsOpen(a, path, mode).1.ret != -1 then 1 else 0
  {
    hide CanCreate;
    hide AbsAddHandle;
    if ValidPathname(path) {
      var n := FileName(path);
      if n in a.files {
        var content := if mode.trunc then [] else a.files[n];
        AddedHandle(a.(files := a.files[n := content]), n, if mode.append then |content| else 0);
      } else {
        AddedHandle(a.(files := a.files[n := []]), n, 0);
      }
    }
  }

  lemma {:induction false} AbsHandles(a: AbsFs, calls: seq<Call>)
    requires AbsValid(a) && DisciplinedRun(a, calls)
    ensures |AbsRun(a, calls).0.handles|
         == |a.handles| + Opens(calls, AbsRun(a, calls).1) - Closes(calls, AbsRun(a, calls).1)
    decreases |calls|
  {
    if calls != [] {
      StepHandles(a, calls[0]);
      AbsStepValid(a, calls[0]);
      AbsHandles(AbsStep(a, calls[0]).0, calls[1..]);
      hide AbsStep;
      hide AbsValid;
      hide Disciplined;
      assert AbsRun(a, calls).1[1..] == AbsRun(AbsStep(a, calls[0]).0, calls[1..]).1;
    }
  }

  /** Over every run, the TAKEN open-file entries grow by the successful opens and shrink by the successful closes. */
  lemma HandlesOverRun(s: Fs, calls: seq<Call>)
    requires Inv(s) && Follows(s, calls)
    ensures Inv(Run(s, calls).0)
    ensures |TakenSet(Run(s, calls).0.openAlloc)|
         == |TakenSet(s.openAlloc)| + Opens(calls, Run(s, calls).1) - Closes(calls, Run(s, calls).1)
  {
    hide DiskInv;
    hide HandlesOk;
    hide AbsWith;
    hide Run;
    hide AbsRun;
    hide TakenSet;
    RunRefines(s, calls);
    AbsHandles(Abs(s), calls);
    Conservation(s);
    Conservation(Run(s, calls).0);
  }

  // ---------- failures ----------

  /** The table of open files has no room. */
  lemma HandlesFull(s: Fs)
    requires Inv(s)
    ensures LowestHandle(Abs(s).handles, 0, s.disk.params.maxOpenFiles) == FirstFree(s.openAlloc)
    ensures FirstFree(s.openAlloc) == |s.openAlloc| <==> |Abs(s).handles| == s.disk.params.maxOpenFiles
  {
    assert Abs(s).handles.Keys == TakenSet(s.openAlloc);
    hide DiskInv;
    hide AbsWith;
    LowestHandleIs(s.openAlloc, Abs(s).handles);
    FirstFreeFails(s.openAlloc);
  }

  /** The limits as counts. */
  lemma Limits(s: Fs)
    requires Inv(s)
    ensures |Abs(s).files| + 1 <= s.disk.params.maxInodes
    ensures |Abs(s).files| <= s.disk.params.MaxDirEntries()
    ensures (LowestHandle(Abs(s).handles, 0, s.disk.params.maxOpenFiles) == s.disk.params.maxOpenFiles)
         == (|Abs(s).handles| == s.disk.params.maxOpenFiles)
  {
    Conservation(s);
    FirstFreeFails(s.disk.inodeAlloc);
    EntriesPerBlock(s.disk);
    NamesAndSlots(Dir(s.disk));
    HandlesFull(s);
    hide DiskInv;
    hide AbsWith;
    hide LowestHandle;
    hide FirstFree;
    hide LiveSlots;
    hide Dir;
    hide TakenSet;
  }

  /** Creating a file fails exactly for want of an inode, a directory slot, a name that fits, or a handle. */
  lemma CreationFailsExactly(s: Fs, path: Path, mode: Mode)
    requires Inv(s) && ValidPathname(path) && FileName(path) !in Abs(s).files && mode.creat
    ensures TfsOpen(s, path, mode).1.ret == -1 <==>
              || |Abs(s).files| + 1 == s.disk.params.maxInodes
              || |Abs(s).files| == s.disk.params.MaxDirEntries()
              || |FileName(path)| >= MAX_FILE_NAME
              || |Abs(s).handles| == s.disk.params.maxOpenFiles
  {
    hide DiskInv;
    hide HandlesOk;
    hide AbsWith;
    hide TfsOpen;
    hide LowestHandle;
    hide DiskShape;
    Limits(s);
    AbsParams(s);
    OpenStep(s, path, mode);
  }

  lemma EntriesPerBlock(s: Disk)
    requires DiskInv(s)
    ensures |Dir(s)| == s.params.MaxDirEntries() && SlotsDistinct(Dir(s))
  {
    hide BlocksOk;
    hide Linked;
    hide NameMap;
    hide InodeMap;
  }

  /** Writing through an open handle fails exactly when there are bytes to write, the file is empty,
      and the root and the non-empty files have every block. */
  lemma WriteFailsExactly(s: Fs, h: int, buffer: seq<Byte>)
    requires Inv(s) && h in Abs(s).handles && |buffer| + s.disk.params.blockSize < SIZE_T
    ensures Usable(s, h) && Abs(s).handles[h].name in Abs(s).files
    ensures TfsWrite(s, h, buffer).1.ret == -1 <==>
              && |buffer| > 0 && Abs(s).files[Abs(s).handles[h].name] == []
              && |NonEmpty(Abs(s).files)| + 1 == s.disk.params.maxBlocks
  {
    WriteRefines(s, h, buffer);
    AbsParams(s);
    hide Inv;
    hide AbsWith;
    hide TfsWrite;
    hide NonEmpty;
    AbsWriteIs(Abs(s), h, buffer, Abs(s).handles[h].name, Abs(s).handles[h].offset);
  }

  /** tfs_open that has created or emptied a file when it finds no room for a handle. */
  predicate LateFailure(a: AbsFs, c: Call)
    requires a.params.Valid()
  {
    && c.Open? && ValidPathname(c.path)
    && LowestHandle(a.handles, 0, a.params.maxOpenFiles) == a.params.maxOpenFiles
    && var n := FileName(c.path);
       if n in a.files then c.mode.trunc && a.files[n] != [] else c.mode.creat && CanCreate(a, n)
  }

  /** A failed call leaves every file and every handle as it was, with that one exception. */
  lemma FailureAtomic(s: Fs, c: Call)
    requires Inv(s) && Callable(s.disk.params, c) && Step(s, c).1.ret == -1
    ensures Shape(Step(s, c).0)
    ensures AbsValid(Abs(s)) && (Abs(Step(s, c).0) == Abs(s) <==> !LateFailure(Abs(s), c))
  {
    hide Core;
    hide Dir;
    hide NameMap;
    hide InodeMap;
    hide HandlesOk;
    hide AbsWith;
    StepRefines(s, c);
    if c.Open? {
      OpenStep(s, c.path, c.mode);
      hide TfsOpen;
      FailedOpen(Abs(s), c.path, c.mode);
    } else {
      AbsParams(s);
      OnlyOpenTruncates(Abs(s), c);
      hide Step;
    }
  }

  /** The three allocation tables and the open-file entries. */
  predicate SameTables(s: Fs, s': Fs) {
    && s'.disk.inodeAlloc == s.disk.inodeAlloc && s'.disk.blockAlloc == s.disk.blockAlloc
    && s'.openAlloc == s.openAlloc && s'.openFiles == s.openFiles
  }

  /** Nor does it take or give back an inode, a block or a handle. */
  lemma FailureKeepsTables(s: Fs, c: Call)
    requires Inv(s) && Callable(s.disk.params, c) && Step(s, c).1.ret == -1
    requires !LateFailure(Abs(s), c)
    ensures SameTables(s, Step(s, c).0)
  {
    hide Core;
    hide Dir;
    hide DirOk;
    hide NameMap;
    hide InodeMap;
    hide HandlesOk;
    hide AbsWith;
    hide LateFailure;
    hide SameTables;
    hide TfsOpen;
    hide TfsUnlink;
    hide TfsWrite;
    hide TfsRead;
    match c
    case Open(path, mode) =>
      if ValidPathname(path) && FileName(path) in NameMap(Dir(s.disk)) {
        FailedExisting(s, path, mode);
      } else if ValidPathname(path) && mode.creat {
        FailedCreate(s, path, mode);
      } else {
        OpenMisses(s, path, mode);
        SameTablesSelf(s);
      }
    case Unlink(path) =>
      FailedUnlink(s, path);
    case Close(h) => SameTablesSelf(s);
    case Read(h, len) =>
      InvUsable(s, h);
      FailedRead(s, h, len);
    case Write(h, buffer) =>
      InvUsable(s, h);
      FailedWrite(s, h, buffer);
  }

  lemma SameTablesSelf(s: Fs)
    ensures SameTables(s, s)
  {
  }

  lemma FailedRead(s: Fs, h: int, len: nat)
    requires Shape(s) && Usable(s, h) && TfsRead(s, h, len).1.ret == -1
    ensures SameTables(s, TfsRead(s, h, len).0)
  {
  }

  lemma FailedWrite(s: Fs, h: int, buffer: seq<Byte>)
    requires Shape(s) && Usable(s, h) && |buffer| + s.disk.params.blockSize < SIZE_T
    requires TfsWrite(s, h, buffer).1.ret == -1
    ensures SameTables(s, TfsWrite(s, h, buffer).0)
  {
    hide BlockStart;
    hide WriteInode;
  }

  /** A file that is there is found, and clearing its entry succeeds. */
  lemma FailedUnlink(s: Fs, path: Path)
    requires Inv(s) && TfsUnlink(s, path).1.ret == -1
    ensures SameTables(s, TfsUnlink(s, path).0)
  {
    UnlinkStep(s, path);
    hide Inv;
    hide NameMap;
    hide InodeMap;
    hide FilesOf;
    if ValidPathname(path) && FileName(path) in NameMap(Dir(s.disk)) {
      assert false;
    } else {
      UnlinkMisses(s, path);
    }
  }

  lemma FailedExisting(s: Fs, path: Path, mode: Mode)
    requires Inv(s) && ValidPathname(path) && FileName(path) in NameMap(Dir(s.disk))
    requires TfsOpen(s, path, mode).1.ret == -1 && !LateFailure(Abs(s), Open(path, mode))
    ensures SameTables(s, TfsOpen(s, path, mode).0)
  {
    hide Core;
    hide Dir;
    hide DirOk;
    hide NameMap;
    hide InodeMap;
    hide HandlesOk;
    hide AbsWith;
    hide LowestHandle;
    hide FileBytes;
    var n, names := FileName(path), NameMap(Dir(s.disk));
    LookupFinds(s.disk, path);
    FoundFile(s.disk, names, InodeMap(Dir(s.disk)), n);
    OpenFoundFails(s, path, mode, names[n]);
    HandlesFull(s);
    AbsParams(s);
    hide TfsOpen;
    EmptyIsEmpty(s.disk, names, InodeMap(Dir(s.disk)), n);
    FileAt(s, names, InodeMap(Dir(s.disk)), n);
  }

  lemma OpenFoundFails(s: Fs, path: Path, mode: Mode, k: int)
    requires Inv(s) && ValidPathname(path) && 0 <= k < |s.disk.inodes| && TfsLookup(s.disk, path) == k
    requires TfsOpen(s, path, mode).1.ret == -1
    ensures FirstFree(s.openAlloc) == |s.openAlloc|
    ensures mode.trunc ==> s.disk.inodes[k].size == 0 ==> TfsOpen(s, path, mode).0 == s
    ensures !mode.trunc ==> TfsOpen(s, path, mode).0 == s
  {
    hide Core;
    hide Dir;
    hide DirOk;
    hide HandlesOk;
    hide TfsLookup;
    LookupFinds(s.disk, path);
    hide NameMap;
  }

  lemma FileAt(s: Fs, names: Names, owners: Owners, n: CString)
    requires Shape(s) && n in names
    ensures n in AbsWith(s, names, owners).files && AbsWith(s, names, owners).files[n] == FileBytes(s.disk, names[n])
  {
  }

  lemma EmptyIsEmpty(s: Disk, names: Names, owners: Owners, n: CString)
    requires Core(s, names, owners) && n in names
    ensures FileBytes(s, names[n]) == [] <==> s.inodes[names[n]].size == 0
  {
    FoundFile(s, names, owners, n);
  }

  lemma CanCreateAbs(s: Fs, n: CString)
    requires Inv(s)
    ensures CanCreate(Abs(s), n) <==>
              && FirstFree(s.disk.inodeAlloc) < |s.disk.inodeAlloc| && |n| < MAX_FILE_NAME
              && FreeSlot(Dir(s.disk)) < |Dir(s.disk)|
  {
    hide Core;
    hide Dir;
    hide DirOk;
    hide NameMap;
    hide InodeMap;
    hide HandlesOk;
    hide AbsWith;
    hide FirstFree;
    hide FreeSlot;
    var names, owners := NameMap(Dir(s.disk)), InodeMap(Dir(s.disk));
    CanCreateIs(s.disk, names, owners);
    ConservationWith(s, names, owners);
    AbsParams(s);
  }

  lemma FailedCreate(s: Fs, path: Path, mode: Mode)
    requires Inv(s) && ValidPathname(path) && FileName(path) !in NameMap(Dir(s.disk)) && mode.creat
    requires TfsOpen(s, path, mode).1.ret == -1 && !LateFailure(Abs(s), Open(path, mode))
    ensures SameTables(s, TfsOpen(s, path, mode).0)
  {
    var n, i: int, slot := FileName(path), FirstFree(s.disk.inodeAlloc), FreeSlot(Dir(s.disk));
    LookupFinds(s.disk, path);
    CreateFileIs(s.disk, n, i, slot);
    HandlesFull(s);
    CanCreateAbs(s, n);
    assert n !in Abs(s).files;
    hide Inv;
    hide AbsWith;
    hide NameMap;
    hide InodeMap;
    hide CreateFile;
    hide CanCreate;
    hide Dir;
    hide LowestHandle;
  }

  /** Among abstract calls, too, only an open that fails has done something. */
  lemma OnlyOpenTruncates(a: AbsFs, c: Call)
    requires AbsValid(a) && Callable(a.params, c) && !c.Open? && AbsStep(a, c).1.ret == -1
    ensures Disciplined(a, c) && AbsStep(a, c).0 == a
  {
    hide NonEmpty;
    hide Overwrite;
  }

  lemma FailedOpen(a: AbsFs, path: Path, mode: Mode)
    requires AbsValid(a) && AbsOpen(a, path, mode).1.ret == -1
    ensures AbsOpen(a, path, mode).0 == a <==> !LateFailure(a, Open(path, mode))
  {
    hide LowestHandle;
    hide CanCreate;
    if ValidPathname(path) && FileName(path) in a.files {
      var n := FileName(path);
      assert a.files[n := a.files[n]] == a.files;
      assert a.files[n] != [] ==> a.files[n := []][n] != a.files[n];
    } else if ValidPathname(path) {
      assert FileName(path) in a.files[FileName(path) := []];
    }
  }
}
