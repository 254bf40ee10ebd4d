/** What every caller and every run can rely on. */
module FsTheorems {
  import opened Memory
  import opened FsState
  import opened AbstractFs
  import opened FsInvariant
  import opened FsOperations
  import opened FsRefinement

  // ---------- tfs_init ----------

  /** The tables tfs_init leaves when there is an inode and a block for the root. */
  function Formatted(p: Params, m: Uninitialised): (s: Disk)
    requires Allocated(p, m) && p.maxInodes > 0 && p.maxBlocks > 0
    ensures DiskShape(s)
  {
    var s := StateInit(p, m).disk;
    var s1 := s.(inodes := s.inodes[0 := Inode(Directory, p.blockSize, 0)],
                 inodeAlloc := s.inodeAlloc[0 := Taken], blockAlloc := s.blockAlloc[0 := Taken]);
    BlockWrite(s1, 0, 0, ClearEntries(Block(s1, 0), p.MaxDirEntries()))
  }

  lemma InitIs(p: Params, m: Uninitialised)
    requires Allocated(p, m)
    ensures p.maxInodes > 0 && p.maxBlocks > 0 ==> TfsInit(p, m) == (StateInit(p, m).(disk := Formatted(p, m)), 0)
    ensures p.maxInodes == 0 || p.maxBlocks == 0 ==> TfsInit(p, m).1 == -1
  {
    hide BlockWrite;
    hide ClearEntries;
    hide Block;
    hide BlockStart;
  }

  /** No slot of a freshly cleared directory is live, whatever its name field holds. */
  lemma FormattedDir(p: Params, m: Uninitialised)
    requires Allocated(p, m) && p.maxInodes > 0 && p.maxBlocks > 0
    ensures RootBlock(Formatted(p, m)) == 0
    ensures forall i :: 0 <= i < |Dir(Formatted(p, m))| ==> !Live(Dir(Formatted(p, m))[i])
  {
    hide Splice;
    hide BlockStart;
    hide ClearEntries;
    hide Block;
    hide EntryAt;
    var s := StateInit(p, m).disk;
    var s1 := s.(inodes := s.inodes[0 := Inode(Directory, p.blockSize, 0)],
                 inodeAlloc := s.inodeAlloc[0 := Taken], blockAlloc := s.blockAlloc[0 := Taken]);
    var cleared := ClearEntries(Block(s1, 0), p.MaxDirEntries());
    WriteIsLocal(s1, 0, 0, cleared, 0);
    assert Splice(Block(s1, 0), 0, cleared) == cleared;
    ClearedEntries(Block(s1, 0), p.MaxDirEntries());
  }

  lemma EmptyDirOk(d: seq<DirEntry>)
    requires forall i :: 0 <= i < |d| ==> !Live(d[i])
    ensures DirOk(d) && NameMap(d) == map[] && InodeMap(d) == map[]
  {
  }

  lemma FormattedTables(p: Params, m: Uninitialised)
    requires Allocated(p, m) && p.maxInodes > 0 && p.maxBlocks > 0
    ensures RootOk(Formatted(p, m)) && Linked(map[], map[], Formatted(p, m).inodes, Formatted(p, m).inodeAlloc)
    ensures BlocksOk(Formatted(p, m).inodes, Formatted(p, m).inodeAlloc, Formatted(p, m).blockAlloc, p.blockSize)
  {
    hide Splice;
    hide BlockStart;
    hide ClearEntries;
    hide Block;
    var s := Formatted(p, m);
    assert Owns(s.inodes, s.inodeAlloc, 0);
  }

  /** tfs_init succeeds exactly when the root finds an inode and a block, and then there is nothing in the file
      system. */
  lemma InitRefines(p: Params, m: Uninitialised)
    requires Allocated(p, m)
    ensures TfsInit(p, m).1 == (if p.maxInodes > 0 && p.maxBlocks > 0 then 0 else -1)
    ensures TfsInit(p, m).1 == 0 ==> Inv(TfsInit(p, m).0) && Abs(TfsInit(p, m).0) == AbsFs(p, map[], map[])
  {
    InitIs(p, m);
    if p.maxInodes > 0 && p.maxBlocks > 0 {
      FormattedDir(p, m);
      FormattedTables(p, m);
      EmptyDirOk(Dir(Formatted(p, m)));
      hide Dir;
      hide DirOk;
      hide NameMap;
      hide InodeMap;
      hide BlocksOk;
      hide Formatted;
      hide TfsInit;
      hide BlockStart;
    }
  }

  // ---------- every call ----------

  /** The calls whose arguments a C caller can make: a buffer is an object of the address space. */
  predicate Callable(p: Params, c: Call) {
    c.Write? ==> |c.buffer| + p.blockSize < SIZE_T
  }

  /** The handles on a file, as AbsFs and as the open-file table have them. */
  lemma HandlesOnFile(s: Fs, names: Names, owners: Owners, n: CString, h: int)
    requires Shape(s) && Core(s.disk, names, owners) && HandlesOk(s) && n in names
    ensures h in AbsWith(s, names, owners).handles <==> HandleIsOpen(s, h)
    ensures HandleIsOpen(s, h) ==>
              && (AbsWith(s, names, owners).handles[h].name == n <==> s.openFiles[h].inumber == names[n])
              && AbsWith(s, names, owners).handles[h].offset == s.openFiles[h].offset
  {
    hide BlocksOk;
    hide AbsWith;
    ClosedHandle(s, names, owners, h);
    if HandleIsOpen(s, h) {
      OpenHandleIs(s, names, owners, h);
    }
  }

  lemma OpenDiscipline(s: Fs, names: Names, owners: Owners, path: Path, mode: Mode)
    requires Shape(s) && Core(s.disk, names, owners) && HandlesOk(s)
    requires ValidPathname(path) && FileName(path) in names
    ensures HandlesFit(s, names[FileName(path)], mode) <==> Disciplined(AbsWith(s, names, owners), Open(path, mode))
  {
    hide Core;
    hide HandlesOk;
    hide HandlesOf;
    var n, a := FileName(path), AbsWith(s, names, owners);
    forall h
      ensures h in a.handles <==> HandleIsOpen(s, h)
      ensures HandleIsOpen(s, h) ==>
                && (a.handles[h].name == n <==> s.openFiles[h].inumber == names[n])
                && a.handles[h].offset == s.openFiles[h].offset
    {
      HandlesOnFile(s, names, owners, n, h);
    }
  }

  lemma UnlinkDiscipline(s: Fs, names: Names, owners: Owners, path: Path)
    requires Shape(s) && Core(s.disk, names, owners) && HandlesOk(s)
    requires ValidPathname(path) && FileName(path) in names
    ensures NoHandleOn(s, names[FileName(path)]) <==> Disciplined(AbsWith(s, names, owners), Unlink(path))
  {
    hide Core;
    hide HandlesOk;
    hide HandlesOf;
    var n, a := FileName(path), AbsWith(s, names, owners);
    forall h
      ensures h in a.handles <==> HandleIsOpen(s, h)
      ensures HandleIsOpen(s, h) ==> (a.handles[h].name == n <==> s.openFiles[h].inumber == names[n])
    {
      HandlesOnFile(s, names, owners, n, h);
    }
  }

  /** Paths that are not valid, or name nothing and create nothing. */
  lemma OpenMisses(s: Fs, path: Path, mode: Mode)
    requires Inv(s)
    requires ValidPathname(path) ==> FileName(path) !in NameMap(Dir(s.disk)) && !mode.creat
    ensures TfsOpen(s, path, mode) == (s, Reply(-1, []))
  {
    if ValidPathname(path) {
      LookupFinds(s.disk, path);
    }
    hide Inv;
    hide NameMap;
    hide CreateFile;
  }

  lemma UnlinkMisses(s: Fs, path: Path)
    requires Inv(s)
    requires ValidPathname(path) ==> FileName(path) !in NameMap(Dir(s.disk))
    ensures TfsUnlink(s, path) == (s, Reply(-1, []))
  {
    if ValidPathname(path) {
      LookupFinds(s.disk, path);
    }
    hide Inv;
    hide NameMap;
    hide InodeDelete;
    hide ClearDirEntry;
  }

  lemma OpenStep(s: Fs, path: Path, mode: Mode)
    requires Inv(s)
    ensures Shape(TfsOpen(s, path, mode).0)
    ensures (Abs(TfsOpen(s, path, mode).0), TfsOpen(s, path, mode).1) == AbsOpen(Abs(s), path, mode)
    ensures Inv(TfsOpen(s, path, mode).0) <==> Disciplined(Abs(s), Open(path, mode))
  {
    hide Core;
    hide DirOk;
    hide Dir;
    hide NameMap;
    hide InodeMap;
    hide HandlesOf;
    hide HandlesOk;
    hide HandlesFit;
    hide FileBytes;
    hide TfsOpen;
    hide Disciplined;
    hide AbsOpen;
    var names, owners := NameMap(Dir(s.disk)), InodeMap(Dir(s.disk));
    if ValidPathname(path) && FileName(path) in names {
      OpenExisting(s, names, owners, path, mode, FileName(path));
      OpenDiscipline(s, names, owners, path, mode);
    } else {
      OpenNewOrNot(s, path, mode);
    }
  }

  lemma OpenNewOrNot(s: Fs, path: Path, mode: Mode)
    requires Inv(s)
    requires ValidPathname(path) ==> FileName(path) !in NameMap(Dir(s.disk))
    ensures Shape(TfsOpen(s, path, mode).0)
    ensures (Abs(TfsOpen(s, path, mode).0), TfsOpen(s, path, mode).1) == AbsOpen(Abs(s), path, mode)
    ensures Inv(TfsOpen(s, path, mode).0) && Disciplined(Abs(s), Open(path, mode))
  {
    hide Core;
    hide DirOk;
    hide Dir;
    hide NameMap;
    hide InodeMap;
    hide HandlesOf;
    hide HandlesOk;
    hide FileBytes;
    hide TfsOpen;
    hide AbsAddHandle;
    hide CanCreate;
    if ValidPathname(path) && mode.creat {
      CreateRefines(s, NameMap(Dir(s.disk)), InodeMap(Dir(s.disk)), path, mode, FileName(path));
    } else {
      OpenMisses(s, path, mode);
    }
  }

  lemma UnlinkStep(s: Fs, path: Path)
    requires Inv(s)
    ensures Shape(TfsUnlink(s, path).0)
    ensures TfsUnlink(s, path).1 == AbsUnlink(Abs(s), path).1
    ensures Inv(TfsUnlink(s, path).0) <==> Disciplined(Abs(s), Unlink(path))
    ensures Disciplined(Abs(s), Unlink(path)) ==> Abs(TfsUnlink(s, path).0) == AbsUnlink(Abs(s), path).0
  {
    hide Core;
    hide DirOk;
    hide Dir;
    hide NameMap;
    hide InodeMap;
    hide HandlesOf;
    hide HandlesOk;
    hide NoHandleOn;
    hide FileBytes;
    hide TfsUnlink;
    var names, owners := NameMap(Dir(s.disk)), InodeMap(Dir(s.disk));
    if ValidPathname(path) && FileName(path) in names {
      UnlinkRefines(s, names, owners, path, FileName(path));
      UnlinkDiscipline(s, names, owners, path);
      hide Disciplined;
    } else {
      UnlinkMisses(s, path);
    }
  }

  lemma AbsParams(s: Fs)
    requires Shape(s)
    ensures Abs(s).params == s.disk.params
  {
  }

  /** Every call replies as the abstract file system does. It leaves the tables consistent, and standing for the
      abstract result, exactly when it keeps the discipline. */
  lemma StepRefines(s: Fs, c: Call)
    requires Inv(s) && Callable(s.disk.params, c)
    ensures AbsValid(Abs(s))
    ensures Step(s, c).1 == AbsStep(Abs(s), c).1
    ensures Inv(Step(s, c).0) <==> Disciplined(Abs(s), c)
    ensures Disciplined(Abs(s), c) ==> Abs(Step(s, c).0) == AbsStep(Abs(s), c).0
  {
    hide Core;
    hide Dir;
    hide NameMap;
    hide InodeMap;
    hide HandlesOk;
    hide AbsWith;
    AbsIsValid(s, NameMap(Dir(s.disk)), InodeMap(Dir(s.disk)));
    AbsParams(s);
    match c
    case Open(path, mode) => OpenStep(s, path, mode);
    case Close(h) => CloseRefines(s, h);
    case Write(h, buffer) => WriteRefines(s, h, buffer);
    case Read(h, len) => ReadRefines(s, h, len);
    case Unlink(path) => UnlinkStep(s, path);
  }
}
