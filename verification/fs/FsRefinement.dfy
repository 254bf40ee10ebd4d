/** What each operation does to the maps, the blocks and the handles, and that it keeps the invariant. */
module FsRefinement {
  import opened Collections
  import opened Memory
  import opened FsState
  import opened AbstractFs
  import opened FsInvariant
  import opened FsOperations
  import opened FsCounting
  import opened FsDirectory
  import opened FsBlocks
  import opened FsNaming

  // ---------- handles ----------

  lemma SetHandle(owners: Owners, openFiles: seq<OpenFile>, openAlloc: seq<Alloc>, h: nat, f: OpenFile)
    requires |openFiles| == |openAlloc| && h < |openAlloc|
    ensures HandlesOf(owners, openFiles[h := f], openAlloc[h := Taken])
         == HandlesOf(owners, openFiles, openAlloc)[h := HandleMeaning(owners, f)]
  {
    hide HandleMeaning;
    var before := HandlesOf(owners, openFiles, openAlloc);
    assert HandlesOf(owners, openFiles[h := f], openAlloc[h := Taken]).Keys == before.Keys + {h as int};
  }

  lemma DropHandle(owners: Owners, openFiles: seq<OpenFile>, openAlloc: seq<Alloc>, h: nat)
    requires |openFiles| == |openAlloc| && h < |openAlloc|
    ensures HandlesOf(owners, openFiles, openAlloc[h := Free]) == HandlesOf(owners, openFiles, openAlloc) - {h as int}
  {
    hide HandleMeaning;
  }

  lemma LowestHandleIs(openAlloc: seq<Alloc>, handles: map<int, Opened>)
    requires handles.Keys == TakenSet(openAlloc)
    ensures LowestHandle(handles, 0, |openAlloc|) == FirstFree(openAlloc)
  {
    var h, f := LowestHandle(handles, 0, |openAlloc|), FirstFree(openAlloc);
    assert f < h ==> f in handles;
    assert h < f ==> h in TakenSet(openAlloc);
  }

  /** A new handle on a file in use: the lowest free one, or none. */
  lemma AddHandleAbs(s: Fs, names: Names, owners: Owners, n: CString, offset: nat)
    requires Shape(s) && n in names && names[n] in owners && owners[names[n]] == n
    ensures var (s', h) := AddToOpenFileTable(s, names[n], offset);
            s'.disk == s.disk && Shape(s')
            && (AbsWith(s', names, owners), Reply(h, [])) == AbsAddHandle(AbsWith(s, names, owners), n, offset)
  {
    assert HandlesOf(owners, s.openFiles, s.openAlloc).Keys == TakenSet(s.openAlloc);
    LowestHandleIs(s.openAlloc, HandlesOf(owners, s.openFiles, s.openAlloc));
    hide FilesOf;
    hide HandlesOf;
    hide DiskShape;
    var h := FirstFree(s.openAlloc);
    if h < |s.openAlloc| {
      SetHandle(owners, s.openFiles, s.openAlloc, h, OpenFile(names[n], offset));
    }
  }

  lemma AddHandleInv(s: Fs, k: int, offset: nat)
    requires Inv(s) && 0 < k < |s.disk.inodes| && s.disk.inodeAlloc[k] == Taken && offset <= s.disk.inodes[k].size
    ensures Inv(AddToOpenFileTable(s, k, offset).0)
  {
    hide DiskInv;
  }

  lemma CloseAbs(s: Fs, names: Names, owners: Owners, h: int)
    requires Shape(s)
    ensures TfsClose(s, h).0.disk == s.disk && Shape(TfsClose(s, h).0)
    ensures (AbsWith(TfsClose(s, h).0, names, owners), TfsClose(s, h).1) == AbsClose(AbsWith(s, names, owners), h)
  {
    assert h in HandlesOf(owners, s.openFiles, s.openAlloc) <==> HandleIsOpen(s, h);
    hide HandlesOf;
    hide FilesOf;
    if HandleIsOpen(s, h) {
      DropHandle(owners, s.openFiles, s.openAlloc, h);
    }
  }

  lemma CloseRefines(s: Fs, h: int)
    requires Inv(s)
    ensures Inv(TfsClose(s, h).0)
    ensures (Abs(TfsClose(s, h).0), TfsClose(s, h).1) == AbsClose(Abs(s), h)
  {
    hide Dir;
    hide NameMap;
    hide InodeMap;
    hide Core;
    hide AbsWith;
    CloseAbs(s, NameMap(Dir(s.disk)), InodeMap(Dir(s.disk)), h);
  }

  lemma ClosedHandle(s: Fs, names: Names, owners: Owners, h: int)
    requires Shape(s)
    ensures h in AbsWith(s, names, owners).handles <==> HandleIsOpen(s, h)
  {
  }

  lemma HandleAt(owners: Owners, openFiles: seq<OpenFile>, openAlloc: seq<Alloc>, h: int, n: nat)
    requires |openFiles| == |openAlloc| && 0 <= h < |openAlloc| && openAlloc[h] == Taken
    ensures h in HandlesOf(owners, openFiles, openAlloc)
    ensures var o, f := HandlesOf(owners, openFiles, openAlloc)[h], openFiles[h];
            o == HandleMeaning(owners, f) && o.offset == f.offset
            && HandleMeaning(owners, OpenFile(f.inumber, f.offset + n)) == Opened(o.name, o.offset + n)
  {
  }

  lemma AdvanceAbs(s: Fs, names: Names, owners: Owners, h: int, n: nat)
    requires Shape(s) && HandleIsOpen(s, h)
    ensures h in AbsWith(s, names, owners).handles
    ensures AbsWith(Advance(s, h, n), names, owners) == AbsAdvance(AbsWith(s, names, owners), h, n)
  {
    hide FilesOf;
    hide HandlesOf;
    hide HandleMeaning;
    var f := s.openFiles[h];
    HandleAt(owners, s.openFiles, s.openAlloc, h, n);
    SetHandle(owners, s.openFiles, s.openAlloc, h, OpenFile(f.inumber, f.offset + n));
    assert s.openAlloc[h := Taken] == s.openAlloc;
  }

  lemma AdvanceInv(s: Fs, h: int, n: nat)
    requires Shape(s) && HandleIsOpen(s, h) && DiskInv(s.disk) && HandlesOk(s)
    requires s.openFiles[h].offset + n <= s.disk.inodes[s.openFiles[h].inumber].size
    ensures Inv(Advance(s, h, n))
  {
    hide DiskInv;
  }

  /** An open handle is a handle on a file, and stands inside it. */
  lemma OpenHandleIs(s: Fs, names: Names, owners: Owners, h: int)
    requires Shape(s) && Core(s.disk, names, owners) && HandlesOk(s) && HandleIsOpen(s, h)
    ensures var k := s.openFiles[h].inumber;
            && k in owners && owners[k] in names && names[owners[k]] == k
            && h in AbsWith(s, names, owners).handles
            && AbsWith(s, names, owners).handles[h] == Opened(owners[k], s.openFiles[h].offset)
            && owners[k] in AbsWith(s, names, owners).files
            && AbsWith(s, names, owners).files[owners[k]] == FileBytes(s.disk, k)
            && s.openFiles[h].offset <= |FileBytes(s.disk, k)| == s.disk.inodes[k].size <= s.disk.params.blockSize
  {
    FileBytesSize(s.disk, s.openFiles[h].inumber);
    hide BlocksOk;
  }

  /** The abstract state is one of files with handles inside them. */
  lemma AbsIsValid(s: Fs, names: Names, owners: Owners)
    requires Shape(s) && Core(s.disk, names, owners) && HandlesOk(s)
    ensures AbsValid(AbsWith(s, names, owners))
  {
    var a := AbsWith(s, names, owners);
    forall n | n in a.files
      ensures |a.files[n]| <= s.disk.params.blockSize
    {
      FileBytesSize(s.disk, names[n]);
    }
    forall h | h in a.handles
      ensures a.handles[h].name in a.files && a.handles[h].offset <= |a.files[a.handles[h].name]|
    {
      OpenHandleIs(s, names, owners, h);
    }
  }

  // ---------- reading ----------

  lemma ReadBytes(s: Disk, k: int, offset: nat, n: nat)
    requires DiskShape(s) && BlocksOk(s.inodes, s.inodeAlloc, s.blockAlloc, s.params.blockSize)
    requires 0 <= k < |s.inodes| && s.inodeAlloc[k] == Taken && offset + n <= s.inodes[k].size
    ensures offset + n <= |FileBytes(s, k)|
    ensures n > 0 ==> ValidBlock(s, s.inodes[k].dataBlock)
    ensures n > 0 ==> DataBlockGet(s, s.inodes[k].dataBlock)[offset..offset + n] == FileBytes(s, k)[offset..offset + n]
  {
    FileBytesSize(s, k);
    hide BlocksOk;
    hide DiskShape;
    if n > 0 {
      var block, size := Block(s, s.inodes[k].dataBlock), s.inodes[k].size;
      assert block[..size][offset..offset + n] == block[offset..offset + n];
    }
  }

  lemma ReadAbs(s: Fs, names: Names, owners: Owners, h: int, len: nat)
    requires Shape(s) && Core(s.disk, names, owners) && HandlesOk(s) && Usable(s, h) && HandleIsOpen(s, h)
    requires AbsValid(AbsWith(s, names, owners))
    ensures var n := ToRead(s.disk.inodes[s.openFiles[h].inumber].size, s.openFiles[h].offset, len);
            TfsRead(s, h, len).0 == Advance(s, h, n)
            && s.openFiles[h].offset + n <= s.disk.inodes[s.openFiles[h].inumber].size
    ensures (AbsWith(TfsRead(s, h, len).0, names, owners), TfsRead(s, h, len).1)
         == AbsRead(AbsWith(s, names, owners), h, len)
  {
    hide AbsWith;
    hide BlocksOk;
    hide Linked;
    hide Block;
    hide FileBytes;
    hide AbsValid;
    var k, offset := s.openFiles[h].inumber, s.openFiles[h].offset;
    OpenHandleIs(s, names, owners, h);
    var n := ToRead(s.disk.inodes[k].size, offset, len);
    assert n == Min(len, |FileBytes(s.disk, k)| - offset);
    AdvanceAbs(s, names, owners, h, n);
    ReadBytes(s.disk, k, offset, n);
    assert n == 0 ==> Advance(s, h, n) == s;
  }

  lemma ReadRefines(s: Fs, h: int, len: nat)
    requires Inv(s)
    ensures Usable(s, h) && Inv(TfsRead(s, h, len).0)
    ensures AbsValid(Abs(s)) && (Abs(TfsRead(s, h, len).0), TfsRead(s, h, len).1) == AbsRead(Abs(s), h, len)
  {
    hide Dir;
    hide NameMap;
    hide InodeMap;
    hide Core;
    hide AbsWith;
    hide HandlesOk;
    var names, owners := NameMap(Dir(s.disk)), InodeMap(Dir(s.disk));
    AbsIsValid(s, names, owners);
    InvUsable(s, h);
    ClosedHandle(s, names, owners, h);
    if HandleIsOpen(s, h) {
      ReadAbs(s, names, owners, h, len);
      AdvanceInv(s, h, ToRead(s.disk.inodes[s.openFiles[h].inumber].size, s.openFiles[h].offset, len));
    }
  }

  // ---------- writing ----------

  /** The block the write uses, or -1. */
  function BlockToUse(s: Disk, k: int): (b: int)
    requires DiskShape(s) && 0 <= k < |s.inodes|
  {
    if s.inodes[k].size > 0 then s.inodes[k].dataBlock
    else if FirstFree(s.blockAlloc) < |s.blockAlloc| then FirstFree(s.blockAlloc)
    else -1
  }

  /** There is no block exactly when the file is empty and every block is the root's or a file's. */
  lemma BlockToUseIs(s: Disk, names: Names, owners: Owners, k: int)
    requires Core(s, names, owners) && 0 <= k < |s.inodes| && s.inodeAlloc[k] == Taken
    ensures BlockToUse(s, k) == -1 <==> FileBytes(s, k) == [] && |NonEmpty(FilesOf(s, names))| + 1 == s.params.maxBlocks
    ensures BlockToUse(s, k) != -1 ==> BlockFor(s, k, BlockToUse(s, k))
    ensures s.inodes[k].size > 0 ==> TakeBlock(s, BlockToUse(s, k)) == s
  {
    FilesAndBlocks(s, names, owners);
    FirstFreeFails(s.blockAlloc);
    FileBytesSize(s, k);
    hide Linked;
    hide NonEmpty;
    hide FirstFree;
    hide TakenSet;
    hide FileBytes;
    hide FilesOf;
    if s.inodes[k].size > 0 {
      var b := s.inodes[k].dataBlock;
      assert s.blockAlloc[b := Taken] == s.blockAlloc;
    }
  }

  /** tfs_write by cases. */
  lemma TfsWriteIs(s: Fs, h: int, buffer: seq<Byte>)
    requires Shape(s) && Usable(s, h) && HandleIsOpen(s, h) && |buffer| + s.disk.params.blockSize < SIZE_T
    requires BlockToUse(s.disk, s.openFiles[h].inumber) != -1 ==>
      BlockFor(s.disk, s.openFiles[h].inumber, BlockToUse(s.disk, s.openFiles[h].inumber))
    requires s.disk.inodes[s.openFiles[h].inumber].size > 0 ==>
      TakeBlock(s.disk, BlockToUse(s.disk, s.openFiles[h].inumber)) == s.disk
    ensures var k, offset := s.openFiles[h].inumber, s.openFiles[h].offset;
            var n, b := Min(|buffer|, s.disk.params.blockSize - offset), BlockToUse(s.disk, k);
            TfsWrite(s, h, buffer) ==
              (if n == 0 then (s, Reply(0, []))
               else if b == -1 then (s, Reply(-1, []))
               else (Advance(s.(disk := WriteInode(TakeBlock(s.disk, b), k, b, offset, buffer[..n])), h, n),
                     Reply(n, [])))
  {
    hide WriteInode;
    hide FirstFree;
    hide DiskShape;
    var offset := s.openFiles[h].offset;
    ToWriteIs(|buffer|, offset, s.disk.params.blockSize);
    hide ToWrite;
  }

  lemma WriteKeepsHandles(s: Fs, k: int, b: int, offset: nat, bytes: seq<Byte>)
    requires Shape(s) && HandlesOk(s) && ValidBlock(s.disk, b) && 0 <= k < |s.disk.inodes|
    requires offset + |bytes| <= s.disk.params.blockSize
    ensures var disk := WriteInode(TakeBlock(s.disk, b), k, b, offset, bytes);
            Shape(s.(disk := disk)) && HandlesOk(s.(disk := disk)) && offset + |bytes| <= disk.inodes[k].size
            && disk.params == s.disk.params
  {
    hide Splice;
  }

  lemma WrittenInv(s: Fs, names: Names, owners: Owners, h: int, b: int, bytes: seq<Byte>)
    requires Inv(s) && names == NameMap(Dir(s.disk)) && owners == InodeMap(Dir(s.disk)) && HandleIsOpen(s, h)
    requires BlockFor(s.disk, s.openFiles[h].inumber, b)
    requires 0 < |bytes| && s.openFiles[h].offset + |bytes| <= s.disk.params.blockSize
    ensures var k, offset := s.openFiles[h].inumber, s.openFiles[h].offset;
            var disk := WriteInode(TakeBlock(s.disk, b), k, b, offset, bytes);
            Dir(disk) == Dir(s.disk) && Inv(Advance(s.(disk := disk), h, |bytes|))
  {
    hide NameMap;
    hide InodeMap;
    hide BlocksOk;
    hide WriteInode;
    hide Entries;
    hide DirOk;
    hide Block;
    var k, offset := s.openFiles[h].inumber, s.openFiles[h].offset;
    var n := owners[k];
    WriteKeepsCore(s.disk, names, owners, n, b, offset, bytes);
    WriteFiles(s.disk, names, owners, n, b, offset, bytes);
    WriteKeepsHandles(s, k, b, offset, bytes);
    AdvanceInv(s.(disk := WriteInode(TakeBlock(s.disk, b), k, b, offset, bytes)), h, |bytes|);
  }

  lemma WrittenAbs(s: Fs, names: Names, owners: Owners, h: int, b: int, bytes: seq<Byte>)
    requires Shape(s) && Core(s.disk, names, owners) && HandlesOk(s) && HandleIsOpen(s, h)
    requires BlockFor(s.disk, s.openFiles[h].inumber, b)
    requires 0 < |bytes| && s.openFiles[h].offset + |bytes| <= s.disk.params.blockSize
    ensures var k, offset, a := s.openFiles[h].inumber, s.openFiles[h].offset, AbsWith(s, names, owners);
            var disk := WriteInode(TakeBlock(s.disk, b), k, b, offset, bytes);
            && Shape(s.(disk := disk))
            && h in a.handles && a.handles[h].name in a.files && offset <= |a.files[a.handles[h].name]|
            && AbsWith(Advance(s.(disk := disk), h, |bytes|), names, owners)
               == AbsAdvance(
                     a.(files := a.files[a.handles[h].name := Overwrite(a.files[a.handles[h].name], offset, bytes)]),
                     h, |bytes|)
  {
    hide BlocksOk;
    hide WriteInode;
    hide Overwrite;
    hide FilesOf;
    hide HandlesOf;
    hide FileBytes;
    var k, offset := s.openFiles[h].inumber, s.openFiles[h].offset;
    var disk := WriteInode(TakeBlock(s.disk, b), k, b, offset, bytes);
    OpenHandleIs(s, names, owners, h);
    WriteKeepsHandles(s, k, b, offset, bytes);
    WriteFiles(s.disk, names, owners, owners[k], b, offset, bytes);
    AdvanceAbs(s.(disk := disk), names, owners, h, |bytes|);
  }

  lemma WriteRefines(s: Fs, h: int, buffer: seq<Byte>)
    requires Inv(s) && |buffer| + s.disk.params.blockSize < SIZE_T
    ensures Usable(s, h) && Inv(TfsWrite(s, h, buffer).0)
    ensures AbsValid(Abs(s)) && (Abs(TfsWrite(s, h, buffer).0), TfsWrite(s, h, buffer).1) == AbsWrite(Abs(s), h, buffer)
  {
    hide Dir;
    hide NameMap;
    hide InodeMap;
    hide Core;
    hide AbsWith;
    hide HandlesOk;
    hide WriteInode;
    hide BlockToUse;
    hide NonEmpty;
    hide Overwrite;
    hide AbsAdvance;
    hide AbsValid;
    var names, owners := NameMap(Dir(s.disk)), InodeMap(Dir(s.disk));
    AbsIsValid(s, names, owners);
    InvUsable(s, h);
    ClosedHandle(s, names, owners, h);
    if HandleIsOpen(s, h) {
      WriteOpenHandle(s, names, owners, h, buffer);
    }
  }

  /** AbsWrite by cases. */
  lemma AbsWriteIs(a: AbsFs, h: int, buffer: seq<Byte>, name: CString, offset: nat)
    requires AbsValid(a) && h in a.handles && a.handles[h] == Opened(name, offset)
    ensures name in a.files && offset <= |a.files[name]| <= a.params.blockSize
    ensures var n, full := Min(|buffer|, a.params.blockSize - offset),
                           a.files[name] == [] && |NonEmpty(a.files)| + 1 == a.params.maxBlocks;
            AbsWrite(a, h, buffer) ==
              (if n == 0 then (a, Reply(0, []))
               else if full then (a, Reply(-1, []))
               else (AbsAdvance(a.(files := a.files[name := Overwrite(a.files[name], offset, buffer[..n])]), h, n),
                     Reply(n, [])))
  {
    hide Overwrite;
    hide NonEmpty;
    hide AbsAdvance;
  }

  lemma WriteOpenHandle(s: Fs, names: Names, owners: Owners, h: int, buffer: seq<Byte>)
    requires Inv(s) && names == NameMap(Dir(s.disk)) && owners == InodeMap(Dir(s.disk))
    requires Usable(s, h) && HandleIsOpen(s, h) && |buffer| + s.disk.params.blockSize < SIZE_T
    requires AbsValid(AbsWith(s, names, owners))
    ensures Inv(TfsWrite(s, h, buffer).0)
    ensures (Abs(TfsWrite(s, h, buffer).0), TfsWrite(s, h, buffer).1) == AbsWrite(AbsWith(s, names, owners), h, buffer)
  {
    hide Dir;
    hide NameMap;
    hide InodeMap;
    hide BlocksOk;
    hide Linked;
    hide DirOk;
    hide WriteInode;
    hide TfsWrite;
    hide BlockToUse;
    hide NonEmpty;
    hide Overwrite;
    hide AbsAdvance;
    hide AbsValid;
    hide AbsWrite;
    hide FileBytes;
    hide HandlesOf;
    var k, offset := s.openFiles[h].inumber, s.openFiles[h].offset;
    OpenHandleIs(s, names, owners, h);
    AbsWriteIs(AbsWith(s, names, owners), h, buffer, owners[k], offset);
    BlockToUseIs(s.disk, names, owners, k);
    TfsWriteIs(s, h, buffer);
    var n, b := Min(|buffer|, s.disk.params.blockSize - offset), BlockToUse(s.disk, k);
    if n > 0 && b != -1 {
      WrittenInv(s, names, owners, h, b, buffer[..n]);
      WrittenAbs(s, names, owners, h, b, buffer[..n]);
    }
  }

  // ---------- opening a file that exists ----------

  /** The disk tfs_open goes on with: truncated if asked. */
  function OpenedDisk(s: Disk, k: int, mode: Mode): (s': Disk)
    requires DiskShape(s) && CanDelete(s, k)
    ensures DiskShape(s') && |s'.inodes| == |s.inodes|
  {
    if mode.trunc then Truncate(s, k) else s
  }

  lemma OpenedDiskIs(s: Disk, names: Names, owners: Owners, n: CString, mode: Mode)
    requires Core(s, names, owners) && n in names && CanDelete(s, names[n])
    ensures var disk, content := OpenedDisk(s, names[n], mode), if mode.trunc then [] else FileBytes(s, names[n]);
            && Core(disk, names, owners) && Dir(disk) == Dir(s)
            && FilesOf(disk, names) == FilesOf(s, names)[n := content]
            && disk.inodes[names[n]].size == |content|
            && disk.inodeAlloc == s.inodeAlloc && disk.params == s.params
            && (forall k :: 0 <= k < |s.inodes| && k != names[n] ==> disk.inodes[k] == s.inodes[k])
  {
    FileBytesSize(s, names[n]);
    hide FileBytes;
    hide Entries;
    hide Block;
    hide Linked;
    hide BlocksOk;
    if mode.trunc {
      TruncateKeepsCore(s, names, owners, n);
      TruncateFiles(s, names, owners, n);
      TruncateIs(s, names[n]);
      hide Truncate;
    } else {
      assert FilesOf(s, names)[n := FileBytes(s, names[n])] == FilesOf(s, names);
    }
  }

  /** No handle is left behind the end of the file. */
  ghost predicate HandlesFit(s: Fs, k: int, mode: Mode)
    requires Shape(s)
  {
    mode.trunc ==> forall h :: HandleIsOpen(s, h) && s.openFiles[h].inumber == k ==> s.openFiles[h].offset == 0
  }

  lemma OpenedHandles(s: Fs, names: Names, owners: Owners, n: CString, mode: Mode)
    requires Shape(s) && Core(s.disk, names, owners) && HandlesOk(s) && n in names && CanDelete(s.disk, names[n])
    ensures var s1 := s.(disk := OpenedDisk(s.disk, names[n], mode));
            Shape(s1) && (HandlesOk(s1) <==> HandlesFit(s, names[n], mode))
  {
    OpenedDiskIs(s.disk, names, owners, n, mode);
    FileBytesSize(s.disk, names[n]);
    hide BlocksOk;
    hide Linked;
    hide OpenedDisk;
    hide FileBytes;
    hide FilesOf;
    hide Dir;
    var k, s1 := names[n], s.(disk := OpenedDisk(s.disk, names[n], mode));
    if HandlesOk(s1) && mode.trunc {
      forall h | HandleIsOpen(s, h) && s.openFiles[h].inumber == k
        ensures s.openFiles[h].offset == 0
      {
        assert s1.openAlloc[h] == Taken;
      }
    }
    if HandlesFit(s, k, mode) {
      forall h | 0 <= h < |s1.openAlloc| && s1.openAlloc[h] == Taken
        ensures s1.openFiles[h].offset <= s1.disk.inodes[s1.openFiles[h].inumber].size
      {
        assert HandleIsOpen(s, h);
      }
    }
  }

  /** tfs_open on a name in the directory. */
  lemma OpenExisting(s: Fs, names: Names, owners: Owners, path: Path, mode: Mode, n: CString)
    requires Inv(s) && names == NameMap(Dir(s.disk)) && owners == InodeMap(Dir(s.disk))
    requires ValidPathname(path) && n == FileName(path) && n in names
    ensures Shape(TfsOpen(s, path, mode).0)
    ensures (Abs(TfsOpen(s, path, mode).0), TfsOpen(s, path, mode).1) == AbsOpen(AbsWith(s, names, owners), path, mode)
    ensures Inv(TfsOpen(s, path, mode).0) <==> HandlesFit(s, names[n], mode)
  {
    LookupFinds(s.disk, path);
    FoundFile(s.disk, names, owners, n);
    OpenedDiskIs(s.disk, names, owners, n, mode);
    OpenedHandles(s, names, owners, n, mode);
    var k, disk := names[n], OpenedDisk(s.disk, names[n], mode);
    var s1 := s.(disk := disk);
    var offset := if mode.append then disk.inodes[k].size else 0;
    assert TfsOpen(s, path, mode)
        == (AddToOpenFileTable(s1, k, offset).0, Reply(AddToOpenFileTable(s1, k, offset).1, []));
    AddHandleAbs(s1, names, owners, n, offset);
    AddHandleIff(s1, k, offset);
    hide TfsOpen;
    hide NameMap;
    hide InodeMap;
    hide BlocksOk;
    hide DirOk;
    hide Dir;
    hide FileBytes;
    hide OpenedDisk;
    hide HandlesFit;
    hide HandlesOk;
    hide AddToOpenFileTable;
    hide AbsAddHandle;
  }

  lemma AddHandleIff(s: Fs, k: int, offset: nat)
    requires Shape(s) && 0 < k < |s.disk.inodes| && s.disk.inodeAlloc[k] == Taken && offset <= s.disk.inodes[k].size
    ensures Shape(AddToOpenFileTable(s, k, offset).0)
    ensures HandlesOk(AddToOpenFileTable(s, k, offset).0) <==> HandlesOk(s)
  {
    var (s', h) := AddToOpenFileTable(s, k, offset);
    if HandlesOk(s') && h != -1 {
      forall g | 0 <= g < |s.openAlloc| && s.openAlloc[g] == Taken
        ensures s'.openFiles[g] == s.openFiles[g] && s'.openAlloc[g] == Taken
      {
      }
    }
  }

  // ---------- creating ----------

  lemma CreateRefines(s: Fs, names: Names, owners: Owners, path: Path, mode: Mode, n: CString)
    requires Inv(s) && names == NameMap(Dir(s.disk)) && owners == InodeMap(Dir(s.disk))
    requires ValidPathname(path) && n == FileName(path) && n !in names && mode.creat
    ensures Inv(TfsOpen(s, path, mode).0)
    ensures (Abs(TfsOpen(s, path, mode).0), TfsOpen(s, path, mode).1) == AbsOpen(AbsWith(s, names, owners), path, mode)
  {
    hide NameMap;
    hide InodeMap;
    hide BlocksOk;
    hide Linked;
    hide DirOk;
    hide Entries;
    hide Block;
    hide FileBytes;
    hide CreateFile;
    hide FirstFree;
    hide FreeSlot;
    var i, slot := FirstFree(s.disk.inodeAlloc), FreeSlot(Dir(s.disk));
    LookupFinds(s.disk, path);
    CreateFileIs(s.disk, n, i, slot);
    CanCreateIs(s.disk, names, owners);
    assert AbsWith(s, names, owners).files.Keys == names.Keys;
    hide FilesOf;
    hide HandlesOf;
    hide Dir;
    hide StoreDirEntry;
    hide Blank;
    if CanCreate(AbsWith(s, names, owners), n) {
      CreateSucceeds(s, names, owners, n, i, slot);
    } else if i < |s.disk.inodeAlloc| {
      RollBack(s, names, owners, i);
    }
  }

  /** The file exists; whether it can be opened depends on the open-file table. */
  lemma CreateSucceeds(s: Fs, names: Names, owners: Owners, n: CString, i: int, slot: nat)
    requires Inv(s) && names == NameMap(Dir(s.disk)) && owners == InodeMap(Dir(s.disk))
    requires 0 <= i < s.disk.params.maxInodes && s.disk.inodeAlloc[i] == Free && IsInt(i)
    requires slot == FreeSlot(Dir(s.disk)) < |Dir(s.disk)| == s.disk.params.MaxDirEntries()
    requires 0 < |n| < MAX_FILE_NAME && n !in names
    ensures var s1 := s.(disk := StoreDirEntry(Blank(s.disk, i, Taken), RootBlock(s.disk), slot, NewEntry(n, i)));
            var (s2, h) := AddToOpenFileTable(s1, i, 0);
            var a := AbsWith(s, names, owners);
            Inv(s2) && (Abs(s2), Reply(h, [])) == AbsAddHandle(a.(files := a.files[n := []]), n, 0)
  {
    var disk := StoreDirEntry(Blank(s.disk, i, Taken), RootBlock(s.disk), slot, NewEntry(n, i));
    var s1 := s.(disk := disk);
    CreatedDisk(s.disk, names, owners, n, i, slot);
    StoreKeepsInodes(s.disk, i, slot, NewEntry(n, i));
    hide NameMap;
    hide InodeMap;
    hide BlocksOk;
    hide DirOk;
    hide Dir;
    hide FilesOf;
    hide HandlesOf;
    hide StoreDirEntry;
    hide Blank;
    hide FreeSlot;
    hide AddToOpenFileTable;
    hide AbsAddHandle;
    CreatedHandles(s, names, owners, disk, i, n);
    AddHandleInv(s1, i, 0);
    AddHandleAbs(s1, names[n := i], owners[i := n], n, 0);
  }

  lemma StoreKeepsInodes(s: Disk, i: int, slot: nat, e: DirEntry)
    requires DiskShape(s) && 0 <= i < s.params.maxInodes && ValidBlock(s, RootBlock(s)) && i != ROOT_DIR_INUM
    requires slot < s.params.MaxDirEntries() && IsEntry(e)
    ensures var disk := StoreDirEntry(Blank(s, i, Taken), RootBlock(s), slot, e);
            && disk.params == s.params && disk.inodes == s.inodes[i := Inode(File, 0, -1)]
            && disk.inodeAlloc == s.inodeAlloc[i := Taken]
  {
    StoreOnlyData(Blank(s, i, Taken), slot, e);
    hide StoreDirEntry;
  }

  /** The handles there were still mean what they meant: none was on the new inode. */
  lemma CreatedHandles(s: Fs, names: Names, owners: Owners, disk: Disk, i: int, n: CString)
    requires Shape(s) && HandlesOk(s) && Linked(names, owners, s.disk.inodes, s.disk.inodeAlloc)
    requires DiskShape(disk) && disk.params == s.disk.params
    requires 0 <= i < |s.disk.inodes| && s.disk.inodeAlloc[i] == Free
    requires disk.inodes == s.disk.inodes[i := Inode(File, 0, -1)] && disk.inodeAlloc == s.disk.inodeAlloc[i := Taken]
    ensures Shape(s.(disk := disk)) && HandlesOk(s.(disk := disk))
    ensures HandlesOf(owners[i := n], s.openFiles, s.openAlloc) == HandlesOf(owners, s.openFiles, s.openAlloc)
  {
    forall h | h in TakenSet(s.openAlloc)
      ensures HandleMeaning(owners[i := n], s.openFiles[h]) == HandleMeaning(owners, s.openFiles[h])
    {
    }
    hide HandleMeaning;
  }

  /** A creation that found no directory slot, or no room for the name, is undone. */
  lemma RollBack(s: Fs, names: Names, owners: Owners, i: int)
    requires Inv(s) && names == NameMap(Dir(s.disk)) && owners == InodeMap(Dir(s.disk))
    requires 0 <= i < s.disk.params.maxInodes && s.disk.inodeAlloc[i] == Free
    ensures Inv(s.(disk := Blank(s.disk, i, Free)))
    ensures Abs(s.(disk := Blank(s.disk, i, Free))) == AbsWith(s, names, owners)
  {
    BlankKeeps(s.disk, names, owners, i);
    BlankFiles(s.disk, names, owners, i);
    BlankHandles(s, i);
    hide NameMap;
    hide InodeMap;
    hide BlocksOk;
    hide DirOk;
    hide Dir;
    hide FilesOf;
  }

  lemma BlankHandles(s: Fs, i: int)
    requires Shape(s) && HandlesOk(s) && 0 <= i < s.disk.params.maxInodes && s.disk.inodeAlloc[i] == Free
    ensures HandlesOk(s.(disk := Blank(s.disk, i, Free)))
  {
  }

  // ---------- unlinking ----------

  /** No handle is left on the file. */
  ghost predicate NoHandleOn(s: Fs, k: int)
    requires Shape(s)
  {
    forall h :: HandleIsOpen(s, h) ==> s.openFiles[h].inumber != k
  }

  /** tfs_unlink by cases. */
  lemma UnlinkIs(s: Fs, names: Names, owners: Owners, path: Path, n: CString)
    requires Inv(s) && names == NameMap(Dir(s.disk)) && owners == InodeMap(Dir(s.disk))
    requires ValidPathname(path) && n == FileName(path) && n in names
    ensures CanDelete(s.disk, names[n]) && NameSlot(Dir(s.disk), n) < |Dir(s.disk)| == s.disk.params.MaxDirEntries()
    ensures TfsUnlink(s, path) == (s.(disk := Unlinked(s.disk, names[n], NameSlot(Dir(s.disk), n))), Reply(0, []))
  {
    hide InodeMap;
    hide BlocksOk;
    hide Linked;
    hide DirOk;
    hide Entries;
    hide BlockWrite;
    hide InodeDelete;
    hide NameSlot;
    hide ClearSlot;
    hide FindSlot;
    LookupFinds(s.disk, path);
    NameMapIs(Dir(s.disk), n);
    ClearHitsFound(Dir(s.disk), n);
    hide NameMap;
    var s1 := InodeDelete(s.disk, names[n]);
    DeleteIs(s.disk, names[n]);
    SameBlock(s.disk, s1, RootBlock(s.disk));
    hide Block;
  }

  lemma UnlinkRefines(s: Fs, names: Names, owners: Owners, path: Path, n: CString)
    requires Inv(s) && names == NameMap(Dir(s.disk)) && owners == InodeMap(Dir(s.disk))
    requires ValidPathname(path) && n == FileName(path) && n in names
    ensures TfsUnlink(s, path).1 == Reply(0, [])
    ensures Shape(TfsUnlink(s, path).0)
    ensures Inv(TfsUnlink(s, path).0) <==> NoHandleOn(s, names[n])
    ensures NoHandleOn(s, names[n]) ==> Abs(TfsUnlink(s, path).0) == AbsUnlink(AbsWith(s, names, owners), path).0
  {
    hide NameMap;
    hide InodeMap;
    hide BlocksOk;
    hide DirOk;
    hide Dir;
    hide HandlesOf;
    hide FileBytes;
    hide Unlinked;
    hide TfsUnlink;
    hide NameSlot;
    UnlinkIs(s, names, owners, path, n);
    UnlinkedDisk(s.disk, names, owners, n, NameSlot(Dir(s.disk), n));
    var disk := Unlinked(s.disk, names[n], NameSlot(Dir(s.disk), n));
    UnlinkedInodes(s.disk, names[n], NameSlot(Dir(s.disk), n));
    UnlinkedHandles(s, names, owners, disk, n);
  }

  lemma UnlinkedInodes(s: Disk, k: int, slot: nat)
    requires DiskShape(s) && CanDelete(s, k) && ValidBlock(s, RootBlock(s)) && slot < s.params.MaxDirEntries()
    ensures var disk := Unlinked(s, k, slot);
            disk.params == s.params && disk.inodes == s.inodes && disk.inodeAlloc == s.inodeAlloc[k := Free]
  {
    hide StoreDirEntry;
    hide InodeDelete;
    DeleteIs(s, k);
    StoreOnlyData(InodeDelete(s, k), slot, Cleared());
  }

  lemma UnlinkedHandles(s: Fs, names: Names, owners: Owners, disk: Disk, n: CString)
    requires Shape(s) && HandlesOk(s) && Linked(names, owners, s.disk.inodes, s.disk.inodeAlloc) && n in names
    requires DiskShape(disk) && disk.params == s.disk.params && disk.inodes == s.disk.inodes
    requires disk.inodeAlloc == s.disk.inodeAlloc[names[n] := Free]
    ensures Shape(s.(disk := disk)) && (HandlesOk(s.(disk := disk)) <==> NoHandleOn(s, names[n]))
    ensures NoHandleOn(s, names[n]) ==>
              HandlesOf(owners - {names[n]}, s.openFiles, s.openAlloc) == HandlesOf(owners, s.openFiles, s.openAlloc)
  {
    var s' := s.(disk := disk);
    if HandlesOk(s') {
      forall h | HandleIsOpen(s, h)
        ensures s.openFiles[h].inumber != names[n]
      {
        assert s'.openAlloc[h] == Taken;
      }
    }
    if NoHandleOn(s, names[n]) {
      forall h | h in TakenSet(s.openAlloc)
        ensures s.openFiles[h].inumber != names[n]
        ensures HandleMeaning(owners - {names[n]}, s.openFiles[h]) == HandleMeaning(owners, s.openFiles[h])
      {
        assert HandleIsOpen(s, h);
      }
      hide HandleMeaning;
    }
  }
}
