/** Creating and unlinking: an inode and its directory entry come and go together. */
module FsNaming {
  import opened Memory
  import opened FsState
  import opened FsInvariant
  import opened FsOperations
  import opened FsCounting
  import opened FsDirectory
  import opened FsBlocks

  // ---------- storing an entry in the root's block ----------

  /** The directory gains the entry; every other block is as it was. */
  lemma StoreInDir(s: Disk, slot: nat, e: DirEntry)
    requires DiskShape(s) && ValidBlock(s, RootBlock(s)) && slot < s.params.MaxDirEntries() && IsEntry(e)
    ensures Dir(StoreDirEntry(s, RootBlock(s), slot, e)) == Dir(s)[slot := e]
    ensures forall c :: ValidBlock(s, c) && c != RootBlock(s) ==>
              Block(StoreDirEntry(s, RootBlock(s), slot, e), c) == Block(s, c)
  {
    hide Splice;
    hide EntryBytes;
    hide Entries;
    hide Block;
    var b := RootBlock(s);
    WriteIsLocal(s, b, ENTRY_SIZE * slot, EntryBytes(e), b);
    StoreEntry(Block(s, b), slot, e);
    forall c | ValidBlock(s, c) && c != b
      ensures Block(StoreDirEntry(s, b, slot, e), c) == Block(s, c)
    {
      WriteIsLocal(s, b, ENTRY_SIZE * slot, EntryBytes(e), c);
    }
  }

  /** The files keep their bytes when only the directory's block and unused inodes change. */
  lemma FilesKept(s: Disk, s': Disk, names: Names, owners: Owners, kept: Names)
    requires Core(s, names, owners) && DiskShape(s') && s'.params == s.params
    requires forall m :: m in kept ==> m in names && kept[m] == names[m] && s'.inodes[names[m]] == s.inodes[names[m]]
    requires forall c :: ValidBlock(s, c) && c != RootBlock(s) ==> Block(s', c) == Block(s, c)
    ensures forall m :: m in kept ==> FileBytes(s', kept[m]) == FileBytes(s, names[m])
  {
    hide FileBytes;
    hide Block;
    forall m | m in kept
      ensures FileBytes(s', kept[m]) == FileBytes(s, names[m])
    {
      RootApart(s, names, owners, m);
      FileBytesSize(s, names[m]);
      OtherFile(s, s', names[m]);
    }
  }

  // ---------- creating ----------

  /** An inode slot with a fresh file inode in it. */
  function Blank(s: Disk, i: int, a: Alloc): (s': Disk)
    requires DiskShape(s) && 0 <= i < s.params.maxInodes
    ensures DiskShape(s')
  {
    s.(inodes := s.inodes[i := Inode(File, 0, -1)], inodeAlloc := s.inodeAlloc[i := a])
  }

  /** A fresh inode is not yet named; everything else is as it was. */
  lemma BlankKeeps(s: Disk, names: Names, owners: Owners, i: int)
    requires Core(s, names, owners) && 0 <= i < s.params.maxInodes && s.inodeAlloc[i] == Free
    ensures i != ROOT_DIR_INUM && i !in owners && (forall n :: n in names ==> names[n] != i)
    ensures RootOk(Blank(s, i, Taken)) && RootBlock(Blank(s, i, Taken)) == RootBlock(s)
    ensures BlocksOk(Blank(s, i, Taken).inodes, Blank(s, i, Taken).inodeAlloc, s.blockAlloc, s.params.blockSize)
    ensures Core(Blank(s, i, Free), names, owners) && RootBlock(Blank(s, i, Free)) == RootBlock(s)
  {
    EmptyInode(s.inodes, s.inodeAlloc, s.blockAlloc, s.params.blockSize, i, Inode(File, 0, -1), Taken);
    EmptyInode(s.inodes, s.inodeAlloc, s.blockAlloc, s.params.blockSize, i, Inode(File, 0, -1), Free);
    hide BlocksOk;
  }

  /** Rolling back: an inode slot that was free still is. */
  lemma BlankFiles(s: Disk, names: Names, owners: Owners, i: int)
    requires Core(s, names, owners) && 0 <= i < s.params.maxInodes && s.inodeAlloc[i] == Free
    ensures FilesOf(Blank(s, i, Free), names) == FilesOf(s, names) && Dir(Blank(s, i, Free)) == Dir(s)
  {
    BlankKeeps(s, names, owners, i);
    hide BlocksOk;
    hide Entries;
    forall c
      ensures Block(Blank(s, i, Free), c) == Block(s, c)
    {
      SameBlock(s, Blank(s, i, Free), c);
    }
    FilesKept(s, Blank(s, i, Free), names, owners, names);
    hide FileBytes;
    hide Block;
  }

  /** When the four conditions for a new file hold. */
  lemma CanCreateIs(s: Disk, names: Names, owners: Owners)
    requires Core(s, names, owners) && names == NameMap(Dir(s)) && DirOk(Dir(s))
    ensures FirstFree(s.inodeAlloc) < |s.inodeAlloc| <==> |names| + 1 < s.params.maxInodes
    ensures FreeSlot(Dir(s)) < |Dir(s)| <==> |names| < s.params.MaxDirEntries()
    ensures |Dir(s)| == s.params.MaxDirEntries()
  {
    NamesAndSlots(Dir(s));
    FirstFreeFails(s.inodeAlloc);
    NamesAndInodes(names, owners, s.inodes, s.inodeAlloc);
    hide NameMap;
    hide BlocksOk;
    hide Linked;
    hide FreeSlot;
    hide FirstFree;
  }

  /** The entry add_dir_entry stores. */
  function NewEntry(name: CString, inumber: int): (e: DirEntry)
    requires |name| < MAX_FILE_NAME && IsInt(inumber)
    ensures IsEntry(e) && e.inumber == inumber
  {
    DirEntry(Pad(name, MAX_FILE_NAME), inumber)
  }

  /** What CreateFile returns, by cases. */
  lemma CreateFileIs(s: Disk, name: CString, i: int, slot: nat)
    requires DiskInv(s) && |name| > 0 && i == FirstFree(s.inodeAlloc) && slot == FreeSlot(Dir(s))
    ensures IsInt(i) && |Dir(s)| == s.params.MaxDirEntries()
    ensures i == |s.inodeAlloc| ==> CreateFile(s, name) == (s, -1)
    ensures i < |s.inodeAlloc| && (|name| >= MAX_FILE_NAME || slot == |Dir(s)|) ==>
              CreateFile(s, name) == (Blank(s, i, Free), -1)
    ensures i < |s.inodeAlloc| && |name| < MAX_FILE_NAME && slot < |Dir(s)| ==>
              CreateFile(s, name) == (StoreDirEntry(Blank(s, i, Taken), RootBlock(s), slot, NewEntry(name, i)), i)
  {
    hide BlocksOk;
    hide Linked;
    hide DirOk;
    hide NameMap;
    hide InodeMap;
    hide Entries;
    hide BlockWrite;
    hide FreeSlot;
    hide FirstFree;
    if i < |s.inodeAlloc| {
      var s1 := Blank(s, i, Taken);
      assert InodeCreate(s, File) == (s1, i);
      SameBlock(s, s1, RootBlock(s));
      assert InodeDelete(s1, i) == Blank(s, i, Free);
    }
  }

  /** The new file is empty, and every other file is as it was. */
  lemma CreatedDisk(s: Disk, names: Names, owners: Owners, name: CString, i: int, slot: nat)
    requires Core(s, names, owners) && names == NameMap(Dir(s)) && owners == InodeMap(Dir(s)) && DirOk(Dir(s))
    requires 0 <= i < s.params.maxInodes && s.inodeAlloc[i] == Free && IsInt(i)
    requires slot == FreeSlot(Dir(s)) < |Dir(s)| == s.params.MaxDirEntries()
    requires 0 < |name| < MAX_FILE_NAME && name !in names
    ensures var s' := StoreDirEntry(Blank(s, i, Taken), RootBlock(s), slot, NewEntry(name, i));
            && DirOk(Dir(s'))
            && NameMap(Dir(s')) == names[name := i] && InodeMap(Dir(s')) == owners[i := name]
            && Core(s', names[name := i], owners[i := name])
            && FilesOf(s', names[name := i]) == FilesOf(s, names)[name := []]
  {
    hide BlocksOk;
    hide DirOk;
    hide NameMap;
    hide InodeMap;
    hide Entries;
    hide Block;
    hide BlockWrite;
    hide FreeSlot;
    hide FileBytes;
    var s1 := Blank(s, i, Taken);
    var s' := StoreDirEntry(s1, RootBlock(s), slot, NewEntry(name, i));
    BlankKeeps(s, names, owners, i);
    SameBlock(s, s1, RootBlock(s));
    StoreInDir(s1, slot, NewEntry(name, i));
    CStrPad(name, MAX_FILE_NAME);
    AddEntryMaps(Dir(s), NewEntry(name, i));
    CreatedFiles(s, names, owners, i, slot, NewEntry(name, i));
    StoreOnlyData(s1, slot, NewEntry(name, i));
  }

  /** Storing an entry changes nothing but bytes. */
  lemma StoreOnlyData(s: Disk, slot: nat, e: DirEntry)
    requires DiskShape(s) && ValidBlock(s, RootBlock(s)) && slot < s.params.MaxDirEntries() && IsEntry(e)
    ensures StoreDirEntry(s, RootBlock(s), slot, e) == s.(data := StoreDirEntry(s, RootBlock(s), slot, e).data)
  {
  }

  lemma CreatedFiles(s: Disk, names: Names, owners: Owners, i: int, slot: nat, e: DirEntry)
    requires Core(s, names, owners) && 0 <= i < s.params.maxInodes && s.inodeAlloc[i] == Free
    requires slot < s.params.MaxDirEntries() && IsEntry(e)
    ensures var s' := StoreDirEntry(Blank(s, i, Taken), RootBlock(s), slot, e);
            FileBytes(s', i) == [] && forall m :: m in names ==> FileBytes(s', names[m]) == FileBytes(s, names[m])
  {
    hide BlocksOk;
    hide Entries;
    hide BlockWrite;
    BlankKeeps(s, names, owners, i);
    var s1 := Blank(s, i, Taken);
    var s' := StoreDirEntry(s1, RootBlock(s), slot, e);
    StoreInDir(s1, slot, e);
    StoreOnlyData(s1, slot, e);
    forall c
      ensures Block(s1, c) == Block(s, c)
    {
      SameBlock(s, s1, c);
    }
    FilesKept(s, s', names, owners, names);
    assert s'.inodes[i].size == 0;
  }

  // ---------- unlinking ----------

  /** What tfs_unlink leaves on the disk when the name is in the directory. */
  function Unlinked(s: Disk, k: int, slot: nat): (s': Disk)
    requires DiskShape(s) && CanDelete(s, k) && ValidBlock(s, RootBlock(s)) && slot < s.params.MaxDirEntries()
  {
    StoreDirEntry(InodeDelete(s, k), RootBlock(s), slot, Cleared())
  }

  lemma DeleteIs(s: Disk, k: int)
    requires DiskShape(s) && CanDelete(s, k)
    ensures InodeDelete(s, k) == s.(inodeAlloc := s.inodeAlloc[k := Free], blockAlloc := InodeDelete(s, k).blockAlloc)
  {
  }

  /** The inode and its block are free again; the directory is not yet touched. */
  lemma DeleteKeeps(s: Disk, names: Names, owners: Owners, n: CString)
    requires Core(s, names, owners) && n in names && CanDelete(s, names[n])
    ensures var s' := InodeDelete(s, names[n]);
            RootOk(s') && RootBlock(s') == RootBlock(s)
            && BlocksOk(s'.inodes, s'.inodeAlloc, s'.blockAlloc, s'.params.blockSize)
  {
    var k := names[n];
    RootApart(s, names, owners, n);
    if s.inodes[k].size > 0 {
      assert Owns(s.inodes, s.inodeAlloc, k);
      DropInode(s.inodes, s.inodeAlloc, s.blockAlloc, s.params.blockSize, k);
    } else {
      EmptyInode(s.inodes, s.inodeAlloc, s.blockAlloc, s.params.blockSize, k, s.inodes[k], Free);
      assert s.inodes[k := s.inodes[k]] == s.inodes;
    }
    hide BlocksOk;
  }

  lemma UnlinkedDisk(s: Disk, names: Names, owners: Owners, n: CString, slot: nat)
    requires Core(s, names, owners) && names == NameMap(Dir(s)) && owners == InodeMap(Dir(s)) && DirOk(Dir(s))
    requires n in names && CanDelete(s, names[n])
    requires slot == NameSlot(Dir(s), n) < |Dir(s)| == s.params.MaxDirEntries()
    ensures var s' := Unlinked(s, names[n], slot);
            && DirOk(Dir(s'))
            && NameMap(Dir(s')) == names - {n} && InodeMap(Dir(s')) == owners - {names[n]}
            && Core(s', names - {n}, owners - {names[n]})
            && FilesOf(s', names - {n}) == FilesOf(s, names) - {n}
  {
    NameMapIs(Dir(s), n);
    hide BlocksOk;
    hide DirOk;
    hide NameMap;
    hide InodeMap;
    hide Entries;
    hide Block;
    hide BlockWrite;
    hide NameSlot;
    hide FileBytes;
    hide InodeDelete;
    var k := names[n];
    var s1, s' := InodeDelete(s, k), Unlinked(s, k, slot);
    DeleteIs(s, k);
    DeleteKeeps(s, names, owners, n);
    SameBlock(s, s1, RootBlock(s));
    StoreInDir(s1, slot, Cleared());
    StoreOnlyData(s1, slot, Cleared());
    ClearEntryMaps(Dir(s), slot);
    UnlinkedFiles(s, names, owners, n, slot);
  }

  lemma UnlinkedFiles(s: Disk, names: Names, owners: Owners, n: CString, slot: nat)
    requires Core(s, names, owners) && n in names && CanDelete(s, names[n]) && slot < s.params.MaxDirEntries()
    ensures forall m :: m in names && m != n ==>
              FileBytes(Unlinked(s, names[n], slot), names[m]) == FileBytes(s, names[m])
  {
    hide BlocksOk;
    hide Entries;
    hide BlockWrite;
    hide InodeDelete;
    var s1, s' := InodeDelete(s, names[n]), Unlinked(s, names[n], slot);
    DeleteIs(s, names[n]);
    StoreInDir(s1, slot, Cleared());
    StoreOnlyData(s1, slot, Cleared());
    forall c
      ensures Block(s1, c) == Block(s, c)
    {
      SameBlock(s, s1, c);
    }
    FilesKept(s, s', names, owners, names);
  }
}
