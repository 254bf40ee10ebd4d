/** Conservation: the allocation tables are exactly as full as the files and handles require. */
module FsCounting {
  import opened Collections
  import opened Memory
  import opened FsState
  import opened AbstractFs
  import opened FsInvariant
  import opened FsOperations

  /** A first-fit allocator fails exactly when everything is taken. */
  lemma FirstFreeFails(a: seq<Alloc>)
    ensures |TakenSet(a)| <= |a|
    ensures FirstFree(a) == |a| <==> |TakenSet(a)| == |a|
  {
    FullBelow(TakenSet(a), |a|);
    if FirstFree(a) < |a| {
      assert FirstFree(a) !in TakenSet(a);
    }
  }

  // ---------- the slots and the maps ----------

  /** The name in a slot, where there is one. */
  function SlotName(d: seq<DirEntry>, i: int): CString {
    if 0 <= i < |d| then Name(d[i]) else []
  }

  lemma NameMapSlots(d: seq<DirEntry>)
    requires SlotsDistinct(d)
    ensures forall n :: n in NameMap(d).Keys ==> NameSlot(d, n) in LiveSlots(d) && SlotName(d, NameSlot(d, n)) == n
    ensures forall i :: i in LiveSlots(d) ==> SlotName(d, i) in NameMap(d).Keys && NameSlot(d, SlotName(d, i)) == i
  {
    forall n | n in NameMap(d)
      ensures NameSlot(d, n) < |d|
    {
      NameMapIs(d, n);
    }
  }

  lemma SlotBijection(d: seq<DirEntry>, names: set<CString>, slots: set<int>)
    requires forall n :: n in names ==> NameSlot(d, n) in slots && SlotName(d, NameSlot(d, n)) == n
    requires forall i :: i in slots ==> SlotName(d, i) in names && NameSlot(d, SlotName(d, i)) == i
    ensures |names| == |slots|
  {
    SameSize<CString, int>(names, slots, (n: CString) => NameSlot(d, n), (i: int) => SlotName(d, i));
  }

  /** A directory is full exactly when it has as many names as slots. */
  lemma NamesAndSlots(d: seq<DirEntry>)
    requires SlotsDistinct(d)
    ensures |NameMap(d)| == |LiveSlots(d)| <= |d|
    ensures FreeSlot(d) == |d| <==> |NameMap(d)| == |d|
  {
    NameMapSlots(d);
    hide NameMap;
    hide SlotsDistinct;
    SlotBijection(d, NameMap(d).Keys, LiveSlots(d));
    FullBelow(LiveSlots(d), |d|);
    if FreeSlot(d) < |d| {
      assert FreeSlot(d) !in LiveSlots(d);
    }
  }

  // ---------- files, inodes and blocks ----------

  lemma NamesAndInodes(names: Names, owners: Owners, inodes: seq<Inode>, inodeAlloc: seq<Alloc>)
    requires |inodes| == |inodeAlloc| > 0 && Linked(names, owners, inodes, inodeAlloc)
    requires inodeAlloc[ROOT_DIR_INUM] == Taken
    ensures |TakenSet(inodeAlloc)| == 1 + |names|
  {
    var files := TakenSet(inodeAlloc) - {ROOT_DIR_INUM};
    assert files == owners.Keys;
    assert TakenSet(inodeAlloc) == files + {ROOT_DIR_INUM};
    NameBijection(names, owners, files);
  }

  function OwnerName(owners: Owners, k: int): CString {
    if k in owners then owners[k] else []
  }

  /** Two maps that undo each other are equally large. */
  lemma NameBijection(names: Names, owners: Owners, files: set<int>)
    requires forall n :: n in names ==> names[n] in owners && owners[names[n]] == n
    requires forall k :: k in owners ==> owners[k] in names && names[owners[k]] == k
    requires files == owners.Keys
    ensures |names| == |files|
  {
    forall n | n in names.Keys
      ensures LookupName(names, n) in files && OwnerName(owners, LookupName(names, n)) == n
    {
    }
    forall k | k in files
      ensures OwnerName(owners, k) in names.Keys && LookupName(names, OwnerName(owners, k)) == k
    {
    }
    hide LookupName;
    hide OwnerName;
    SameSize<CString, int>(names.Keys, files, (n: CString) => LookupName(names, n), (k: int) => OwnerName(owners, k));
  }

  /** The size of a file is the size of its inode. */
  lemma FileBytesSize(s: Disk, k: int)
    requires DiskShape(s) && BlocksOk(s.inodes, s.inodeAlloc, s.blockAlloc, s.params.blockSize)
    requires 0 <= k < |s.inodes| && s.inodeAlloc[k] == Taken
    ensures |FileBytes(s, k)| == s.inodes[k].size <= s.params.blockSize
    ensures s.inodes[k].size > 0 ==>
              && Owns(s.inodes, s.inodeAlloc, k) && ValidBlock(s, s.inodes[k].dataBlock)
              && FileBytes(s, k) == Block(s, s.inodes[k].dataBlock)[..s.inodes[k].size]
  {
    if s.inodes[k].size > 0 {
      assert Owns(s.inodes, s.inodeAlloc, k);
    }
  }

  /** The block of the file a name stands for, or -1. */
  function FileBlock(names: Names, inodes: seq<Inode>, n: CString): int {
    if n in names && 0 <= names[n] < |inodes| then inodes[names[n]].dataBlock else -1
  }

  /** The name of the file whose block this is. */
  ghost function BlockFile(owners: Owners, inodes: seq<Inode>, inodeAlloc: seq<Alloc>, b: int): CString
    requires |inodes| == |inodeAlloc|
  {
    if exists k :: k in owners && Owns(inodes, inodeAlloc, k) && inodes[k].dataBlock == b
    then var k :| k in owners && Owns(inodes, inodeAlloc, k) && inodes[k].dataBlock == b; owners[k]
    else []
  }

  /** The files with bytes in them are those whose inode owns a block. */
  lemma NonEmptyFiles(s: Disk, names: Names, owners: Owners)
    requires Core(s, names, owners)
    ensures forall n :: n in NonEmpty(FilesOf(s, names)) <==> n in names && Owns(s.inodes, s.inodeAlloc, names[n])
  {
    forall n | n in names
      ensures FileBytes(s, names[n]) != [] <==> Owns(s.inodes, s.inodeAlloc, names[n])
    {
      FileBytesSize(s, names[n]);
    }
  }

  /** Each non-empty file has a block of its own, and each block but the root's a file. */
  lemma BlockRoundTrip(s: Disk, names: Names, owners: Owners)
    requires Core(s, names, owners)
    ensures forall n :: n in NonEmpty(FilesOf(s, names)) ==>
              && FileBlock(names, s.inodes, n) in TakenSet(s.blockAlloc) - {RootBlock(s)}
              && BlockFile(owners, s.inodes, s.inodeAlloc, FileBlock(names, s.inodes, n)) == n
    ensures forall b :: b in TakenSet(s.blockAlloc) - {RootBlock(s)} ==>
              && BlockFile(owners, s.inodes, s.inodeAlloc, b) in NonEmpty(FilesOf(s, names))
              && FileBlock(names, s.inodes, BlockFile(owners, s.inodes, s.inodeAlloc, b)) == b
  {
    NonEmptyFiles(s, names, owners);
    hide FilesOf;
    hide NonEmpty;
    assert Owns(s.inodes, s.inodeAlloc, ROOT_DIR_INUM);
  }

  lemma BlockBijection(names: Names, owners: Owners, inodes: seq<Inode>, inodeAlloc: seq<Alloc>,
                       files: set<CString>, blocks: set<int>)
    requires |inodes| == |inodeAlloc|
    requires forall n :: n in files ==>
      FileBlock(names, inodes, n) in blocks && BlockFile(owners, inodes, inodeAlloc, FileBlock(names, inodes, n)) == n
    requires forall b :: b in blocks ==>
      && BlockFile(owners, inodes, inodeAlloc, b) in files
      && FileBlock(names, inodes, BlockFile(owners, inodes, inodeAlloc, b)) == b
    ensures |files| == |blocks|
  {
    SameSize<CString, int>(files, blocks, (n: CString) => FileBlock(names, inodes, n),
                           (b: int) => BlockFile(owners, inodes, inodeAlloc, b));
  }

  lemma FilesAndBlocks(s: Disk, names: Names, owners: Owners)
    requires Core(s, names, owners)
    ensures |TakenSet(s.blockAlloc)| == 1 + |NonEmpty(FilesOf(s, names))|
  {
    BlockRoundTrip(s, names, owners);
    assert Owns(s.inodes, s.inodeAlloc, ROOT_DIR_INUM);
    assert TakenSet(s.blockAlloc) == TakenSet(s.blockAlloc) - {RootBlock(s)} + {RootBlock(s)};
    hide Linked;
    hide FilesOf;
    hide NonEmpty;
    BlockBijection(names, owners, s.inodes, s.inodeAlloc, NonEmpty(FilesOf(s, names)),
                   TakenSet(s.blockAlloc) - {RootBlock(s)});
  }

  lemma ConservationWith(s: Fs, names: Names, owners: Owners)
    requires Shape(s) && Core(s.disk, names, owners)
    ensures |TakenSet(s.disk.inodeAlloc)| == 1 + |AbsWith(s, names, owners).files|
    ensures |TakenSet(s.disk.blockAlloc)| == 1 + |NonEmpty(AbsWith(s, names, owners).files)|
    ensures |TakenSet(s.openAlloc)| == |AbsWith(s, names, owners).handles|
    ensures |AbsWith(s, names, owners).files| == |names|
  {
    NamesAndInodes(names, owners, s.disk.inodes, s.disk.inodeAlloc);
    FilesAndBlocks(s.disk, names, owners);
    hide Core;
    hide NonEmpty;
    assert AbsWith(s, names, owners).files.Keys == names.Keys;
    assert AbsWith(s, names, owners).handles.Keys == TakenSet(s.openAlloc);
  }

  /** TAKEN inodes = 1 + files, TAKEN blocks = 1 + non-empty files, TAKEN handles = open handles,
      live directory slots = files. */
  lemma Conservation(s: Fs)
    requires Inv(s)
    ensures |TakenSet(s.disk.inodeAlloc)| == 1 + |Abs(s).files|
    ensures |TakenSet(s.disk.blockAlloc)| == 1 + |NonEmpty(Abs(s).files)|
    ensures |TakenSet(s.openAlloc)| == |Abs(s).handles|
    ensures |LiveSlots(Dir(s.disk))| == |Abs(s).files|
  {
    NamesAndSlots(Dir(s.disk));
    ConservationWith(s, NameMap(Dir(s.disk)), InodeMap(Dir(s.disk)));
    hide Dir;
    hide NameMap;
    hide InodeMap;
    hide Core;
    hide AbsWith;
  }
}
