/** The tables of TecnicoFS and the functions of fs/state.c on them, as values.
    An ALWAYS_ASSERT of the source is a precondition here, so every call proves that it cannot fire. */
module FsState {
  import opened Memory

  const MAX_FILE_NAME: nat := 40
  const ENTRY_SIZE: nat := 44
  const ROOT_DIR_INUM: nat := 0
  const SIZE_T: nat := 0x1_0000_0000_0000_0000

  /** b * size, the position of block b in fs_data. */
  function BlockStart(b: nat, size: nat): (at: nat)
  {
    if b == 0 then 0 else BlockStart(b - 1, size) + size
  }

  datatype Params = Params(maxInodes: nat, maxBlocks: nat, maxOpenFiles: nat, blockSize: nat) {
    /** Block size 0 divides by zero, counts are compared with C ints, and fs_data is one allocation. */
    predicate Valid() {
      && 1 <= blockSize < SIZE_T
      && maxInodes <= INT_MAX && maxBlocks <= INT_MAX && maxOpenFiles <= INT_MAX
      && BlockStart(maxBlocks, blockSize) < SIZE_T
    }

    function MaxDirEntries(): nat
      requires Valid()
    {
      blockSize / ENTRY_SIZE
    }
  }

  datatype NodeKind = File | Directory
  datatype Inode = Inode(kind: NodeKind, size: nat, dataBlock: int)
  datatype Alloc = Free | Taken
  datatype OpenFile = OpenFile(inumber: int, offset: nat)
  datatype DirEntry = DirEntry(name: seq<Byte>, inumber: int)

  /** The persistent state. */
  datatype Disk = Disk(
    params: Params,
    inodes: seq<Inode>,
    inodeAlloc: seq<Alloc>,
    data: seq<Byte>,
    blockAlloc: seq<Alloc>)

  /** The persistent state and, volatile, the open-file table. */
  datatype Fs = Fs(disk: Disk, openFiles: seq<OpenFile>, openAlloc: seq<Alloc>)

  predicate DiskShape(s: Disk) {
    && s.params.Valid()
    && |s.inodes| == |s.inodeAlloc| == s.params.maxInodes
    && |s.data| == BlockStart(s.params.maxBlocks, s.params.blockSize)
    && |s.blockAlloc| == s.params.maxBlocks
  }

  predicate Shape(s: Fs) {
    DiskShape(s.disk) && |s.openFiles| == |s.openAlloc| == s.disk.params.maxOpenFiles
  }

  predicate ValidBlock(s: Disk, b: int) {
    0 <= b < s.params.maxBlocks
  }

  predicate ValidHandle(s: Fs, h: int) {
    0 <= h < s.disk.params.maxOpenFiles
  }

  // ---------- data blocks ----------

  lemma {:induction false} BlockBounds(b: nat, n: nat, size: nat)
    requires b < n
    ensures BlockStart(b, size) + size <= BlockStart(n, size)
  {
    if b < n - 1 {
      BlockBounds(b, n - 1, size);
    }
  }

  lemma {:induction false} BlockStartIs(b: nat, size: nat)
    ensures BlockStart(b, size) == b * size
  {
    if b > 0 {
      BlockStartIs(b - 1, size);
    }
  }

  /** The bytes of a block, or nothing where there is no such block. */
  function Block(s: Disk, b: int): (bytes: seq<Byte>)
    ensures DiskShape(s) && ValidBlock(s, b) ==> |bytes| == s.params.blockSize
  {
    if DiskShape(s) && ValidBlock(s, b) then
      BlockBounds(b, s.params.maxBlocks, s.params.blockSize);
      var at := BlockStart(b, s.params.blockSize);
      s.data[at..at + s.params.blockSize]
    else []
  }

  /** data_block_get. */
  function DataBlockGet(s: Disk, b: int): (bytes: seq<Byte>)
    requires DiskShape(s) && ValidBlock(s, b)
    ensures |bytes| == s.params.blockSize
  {
    Block(s, b)
  }

  /** memcpy into a block at an offset. */
  function BlockWrite(s: Disk, b: int, offset: nat, bytes: seq<Byte>): (s': Disk)
    requires DiskShape(s) && ValidBlock(s, b) && offset + |bytes| <= s.params.blockSize
    ensures DiskShape(s')
  {
    BlockBounds(b, s.params.maxBlocks, s.params.blockSize);
    s.(data := Splice(s.data, BlockStart(b, s.params.blockSize) + offset, bytes))
  }

  /** Two blocks do not overlap. */
  lemma BlocksApart(b: nat, c: nat, size: nat)
    requires b != c
    ensures BlockStart(b, size) + size <= BlockStart(c, size) || BlockStart(c, size) + size <= BlockStart(b, size)
  {
    if b < c {
      BlockBounds(b, c, size);
    } else {
      BlockBounds(c, b, size);
    }
  }

  /** A write that stays inside its block changes no byte of any other block. */
  lemma WriteIsLocal(s: Disk, b: int, offset: nat, bytes: seq<Byte>, c: int)
    requires DiskShape(s) && ValidBlock(s, b) && offset + |bytes| <= s.params.blockSize && ValidBlock(s, c)
    ensures Block(BlockWrite(s, b, offset, bytes), c)
         == if c == b then Splice(Block(s, b), offset, bytes) else Block(s, c)
  {
    hide BlockStart;
    hide Splice;
    var size := s.params.blockSize;
    BlockBounds(b, s.params.maxBlocks, size);
    BlockBounds(c, s.params.maxBlocks, size);
    if c != b {
      BlocksApart(b, c, size);
    }
    WriteWindow(s.data, BlockStart(b, size), BlockStart(c, size), size, offset, bytes);
  }

  lemma WriteWindow(data: seq<Byte>, from: nat, lo: nat, size: nat, offset: nat, bytes: seq<Byte>)
    requires from + size <= |data| && lo + size <= |data| && offset + |bytes| <= size
    requires from == lo || from + size <= lo || lo + size <= from
    ensures Splice(data, from + offset, bytes)[lo..lo + size]
         == if from == lo then Splice(data[lo..lo + size], offset, bytes) else data[lo..lo + size]
  {
    hide Splice;
    if from == lo {
      SpliceWindow(data, lo + offset, bytes, lo, lo + size);
    } else {
      SpliceWindow(data, from + offset, bytes, lo, lo + size);
    }
  }

  /** The first FREE entry of an allocation table, or the table size. */
  function FirstFree(a: seq<Alloc>, from: nat := 0): (r: nat)
    requires from <= |a|
    ensures from <= r <= |a|
    ensures forall j :: from <= j < r ==> a[j] != Free
    ensures r < |a| ==> a[r] == Free
    decreases |a| - from
  {
    if from == |a| || a[from] == Free then from else FirstFree(a, from + 1)
  }

  function TakenSet(a: seq<Alloc>): set<int> {
    set i | 0 <= i < |a| && a[i] == Taken
  }

  function DataBlockAlloc(s: Disk): (r: (Disk, int))
  {
    var i: int := FirstFree(s.blockAlloc);
    if i == |s.blockAlloc| then (s, -1) else (s.(blockAlloc := s.blockAlloc[i := Taken]), i)
  }

  function DataBlockFree(s: Disk, b: int): Disk
    requires DiskShape(s) && ValidBlock(s, b)
  {
    s.(blockAlloc := s.blockAlloc[b := Free])
  }

  // ---------- directory entries, 44 bytes each ----------

  function EntryAt(block: seq<Byte>, i: nat): DirEntry
    requires ENTRY_SIZE * i + ENTRY_SIZE <= |block|
  {
    var at := ENTRY_SIZE * i;
    DirEntry(block[at..at + MAX_FILE_NAME], DecodeInt(block[at + MAX_FILE_NAME..at + ENTRY_SIZE]))
  }

  function Entries(block: seq<Byte>): (es: seq<DirEntry>)
    ensures |es| == |block| / ENTRY_SIZE
    ensures forall i :: 0 <= i < |es| ==> es[i] == EntryAt(block, i)
    ensures forall i :: 0 <= i < |es| ==> |es[i].name| == MAX_FILE_NAME && IsInt(es[i].inumber)
  {
    seq(|block| / ENTRY_SIZE, i requires 0 <= i < |block| / ENTRY_SIZE => EntryAt(block, i))
  }

  predicate IsEntry(e: DirEntry) {
    |e.name| == MAX_FILE_NAME && IsInt(e.inumber)
  }

  function EntryBytes(e: DirEntry): (b: seq<Byte>)
    requires IsEntry(e)
    ensures |b| == ENTRY_SIZE
  {
    e.name + EncodeInt(e.inumber)
  }

  /** Storing one entry changes that entry and no other. */
  lemma StoreEntry(block: seq<Byte>, i: nat, e: DirEntry)
    requires i < |block| / ENTRY_SIZE && IsEntry(e)
    ensures Entries(Splice(block, ENTRY_SIZE * i, EntryBytes(e))) == Entries(block)[i := e]
  {
    var block' := Splice(block, ENTRY_SIZE * i, EntryBytes(e));
    forall j | 0 <= j < |block| / ENTRY_SIZE
      ensures EntryAt(block', j) == if j == i then e else EntryAt(block, j)
    {
      var at := ENTRY_SIZE * j;
      SpliceWindow(block, ENTRY_SIZE * i, EntryBytes(e), at, at + ENTRY_SIZE);
      EntryFromBytes(block', j, block'[at..at + ENTRY_SIZE]);
      if j == i {
        assert Splice(block[at..at + ENTRY_SIZE], 0, EntryBytes(e)) == EntryBytes(e);
        IntRoundTrip(e.inumber);
      } else {
        EntryFromBytes(block, j, block[at..at + ENTRY_SIZE]);
      }
    }
  }

  lemma EntryFromBytes(block: seq<Byte>, i: nat, bytes: seq<Byte>)
    requires ENTRY_SIZE * i + ENTRY_SIZE <= |block| && bytes == block[ENTRY_SIZE * i..ENTRY_SIZE * i + ENTRY_SIZE]
    ensures EntryAt(block, i) == DirEntry(bytes[..MAX_FILE_NAME], DecodeInt(bytes[MAX_FILE_NAME..]))
  {
    assert bytes[MAX_FILE_NAME..] == block[ENTRY_SIZE * i + MAX_FILE_NAME..ENTRY_SIZE * i + ENTRY_SIZE];
  }

  /** A block whose entries all become free, their names left as they were found. */
  function ClearEntries(block: seq<Byte>, n: nat): (r: seq<Byte>)
    requires n <= |block| / ENTRY_SIZE
    ensures |r| == |block|
  {
    if n == 0 then block
    else Splice(ClearEntries(block, n - 1), ENTRY_SIZE * (n - 1) + MAX_FILE_NAME, EncodeInt(-1))
  }

  lemma StoreInumber(block: seq<Byte>, i: nat, v: int)
    requires i < |block| / ENTRY_SIZE && IsInt(v)
    ensures Entries(Splice(block, ENTRY_SIZE * i + MAX_FILE_NAME, EncodeInt(v)))
         == Entries(block)[i := Entries(block)[i].(inumber := v)]
  {
    var at := ENTRY_SIZE * i;
    var bytes := block[at..at + MAX_FILE_NAME] + EncodeInt(v);
    assert Splice(block, at + MAX_FILE_NAME, EncodeInt(v)) == Splice(block, at, bytes);
    assert bytes == EntryBytes(EntryAt(block, i).(inumber := v));
    StoreEntry(block, i, EntryAt(block, i).(inumber := v));
  }

  /** The first n entries made free. */
  function FreeFirst(d: seq<DirEntry>, n: nat): (r: seq<DirEntry>)
    requires n <= |d|
    ensures |r| == |d|
    ensures forall j :: 0 <= j < |d| ==> r[j] == if j < n then d[j].(inumber := -1) else d[j]
  {
    if n == 0 then d
    else
      var r := FreeFirst(d, n - 1);
      r[n - 1 := r[n - 1].(inumber := -1)]
  }

  lemma {:induction false} ClearedEntries(block: seq<Byte>, n: nat)
    requires n <= |block| / ENTRY_SIZE
    ensures Entries(ClearEntries(block, n)) == FreeFirst(Entries(block), n)
  {
    hide EntryAt;
    hide Entries;
    hide Splice;
    if n > 0 {
      ClearedEntries(block, n - 1);
      StoreInumber(ClearEntries(block, n - 1), n - 1, -1);
    }
  }

  predicate Live(e: DirEntry) {
    e.inumber != -1
  }

  /** The name find_in_dir and clear_dir_entry compare with. */
  function Name(e: DirEntry): CString {
    CStr(e.name)
  }

  /** The slot find_in_dir stops at: live, and equal under strncmp. */
  function FindSlot(d: seq<DirEntry>, name: CString, from: nat := 0): (r: nat)
    requires from <= |d|
    ensures from <= r <= |d|
    ensures forall j :: from <= j < r ==> !(Live(d[j]) && StrncmpEqual(d[j].name, name))
    ensures r < |d| ==> Live(d[r]) && StrncmpEqual(d[r].name, name)
    decreases |d| - from
  {
    if from == |d| || (Live(d[from]) && StrncmpEqual(d[from].name, name)) then from else FindSlot(d, name, from + 1)
  }

  /** The slot clear_dir_entry stops at: equal under strcmp, whether live or not. */
  function ClearSlot(d: seq<DirEntry>, name: CString, from: nat := 0): (r: nat)
    requires from <= |d|
    ensures from <= r <= |d|
    ensures forall j :: from <= j < r ==> Name(d[j]) != name
    ensures r < |d| ==> Name(d[r]) == name
    decreases |d| - from
  {
    if from == |d| || Name(d[from]) == name then from else ClearSlot(d, name, from + 1)
  }

  /** The slot add_dir_entry fills. */
  function FreeSlot(d: seq<DirEntry>, from: nat := 0): (r: nat)
    requires from <= |d|
    ensures from <= r <= |d|
    ensures forall j :: from <= j < r ==> Live(d[j])
    ensures r < |d| ==> !Live(d[r])
    decreases |d| - from
  {
    if from == |d| || !Live(d[from]) then from else FreeSlot(d, from + 1)
  }

  /** A pointer to a directory's block can be taken. */
  predicate HasBlock(s: Disk, dir: Inode) {
    dir.kind == Directory ==> ValidBlock(s, dir.dataBlock)
  }

  function FindInDir(s: Disk, dir: Inode, name: CString): int
    requires DiskShape(s) && HasBlock(s, dir)
  {
    if dir.kind != Directory then -1
    else
      var d := Entries(DataBlockGet(s, dir.dataBlock));
      var i := FindSlot(d, name);
      if i == |d| then -1 else d[i].inumber
  }

  function StoreDirEntry(s: Disk, b: int, i: nat, e: DirEntry): (s': Disk)
    requires DiskShape(s) && ValidBlock(s, b) && i < s.params.MaxDirEntries() && IsEntry(e)
    ensures DiskShape(s')
  {
    BlockWrite(s, b, ENTRY_SIZE * i, EntryBytes(e))
  }

  function AddDirEntry(s: Disk, dir: Inode, name: CString, inumber: int): (r: (Disk, int))
    requires DiskShape(s) && HasBlock(s, dir) && IsInt(inumber)
  {
    if |name| == 0 || |name| > MAX_FILE_NAME - 1 then (s, -1)
    else if dir.kind != Directory then (s, -1)
    else
      var d := Entries(DataBlockGet(s, dir.dataBlock));
      var i := FreeSlot(d);
      if i == |d| then (s, -1)
      else (StoreDirEntry(s, dir.dataBlock, i, DirEntry(Pad(name, MAX_FILE_NAME), inumber)), 0)
  }

  /** strcmp reads past the entry's name field only if the name does not fit it. */
  function ClearDirEntry(s: Disk, dir: Inode, name: CString): (r: (Disk, int))
    requires DiskShape(s) && HasBlock(s, dir) && |name| < MAX_FILE_NAME
  {
    if dir.kind != Directory then (s, -1)
    else
      var d := Entries(DataBlockGet(s, dir.dataBlock));
      var i := ClearSlot(d, name);
      if i == |d| then (s, -1)
      else (StoreDirEntry(s, dir.dataBlock, i, DirEntry(Zeros(MAX_FILE_NAME), -1)), 0)
  }

  // ---------- inodes ----------

  function InodeAlloc(s: Disk): (r: (Disk, int))
    requires DiskShape(s)
    ensures DiskShape(r.0)
  {
    var i: int := FirstFree(s.inodeAlloc);
    if i == |s.inodeAlloc| then (s, -1) else (s.(inodeAlloc := s.inodeAlloc[i := Taken]), i)
  }

  predicate CanDelete(s: Disk, inumber: int)
    requires DiskShape(s)
  {
    && 0 <= inumber < s.params.maxInodes
    && s.inodeAlloc[inumber] == Taken
    && (s.inodes[inumber].size > 0 ==> ValidBlock(s, s.inodes[inumber].dataBlock))
  }

  function InodeDelete(s: Disk, inumber: int): (s': Disk)
    requires DiskShape(s) && CanDelete(s, inumber)
    ensures DiskShape(s')
  {
    var s1 := if s.inodes[inumber].size > 0 then DataBlockFree(s, s.inodes[inumber].dataBlock) else s;
    s1.(inodeAlloc := s1.inodeAlloc[inumber := Free])
  }

  function InodeCreate(s: Disk, kind: NodeKind): (r: (Disk, int))
    requires DiskShape(s)
    ensures DiskShape(r.0)
  {
    var (s1, inumber) := InodeAlloc(s);
    if inumber == -1 then (s, -1)
    else
      match kind
      case File =>
        (s1.(inodes := s1.inodes[inumber := Inode(File, 0, -1)]), inumber)
      case Directory =>
        var (s2, b) := DataBlockAlloc(s1);
        if b == -1 then
          (InodeDelete(s1.(inodes := s1.inodes[inumber := Inode(Directory, 0, -1)]), inumber), -1)
        else
          var s3 := s2.(inodes := s2.inodes[inumber := Inode(Directory, s.params.blockSize, b)]);
          (BlockWrite(s3, b, 0, ClearEntries(DataBlockGet(s3, b), s.params.MaxDirEntries())), inumber)
  }

  // ---------- the open-file table ----------

  function AddToOpenFileTable(s: Fs, inumber: int, offset: nat): (r: (Fs, int))
    requires Shape(s)
  {
    var h: int := FirstFree(s.openAlloc);
    if h == |s.openAlloc| then (s, -1)
    else (s.(openAlloc := s.openAlloc[h := Taken], openFiles := s.openFiles[h := OpenFile(inumber, offset)]), h)
  }

  /** get_open_file_entry returns a pointer rather than NULL. */
  predicate HandleIsOpen(s: Fs, h: int)
    requires Shape(s)
  {
    ValidHandle(s, h) && s.openAlloc[h] == Taken
  }

  /** file->of_offset += n. */
  function Advance(s: Fs, h: int, n: nat): (s': Fs)
    requires Shape(s) && HandleIsOpen(s, h)
    ensures Shape(s')
  {
    s.(openFiles := s.openFiles[h := OpenFile(s.openFiles[h].inumber, s.openFiles[h].offset + n)])
  }

  function RemoveFromOpenFileTable(s: Fs, h: int): Fs
    requires Shape(s) && HandleIsOpen(s, h)
  {
    s.(openAlloc := s.openAlloc[h := Free])
  }
}
