/** The public operations of fs/operations.c on the tables. Each runs under one mutex, so a call is one step. */
module FsOperations {
  import opened Collections
  import opened Memory
  import opened FsState
  import opened AbstractFs
  import opened FsInvariant

  /** What malloc returned for the tables of state_init: contents not yet written. */
  datatype Uninitialised = Uninitialised(inodes: seq<Inode>, data: seq<Byte>, openFiles: seq<OpenFile>)

  predicate Allocated(p: Params, m: Uninitialised) {
    && p.Valid()
    && |m.inodes| == p.maxInodes && |m.data| == BlockStart(p.maxBlocks, p.blockSize) && |m.openFiles| == p.maxOpenFiles
  }

  function AllFree(n: nat): (a: seq<Alloc>)
    ensures |a| == n && forall i :: 0 <= i < n ==> a[i] == Free
  {
    seq(n, i => Free)
  }

  function StateInit(p: Params, m: Uninitialised): (s: Fs)
    requires Allocated(p, m)
    ensures Shape(s)
  {
    Fs(Disk(p, m.inodes, AllFree(p.maxInodes), m.data, AllFree(p.maxBlocks)), m.openFiles, AllFree(p.maxOpenFiles))
  }

  /** tfs_init when no tables exist yet. */
  function TfsInit(p: Params, m: Uninitialised): (r: (Fs, int))
    requires Allocated(p, m)
    ensures Shape(r.0)
  {
    var s := StateInit(p, m);
    var (disk, root) := InodeCreate(s.disk, Directory);
    (s.(disk := disk), if root == ROOT_DIR_INUM then 0 else -1)
  }

  /** tfs_init when the tables exist: state_init stores the parameters before it looks. */
  function TfsReInit(s: Fs, p: Params): (r: (Fs, int)) {
    (s.(disk := s.disk.(params := p)), -1)
  }

  /** inode_get on the root. */
  function RootInode(s: Disk): Inode
    requires DiskInv(s)
  {
    s.inodes[ROOT_DIR_INUM]
  }

  function TfsLookup(s: Disk, path: Path): int
    requires DiskInv(s)
  {
    if !ValidPathname(path) then -1 else FindInDir(s, RootInode(s), FileName(path))
  }

  /** strncmp over the whole field is equality of names for every entry that has a terminator. */
  lemma FindIsNameSlot(d: seq<DirEntry>, name: CString)
    requires forall i :: 0 <= i < |d| ==> |d[i].name| == MAX_FILE_NAME
    requires forall i :: 0 <= i < |d| && Live(d[i]) ==> |Name(d[i])| < MAX_FILE_NAME
    ensures FindSlot(d, name) == NameSlot(d, name)
  {
    forall i | 0 <= i < |d| && Live(d[i])
      ensures StrncmpEqual(d[i].name, name) <==> Name(d[i]) == name
    {
    }
  }

  /** What a directory search returns, read off the name map. */
  function LookupName(names: Names, n: CString): int {
    if n in names then names[n] else -1
  }

  lemma NameMapIs(d: seq<DirEntry>, n: CString)
    ensures n in NameMap(d) <==> NameSlot(d, n) < |d|
    ensures n in NameMap(d) ==> NameMap(d)[n] == d[NameSlot(d, n)].inumber
  {
    var i := NameSlot(d, n);
    if i < |d| {
      assert i in LiveSlots(d);
    }
  }

  /** tfs_lookup finds exactly the names in the directory. */
  lemma LookupIs(s: Disk, path: Path)
    requires DiskInv(s) && ValidPathname(path)
    ensures TfsLookup(s, path) == LookupName(NameMap(Dir(s)), FileName(path))
    ensures TfsLookup(s, path) != -1 ==> |FileName(path)| < MAX_FILE_NAME
  {
    FindIsNameSlot(Dir(s), FileName(path));
    NameMapIs(Dir(s), FileName(path));
  }

  /** A number in the directory is that of a file inode in use, which can be deleted. */
  lemma FoundFile(s: Disk, names: Names, owners: Owners, n: CString)
    requires Core(s, names, owners) && n in names
    ensures 0 < names[n] < s.params.maxInodes && CanDelete(s, names[n])
    ensures s.inodes[names[n]].kind == File && s.inodes[names[n]].size <= s.params.blockSize
    ensures LookupName(names, n) != -1 && s.inodeAlloc[names[n]] == Taken
  {
    assert s.inodes[names[n]].size > 0 ==> Owns(s.inodes, s.inodeAlloc, names[n]);
  }

  lemma LookupFinds(s: Disk, path: Path)
    requires DiskInv(s) && ValidPathname(path)
    ensures TfsLookup(s, path) == LookupName(NameMap(Dir(s)), FileName(path))
    ensures TfsLookup(s, path) != -1 ==>
              && FileName(path) in NameMap(Dir(s)) && |FileName(path)| < MAX_FILE_NAME
              && 0 < TfsLookup(s, path) < s.params.maxInodes && CanDelete(s, TfsLookup(s, path))
  {
    LookupIs(s, path);
    if FileName(path) in NameMap(Dir(s)) {
      FoundFile(s, NameMap(Dir(s)), InodeMap(Dir(s)), FileName(path));
    }
  }

  function TfsOpen(s: Fs, path: Path, mode: Mode): (r: (Fs, Reply))
    requires Inv(s)
  {
    if !ValidPathname(path) then (s, Reply(-1, []))
    else
      LookupFinds(s.disk, path);
      var inum := TfsLookup(s.disk, path);
      if inum >= 0 then
        var disk := if mode.trunc then Truncate(s.disk, inum) else s.disk;
        var (s', h) := AddToOpenFileTable(s.(disk := disk), inum, if mode.append then disk.inodes[inum].size else 0);
        (s', Reply(h, []))
      else if mode.creat then
        var (disk, inum) := CreateFile(s.disk, FileName(path));
        if inum == -1 then (s.(disk := disk), Reply(-1, []))
        else
          var (s', h) := AddToOpenFileTable(s.(disk := disk), inum, 0);
          (s', Reply(h, []))
      else (s, Reply(-1, []))
  }

  /** TFS_O_TRUNC. */
  function Truncate(s: Disk, inum: int): (s': Disk)
    requires DiskShape(s) && CanDelete(s, inum)
    ensures DiskShape(s') && |s'.inodes| == |s.inodes|
  {
    if s.inodes[inum].size > 0 then
      var s1 := DataBlockFree(s, s.inodes[inum].dataBlock);
      s1.(inodes := s1.inodes[inum := s1.inodes[inum].(size := 0)])
    else s
  }

  /** TFS_O_CREAT: a new inode and its entry, or neither. */
  function CreateFile(s: Disk, name: CString): (r: (Disk, int))
    requires DiskInv(s)
    ensures DiskShape(r.0) && |r.0.inodes| == |s.inodes|
  {
    var (s1, inum) := InodeCreate(s, File);
    if inum == -1 then (s1, -1)
    else
      var (s2, added) := AddDirEntry(s1, RootInode(s), name, inum);
      if added == -1 then (InodeDelete(s1, inum), -1) else (s2, inum)
  }

  function TfsClose(s: Fs, h: int): (r: (Fs, Reply))
    requires Shape(s)
  {
    if !HandleIsOpen(s, h) then (s, Reply(-1, [])) else (RemoveFromOpenFileTable(s, h), Reply(0, []))
  }

  /** What reading and writing through a handle take for granted: its inode exists, it stands inside
      the file, and a file with bytes has a block. */
  predicate Usable(s: Fs, h: int)
    requires Shape(s)
  {
    HandleIsOpen(s, h) ==>
      var k := s.openFiles[h].inumber;
      && 0 <= k < s.disk.params.maxInodes
      && s.openFiles[h].offset <= s.disk.inodes[k].size <= s.disk.params.blockSize
      && (s.disk.inodes[k].size > 0 ==> ValidBlock(s.disk, s.disk.inodes[k].dataBlock))
  }

  lemma InvUsable(s: Fs, h: int)
    requires Inv(s)
    ensures Usable(s, h)
  {
    hide Linked;
    hide DirOk;
    if HandleIsOpen(s, h) {
      var k := s.openFiles[h].inumber;
      assert s.disk.inodes[k].size > 0 ==> Owns(s.disk.inodes, s.disk.inodeAlloc, k);
    }
  }

  /** The bytes left to write after the size_t comparison with the block size. */
  function ToWrite(length: nat, offset: nat, blockSize: nat): int {
    if (length + offset) % SIZE_T > blockSize then blockSize - offset else length
  }

  lemma ToWriteIs(length: nat, offset: nat, blockSize: nat)
    requires length + blockSize < SIZE_T && offset <= blockSize
    ensures ToWrite(length, offset, blockSize) == Min(length, blockSize - offset)
  {
  }

  function TfsWrite(s: Fs, h: int, buffer: seq<Byte>): (r: (Fs, Reply))
    requires Shape(s) && Usable(s, h) && |buffer| + s.disk.params.blockSize < SIZE_T
  {
    if !HandleIsOpen(s, h) then (s, Reply(-1, []))
    else
      var OpenFile(k, offset) := s.openFiles[h];
      ToWriteIs(|buffer|, offset, s.disk.params.blockSize);
      var n := ToWrite(|buffer|, offset, s.disk.params.blockSize);
      if n == 0 then (s, Reply(0, []))
      else
        var (s1, b) :=
          if s.disk.inodes[k].size == 0 then DataBlockAlloc(s.disk) else (s.disk, s.disk.inodes[k].dataBlock);
        if b == -1 then (s.(disk := s1), Reply(-1, []))
        else
          (Advance(s.(disk := WriteInode(s1, k, b, offset, buffer[..n])), h, n), Reply(n, []))
  }

  /** The memcpy into the block and the growth of the inode. */
  function WriteInode(s: Disk, k: int, b: int, offset: nat, bytes: seq<Byte>): (s': Disk)
    requires DiskShape(s) && ValidBlock(s, b) && offset + |bytes| <= s.params.blockSize && 0 <= k < |s.inodes|
    ensures DiskShape(s')
  {
    var end := offset + |bytes|;
    var size := if end > s.inodes[k].size then end else s.inodes[k].size;
    var s1 := BlockWrite(s, b, offset, bytes);
    s1.(inodes := s1.inodes[k := s1.inodes[k].(size := size, dataBlock := b)])
  }

  /** size_t subtraction, cut to the buffer. */
  function ToRead(size: nat, offset: nat, len: nat): nat {
    Min((size - offset) % SIZE_T, len)
  }

  function TfsRead(s: Fs, h: int, len: nat): (r: (Fs, Reply))
    requires Shape(s) && Usable(s, h)
  {
    if !HandleIsOpen(s, h) then (s, Reply(-1, []))
    else
      var OpenFile(k, offset) := s.openFiles[h];
      var n := ToRead(s.disk.inodes[k].size, offset, len);
      if n == 0 then (s, Reply(0, []))
      else
        (Advance(s, h, n), Reply(n, DataBlockGet(s.disk, s.disk.inodes[k].dataBlock)[offset..offset + n]))
  }

  function TfsUnlink(s: Fs, path: Path): (r: (Fs, Reply))
    requires Inv(s)
  {
    if !ValidPathname(path) then (s, Reply(-1, []))
    else
      LookupFinds(s.disk, path);
      var inum := TfsLookup(s.disk, path);
      if inum == -1 then (s, Reply(-1, []))
      else
        var s1 := InodeDelete(s.disk, inum);
        var (s2, cleared) := ClearDirEntry(s1, RootInode(s.disk), FileName(path));
        (s.(disk := s2), Reply(cleared, []))
  }

  function Step(s: Fs, c: Call): (r: (Fs, Reply))
    requires Inv(s) && (c.Write? ==> |c.buffer| + s.disk.params.blockSize < SIZE_T)
  {
    match c
    case Open(path, mode) => TfsOpen(s, path, mode)
    case Close(h) => TfsClose(s, h)
    case Write(h, buffer) => InvUsable(s, h); TfsWrite(s, h, buffer)
    case Read(h, len) => InvUsable(s, h); TfsRead(s, h, len)
    case Unlink(path) => TfsUnlink(s, path)
  }
}
