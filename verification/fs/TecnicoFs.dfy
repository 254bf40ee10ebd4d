/** fs/state.c and fs/operations.c as they run: loops over tables and bytes written in place. */
module TecnicoFileSystem {
  import opened Collections
  import opened Memory
  import opened AbstractFs
  import opened FsInvariant
  import State = FsState
  import Operations = FsOperations
  import Theorems = FsTheorems

  type Params = State.Params
  type Inode = State.Inode
  type Alloc = State.Alloc
  type OpenFile = State.OpenFile
  type Fs = State.Fs

  /** memcpy, strncpy and memset: `src` stored from position `at` on. */
  method MemCpy(dst: array<Byte>, at: nat, src: seq<Byte>)
    requires at + |src| <= dst.Length
    modifies dst
    ensures dst[..] == Splice(old(dst[..]), at, src)
  {
    for i := 0 to |src|
      invariant forall p :: 0 <= p < dst.Length ==> dst[p] == if at <= p < at + i then src[p - at] else old(dst[p])
    {
      dst[at + i] := src[i];
    }
  }

  /** The scan of every first-fit allocator. */
  method FindFree(table: array<Alloc>, size: nat) returns (i: nat)
    requires table.Length == size
    ensures i == State.FirstFree(table[..])
  {
    i := 0;
    while i < size
      invariant i <= size
      invariant forall j :: 0 <= j < i ==> table[j] != State.Free
    {
      if table[i] == State.Free {
        return;
      }
      i := i + 1;
    }
  }

  lemma SliceOfSlice(data: seq<Byte>, at: nat, size: nat, lo: nat, hi: nat)
    requires at + size <= |data| && lo <= hi <= size
    ensures data[at..at + size][lo..hi] == data[at + lo..at + hi]
  {
    var one, two := data[at..at + size][lo..hi], data[at + lo..at + hi];
    assert |one| == |two| && forall k :: 0 <= k < |one| ==> one[k] == two[k];
  }

  /** Two copies side by side are one. */
  lemma SpliceBoth(data: seq<Byte>, at: nat, one: seq<Byte>, two: seq<Byte>)
    requires at + |one| + |two| <= |data|
    ensures Splice(Splice(data, at + |one|, two), at, one) == Splice(data, at, one + two)
    ensures Splice(Splice(data, at, one), at + |one|, two) == Splice(data, at, one + two)
  {
  }

  /** A copy into a block that is itself copied back. */
  lemma SpliceInside(data: seq<Byte>, at: nat, block: seq<Byte>, offset: nat, bytes: seq<Byte>)
    requires at + |block| <= |data| && offset + |bytes| <= |block|
    ensures Splice(Splice(data, at, block), at + offset, bytes) == Splice(data, at, Splice(block, offset, bytes))
  {
  }

  lemma SpliceFront(data: seq<Byte>, bytes: seq<Byte>)
    requires |bytes| <= |data|
    ensures Splice(data, 0, bytes)[..|bytes|] == bytes
    ensures forall i :: |bytes| <= i < |data| ==> Splice(data, 0, bytes)[i] == data[i]
  {
  }

  lemma SpliceSelf(data: seq<Byte>, at: nat, size: nat)
    requires at + size <= |data|
    ensures Splice(data, at, data[at..at + size]) == data
  {
  }

  lemma PadMore(name: CString, width: nat)
    requires |name| <= width
    ensures Pad(name, width) + [0] == Pad(name, width + 1)
  {
  }

  method FreeAll(table: array<Alloc>)
    modifies table
    ensures table[..] == Operations.AllFree(table.Length)
  {
    for i := 0 to table.Length
      invariant forall j :: 0 <= j < i ==> table[j] == State.Free
    {
      table[i] := State.Free;
    }
  }

  /** One call: the step on the tables, and what it means to the caller. */
  ghost predicate Refines(s: Fs, c: Call, s': Fs, reply: Reply)
    requires Inv(s) && Theorems.Callable(s.disk.params, c)
  {
    && (s', reply) == Operations.Step(s, c)
    && AbsValid(Abs(s)) && reply == AbsStep(Abs(s), c).1
    && (Inv(s') <==> Disciplined(Abs(s), c))
    && (Disciplined(Abs(s), c) ==> Abs(s') == AbsStep(Abs(s), c).0)
  }

  lemma StepMeans(s: Fs, c: Call)
    requires Inv(s) && Theorems.Callable(s.disk.params, c)
    ensures Refines(s, c, Operations.Step(s, c).0, Operations.Step(s, c).1)
  {
    Theorems.StepRefines(s, c);
    hide Inv;
    hide Operations.Step;
    hide AbsStep;
    hide Disciplined;
  }

  lemma RootHasBlock(s: Fs)
    requires Inv(s)
    ensures s.disk.params.maxInodes > 0 && State.HasBlock(s.disk, s.disk.inodes[State.ROOT_DIR_INUM])
  {
  }

  /** The inode a new file gets is not the root's. */
  lemma CreatedApart(s: State.Disk)
    requires DiskInv(s)
    ensures var (s1, inumber) := State.InodeCreate(s, State.File);
            s1.params == s.params && s1.inodes[State.ROOT_DIR_INUM] == s.inodes[State.ROOT_DIR_INUM] && IsInt(inumber)
            && (inumber != -1 ==> State.CanDelete(s1, inumber))
  {
  }

  lemma AddFails(s: State.Disk, dir: Inode, name: CString, inumber: int)
    requires State.DiskShape(s) && State.HasBlock(s, dir) && IsInt(inumber)
    ensures State.AddDirEntry(s, dir, name, inumber).1 == -1 ==> State.AddDirEntry(s, dir, name, inumber).0 == s
  {
  }

  /** The block number may be stored before the write. */
  lemma SetBlockFirst(s: State.Disk, k: int, b: int, offset: nat, bytes: seq<Byte>)
    requires State.DiskShape(s) && State.ValidBlock(s, b) && offset + |bytes| <= s.params.blockSize
    requires 0 <= k < |s.inodes|
    ensures Operations.WriteInode(s.(inodes := s.inodes[k := s.inodes[k].(dataBlock := b)]), k, b, offset, bytes)
         == Operations.WriteInode(s, k, b, offset, bytes)
  {
    hide Splice;
  }

  lemma AllocIs(s: State.Disk)
    requires State.DiskShape(s)
    ensures var (s1, b) := State.DataBlockAlloc(s);
            && s1 == s.(blockAlloc := s1.blockAlloc) && |s1.blockAlloc| == |s.blockAlloc|
            && (if b == -1 then s1 == s else State.ValidBlock(s, b))
  {
  }

  lemma DefaultsValid(p: Params)
    requires p == State.Params(64, 1024, 16, 1024)
    ensures p.Valid()
  {
    State.BlockStartIs(1024, 1024);
  }

  class TecnicoFs {
    var initialised: bool // inode_table != NULL
    var params: Params
    var inodeTable: array<Inode>
    var freeInodeTs: array<Alloc>
    var fsData: array<Byte>
    var freeBlocks: array<Alloc>
    var openFileTable: array<OpenFile>
    var freeOpenFileEntries: array<Alloc>

    /** The tables as values. */
    ghost function View(): Fs
      reads this, inodeTable, freeInodeTs, fsData, freeBlocks, openFileTable, freeOpenFileEntries
    {
      State.Fs(State.Disk(params, inodeTable[..], freeInodeTs[..], fsData[..], freeBlocks[..]),
               openFileTable[..], freeOpenFileEntries[..])
    }

    /** The three allocation tables are three allocations. */
    ghost predicate Valid()
      reads this, inodeTable, freeInodeTs, fsData, freeBlocks, openFileTable, freeOpenFileEntries
    {
      && freeInodeTs != freeBlocks && freeInodeTs != freeOpenFileEntries && freeBlocks != freeOpenFileEntries
      && State.Shape(View())
    }

    // ---------- state.c: data blocks ----------

    method DataBlockAlloc() returns (b: int)
      requires Valid()
      modifies freeBlocks
      ensures Valid()
      ensures (View().disk, b) == State.DataBlockAlloc(old(View().disk))
      ensures View() == old(View()).(disk := View().disk)
    {
      var i := FindFree(freeBlocks, params.maxBlocks);
      if i == params.maxBlocks {
        return -1;
      }
      freeBlocks[i] := State.Taken;
      assert freeBlocks[..] == old(freeBlocks[..])[i := State.Taken];
      return i;
    }

    method DataBlockFree(b: int)
      requires Valid() && State.ValidBlock(View().disk, b)
      modifies freeBlocks
      ensures Valid()
      ensures View() == old(View()).(disk := State.DataBlockFree(old(View().disk), b))
    {
      freeBlocks[b] := State.Free;
      assert freeBlocks[..] == old(freeBlocks[..])[b := State.Free];
    }

    /** The position of the block's first byte. */
    method DataBlockGet(b: int) returns (at: nat)
      requires Valid() && State.ValidBlock(View().disk, b)
      ensures at == State.BlockStart(b, params.blockSize)
      ensures at + params.blockSize <= fsData.Length
      ensures fsData[at..at + params.blockSize] == State.DataBlockGet(View().disk, b)
    {
      State.BlockStartIs(b, params.blockSize);
      State.BlockBounds(b, params.maxBlocks, params.blockSize);
      at := b * params.blockSize;
    }

    // ---------- state.c: inodes ----------

    method InodeAlloc() returns (inumber: int)
      requires Valid()
      modifies freeInodeTs
      ensures Valid()
      ensures (View().disk, inumber) == State.InodeAlloc(old(View().disk))
      ensures View() == old(View()).(disk := View().disk)
    {
      var i := FindFree(freeInodeTs, params.maxInodes);
      if i == params.maxInodes {
        return -1;
      }
      freeInodeTs[i] := State.Taken;
      assert freeInodeTs[..] == old(freeInodeTs[..])[i := State.Taken];
      return i;
    }

    method InodeDelete(inumber: int)
      requires Valid() && State.CanDelete(View().disk, inumber)
      modifies freeInodeTs, freeBlocks
      ensures Valid()
      ensures View() == old(View()).(disk := State.InodeDelete(old(View().disk), inumber))
    {
      if inodeTable[inumber].size > 0 {
        DataBlockFree(inodeTable[inumber].dataBlock);
      }
      freeInodeTs[inumber] := State.Free;
      assert freeInodeTs[..] == old(freeInodeTs[..])[inumber := State.Free];
    }

    /** An inode's fields. */
    method SetInode(inumber: int, inode: Inode)
      requires Valid() && 0 <= inumber < params.maxInodes
      modifies inodeTable
      ensures Valid()
      ensures View() == old(View()).(disk := old(View().disk).(inodes := old(View().disk.inodes)[inumber := inode]))
    {
      inodeTable[inumber] := inode;
      assert inodeTable[..] == old(inodeTable[..])[inumber := inode];
    }

    /** A directory gets a block full of free entries; only their inode numbers are written. */
    method InodeCreate(kind: State.NodeKind) returns (inumber: int)
      requires Valid()
      modifies inodeTable, freeInodeTs, fsData, freeBlocks
      ensures Valid()
      ensures (View().disk, inumber) == State.InodeCreate(old(View().disk), kind)
      ensures View() == old(View()).(disk := View().disk)
    {
      inumber := InodeAlloc();
      if inumber == -1 {
        return;
      }
      match kind
      case File =>
        SetInode(inumber, State.Inode(State.File, 0, -1));
      case Directory =>
        var b := DataBlockAlloc();
        if b == -1 {
          SetInode(inumber, State.Inode(State.Directory, 0, -1));
          InodeDelete(inumber);
          return -1;
        }
        SetInode(inumber, State.Inode(State.Directory, params.blockSize, b));
        FreeEntries(b);
    }

    method FreeEntries(b: int)
      requires Valid() && State.ValidBlock(View().disk, b)
      modifies fsData
      ensures Valid()
      ensures var s := old(View().disk);
              View() == old(View()).(disk :=
                State.BlockWrite(s, b, 0, State.ClearEntries(State.DataBlockGet(s, b), s.params.MaxDirEntries())))
    {
      hide Splice;
      hide State.BlockStart;
      hide EncodeInt;
      var at := DataBlockGet(b);
      ghost var data, block := fsData[..], fsData[at..at + params.blockSize];
      assert Splice(data, at, block) == data by {
        SpliceSelf(data, at, params.blockSize);
      }
      for i := 0 to params.blockSize / State.ENTRY_SIZE
        invariant Valid() && fsData[..] == Splice(data, at, State.ClearEntries(block, i))
      {
        SpliceInside(data, at, State.ClearEntries(block, i), State.ENTRY_SIZE * i + State.MAX_FILE_NAME, EncodeInt(-1));
        MemCpy(fsData, at + State.ENTRY_SIZE * i + State.MAX_FILE_NAME, EncodeInt(-1));
      }
    }

    // ---------- state.c: directory entries ----------

    /** dir_entry[i], for the entries in block b. */
    method DirEntryAt(b: int, i: nat) returns (e: State.DirEntry)
      requires Valid() && State.ValidBlock(View().disk, b) && i < params.blockSize / State.ENTRY_SIZE
      ensures e == State.Entries(State.DataBlockGet(View().disk, b))[i]
    {
      hide DecodeInt;
      var at := DataBlockGet(b);
      var lo := State.ENTRY_SIZE * i;
      SliceOfSlice(fsData[..], at, params.blockSize, lo, lo + State.MAX_FILE_NAME);
      SliceOfSlice(fsData[..], at, params.blockSize, lo + State.MAX_FILE_NAME, lo + State.ENTRY_SIZE);
      return State.DirEntry(fsData[at + lo..at + lo + State.MAX_FILE_NAME],
                            DecodeInt(fsData[at + lo + State.MAX_FILE_NAME..at + lo + State.ENTRY_SIZE]));
    }

    method FindInDir(dir: nat, name: CString) returns (inumber: int)
      requires Valid() && dir < params.maxInodes && State.HasBlock(View().disk, inodeTable[dir])
      ensures inumber == State.FindInDir(View().disk, inodeTable[dir], name)
    {
      hide State.Entries;
      hide State.DataBlockGet;
      hide StrncmpEqual;
      if inodeTable[dir].kind != State.Directory {
        return -1;
      }
      ghost var d := State.Entries(State.DataBlockGet(View().disk, inodeTable[dir].dataBlock));
      var i := 0;
      while i < params.blockSize / State.ENTRY_SIZE
        invariant i <= |d|
        invariant forall j :: 0 <= j < i ==> !(State.Live(d[j]) && StrncmpEqual(d[j].name, name))
      {
        var e := DirEntryAt(inodeTable[dir].dataBlock, i);
        if e.inumber != -1 && StrncmpEqual(e.name, name) {
          return e.inumber;
        }
        i := i + 1;
      }
      return -1;
    }

    method ClearDirEntry(dir: nat, name: CString) returns (ret: int)
      requires Valid() && dir < params.maxInodes && State.HasBlock(View().disk, inodeTable[dir])
      requires |name| < State.MAX_FILE_NAME
      modifies fsData
      ensures Valid()
      ensures (View().disk, ret) == State.ClearDirEntry(old(View().disk), old(inodeTable[dir]), name)
      ensures View() == old(View()).(disk := View().disk)
    {
      hide State.Entries;
      hide State.DataBlockGet;
      hide State.StoreDirEntry;
      hide CStr;
      if inodeTable[dir].kind != State.Directory {
        return -1;
      }
      ghost var d := State.Entries(State.DataBlockGet(View().disk, inodeTable[dir].dataBlock));
      var i := 0;
      while i < params.blockSize / State.ENTRY_SIZE
        invariant i <= |d| && fsData[..] == old(fsData[..])
        invariant forall j :: 0 <= j < i ==> State.Name(d[j]) != name
      {
        var e := DirEntryAt(inodeTable[dir].dataBlock, i);
        if CStr(e.name) == name {
          EraseEntry(inodeTable[dir].dataBlock, i);
          return 0;
        }
        i := i + 1;
      }
      return -1;
    }

    method AddDirEntry(dir: nat, name: CString, inumber: int) returns (ret: int)
      requires Valid() && dir < params.maxInodes && State.HasBlock(View().disk, inodeTable[dir]) && IsInt(inumber)
      modifies fsData
      ensures Valid()
      ensures (View().disk, ret) == State.AddDirEntry(old(View().disk), old(inodeTable[dir]), name, inumber)
      ensures View() == old(View()).(disk := View().disk)
    {
      hide State.Entries;
      hide State.DataBlockGet;
      hide State.StoreDirEntry;
      hide Pad;
      if |name| == 0 || |name| > State.MAX_FILE_NAME - 1 {
        return -1;
      }
      if inodeTable[dir].kind != State.Directory {
        return -1;
      }
      ghost var d := State.Entries(State.DataBlockGet(View().disk, inodeTable[dir].dataBlock));
      var i := 0;
      while i < params.blockSize / State.ENTRY_SIZE
        invariant i <= |d| && fsData[..] == old(fsData[..])
        invariant forall j :: 0 <= j < i ==> State.Live(d[j])
      {
        var e := DirEntryAt(inodeTable[dir].dataBlock, i);
        if e.inumber == -1 {
          FillEntry(inodeTable[dir].dataBlock, i, name, inumber);
          return 0;
        }
        i := i + 1;
      }
      return -1;
    }

    /** d_inumber = -1, then memset of the name. */
    method EraseEntry(b: int, i: nat)
      requires Valid() && State.ValidBlock(View().disk, b) && i < params.blockSize / State.ENTRY_SIZE
      modifies fsData
      ensures Valid()
      ensures var empty := State.DirEntry(Zeros(State.MAX_FILE_NAME), -1);
              View() == old(View()).(disk := State.StoreDirEntry(old(View().disk), b, i, empty))
    {
      hide Splice;
      hide EncodeInt;
      hide Zeros;
      hide State.BlockStart;
      var at := DataBlockGet(b);
      var p := at + State.ENTRY_SIZE * i;
      MemCpy(fsData, p + State.MAX_FILE_NAME, EncodeInt(-1));
      MemCpy(fsData, p, Zeros(State.MAX_FILE_NAME));
      SpliceBoth(old(fsData[..]), p, Zeros(State.MAX_FILE_NAME), EncodeInt(-1));
    }

    /** d_inumber, then strncpy of all but the last byte of the name field, then that byte. */
    method FillEntry(b: int, i: nat, name: CString, inumber: int)
      requires Valid() && State.ValidBlock(View().disk, b) && i < params.blockSize / State.ENTRY_SIZE
      requires |name| < State.MAX_FILE_NAME && IsInt(inumber)
      modifies fsData
      ensures Valid()
      ensures var entry := State.DirEntry(Pad(name, State.MAX_FILE_NAME), inumber);
              View() == old(View()).(disk := State.StoreDirEntry(old(View().disk), b, i, entry))
    {
      hide Splice;
      hide EncodeInt;
      hide Pad;
      hide State.BlockStart;
      var at := DataBlockGet(b);
      var p, last := at + State.ENTRY_SIZE * i, State.MAX_FILE_NAME - 1;
      MemCpy(fsData, p + State.MAX_FILE_NAME, EncodeInt(inumber));
      MemCpy(fsData, p, Pad(name, last));
      MemCpy(fsData, p + last, [0]);
      ghost var data := old(fsData[..]);
      SpliceBoth(Splice(data, p + State.MAX_FILE_NAME, EncodeInt(inumber)), p, Pad(name, last), [0]);
      PadMore(name, last);
      SpliceBoth(data, p, Pad(name, State.MAX_FILE_NAME), EncodeInt(inumber));
    }

    // ---------- state.c: the open-file table ----------

    method AddToOpenFileTable(inumber: int, offset: nat) returns (h: int)
      requires Valid()
      modifies openFileTable, freeOpenFileEntries
      ensures Valid()
      ensures (View(), h) == State.AddToOpenFileTable(old(View()), inumber, offset)
    {
      var i := FindFree(freeOpenFileEntries, params.maxOpenFiles);
      if i == params.maxOpenFiles {
        return -1;
      }
      freeOpenFileEntries[i] := State.Taken;
      openFileTable[i] := State.OpenFile(inumber, offset);
      assert freeOpenFileEntries[..] == old(freeOpenFileEntries[..])[i := State.Taken];
      assert openFileTable[..] == old(openFileTable[..])[i := State.OpenFile(inumber, offset)];
      return i;
    }

    method RemoveFromOpenFileTable(h: int)
      requires Valid() && State.HandleIsOpen(View(), h)
      modifies freeOpenFileEntries
      ensures Valid()
      ensures View() == State.RemoveFromOpenFileTable(old(View()), h)
    {
      freeOpenFileEntries[h] := State.Free;
      assert freeOpenFileEntries[..] == old(freeOpenFileEntries[..])[h := State.Free];
    }

    /** Whether get_open_file_entry returns an entry. */
    method GetOpenFileEntry(h: int) returns (found: bool)
      requires Valid()
      ensures found <==> State.HandleIsOpen(View(), h)
    {
      return 0 <= h < params.maxOpenFiles && freeOpenFileEntries[h] == State.Taken;
    }

    // ---------- operations.c ----------

    /** Before the first tfs_init. */
    constructor ()
      ensures !initialised
    {
      initialised := false;
      params := State.Params(0, 0, 0, 0);
      inodeTable := new Inode[0];
      freeInodeTs := new Alloc[0];
      fsData := new Byte[0];
      freeBlocks := new Alloc[0];
      openFileTable := new OpenFile[0];
      freeOpenFileEntries := new Alloc[0];
    }

    /** The tables come from malloc with whatever they hold; only the three allocation tables are written. */
    method StateInit(p: Params) returns (ret: int)
      requires p.Valid()
      modifies this
      ensures old(initialised) ==> ret == -1 && initialised && View() == Operations.TfsReInit(old(View()), p).0
      ensures !old(initialised) ==>
                && ret == 0 && initialised && Valid()
                && fresh(inodeTable) && fresh(freeInodeTs) && fresh(fsData) && fresh(freeBlocks)
                && exists m :: Operations.Allocated(p, m) && View() == Operations.StateInit(p, m)
    {
      hide State.BlockStart;
      params := p;
      if initialised {
        return -1;
      }
      Malloc();
      FreeAll(freeInodeTs);
      FreeAll(freeBlocks);
      FreeAll(freeOpenFileEntries);
      ghost var m := Operations.Uninitialised(inodeTable[..], fsData[..], openFileTable[..]);
      assert Operations.Allocated(p, m) && View() == Operations.StateInit(p, m);
      return 0;
    }

    /** The six tables, uninitialised. */
    method Malloc()
      requires params.Valid()
      modifies this
      ensures initialised && params == old(params) && Valid()
      ensures fresh(inodeTable) && fresh(freeInodeTs) && fresh(fsData)
      ensures fresh(freeBlocks) && fresh(openFileTable) && fresh(freeOpenFileEntries)
    {
      hide State.BlockStart;
      State.BlockStartIs(params.maxBlocks, params.blockSize);
      var size := params.maxBlocks * params.blockSize;
      initialised := true;
      inodeTable := new Inode[params.maxInodes];
      freeInodeTs := new Alloc[params.maxInodes];
      fsData := new Byte[size];
      freeBlocks := new Alloc[params.maxBlocks];
      openFileTable := new OpenFile[params.maxOpenFiles];
      freeOpenFileEntries := new Alloc[params.maxOpenFiles];
    }

    /** NULL asks for the default parameters. */
    method TfsInit(paramsPtr: Option<Params>) returns (ret: int)
      requires paramsPtr.Some? ==> paramsPtr.value.Valid()
      modifies this
      ensures var p := if paramsPtr.Some? then paramsPtr.value else State.Params(64, 1024, 16, 1024);
              && (old(initialised) ==> ret == -1 && View() == Operations.TfsReInit(old(View()), p).0)
              && (!old(initialised) ==>
                    && Valid() && ret == (if p.maxInodes > 0 && p.maxBlocks > 0 then 0 else -1)
                    && (ret == 0 ==> Inv(View()) && Abs(View()) == AbsFs(p, map[], map[])))
    {
      hide State.InodeCreate;
      hide Inv;
      hide Abs;
      hide Operations.StateInit;
      var p: Params;
      if paramsPtr.Some? {
        p := paramsPtr.value;
      } else {
        p := State.Params(64, 1024, 16, 1024);
        DefaultsValid(p);
      }
      ret := StateInit(p);
      if ret != 0 {
        return -1;
      }
      ghost var m :| Operations.Allocated(p, m) && View() == Operations.StateInit(p, m);
      var root := InodeCreate(State.Directory);
      Theorems.InitRefines(p, m);
      return if root != State.ROOT_DIR_INUM then -1 else 0;
    }

    method TfsLookup(path: Path) returns (inum: int)
      requires Valid() && Inv(View())
      ensures inum == Operations.TfsLookup(View().disk, path)
    {
      RootHasBlock(View());
      hide Inv;
      hide State.FindInDir;
      if !ValidPathname(path) {
        return -1;
      }
      inum := FindInDir(State.ROOT_DIR_INUM, FileName(path));
    }

    /** TFS_O_TRUNC. */
    method Truncate(inum: int)
      requires Valid() && State.CanDelete(View().disk, inum)
      modifies inodeTable, freeBlocks
      ensures Valid()
      ensures View() == old(View()).(disk := Operations.Truncate(old(View().disk), inum))
    {
      if inodeTable[inum].size > 0 {
        DataBlockFree(inodeTable[inum].dataBlock);
        SetInode(inum, inodeTable[inum].(size := 0));
      }
    }

    /** TFS_O_CREAT, with the rollback when the directory does not take the entry. */
    method CreateFile(name: CString) returns (inum: int)
      requires Valid() && Inv(View())
      modifies inodeTable, freeInodeTs, fsData, freeBlocks
      ensures Valid()
      ensures (View().disk, inum) == Operations.CreateFile(old(View().disk), name)
      ensures View() == old(View()).(disk := View().disk)
    {
      RootHasBlock(View());
      CreatedApart(View().disk);
      hide State.InodeCreate;
      hide State.AddDirEntry;
      hide State.InodeDelete;
      inum := InodeCreate(State.File);
      if inum == -1 {
        return -1;
      }
      var added := AddDirEntry(State.ROOT_DIR_INUM, name, inum);
      if added == -1 {
        AddFails(State.InodeCreate(old(View().disk), State.File).0, old(inodeTable[State.ROOT_DIR_INUM]), name, inum);
        InodeDelete(inum);
        return -1;
      }
    }

    method TfsOpen(path: Path, mode: Mode) returns (ret: int)
      requires Valid() && Inv(View())
      modifies inodeTable, freeInodeTs, fsData, freeBlocks, openFileTable, freeOpenFileEntries
      ensures Valid() && Refines(old(View()), Open(path, mode), View(), Reply(ret, []))
    {
      hide State.AddToOpenFileTable;
      hide Dir;
      hide NameMap;
      hide DiskInv;
      hide HandlesOk;
      hide Abs;
      hide AbsStep;
      hide Disciplined;
      hide Refines;
      hide State.FindInDir;
      hide Operations.Truncate;
      hide Operations.CreateFile;
      StepMeans(View(), Open(path, mode));
      if !ValidPathname(path) {
        return -1;
      }
      var inum := TfsLookup(path);
      Operations.LookupFinds(View().disk, path);
      var offset := 0;
      if inum >= 0 {
        if mode.trunc {
          Truncate(inum);
        }
        if mode.append {
          offset := inodeTable[inum].size;
        }
      } else if mode.creat {
        inum := CreateFile(FileName(path));
        if inum == -1 {
          return -1;
        }
      } else {
        return -1;
      }
      ret := AddToOpenFileTable(inum, offset);
    }

    method TfsClose(h: int) returns (ret: int)
      requires Valid() && Inv(View())
      modifies freeOpenFileEntries
      ensures Valid() && Refines(old(View()), Close(h), View(), Reply(ret, []))
    {
      hide Inv;
      hide DiskInv;
      hide HandlesOk;
      hide Abs;
      hide AbsStep;
      hide Disciplined;
      hide Refines;
      StepMeans(View(), Close(h));
      var found := GetOpenFileEntry(h);
      if !found {
        return -1;
      }
      RemoveFromOpenFileTable(h);
      return 0;
    }

    method TfsWrite(h: int, buffer: array<Byte>, length: nat) returns (ret: int)
      requires Valid() && Inv(View()) && buffer != fsData
      requires length <= buffer.Length && length + params.blockSize < State.SIZE_T
      modifies inodeTable, fsData, freeBlocks, openFileTable
      ensures Valid() && Refines(old(View()), Write(h, buffer[..length]), View(), Reply(ret, []))
    {
      hide Inv;
      hide DiskInv;
      hide HandlesOk;
      hide Abs;
      hide AbsStep;
      hide Disciplined;
      hide Refines;
      hide Operations.WriteInode;
      hide Splice;
      hide State.BlockStart;
      hide State.DataBlockAlloc;
      AllocIs(View().disk);
      StepMeans(View(), Write(h, buffer[..length]));
      Operations.InvUsable(View(), h);
      var found := GetOpenFileEntry(h);
      if !found {
        return -1;
      }
      var k, offset := openFileTable[h].inumber, openFileTable[h].offset;
      Operations.ToWriteIs(length, offset, params.blockSize);
      var toWrite := length;
      if (toWrite + offset) % State.SIZE_T > params.blockSize {
        toWrite := params.blockSize - offset;
      }
      assert buffer[..length][..toWrite] == buffer[..toWrite];
      if toWrite > 0 {
        if inodeTable[k].size == 0 {
          var bnum := DataBlockAlloc();
          if bnum == -1 {
            return -1;
          }
          SetInode(k, inodeTable[k].(dataBlock := bnum));
        }
        var b := inodeTable[k].dataBlock;
        SetBlockFirst(old(View().disk).(blockAlloc := freeBlocks[..]), k, b, offset, buffer[..toWrite]);
        WriteAt(h, k, offset, buffer, toWrite);
      }
      return toWrite;
    }

    /** The copy into the block, the new offset, and the growth of the inode. */
    method WriteAt(h: int, k: int, offset: nat, buffer: array<Byte>, n: nat)
      requires Valid() && State.ValidHandle(View(), h) && openFileTable[h] == State.OpenFile(k, offset)
      requires 0 <= k < params.maxInodes && State.ValidBlock(View().disk, inodeTable[k].dataBlock)
      requires buffer != fsData && n <= buffer.Length && offset + n <= params.blockSize
      modifies inodeTable, fsData, openFileTable
      ensures Valid()
      ensures var s := old(View());
              View() == s.(
                disk := Operations.WriteInode(s.disk, k, s.disk.inodes[k].dataBlock, offset, old(buffer[..n])),
                openFiles := s.openFiles[h := State.OpenFile(k, offset + n)])
    {
      hide Splice;
      hide State.BlockStart;
      var at := DataBlockGet(inodeTable[k].dataBlock);
      MemCpy(fsData, at + offset, buffer[..n]);
      openFileTable[h] := State.OpenFile(k, offset + n);
      if openFileTable[h].offset > inodeTable[k].size {
        inodeTable[k] := inodeTable[k].(size := openFileTable[h].offset);
      }
      assert openFileTable[..] == old(openFileTable[..])[h := State.OpenFile(k, offset + n)];
      var size := if offset + n > old(inodeTable[k].size) then offset + n else old(inodeTable[k].size);
      assert inodeTable[..] == old(inodeTable[..])[k := old(inodeTable[k]).(size := size)];
    }

    method TfsRead(h: int, buffer: array<Byte>, len: nat) returns (ret: int)
      requires Valid() && Inv(View()) && buffer != fsData && len <= buffer.Length
      modifies openFileTable, buffer
      ensures Valid() && ret <= len
      ensures Refines(old(View()), Read(h, len), View(), Reply(ret, if ret > 0 then buffer[..ret] else []))
      ensures forall i :: 0 <= i < buffer.Length && i >= ret ==> buffer[i] == old(buffer[i])
    {
      hide Inv;
      hide DiskInv;
      hide HandlesOk;
      hide Abs;
      hide AbsStep;
      hide Disciplined;
      hide Refines;
      hide Splice;
      hide State.BlockStart;
      StepMeans(View(), Read(h, len));
      Operations.InvUsable(View(), h);
      var found := GetOpenFileEntry(h);
      if !found {
        return -1;
      }
      var k, offset := openFileTable[h].inumber, openFileTable[h].offset;
      var toRead := (inodeTable[k].size - offset) % State.SIZE_T;
      if toRead > len {
        toRead := len;
      }
      if toRead > 0 {
        ReadAt(h, k, offset, buffer, toRead);
      }
      return toRead;
    }

    /** The copy out of the block and the new offset. */
    method ReadAt(h: int, k: int, offset: nat, buffer: array<Byte>, n: nat)
      requires Valid() && State.HandleIsOpen(View(), h) && openFileTable[h] == State.OpenFile(k, offset)
      requires 0 <= k < params.maxInodes && State.ValidBlock(View().disk, inodeTable[k].dataBlock)
      requires buffer != fsData && n <= buffer.Length && offset + n <= params.blockSize
      modifies openFileTable, buffer
      ensures Valid() && View() == State.Advance(old(View()), h, n)
      ensures buffer[..n] == State.DataBlockGet(View().disk, inodeTable[k].dataBlock)[offset..offset + n]
      ensures forall i :: n <= i < buffer.Length ==> buffer[i] == old(buffer[i])
    {
      hide Splice;
      hide State.Block;
      hide State.BlockStart;
      var at := DataBlockGet(inodeTable[k].dataBlock);
      SliceOfSlice(fsData[..], at, params.blockSize, offset, offset + n);
      ghost var was := buffer[..];
      MemCpy(buffer, 0, fsData[at + offset..at + offset + n]);
      SpliceFront(was, fsData[at + offset..at + offset + n]);
      openFileTable[h] := State.OpenFile(k, offset + n);
      assert openFileTable[..] == old(openFileTable[..])[h := State.OpenFile(k, offset + n)];
    }

    method TfsUnlink(path: Path) returns (ret: int)
      requires Valid() && Inv(View())
      modifies freeInodeTs, freeBlocks, fsData
      ensures Valid() && Refines(old(View()), Unlink(path), View(), Reply(ret, []))
    {
      hide DiskInv;
      hide HandlesOk;
      hide Abs;
      hide AbsStep;
      hide Disciplined;
      hide Refines;
      hide State.ClearDirEntry;
      hide State.InodeDelete;
      hide State.FindInDir;
      StepMeans(View(), Unlink(path));
      RootHasBlock(View());
      if !ValidPathname(path) {
        return -1;
      }
      var inum := TfsLookup(path);
      Operations.LookupFinds(View().disk, path);
      if inum == -1 {
        return -1;
      }
      InodeDelete(inum);
      ret := ClearDirEntry(State.ROOT_DIR_INUM, FileName(path));
    }
  }
}
