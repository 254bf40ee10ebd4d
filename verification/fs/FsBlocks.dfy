/** Truncating, writing, creating and deleting, on the tables of the disk: ownership of blocks is kept and
    exactly one file changes. */
module FsBlocks {
  import opened Memory
  import opened FsState
  import opened FsInvariant
  import opened FsOperations
  import opened FsCounting

  // ---------- ownership ----------

  /** A block is freed together with its owner's bytes. */
  lemma FreeBlock(inodes: seq<Inode>, inodeAlloc: seq<Alloc>, blockAlloc: seq<Alloc>, size: nat, k: int)
    requires |inodes| == |inodeAlloc| && BlocksOk(inodes, inodeAlloc, blockAlloc, size) && Owns(inodes, inodeAlloc, k)
    ensures BlocksOk(inodes[k := inodes[k].(size := 0)], inodeAlloc, blockAlloc[inodes[k].dataBlock := Free], size)
  {
    var inodes', blockAlloc' := inodes[k := inodes[k].(size := 0)], blockAlloc[inodes[k].dataBlock := Free];
    forall j
      ensures Owns(inodes', inodeAlloc, j) <==> j != k && Owns(inodes, inodeAlloc, j)
    {
    }
    forall b | 0 <= b < |blockAlloc'| && blockAlloc'[b] == Taken
      ensures exists j :: Owns(inodes', inodeAlloc, j) && inodes'[j].dataBlock == b
    {
      var j :| Owns(inodes, inodeAlloc, j) && inodes[j].dataBlock == b;
      assert Owns(inodes', inodeAlloc, j) && inodes'[j].dataBlock == b;
    }
  }

  /** A file that gets bytes has the block it had, or one that was free. */
  lemma FillInode(inodes: seq<Inode>, inodeAlloc: seq<Alloc>, blockAlloc: seq<Alloc>, blockSize: nat,
                  k: int, size: nat, b: nat)
    requires |inodes| == |inodeAlloc| && BlocksOk(inodes, inodeAlloc, blockAlloc, blockSize)
    requires 0 <= k < |inodes| && inodeAlloc[k] == Taken && 0 < size <= blockSize && b < |blockAlloc|
    requires if inodes[k].size == 0 then blockAlloc[b] == Free else inodes[k].dataBlock == b
    ensures BlocksOk(inodes[k := inodes[k].(size := size, dataBlock := b)], inodeAlloc,
                     blockAlloc[b := Taken], blockSize)
  {
    var inodes', blockAlloc' := inodes[k := inodes[k].(size := size, dataBlock := b)], blockAlloc[b := Taken];
    forall j
      ensures Owns(inodes', inodeAlloc, j) <==> j == k || Owns(inodes, inodeAlloc, j)
    {
    }
    forall c | 0 <= c < |blockAlloc'| && blockAlloc'[c] == Taken
      ensures exists j :: Owns(inodes', inodeAlloc, j) && inodes'[j].dataBlock == c
    {
      if c == b {
        assert Owns(inodes', inodeAlloc, k);
      } else {
        var j :| Owns(inodes, inodeAlloc, j) && inodes[j].dataBlock == c;
        assert Owns(inodes', inodeAlloc, j) && inodes'[j].dataBlock == c;
      }
    }
  }

  lemma SameOwners(inodes: seq<Inode>, inodeAlloc: seq<Alloc>, inodes': seq<Inode>, inodeAlloc': seq<Alloc>,
                   blockAlloc: seq<Alloc>, blockSize: nat)
    requires |inodes| == |inodeAlloc| == |inodes'| == |inodeAlloc'|
    requires BlocksOk(inodes, inodeAlloc, blockAlloc, blockSize)
    requires forall j :: Owns(inodes', inodeAlloc', j) <==> Owns(inodes, inodeAlloc, j)
    requires forall j :: Owns(inodes, inodeAlloc, j) ==> inodes'[j].dataBlock == inodes[j].dataBlock
    requires forall j :: 0 <= j < |inodes'| && inodeAlloc'[j] == Taken ==> inodes'[j].size <= blockSize
    ensures BlocksOk(inodes', inodeAlloc', blockAlloc, blockSize)
  {
    forall c | 0 <= c < |blockAlloc| && blockAlloc[c] == Taken
      ensures exists j :: Owns(inodes', inodeAlloc', j) && inodes'[j].dataBlock == c
    {
      var j :| Owns(inodes, inodeAlloc, j) && inodes[j].dataBlock == c;
      assert Owns(inodes', inodeAlloc', j);
    }
  }

  /** An inode without bytes may enter or leave the table. */
  lemma EmptyInode(inodes: seq<Inode>, inodeAlloc: seq<Alloc>, blockAlloc: seq<Alloc>, blockSize: nat,
                   k: int, inode: Inode, a: Alloc)
    requires |inodes| == |inodeAlloc| && BlocksOk(inodes, inodeAlloc, blockAlloc, blockSize)
    requires 0 <= k < |inodes| && !Owns(inodes, inodeAlloc, k) && inode.size == 0
    ensures BlocksOk(inodes[k := inode], inodeAlloc[k := a], blockAlloc, blockSize)
  {
    SameOwners(inodes, inodeAlloc, inodes[k := inode], inodeAlloc[k := a], blockAlloc, blockSize);
  }

  /** A deleted inode gives its block back; its own fields stay as they were. */
  lemma DropInode(inodes: seq<Inode>, inodeAlloc: seq<Alloc>, blockAlloc: seq<Alloc>, blockSize: nat, k: int)
    requires |inodes| == |inodeAlloc| && BlocksOk(inodes, inodeAlloc, blockAlloc, blockSize)
    requires Owns(inodes, inodeAlloc, k)
    ensures BlocksOk(inodes, inodeAlloc[k := Free], blockAlloc[inodes[k].dataBlock := Free], blockSize)
  {
    var inodeAlloc', blockAlloc' := inodeAlloc[k := Free], blockAlloc[inodes[k].dataBlock := Free];
    forall j
      ensures Owns(inodes, inodeAlloc', j) <==> j != k && Owns(inodes, inodeAlloc, j)
    {
    }
    hide Owns;
    forall b | 0 <= b < |blockAlloc'| && blockAlloc'[b] == Taken
      ensures exists j :: Owns(inodes, inodeAlloc', j) && inodes[j].dataBlock == b
    {
      var j :| Owns(inodes, inodeAlloc, j) && inodes[j].dataBlock == b;
      assert Owns(inodes, inodeAlloc', j);
    }
  }

  /** The root's block is no file's. */
  lemma RootApart(s: Disk, names: Names, owners: Owners, n: CString)
    requires Core(s, names, owners) && n in names
    ensures Owns(s.inodes, s.inodeAlloc, ROOT_DIR_INUM) && names[n] != ROOT_DIR_INUM
    ensures s.blockAlloc[RootBlock(s)] == Taken
    ensures Owns(s.inodes, s.inodeAlloc, names[n]) ==> s.inodes[names[n]].dataBlock != RootBlock(s)
  {
    assert Owns(s.inodes, s.inodeAlloc, ROOT_DIR_INUM);
  }

  // ---------- truncation ----------

  lemma TruncateKeepsCore(s: Disk, names: Names, owners: Owners, n: CString)
    requires Core(s, names, owners) && n in names && CanDelete(s, names[n])
    ensures Core(Truncate(s, names[n]), names, owners)
    ensures RootBlock(Truncate(s, names[n])) == RootBlock(s)
  {
    var k := names[n];
    RootApart(s, names, owners, n);
    if s.inodes[k].size > 0 {
      assert Owns(s.inodes, s.inodeAlloc, k);
      FreeBlock(s.inodes, s.inodeAlloc, s.blockAlloc, s.params.blockSize, k);
    }
    hide BlocksOk;
  }

  /** The disk after TFS_O_TRUNC differs from the disk before in one inode and in the blocks in use. */
  lemma TruncateIs(s: Disk, k: int)
    requires DiskShape(s) && CanDelete(s, k)
    ensures var s' := Truncate(s, k);
            && s' == s.(inodes := s.inodes[k := s'.inodes[k]], blockAlloc := s'.blockAlloc)
            && s'.inodes[k] == s.inodes[k].(size := 0)
  {
    assert s.inodes[k := s.inodes[k]] == s.inodes;
  }

  /** A file changes only with its inode and its block. */
  lemma OtherFile(s: Disk, s': Disk, k: int)
    requires DiskShape(s) && DiskShape(s') && s'.params == s.params && 0 <= k < |s.inodes| == |s'.inodes|
    requires s'.inodes[k] == s.inodes[k]
    requires s.inodes[k].size > 0 ==> Block(s', s.inodes[k].dataBlock) == Block(s, s.inodes[k].dataBlock)
    ensures FileBytes(s', k) == FileBytes(s, k)
  {
    hide Block;
  }

  lemma SameBlock(s: Disk, s': Disk, b: int)
    requires DiskShape(s) && DiskShape(s') && s'.params == s.params && s'.data == s.data
    ensures Block(s', b) == Block(s, b)
  {
  }

  /** TFS_O_TRUNC empties the file and changes no other. */
  lemma TruncateFiles(s: Disk, names: Names, owners: Owners, n: CString)
    requires Core(s, names, owners) && n in names && CanDelete(s, names[n])
    ensures FilesOf(Truncate(s, names[n]), names) == FilesOf(s, names)[n := []]
    ensures Block(Truncate(s, names[n]), RootBlock(s)) == Block(s, RootBlock(s))
  {
    hide BlocksOk;
    hide Block;
    hide Truncate;
    var s' := Truncate(s, names[n]);
    TruncateIs(s, names[n]);
    SameBlock(s, s', RootBlock(s));
    forall m | m in names
      ensures FileBytes(s', names[m]) == if m == n then [] else FileBytes(s, names[m])
    {
      if m != n {
        assert names[m] != names[n];
        SameBlock(s, s', s.inodes[names[m]].dataBlock);
        OtherFile(s, s', names[m]);
      }
    }
    hide FileBytes;
  }

  // ---------- writing ----------

  /** The block tfs_write uses for inode k: a free one for an empty file, its own otherwise. */
  ghost predicate BlockFor(s: Disk, k: int, b: int)
    requires DiskShape(s) && 0 <= k < |s.inodes|
  {
    ValidBlock(s, b) && if s.inodes[k].size == 0 then s.blockAlloc[b] == Free else s.inodes[k].dataBlock == b
  }

  /** The disk with that block taken. */
  function TakeBlock(s: Disk, b: int): (s': Disk)
    requires DiskShape(s) && ValidBlock(s, b)
    ensures DiskShape(s') && s'.inodes == s.inodes && s'.data == s.data && s'.params == s.params
    ensures s'.inodeAlloc == s.inodeAlloc
  {
    s.(blockAlloc := s.blockAlloc[b := Taken])
  }

  /** No other inode in use owns the block. */
  lemma BlockForApart(s: Disk, names: Names, owners: Owners, n: CString, b: int)
    requires Core(s, names, owners) && n in names && BlockFor(s, names[n], b)
    ensures b != RootBlock(s)
    ensures forall j :: Owns(s.inodes, s.inodeAlloc, j) && j != names[n] ==> s.inodes[j].dataBlock != b
  {
    RootApart(s, names, owners, n);
    assert s.inodes[names[n]].size > 0 ==> Owns(s.inodes, s.inodeAlloc, names[n]);
  }

  lemma WriteKeepsCore(s: Disk, names: Names, owners: Owners, n: CString, b: int, offset: nat, bytes: seq<Byte>)
    requires Core(s, names, owners) && n in names && BlockFor(s, names[n], b)
    requires offset <= s.inodes[names[n]].size && 0 < |bytes| && offset + |bytes| <= s.params.blockSize
    ensures Core(WriteInode(TakeBlock(s, b), names[n], b, offset, bytes), names, owners)
    ensures RootBlock(WriteInode(TakeBlock(s, b), names[n], b, offset, bytes)) == RootBlock(s)
  {
    hide Splice;
    var k := names[n];
    var size := if offset + |bytes| > s.inodes[k].size then offset + |bytes| else s.inodes[k].size;
    FillInode(s.inodes, s.inodeAlloc, s.blockAlloc, s.params.blockSize, k, size, b);
    hide BlocksOk;
  }

  /** A block of the disk after the write. */
  lemma WriteBlocks(s: Disk, k: int, b: int, offset: nat, bytes: seq<Byte>, c: int)
    requires DiskShape(s) && ValidBlock(s, b) && ValidBlock(s, c) && 0 <= k < |s.inodes|
    requires offset + |bytes| <= s.params.blockSize
    ensures Block(WriteInode(TakeBlock(s, b), k, b, offset, bytes), c)
         == if c == b then Splice(Block(s, b), offset, bytes) else Block(s, c)
  {
    hide Splice;
    WriteIsLocal(s, b, offset, bytes, c);
    SameBlock(BlockWrite(s, b, offset, bytes), WriteInode(TakeBlock(s, b), k, b, offset, bytes), c);
  }

  lemma SpliceOverwrite(block: seq<Byte>, size: nat, offset: nat, bytes: seq<Byte>, size': nat)
    requires size <= |block| && offset <= size && offset + |bytes| <= |block|
    requires size' == if offset + |bytes| > size then offset + |bytes| else size
    ensures Splice(block, offset, bytes)[..size'] == Overwrite(block[..size], offset, bytes)
  {
  }

  /** The file that is written. */
  lemma WrittenFile(s: Disk, k: int, b: int, offset: nat, bytes: seq<Byte>)
    requires DiskShape(s) && ValidBlock(s, b) && 0 <= k < |s.inodes|
    requires BlockFor(s, k, b) && s.inodes[k].size <= s.params.blockSize
    requires offset <= s.inodes[k].size && 0 < |bytes| && offset + |bytes| <= s.params.blockSize
    ensures offset <= |FileBytes(s, k)|
    ensures FileBytes(WriteInode(TakeBlock(s, b), k, b, offset, bytes), k) == Overwrite(FileBytes(s, k), offset, bytes)
  {
    var s' := WriteInode(TakeBlock(s, b), k, b, offset, bytes);
    WriteBlocks(s, k, b, offset, bytes, b);
    SpliceOverwrite(Block(s, b), s.inodes[k].size, offset, bytes, s'.inodes[k].size);
    hide Splice;
    hide Overwrite;
    hide Block;
    hide DiskShape;
    assert s.inodes[k].size == 0 ==> Block(s, b)[..0] == FileBytes(s, k);
  }

  /** A write changes the file that is written, and neither another file nor the directory. */
  lemma WriteFiles(s: Disk, names: Names, owners: Owners, n: CString, b: int, offset: nat, bytes: seq<Byte>)
    requires Core(s, names, owners) && n in names && BlockFor(s, names[n], b)
    requires offset <= s.inodes[names[n]].size && 0 < |bytes| && offset + |bytes| <= s.params.blockSize
    ensures offset <= |FilesOf(s, names)[n]|
    ensures FilesOf(WriteInode(TakeBlock(s, b), names[n], b, offset, bytes), names)
         == FilesOf(s, names)[n := Overwrite(FilesOf(s, names)[n], offset, bytes)]
    ensures Block(WriteInode(TakeBlock(s, b), names[n], b, offset, bytes), RootBlock(s)) == Block(s, RootBlock(s))
  {
    hide BlocksOk;
    hide Linked;
    hide Splice;
    hide Overwrite;
    hide Block;
    hide WriteInode;
    hide FileBytes;
    var k := names[n];
    FoundFile(s, names, owners, n);
    FileBytesSize(s, k);
    BlockForApart(s, names, owners, n, b);
    WrittenFile(s, k, b, offset, bytes);
    WriteBlocks(s, k, b, offset, bytes, RootBlock(s));
    OtherFiles(s, names, owners, n, b, offset, bytes);
  }

  lemma OtherFiles(s: Disk, names: Names, owners: Owners, n: CString, b: int, offset: nat, bytes: seq<Byte>)
    requires Core(s, names, owners) && n in names && BlockFor(s, names[n], b)
    requires offset + |bytes| <= s.params.blockSize
    ensures forall m :: m in names && m != n ==>
              FileBytes(WriteInode(TakeBlock(s, b), names[n], b, offset, bytes), names[m]) == FileBytes(s, names[m])
  {
    hide Splice;
    hide Block;
    hide FileBytes;
    var s' := WriteInode(TakeBlock(s, b), names[n], b, offset, bytes);
    forall m | m in names && m != n
      ensures FileBytes(s', names[m]) == FileBytes(s, names[m])
    {
      var k := names[m];
      BlockForApart(s, names, owners, n, b);
      FileBytesSize(s, k);
      if s.inodes[k].size > 0 {
        WriteBlocks(s, names[n], b, offset, bytes, s.inodes[k].dataBlock);
      }
      OtherFile(s, s', k);
    }
  }
}
