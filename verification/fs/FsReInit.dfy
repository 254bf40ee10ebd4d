/** A second tfs_init: it fails, but state_init has stored its parameters, and from then on the tables
    are read with limits they were not allocated for. */
module FsReInit {
  import opened Collections
  import opened Memory
  import opened FsState
  import opened AbstractFs
  import opened FsInvariant
  import opened FsOperations
  import opened FsCounting
  import opened FsDirectory
  import opened FsRefinement
  import opened FsTheorems
  import opened FsRuns
  import opened FsRoundTrip

  /** The tables of s with other limits in force, as state_init leaves them. */
  function ReInitialised(s: Fs, p: Params): Fs {
    TfsReInit(s, p).0
  }

  /** Every entry below a limit in force lies inside the table allocated for it. */
  predicate Allocations(s: Fs) {
    var p := s.disk.params;
    && p.Valid()
    && p.maxInodes <= |s.disk.inodes| == |s.disk.inodeAlloc|
    && p.maxBlocks <= |s.disk.blockAlloc| && BlockStart(p.maxBlocks, p.blockSize) <= |s.disk.data|
    && p.maxOpenFiles <= |s.openFiles| == |s.openAlloc|
  }

  /** The root's i_size, which no call looks at, taken to be the block size. */
  function Rooted(inodes: seq<Inode>, blockSize: nat): (r: seq<Inode>)
    ensures |r| == |inodes| && forall k :: 0 < k < |inodes| ==> r[k] == inodes[k]
  {
    if inodes == [] then [] else inodes[ROOT_DIR_INUM := inodes[ROOT_DIR_INUM].(size := blockSize)]
  }

  /** What the calls see of the tables: the entries below the limits in force. */
  function Seen(s: Fs): (t: Fs)
    requires Allocations(s)
    ensures Shape(t) && t.disk.params == s.disk.params
  {
    var p := s.disk.params;
    Fs(Disk(p, Rooted(s.disk.inodes[..p.maxInodes], p.blockSize), s.disk.inodeAlloc[..p.maxInodes],
            s.disk.data[..BlockStart(p.maxBlocks, p.blockSize)], s.disk.blockAlloc[..p.maxBlocks]),
       s.openFiles[..p.maxOpenFiles], s.openAlloc[..p.maxOpenFiles])
  }

  /** With these parameters stored, the entries the calls may look at exist, and they hold a consistent file system
      with the same files and handles. */
  ghost predicate Survives(s: Fs, p: Params)
    requires Inv(s)
  {
    var s' := ReInitialised(s, p);
    Allocations(s') && Inv(Seen(s')) && Abs(Seen(s')) == Abs(s).(params := p)
  }

  // ---------- the condition ----------

  /** Nothing from this entry on is in use. */
  predicate FreeFrom(a: seq<Alloc>, from: nat) {
    forall k :: from <= k < |a| ==> a[k] == Free
  }

  /** The directory in the root's block, which is block 0, when a block has this size. */
  function DirOfSize(s: Disk, size: nat): seq<DirEntry>
    requires size <= |s.data|
  {
    Entries(s.data[..size])
  }

  /** The longer of two directories has nothing live behind the shorter. */
  ghost predicate NoneBehind(d: seq<DirEntry>, e: seq<DirEntry>) {
    && (forall i :: |e| <= i < |d| ==> !Live(d[i]))
    && (forall i :: |d| <= i < |e| ==> !Live(e[i]))
  }

  /** Every non-empty file fits a block of this size, and the bytes where its block then starts are its bytes. */
  ghost predicate ContentsStay(s: Disk, size: nat)
    requires |s.inodes| == |s.inodeAlloc|
  {
    forall k :: Owns(s.inodes, s.inodeAlloc, k) && k != ROOT_DIR_INUM ==> StaysPut(s, k, size)
  }

  ghost predicate StaysPut(s: Disk, k: int, size: nat) {
    && 0 <= k < |s.inodes| && s.inodes[k].size <= size && s.inodes[k].dataBlock >= 0
    && var at := BlockStart(s.inodes[k].dataBlock, size);
       at + s.inodes[k].size <= |s.data| && s.data[at..at + s.inodes[k].size] == FileBytes(s, k)
  }

  /** What decides it, all of it in the tables before the call. */
  ghost predicate Tolerates(s: Fs, p: Params)
    requires Inv(s)
  {
    && Allocations(ReInitialised(s, p)) && p.maxInodes > 0 && p.maxBlocks > 0
    && FreeFrom(s.disk.inodeAlloc, p.maxInodes)
    && FreeFrom(s.disk.blockAlloc, p.maxBlocks)
    && FreeFrom(s.openAlloc, p.maxOpenFiles)
    && p.blockSize <= |s.disk.data| && NoneBehind(Dir(s.disk), DirOfSize(s.disk, p.blockSize))
    && ContentsStay(s.disk, p.blockSize)
  }

  // ---------- the directory ----------

  lemma DirIs(s: Disk)
    requires DiskShape(s) && RootBlock(s) == 0 && s.params.maxBlocks > 0
    ensures s.params.blockSize <= |s.data| && Dir(s) == DirOfSize(s, s.params.blockSize)
  {
    BlockBounds(0, s.params.maxBlocks, s.params.blockSize);
  }

  /** Two sizes of one block hold the same entries as far as both go. */
  lemma SameEntries(data: seq<Byte>, one: nat, two: nat, i: nat)
    requires one <= |data| && two <= |data| && i < one / ENTRY_SIZE && i < two / ENTRY_SIZE
    ensures Entries(data[..one])[i] == Entries(data[..two])[i]
  {
    EntryFromBytes(data[..one], i, data[ENTRY_SIZE * i..ENTRY_SIZE * i + ENTRY_SIZE]);
    EntryFromBytes(data[..two], i, data[ENTRY_SIZE * i..ENTRY_SIZE * i + ENTRY_SIZE]);
  }

  /** The directory at another size, with nothing live lost or gained, is read as the same maps. */
  lemma SameMaps(d: seq<DirEntry>, e: seq<DirEntry>)
    requires DirOk(d) && NoneBehind(d, e)
    requires forall i :: 0 <= i < |d| && i < |e| ==> d[i] == e[i]
    ensures DirOk(e) && NameMap(e) == NameMap(d) && InodeMap(e) == InodeMap(d)
  {
    StillOk(d, e);
    hide DirOk;
    hide NameMap;
    hide InodeMap;
    hide Name;
    forall i | 0 <= i < |e| && Live(e[i])
      ensures Name(e[i]) in NameMap(d) && NameMap(d)[Name(e[i])] == e[i].inumber
      ensures e[i].inumber in InodeMap(d) && InodeMap(d)[e[i].inumber] == Name(e[i])
    {
      assert i < |d| && e[i] == d[i];
      MapsOfSlot(d, i);
    }
    AllThere(d, e);
    hide NoneBehind;
    MapsAre(e, NameMap(d), InodeMap(d));
  }

  lemma StillOk(d: seq<DirEntry>, e: seq<DirEntry>)
    requires DirOk(d) && NoneBehind(d, e)
    requires forall i :: 0 <= i < |d| && i < |e| ==> d[i] == e[i]
    ensures DirOk(e) && SlotsDistinct(d) && SlotsDistinct(e)
  {
    hide SlotsDistinct;
    hide Name;
    PairwiseSlots(d);
    PairwiseSlots(e);
    assert Pairwise(e);
  }

  lemma AllThere(d: seq<DirEntry>, e: seq<DirEntry>)
    requires NoneBehind(d, e) && forall i :: 0 <= i < |d| && i < |e| ==> d[i] == e[i]
    ensures forall n :: n in NameMap(d) ==> exists i :: 0 <= i < |e| && Live(e[i]) && Name(e[i]) == n
    ensures forall k :: k in InodeMap(d) ==> exists i :: 0 <= i < |e| && Live(e[i]) && e[i].inumber == k
  {
    hide NameMap;
    hide InodeMap;
    hide Name;
    forall n | n in NameMap(d)
      ensures exists i :: 0 <= i < |e| && Live(e[i]) && Name(e[i]) == n
    {
      var i := SlotOfName(d, n);
      assert Live(e[i]) && Name(e[i]) == n;
    }
    forall k | k in InodeMap(d)
      ensures exists i :: 0 <= i < |e| && Live(e[i]) && e[i].inumber == k
    {
      var i := SlotOfInode(d, k);
      assert Live(e[i]) && e[i].inumber == k;
    }
  }

  /** As many live entries at both sizes: none is behind. */
  lemma SameCount(d: seq<DirEntry>, e: seq<DirEntry>)
    requires |LiveSlots(d)| == |LiveSlots(e)|
    requires forall i :: 0 <= i < |d| && i < |e| ==> d[i] == e[i]
    ensures NoneBehind(d, e)
  {
    if |d| <= |e| {
      SameSetIfAsLarge(LiveSlots(d), LiveSlots(e));
    } else {
      SameSetIfAsLarge(LiveSlots(e), LiveSlots(d));
    }
    assert LiveSlots(d) == LiveSlots(e);
    forall i | |e| <= i < |d|
      ensures !Live(d[i])
    {
      assert i !in LiveSlots(e);
    }
    forall i | |d| <= i < |e|
      ensures !Live(e[i])
    {
      assert i !in LiveSlots(d);
    }
  }

  lemma SameSetIfAsLarge<T>(a: set<T>, b: set<T>)
    requires a <= b && |a| == |b|
    ensures a == b
  {
    SubsetSize(a, b);
    assert |b - a| == 0;
    assert b - a == {};
  }

  /** A cut that loses none of what is TAKEN. */
  lemma CutTaken(a: seq<Alloc>, n: nat)
    requires n <= |a|
    ensures TakenSet(a[..n]) <= TakenSet(a)
    ensures FreeFrom(a, n) <==> |TakenSet(a[..n])| == |TakenSet(a)|
    ensures FreeFrom(a, n) ==> TakenSet(a[..n]) == TakenSet(a)
  {
    if |TakenSet(a[..n])| == |TakenSet(a)| {
      SameSetIfAsLarge(TakenSet(a[..n]), TakenSet(a));
      forall k | n <= k < |a|
        ensures a[k] == Free
      {
        assert k !in TakenSet(a[..n]);
      }
    }
    if FreeFrom(a, n) {
      assert TakenSet(a[..n]) == TakenSet(a);
    }
  }

  // ---------- what is seen of the tables ----------

  /** The state the calls see after the second tfs_init. */
  function After(s: Fs, p: Params): (t: Fs)
    requires Allocations(ReInitialised(s, p))
    ensures Shape(t) && t.disk.params == p
  {
    Seen(ReInitialised(s, p))
  }

  lemma AfterDir(s: Fs, p: Params)
    requires Inv(s) && RootBlock(s.disk) == 0 && Allocations(ReInitialised(s, p)) && p.maxInodes > 0 && p.maxBlocks > 0
    ensures RootBlock(After(s, p).disk) == 0 && p.blockSize <= |s.disk.data|
    ensures Dir(After(s, p).disk) == DirOfSize(s.disk, p.blockSize)
    ensures forall i :: 0 <= i < |Dir(s.disk)| && i < |DirOfSize(s.disk, p.blockSize)| ==>
              Dir(s.disk)[i] == DirOfSize(s.disk, p.blockSize)[i]
  {
    hide BlocksOk;
    hide Linked;
    hide DirOk;
    hide NameMap;
    hide InodeMap;
    hide BlockStart;
    hide EntryAt;
    hide Dir;
    hide HandlesOk;
    var t := After(s, p);
    BlockBounds(0, p.maxBlocks, p.blockSize);
    DirIs(t.disk);
    DirIs(s.disk);
    assert t.disk.data[..p.blockSize] == s.disk.data[..p.blockSize];
    forall i | 0 <= i < |Dir(s.disk)| && i < |DirOfSize(s.disk, p.blockSize)|
      ensures Dir(s.disk)[i] == DirOfSize(s.disk, p.blockSize)[i]
    {
      SameEntries(s.disk.data, s.disk.params.blockSize, p.blockSize, i);
    }
  }

  /** The owners below the limits own what they owned. */
  lemma AfterBlocks(s: Fs, p: Params)
    requires Inv(s) && Allocations(ReInitialised(s, p)) && p.maxInodes > 0
    requires FreeFrom(s.disk.inodeAlloc, p.maxInodes) && FreeFrom(s.disk.blockAlloc, p.maxBlocks)
    requires ContentsStay(s.disk, p.blockSize)
    ensures var t := After(s, p).disk; BlocksOk(t.inodes, t.inodeAlloc, t.blockAlloc, p.blockSize)
  {
    hide Linked;
    hide DirOk;
    hide Dir;
    hide NameMap;
    hide InodeMap;
    hide HandlesOk;
    hide FileBytes;
    hide BlockStart;
    var t := After(s, p).disk;
    forall k
      ensures Owns(t.inodes, t.inodeAlloc, k) <==> Owns(s.disk.inodes, s.disk.inodeAlloc, k)
      ensures Owns(t.inodes, t.inodeAlloc, k) ==> t.inodes[k].dataBlock == s.disk.inodes[k].dataBlock
    {
    }
    OwnersBelow(s.disk, t, p.blockSize);
  }

  lemma OwnersBelow(s: Disk, t: Disk, size: nat)
    requires |s.inodes| == |s.inodeAlloc| && |t.inodes| == |t.inodeAlloc| <= |s.inodes|
    requires |t.blockAlloc| <= |s.blockAlloc|
    requires BlocksOk(s.inodes, s.inodeAlloc, s.blockAlloc, s.params.blockSize)
    requires forall k :: Owns(t.inodes, t.inodeAlloc, k) <==> Owns(s.inodes, s.inodeAlloc, k)
    requires forall k :: Owns(t.inodes, t.inodeAlloc, k) ==> t.inodes[k].dataBlock == s.inodes[k].dataBlock
    requires t.blockAlloc == s.blockAlloc[..|t.blockAlloc|] && FreeFrom(s.blockAlloc, |t.blockAlloc|)
    requires forall k :: Owns(t.inodes, t.inodeAlloc, k) ==> t.inodes[k].size <= size
    ensures BlocksOk(t.inodes, t.inodeAlloc, t.blockAlloc, size)
  {
    forall k | 0 <= k < |t.inodes| && t.inodeAlloc[k] == Taken
      ensures t.inodes[k].size <= size
    {
      assert t.inodes[k].size > 0 ==> Owns(t.inodes, t.inodeAlloc, k);
    }
    forall k | Owns(t.inodes, t.inodeAlloc, k)
      ensures 0 <= t.inodes[k].dataBlock < |t.blockAlloc| && t.blockAlloc[t.inodes[k].dataBlock] == Taken
    {
      assert Owns(s.inodes, s.inodeAlloc, k);
    }
    forall b | 0 <= b < |t.blockAlloc| && t.blockAlloc[b] == Taken
      ensures exists k :: Owns(t.inodes, t.inodeAlloc, k) && t.inodes[k].dataBlock == b
    {
      assert s.blockAlloc[b] == Taken;
      var k :| Owns(s.inodes, s.inodeAlloc, k) && s.inodes[k].dataBlock == b;
      assert Owns(t.inodes, t.inodeAlloc, k) && t.inodes[k].dataBlock == b;
    }
  }

  lemma AfterLinked(s: Disk, t: Disk, names: Names, owners: Owners)
    requires |s.inodes| == |s.inodeAlloc| && |t.inodes| == |t.inodeAlloc| <= |s.inodes|
    requires t.inodeAlloc == s.inodeAlloc[..|t.inodeAlloc|] && FreeFrom(s.inodeAlloc, |t.inodeAlloc|)
    requires forall k :: 0 < k < |t.inodes| ==> t.inodes[k] == s.inodes[k]
    requires Linked(names, owners, s.inodes, s.inodeAlloc)
    ensures Linked(names, owners, t.inodes, t.inodeAlloc)
  {
    forall k
      ensures 0 < k < |t.inodeAlloc| && t.inodeAlloc[k] == Taken <==> 0 < k < |s.inodeAlloc| && s.inodeAlloc[k] == Taken
    {
    }
  }

  lemma AfterCore(s: Fs, p: Params, names: Names, owners: Owners)
    requires Inv(s) && Tolerates(s, p) && RootBlock(s.disk) == 0 && Core(s.disk, names, owners)
    ensures Core(After(s, p).disk, names, owners)
  {
    hide BlocksOk;
    hide Linked;
    hide DirOk;
    hide Dir;
    hide NameMap;
    hide InodeMap;
    hide HandlesOk;
    hide ContentsStay;
    hide BlockStart;
    hide NoneBehind;
    hide DirOfSize;
    AfterBlocks(s, p);
    AfterLinked(s.disk, After(s, p).disk, names, owners);
  }

  lemma AfterHandles(s: Fs, p: Params, owners: Owners)
    requires Inv(s) && Allocations(ReInitialised(s, p)) && p.maxInodes > 0
    requires FreeFrom(s.disk.inodeAlloc, p.maxInodes) && FreeFrom(s.openAlloc, p.maxOpenFiles)
    ensures HandlesOk(After(s, p))
    ensures HandlesOf(owners, After(s, p).openFiles, After(s, p).openAlloc)
         == HandlesOf(owners, s.openFiles, s.openAlloc)
  {
    hide BlocksOk;
    hide Linked;
    hide DirOk;
    hide Dir;
    hide NameMap;
    hide InodeMap;
    hide BlockStart;
    hide HandleMeaning;
    CutTaken(s.openAlloc, p.maxOpenFiles);
  }

  /** A file that stays put is the same file. */
  lemma AfterFile(s: Fs, p: Params, k: int)
    requires Inv(s) && Allocations(ReInitialised(s, p)) && 0 < k < p.maxInodes
    requires 0 < s.disk.inodes[k].size <= s.disk.params.blockSize && ValidBlock(s.disk, s.disk.inodes[k].dataBlock)
    requires s.disk.inodes[k].dataBlock < p.maxBlocks
    ensures |FileBytes(s.disk, k)| == s.disk.inodes[k].size
    ensures StaysPut(s.disk, k, p.blockSize) ==> FileBytes(After(s, p).disk, k) == FileBytes(s.disk, k)
    ensures s.disk.inodes[k].size <= p.blockSize && FileBytes(After(s, p).disk, k) == FileBytes(s.disk, k) ==>
              StaysPut(s.disk, k, p.blockSize)
  {
    hide BlocksOk;
    hide Linked;
    hide DirOk;
    hide Dir;
    hide NameMap;
    hide InodeMap;
    hide HandlesOk;
    hide BlockStart;
    var b, size := s.disk.inodes[k].dataBlock, s.disk.inodes[k].size;
    BlockBounds(b, p.maxBlocks, p.blockSize);
    if size <= p.blockSize {
      var at, end := BlockStart(b, p.blockSize), BlockStart(p.maxBlocks, p.blockSize);
      PieceOfPiece(s.disk.data, end, at, p.blockSize, size);
    }
  }

  lemma PieceOfPiece(data: seq<Byte>, end: nat, at: nat, size: nat, n: nat)
    requires at + size <= end <= |data| && n <= size
    ensures data[..end][at..at + size][..n] == data[at..at + n]
  {
    var one, two := data[..end][at..at + size][..n], data[at..at + n];
    assert |one| == |two| && forall k :: 0 <= k < n ==> one[k] == two[k];
  }

  lemma AfterName(s: Fs, p: Params, names: Names, owners: Owners, n: CString)
    requires Inv(s) && Tolerates(s, p) && RootBlock(s.disk) == 0 && Core(s.disk, names, owners) && n in names
    ensures FileBytes(After(s, p).disk, names[n]) == FileBytes(s.disk, names[n])
  {
    hide DirOk;
    hide Dir;
    hide NameMap;
    hide InodeMap;
    hide HandlesOk;
    hide Linked;
    hide Block;
    hide BlockStart;
    hide NoneBehind;
    hide DirOfSize;
    hide StaysPut;
    var k := names[n];
    FoundFile(s.disk, names, owners, n);
    FileBytesSize(s.disk, k);
    if s.disk.inodes[k].size > 0 {
      AfterFile(s, p, k);
    }
  }

  lemma AfterFiles(s: Fs, p: Params, names: Names, owners: Owners)
    requires Inv(s) && Tolerates(s, p) && RootBlock(s.disk) == 0 && Core(s.disk, names, owners)
    ensures FilesOf(After(s, p).disk, names) == FilesOf(s.disk, names)
  {
    hide Inv;
    hide FreeFrom;
    hide NoneBehind;
    hide ContentsStay;
    hide BlockStart;
    hide Core;
    hide FileBytes;
    hide After;
    hide RootBlock;
    forall n | n in names
      ensures FileBytes(After(s, p).disk, names[n]) == FileBytes(s.disk, names[n])
    {
      AfterName(s, p, names, owners, n);
    }
  }

  lemma ToleratesSurvives(s: Fs, p: Params)
    requires Inv(s) && RootBlock(s.disk) == 0 && Tolerates(s, p)
    ensures Survives(s, p)
  {
    var names, owners, t := NameMap(Dir(s.disk)), InodeMap(Dir(s.disk)), After(s, p);
    AfterDir(s, p);
    SameMaps(Dir(s.disk), Dir(t.disk));
    AfterCore(s, p, names, owners);
    AfterHandles(s, p, owners);
    AfterFiles(s, p, names, owners);
    hide Core;
    hide Dir;
    hide DirOk;
    hide NameMap;
    hide InodeMap;
    hide FilesOf;
    hide HandlesOf;
    hide HandlesOk;
    hide Seen;
    hide Tolerates;
  }

  // ---------- and back ----------

  /** The counts of the tables seen are the counts of what they stand for, which has not changed. */
  lemma SurvivesCounts(s: Fs, p: Params)
    requires Inv(s) && RootBlock(s.disk) == 0 && Survives(s, p)
    ensures Allocations(ReInitialised(s, p)) && p.maxInodes > 0 && p.maxBlocks > 0
    ensures FreeFrom(s.disk.inodeAlloc, p.maxInodes) && FreeFrom(s.disk.blockAlloc, p.maxBlocks)
    ensures FreeFrom(s.openAlloc, p.maxOpenFiles)
    ensures |LiveSlots(Dir(After(s, p).disk))| == |LiveSlots(Dir(s.disk))|
  {
    hide Dir;
    hide DirOk;
    hide NameMap;
    hide InodeMap;
    hide HandlesOk;
    hide AbsWith;
    hide BlocksOk;
    hide Linked;
    hide NonEmpty;
    hide TakenSet;
    hide LiveSlots;
    hide FreeFrom;
    hide BlockStart;
    Conservation(s);
    Conservation(After(s, p));
    CutTaken(s.disk.inodeAlloc, p.maxInodes);
    CutTaken(s.disk.blockAlloc, p.maxBlocks);
    CutTaken(s.openAlloc, p.maxOpenFiles);
  }

  /** A file of the same name, number and bytes stays put. */
  lemma SameFileStays(s: Fs, p: Params, names: Names, owners: Owners, n: CString)
    requires Inv(s) && Allocations(ReInitialised(s, p)) && p.maxInodes > 0
    requires Core(s.disk, names, owners) && Core(After(s, p).disk, names, owners) && n in names
    requires FilesOf(After(s, p).disk, names) == FilesOf(s.disk, names) && s.disk.inodes[names[n]].size > 0
    ensures StaysPut(s.disk, names[n], p.blockSize)
  {
    hide DirOk;
    hide Dir;
    hide NameMap;
    hide InodeMap;
    hide HandlesOk;
    hide Linked;
    hide Block;
    hide BlockStart;
    hide StaysPut;
    var k := names[n];
    FoundFile(s.disk, names, owners, n);
    FoundFile(After(s, p).disk, names, owners, n);
    FileBytesSize(s.disk, k);
    FileBytesSize(After(s, p).disk, k);
    assert FilesOf(After(s, p).disk, names)[n] == FilesOf(s.disk, names)[n];
    hide FileBytes;
    AfterFile(s, p, k);
  }

  lemma SurvivesTolerates(s: Fs, p: Params)
    requires Inv(s) && RootBlock(s.disk) == 0 && Survives(s, p)
    ensures Tolerates(s, p)
  {
    hide DirOk;
    hide Dir;
    hide NameMap;
    hide InodeMap;
    hide HandlesOk;
    hide Linked;
    hide BlocksOk;
    hide FilesOf;
    hide HandlesOf;
    hide LiveSlots;
    hide NoneBehind;
    hide StaysPut;
    hide Seen;
    hide FreeFrom;
    hide BlockStart;
    var names, owners, t := NameMap(Dir(s.disk)), InodeMap(Dir(s.disk)), After(s, p);
    SurvivesCounts(s, p);
    AfterDir(s, p);
    SameCount(Dir(s.disk), Dir(t.disk));
    SameMaps(Dir(s.disk), Dir(t.disk));
    forall k | Owns(s.disk.inodes, s.disk.inodeAlloc, k) && k != ROOT_DIR_INUM
      ensures StaysPut(s.disk, k, p.blockSize)
    {
      NamedOwner(s.disk, names, owners, k);
      SameFileStays(s, p, names, owners, owners[k]);
    }
  }

  lemma NamedOwner(s: Disk, names: Names, owners: Owners, k: int)
    requires Core(s, names, owners) && Owns(s.inodes, s.inodeAlloc, k) && k != ROOT_DIR_INUM
    ensures k in owners && owners[k] in names && names[owners[k]] == k && s.inodes[k].size > 0
  {
    hide BlocksOk;
  }

  /** A second tfs_init fails. The file system survives it exactly when the limits it stores lie within the allocations,
      nothing in use lies above them, and, read in blocks of the size it stores, the directory and every file are where
      they were. */
  lemma ReInitExactly(s: Fs, p: Params)
    requires Inv(s) && RootBlock(s.disk) == 0
    ensures TfsReInit(s, p).1 == -1
    ensures Survives(s, p) <==> Tolerates(s, p)
  {
    hide Inv;
    hide RootBlock;
    hide Survives;
    hide Tolerates;
    if Tolerates(s, p) {
      ToleratesSurvives(s, p);
    }
    if Survives(s, p) {
      SurvivesTolerates(s, p);
    }
  }

  /** With the block size unchanged, only the limits matter. */
  lemma ReInitSameBlockSize(s: Fs, p: Params)
    requires Inv(s) && RootBlock(s.disk) == 0 && p.blockSize == s.disk.params.blockSize
    ensures Survives(s, p) <==>
              && p.Valid() && 0 < p.maxInodes <= s.disk.params.maxInodes
              && 0 < p.maxBlocks <= s.disk.params.maxBlocks && p.maxOpenFiles <= s.disk.params.maxOpenFiles
              && FreeFrom(s.disk.inodeAlloc, p.maxInodes)
              && FreeFrom(s.disk.blockAlloc, p.maxBlocks)
              && FreeFrom(s.openAlloc, p.maxOpenFiles)
  {
    ReInitExactly(s, p);
    hide DirOk;
    hide NameMap;
    hide InodeMap;
    hide HandlesOk;
    hide Survives;
    hide FreeFrom;
    DirIs(s.disk);
    hide Dir;
    hide DirOfSize;
    forall k | Owns(s.disk.inodes, s.disk.inodeAlloc, k)
      ensures StaysPut(s.disk, k, p.blockSize)
    {
      StaysAtSize(s.disk, k);
    }
    if p.maxBlocks <= s.disk.params.maxBlocks {
      StartsInOrder(p.maxBlocks, s.disk.params.maxBlocks, p.blockSize);
    }
    hide BlockStart;
    hide StaysPut;
  }

  lemma StaysAtSize(s: Disk, k: int)
    requires DiskShape(s) && BlocksOk(s.inodes, s.inodeAlloc, s.blockAlloc, s.params.blockSize)
    requires Owns(s.inodes, s.inodeAlloc, k)
    ensures StaysPut(s, k, s.params.blockSize)
  {
    hide BlockStart;
    var b, size := s.inodes[k].dataBlock, s.params.blockSize;
    BlockBounds(b, s.params.maxBlocks, size);
    PieceOfPiece(s.data, |s.data|, BlockStart(b, size), size, s.inodes[k].size);
    assert s.data[..|s.data|] == s.data;
  }

  lemma {:induction false} StartsInOrder(a: nat, b: nat, size: nat)
    requires a <= b
    ensures BlockStart(a, size) <= BlockStart(b, size)
    decreases b
  {
    if a < b {
      StartsInOrder(a, b - 1, size);
    }
  }

  // ---------- the root stays in block 0 ----------

  lemma OpenKeepsRoot(s: Fs, path: Path, mode: Mode)
    requires Inv(s)
    ensures RootBlock(TfsOpen(s, path, mode).0.disk) == RootBlock(s.disk)
  {
    hide Dir;
    hide NameMap;
    hide InodeMap;
    hide HandlesOk;
    hide TfsLookup;
    hide Block;
    if ValidPathname(path) {
      LookupFinds(s.disk, path);
      CreateKeepsRoot(s.disk, FileName(path));
      hide CreateFile;
    }
    hide Core;
    hide DirOk;
  }

  lemma CreateKeepsRoot(s: Disk, name: CString)
    requires DiskInv(s)
    ensures RootBlock(CreateFile(s, name).0) == RootBlock(s)
  {
    hide Dir;
    hide DirOk;
    hide NameMap;
    hide InodeMap;
    hide BlocksOk;
    hide Linked;
    hide Block;
    hide Splice;
    hide Entries;
  }

  lemma UnlinkKeepsRoot(s: Fs, path: Path)
    requires Inv(s)
    ensures RootBlock(TfsUnlink(s, path).0.disk) == RootBlock(s.disk)
  {
    hide Dir;
    hide DirOk;
    hide NameMap;
    hide InodeMap;
    hide HandlesOk;
    hide BlocksOk;
    hide Linked;
    hide TfsLookup;
    hide Block;
    hide Splice;
    hide Entries;
    if ValidPathname(path) {
      LookupFinds(s.disk, path);
    }
  }

  lemma WriteKeepsRoot(s: Fs, h: int, buffer: seq<Byte>)
    requires Inv(s) && Usable(s, h) && |buffer| + s.disk.params.blockSize < SIZE_T
    ensures RootBlock(TfsWrite(s, h, buffer).0.disk) == RootBlock(s.disk)
  {
    hide DirOk;
    hide Dir;
    hide NameMap;
    hide InodeMap;
    hide BlocksOk;
    hide Linked;
    hide Splice;
    hide BlockStart;
  }

  /** No call moves the root. */
  lemma StepKeepsRoot(s: Fs, c: Call)
    requires Inv(s) && Callable(s.disk.params, c)
    ensures RootBlock(Step(s, c).0.disk) == RootBlock(s.disk)
  {
    hide Inv;
    hide RootBlock;
    hide TfsOpen;
    hide TfsWrite;
    hide TfsUnlink;
    match c
    case Open(path, mode) => OpenKeepsRoot(s, path, mode);
    case Close(h) =>
    case Write(h, buffer) =>
      InvUsable(s, h);
      WriteKeepsRoot(s, h, buffer);
    case Read(h, len) => InvUsable(s, h);
    case Unlink(path) => UnlinkKeepsRoot(s, path);
  }

  lemma {:induction false} RunKeepsRoot(s: Fs, calls: seq<Call>)
    requires Inv(s) && Follows(s, calls)
    ensures RootBlock(Run(s, calls).0.disk) == RootBlock(s.disk)
    decreases |calls|
  {
    hide Inv;
    hide Follows;
    hide Step;
    hide RootBlock;
    if calls != [] {
      FirstCall(s, calls);
      StepKeepsRoot(s, calls[0]);
      RunKeepsRoot(Step(s, calls[0]).0, calls[1..]);
    }
  }

  /** A second tfs_init after any disciplined run. */
  lemma ReInitAfterRun(p: Params, m: Uninitialised, s: Fs, calls: seq<Call>, q: Params)
    requires Allocated(p, m) && TfsInit(p, m) == (s, 0)
    requires DisciplinedRun(AbsFs(p, map[], map[]), calls)
    ensures Inv(s) && Follows(s, calls) && Inv(Run(s, calls).0)
    ensures Survives(Run(s, calls).0, q) <==> Tolerates(Run(s, calls).0, q)
  {
    EveryRun(p, m, s, calls);
    InitRefines(p, m);
    InitIs(p, m);
    FormattedDir(p, m);
    hide Inv;
    hide Follows;
    hide Run;
    hide TfsInit;
    hide Formatted;
    hide RootBlock;
    hide DisciplinedRun;
    hide Survives;
    hide Tolerates;
    RunKeepsRoot(s, calls);
    ReInitExactly(Run(s, calls).0, q);
  }

  // ---------- inputs on either side ----------

  /** One open-file entry less, and the last one free: it survives. */
  lemma FewerHandles(s: Fs)
    requires Inv(s) && RootBlock(s.disk) == 0
    requires s.openAlloc != [] && s.openAlloc[|s.openAlloc| - 1] == Free
    ensures Survives(s, s.disk.params.(maxOpenFiles := |s.openAlloc| - 1))
  {
    hide Core;
    hide DirOk;
    hide Dir;
    hide NameMap;
    hide InodeMap;
    hide HandlesOk;
    hide Survives;
    hide RootBlock;
    ReInitSameBlockSize(s, s.disk.params.(maxOpenFiles := |s.openAlloc| - 1));
    RootNeeds(s);
  }

  lemma RootNeeds(s: Fs)
    requires Inv(s)
    ensures s.disk.params.maxInodes > 0 && s.disk.params.maxBlocks > 0
  {
    hide BlocksOk;
    hide Linked;
    hide DirOk;
    hide Dir;
    hide NameMap;
    hide InodeMap;
  }

  /** One open-file entry more, and none free: the scan for a free one goes on behind the table. */
  lemma MoreHandles(s: Fs)
    requires Inv(s) && |Abs(s).handles| == s.disk.params.maxOpenFiles
    ensures FirstFree(s.openAlloc) == |s.openAlloc| < s.disk.params.maxOpenFiles + 1
    ensures !Survives(s, s.disk.params.(maxOpenFiles := s.disk.params.maxOpenFiles + 1))
  {
    HandlesFull(s);
    hide DiskInv;
    hide HandlesOk;
    hide AbsWith;
    hide FirstFree;
    hide BlockStart;
  }

  /** A block size below that of a file: it does not. */
  lemma SmallerBlocks(s: Fs, p: Params, n: CString)
    requires Inv(s) && n in Abs(s).files && p.blockSize < |Abs(s).files[n]|
    ensures !Survives(s, p)
  {
    hide Inv;
    hide Survives;
    if Survives(s, p) {
      SurvivorFits(s, p, n);
      assert false;
    }
  }

  lemma SurvivorFits(s: Fs, p: Params, n: CString)
    requires Inv(s) && n in Abs(s).files && Survives(s, p)
    ensures |Abs(s).files[n]| <= p.blockSize
  {
    var t := Seen(ReInitialised(s, p));
    AbsIsValid(t, NameMap(Dir(t.disk)), InodeMap(Dir(t.disk)));
    AbsParams(t);
    hide Inv;
    hide AbsWith;
    assert Abs(t).files == Abs(s).files;
  }

  const SMALL: Params := Params(2, 2, 1, 88)
  const PATH_A: CString := ['/' as int, 'a' as int]
  const NAME_A: CString := ['a' as int]
  const FILL_A: seq<Call> := [Open(Some(PATH_A), Mode(true, false, false)), Write(0, [7, 7]), Close(0)]

  lemma FillA()
    ensures SMALL.Valid() && DisciplinedRun(AbsFs(SMALL, map[], map[]), FILL_A)
    ensures AbsRun(AbsFs(SMALL, map[], map[]), FILL_A).0 == AbsFs(SMALL, map[NAME_A := [7, 7]], map[])
  {
    BlockStartIs(2, 88);
    var a := AbsFs(SMALL, map[], map[]);
    var a1, a2 := a.(files := map[NAME_A := []], handles := map[0 := Opened(NAME_A, 0)]),
                  a.(files := map[NAME_A := [7, 7]], handles := map[0 := Opened(NAME_A, 2)]);
    var a3 := a.(files := map[NAME_A := [7, 7]]);
    OpenA(a, a1);
    WriteA(a1, a2);
    CloseA(a2, a3);
    hide AbsStep;
    hide AbsValid;
    RunOne(a2, FILL_A[2], a3, Reply(0, []), []);
    RunOne(a1, FILL_A[1], a2, Reply(2, []), [FILL_A[2]]);
    RunOne(a, FILL_A[0], a1, Reply(0, []), [FILL_A[1], FILL_A[2]]);
    assert [FILL_A[2]] + [] == [FILL_A[2]] && [FILL_A[1]] + [FILL_A[2]] == [FILL_A[1], FILL_A[2]];
    assert [FILL_A[0]] + [FILL_A[1], FILL_A[2]] == FILL_A;
  }

  lemma OpenA(a: AbsFs, a1: AbsFs)
    requires SMALL.Valid() && a == AbsFs(SMALL, map[], map[])
    requires a1 == AbsFs(SMALL, map[NAME_A := []], map[0 := Opened(NAME_A, 0)])
    ensures AbsValid(a) && Disciplined(a, FILL_A[0]) && AbsStep(a, FILL_A[0]) == (a1, Reply(0, [])) && AbsValid(a1)
  {
    assert FileName(Some(PATH_A)) == NAME_A;
    assert LowestHandle(a.handles, 0, 1) == 0;
  }

  lemma WriteA(a1: AbsFs, a2: AbsFs)
    requires SMALL.Valid() && a1 == AbsFs(SMALL, map[NAME_A := []], map[0 := Opened(NAME_A, 0)])
    requires a2 == AbsFs(SMALL, map[NAME_A := [7, 7]], map[0 := Opened(NAME_A, 2)])
    ensures AbsValid(a1) && Disciplined(a1, FILL_A[1]) && AbsStep(a1, FILL_A[1]) == (a2, Reply(2, [])) && AbsValid(a2)
  {
    var bytes: seq<Byte> := [7, 7];
    assert NonEmpty(a1.files) == {};
    assert bytes[..2] == bytes && Overwrite([], 0, bytes) == bytes;
    AbsWriteIs(a1, 0, bytes, NAME_A, 0);
    hide AbsWrite;
    assert a1.files[NAME_A := bytes] == a2.files;
    assert a1.handles[0 := Opened(NAME_A, 2)] == a2.handles;
  }

  lemma CloseA(a2: AbsFs, a3: AbsFs)
    requires SMALL.Valid() && a2 == AbsFs(SMALL, map[NAME_A := [7, 7]], map[0 := Opened(NAME_A, 2)])
    requires a3 == AbsFs(SMALL, map[NAME_A := [7, 7]], map[])
    ensures AbsValid(a2) && Disciplined(a2, FILL_A[2]) && AbsStep(a2, FILL_A[2]) == (a3, Reply(0, [])) && AbsValid(a3)
  {
    assert a2.handles - {0} == map[];
  }

  /** Two inodes, two blocks of 88 bytes, one handle; a file of two bytes written and closed. A second tfs_init that
      asks for no handles leaves it in place; one that asks for blocks of one byte does not. */
  lemma ReInitInputs(m: Uninitialised, s: Fs)
    requires Allocated(SMALL, m) && TfsInit(SMALL, m) == (s, 0)
    ensures DisciplinedRun(AbsFs(SMALL, map[], map[]), FILL_A) && Inv(s) && Follows(s, FILL_A) && Inv(Run(s, FILL_A).0)
    ensures Survives(Run(s, FILL_A).0, SMALL.(maxOpenFiles := 0))
    ensures !Survives(Run(s, FILL_A).0, SMALL.(blockSize := 1))
  {
    FillA();
    EveryRun(SMALL, m, s, FILL_A);
    InitRefines(SMALL, m);
    InitIs(SMALL, m);
    FormattedDir(SMALL, m);
    hide Formatted;
    hide TfsInit;
    hide Run;
    hide Follows;
    hide DisciplinedRun;
    hide AbsRun;
    RunKeepsRoot(s, FILL_A);
    var t := Run(s, FILL_A).0;
    AbsParams(t);
    hide DiskInv;
    hide HandlesOk;
    hide AbsWith;
    hide RootBlock;
    hide Survives;
    hide TakenSet;
    hide LowestHandle;
    hide FirstFree;
    NoHandles(t);
    FewerHandles(t);
    SmallerBlocks(t, SMALL.(blockSize := 1), NAME_A);
  }

  lemma NoHandles(s: Fs)
    requires Inv(s) && Abs(s).handles == map[]
    ensures forall h :: 0 <= h < |s.openAlloc| ==> s.openAlloc[h] == Free
    ensures |s.openAlloc| == s.disk.params.maxOpenFiles
  {
    hide DiskInv;
    hide HandlesOk;
    hide FilesOf;
    assert Abs(s).handles.Keys == TakenSet(s.openAlloc);
    forall h | 0 <= h < |s.openAlloc|
      ensures s.openAlloc[h] == Free
    {
      assert h !in TakenSet(s.openAlloc);
    }
  }
}
