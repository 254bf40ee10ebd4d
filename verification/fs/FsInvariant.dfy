/** Ownership of blocks by inodes, of inodes by directory entries, and what a table state stands for. */
module FsInvariant {
  import opened Memory
  import opened FsState
  import opened AbstractFs

  // ---------- the directory as slots ----------

  /** The slot of the live entry with this name. */
  function NameSlot(d: seq<DirEntry>, n: CString, from: nat := 0): (r: nat)
    requires from <= |d|
    ensures from <= r <= |d|
    ensures forall j :: from <= j < r ==> !(Live(d[j]) && Name(d[j]) == n)
    ensures r < |d| ==> Live(d[r]) && Name(d[r]) == n
    decreases |d| - from
  {
    if from == |d| || (Live(d[from]) && Name(d[from]) == n) then from else NameSlot(d, n, from + 1)
  }

  /** The slot of the live entry with this inode number. */
  function InodeSlot(d: seq<DirEntry>, k: int, from: nat := 0): (r: nat)
    requires from <= |d|
    ensures from <= r <= |d|
    ensures forall j :: from <= j < r ==> !(Live(d[j]) && d[j].inumber == k)
    ensures r < |d| ==> Live(d[r]) && d[r].inumber == k
    decreases |d| - from
  {
    if from == |d| || (Live(d[from]) && d[from].inumber == k) then from else InodeSlot(d, k, from + 1)
  }

  function LiveSlots(d: seq<DirEntry>): set<int> {
    set i | 0 <= i < |d| && Live(d[i])
  }

  /** Live entries differ in name and in inode: each is where its name and its number lead back to. */
  ghost predicate SlotsDistinct(d: seq<DirEntry>) {
    forall i :: 0 <= i < |d| && Live(d[i]) ==> NameSlot(d, Name(d[i])) == i && InodeSlot(d, d[i].inumber) == i
  }

  /** A slot in front of a live one is live, or was cleared and has an empty name. */
  ghost predicate UsedFirst(d: seq<DirEntry>) {
    forall i, j :: 0 <= i < j < |d| && Live(d[j]) ==> Live(d[i]) || Name(d[i]) == []
  }

  /** A live name is terminated and not empty. */
  ghost predicate NamesOk(d: seq<DirEntry>) {
    forall i :: 0 <= i < |d| && Live(d[i]) ==> 0 < |Name(d[i])| < MAX_FILE_NAME
  }

  ghost predicate DirOk(d: seq<DirEntry>) {
    SlotsDistinct(d) && UsedFirst(d) && NamesOk(d)
  }

  // ---------- the directory as maps ----------

  type Names = map<CString, int>
  type Owners = map<int, CString>

  /** Name to inode number. */
  function NameMap(d: seq<DirEntry>): Names {
    map n | n in (set i | i in LiveSlots(d) :: Name(d[i])) ::
      if NameSlot(d, n) < |d| then d[NameSlot(d, n)].inumber else -1
  }

  /** Inode number to name. */
  function InodeMap(d: seq<DirEntry>): Owners {
    map k | k in (set i | i in LiveSlots(d) :: d[i].inumber) ::
      if InodeSlot(d, k) < |d| then Name(d[InodeSlot(d, k)]) else []
  }

  /** The two maps undo each other, and name exactly the inodes in use other than the root, all of them files. */
  ghost predicate Linked(names: Names, owners: Owners, inodes: seq<Inode>, inodeAlloc: seq<Alloc>)
    requires |inodes| == |inodeAlloc|
  {
    && (forall n :: n in names ==> names[n] in owners && owners[names[n]] == n)
    && (forall k :: k in owners ==> owners[k] in names && names[owners[k]] == k)
    && (forall k :: k in owners <==> 0 < k < |inodeAlloc| && inodeAlloc[k] == Taken)
    && (forall k :: k in owners ==> inodes[k].kind == File)
  }

  // ---------- blocks ----------

  ghost predicate Owns(inodes: seq<Inode>, inodeAlloc: seq<Alloc>, k: int)
    requires |inodes| == |inodeAlloc|
  {
    0 <= k < |inodes| && inodeAlloc[k] == Taken && inodes[k].size > 0
  }

  /** Every non-empty inode owns a block of its own, and every block in use has an owner. */
  ghost predicate BlocksOk(inodes: seq<Inode>, inodeAlloc: seq<Alloc>, blockAlloc: seq<Alloc>, blockSize: nat)
    requires |inodes| == |inodeAlloc|
  {
    && (forall k :: 0 <= k < |inodes| && inodeAlloc[k] == Taken ==> inodes[k].size <= blockSize)
    && (forall k :: Owns(inodes, inodeAlloc, k) ==>
          0 <= inodes[k].dataBlock < |blockAlloc| && blockAlloc[inodes[k].dataBlock] == Taken)
    && (forall k, l :: Owns(inodes, inodeAlloc, k) && Owns(inodes, inodeAlloc, l) && k != l ==>
          inodes[k].dataBlock != inodes[l].dataBlock)
    && (forall b :: 0 <= b < |blockAlloc| && blockAlloc[b] == Taken ==>
          exists k :: Owns(inodes, inodeAlloc, k) && inodes[k].dataBlock == b)
  }

  // ---------- the whole state ----------

  ghost predicate RootOk(s: Disk)
    requires DiskShape(s)
  {
    && s.params.maxInodes > 0
    && s.inodeAlloc[ROOT_DIR_INUM] == Taken
    && s.inodes[ROOT_DIR_INUM].kind == Directory
    && s.inodes[ROOT_DIR_INUM].size == s.params.blockSize
    && ValidBlock(s, s.inodes[ROOT_DIR_INUM].dataBlock)
  }

  function RootBlock(s: Disk): int {
    if |s.inodes| > 0 then s.inodes[ROOT_DIR_INUM].dataBlock else -1
  }

  function Dir(s: Disk): seq<DirEntry> {
    Entries(Block(s, RootBlock(s)))
  }

  /** The tables fit together when the directory is read as these maps. */
  ghost predicate Core(s: Disk, names: Names, owners: Owners) {
    && DiskShape(s)
    && RootOk(s)
    && BlocksOk(s.inodes, s.inodeAlloc, s.blockAlloc, s.params.blockSize)
    && Linked(names, owners, s.inodes, s.inodeAlloc)
  }

  ghost predicate DiskInv(s: Disk) {
    Core(s, NameMap(Dir(s)), InodeMap(Dir(s))) && DirOk(Dir(s))
  }

  /** Every open handle stands inside a file that is still in use. */
  ghost predicate HandlesOk(s: Fs)
    requires Shape(s)
  {
    forall h :: 0 <= h < |s.openAlloc| && s.openAlloc[h] == Taken ==>
      && 0 < s.openFiles[h].inumber < |s.disk.inodes|
      && s.disk.inodeAlloc[s.openFiles[h].inumber] == Taken
      && s.openFiles[h].offset <= s.disk.inodes[s.openFiles[h].inumber].size
  }

  ghost predicate Inv(s: Fs) {
    Shape(s) && DiskInv(s.disk) && HandlesOk(s)
  }

  // ---------- the abstraction ----------

  /** The bytes of inode k: as many of its block as its size says. */
  function FileBytes(s: Disk, k: int): (c: seq<Byte>) {
    if 0 <= k < |s.inodes| && 0 < s.inodes[k].size <= |Block(s, s.inodes[k].dataBlock)|
    then Block(s, s.inodes[k].dataBlock)[..s.inodes[k].size]
    else []
  }

  function FilesOf(s: Disk, names: Names): (m: map<CString, seq<Byte>>) {
    map n | n in names :: FileBytes(s, names[n])
  }

  /** What an open-file entry stands for. */
  function HandleMeaning(owners: Owners, f: OpenFile): Opened {
    Opened(if f.inumber in owners then owners[f.inumber] else [], f.offset)
  }

  function HandlesOf(owners: Owners, openFiles: seq<OpenFile>, openAlloc: seq<Alloc>): (m: map<int, Opened>)
    requires |openFiles| == |openAlloc|
  {
    map h | h in TakenSet(openAlloc) :: HandleMeaning(owners, openFiles[h])
  }

  /** The abstract state when the directory is read as these maps. */
  function AbsWith(s: Fs, names: Names, owners: Owners): AbsFs
    requires Shape(s)
  {
    AbsFs(s.disk.params, FilesOf(s.disk, names), HandlesOf(owners, s.openFiles, s.openAlloc))
  }

  function Abs(s: Fs): (a: AbsFs)
    requires Shape(s)
  {
    AbsWith(s, NameMap(Dir(s.disk)), InodeMap(Dir(s.disk)))
  }
}
