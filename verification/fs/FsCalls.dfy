/** What each call returns and leaves, spelled out in bytes and numbers. */
module FsCalls {
  import opened Collections
  import opened Memory
  import opened FsState
  import opened AbstractFs
  import opened FsInvariant
  import opened FsOperations
  import opened FsRefinement
  import opened FsTheorems
  import opened FsRuns
  import opened FsRoundTrip

  /** h is the first number below the limit that is no open handle, or the limit. */
  ghost predicate FirstUnused(handles: map<int, Opened>, h: nat, limit: nat) {
    h <= limit && (forall j :: 0 <= j < h ==> j in handles) && (h < limit ==> h !in handles)
  }

  lemma FirstUnusedIs(handles: map<int, Opened>, h: nat, limit: nat)
    requires FirstUnused(handles, h, limit)
    ensures LowestHandle(handles, 0, limit) == h
  {
    var l := LowestHandle(handles, 0, limit);
    if l < h {
      assert false;
    } else if h < l {
      assert false;
    }
  }

  // ---------- paths ----------

  /** A path that is NULL, shorter than two bytes, or does not begin with '/' opens nothing and unlinks nothing. */
  lemma BadPath(s: Fs, path: Path, mode: Mode)
    requires Inv(s)
    requires path.None? || |path.value| < 2 || path.value[0] != 47
    ensures Step(s, Open(path, mode)) == (s, Reply(-1, []))
    ensures Step(s, Unlink(path)) == (s, Reply(-1, []))
    ensures TfsLookup(s.disk, path) == -1
  {
    hide Inv;
    hide NameMap;
    hide CreateFile;
    hide InodeDelete;
  }

  /** tfs_lookup of '/' and a name: the number of an inode in use, not the root's, exactly when there is such a file;
      different names have different numbers. */
  lemma LookupCall(s: Fs, path: CString, n: CString, other: CString, m: CString)
    requires Inv(s) && n != [] && path == [47] + n && m != [] && other == [47] + m
    ensures var i := TfsLookup(s.disk, Some(path));
            && (i != -1 <==> n in Abs(s).files)
            && (i != -1 ==> 0 < i < s.disk.params.maxInodes && s.disk.inodeAlloc[i] == Taken)
            && (i != -1 && i == TfsLookup(s.disk, Some(other)) ==> n == m)
  {
    hide Dir;
    hide AbsWith;
    GoodPath(path, n);
    GoodPath(other, m);
    NamesAreFiles(s, n);
    LookupFinds(s.disk, Some(path));
    LookupFinds(s.disk, Some(other));
    if n in NameMap(Dir(s.disk)) {
      FoundFile(s.disk, NameMap(Dir(s.disk)), InodeMap(Dir(s.disk)), n);
    }
    hide DiskInv;
  }

  lemma GoodPath(path: CString, n: CString)
    requires n != [] && path == [47] + n
    ensures ValidPathname(Some(path)) && FileName(Some(path)) == n
  {
  }

  // ---------- tfs_open ----------

  /** What an open that gets as far as the open-file table returns and leaves: h, unless the table is full. */
  ghost predicate HandleAdded(a: AbsFs, a': AbsFs, reply: Reply, h: nat, n: CString, offset: nat) {
    if h == a.params.maxOpenFiles then reply == Reply(-1, []) && a'.handles == a.handles
    else reply == Reply(h, []) && a'.handles == a.handles[h := Opened(n, offset)]
  }

  /** An open of a name there is: emptied under O_TRUNC, and the handle at the end under O_APPEND and else at 0. */
  ghost predicate OpensKnown(a: AbsFs, a': AbsFs, reply: Reply, n: CString, mode: Mode, h: nat)
    requires n in a.files
  {
    && a'.params == a.params
    && a'.files == (if mode.trunc then a.files[n := []] else a.files)
    && HandleAdded(a, a', reply, h, n, if mode.append && !mode.trunc then |a.files[n]| else 0)
  }

  /** An open of a name there is not: refused without O_CREAT, with no inode left, a name of 40 bytes or more,
      or no 44-byte entry left in the directory's block; and else an empty file. */
  ghost predicate OpensUnknown(a: AbsFs, a': AbsFs, reply: Reply, n: CString, mode: Mode, h: nat) {
    if !mode.creat || |a.files| + 1 >= a.params.maxInodes || |n| >= 40 || |a.files| >= a.params.blockSize / 44
    then a' == a && reply == Reply(-1, [])
    else
      && a'.params == a.params && a'.files == a.files[n := []]
      && HandleAdded(a, a', reply, h, n, 0)
  }

  lemma AbsOpenIs(a: AbsFs, path: CString, n: CString, mode: Mode, h: nat)
    requires AbsValid(a) && n != [] && path == [47] + n && FirstUnused(a.handles, h, a.params.maxOpenFiles)
    ensures var (a', reply) := AbsOpen(a, Some(path), mode);
            && (n in a.files ==> OpensKnown(a, a', reply, n, mode, h))
            && (n !in a.files ==> OpensUnknown(a, a', reply, n, mode, h))
  {
    GoodPath(path, n);
    FirstUnusedIs(a.handles, h, a.params.maxOpenFiles);
    hide LowestHandle;
    if n in a.files {
      assert a.files[n := a.files[n]] == a.files;
    }
  }

  /** tfs_open of '/' and a name, in every mode, whatever handles there are. */
  lemma OpenCall(s: Fs, path: CString, n: CString, mode: Mode, h: nat)
    requires Inv(s) && n != [] && path == [47] + n && FirstUnused(Abs(s).handles, h, s.disk.params.maxOpenFiles)
    ensures var (s', reply) := Step(s, Open(Some(path), mode));
            && Shape(s')
            && (n in Abs(s).files ==> OpensKnown(Abs(s), Abs(s'), reply, n, mode, h))
            && (n !in Abs(s).files ==> OpensUnknown(Abs(s), Abs(s'), reply, n, mode, h))
  {
    hide DiskInv;
    hide HandlesOk;
    hide AbsWith;
    hide Disciplined;
    hide AbsOpen;
    hide TfsOpen;
    hide OpensKnown;
    hide OpensUnknown;
    StepRefines(s, Open(Some(path), mode));
    OpenStep(s, Some(path), mode);
    AbsParams(s);
    AbsOpenIs(Abs(s), path, n, mode, h);
    hide OpensUnknown;
  }

  // ---------- tfs_unlink and tfs_close ----------

  lemma NamesAreFiles(s: Fs, n: CString)
    requires Shape(s)
    ensures n in Abs(s).files <==> n in NameMap(Dir(s.disk))
  {
    hide NameMap;
    hide InodeMap;
    hide Dir;
    hide HandlesOf;
  }

  /** tfs_unlink of '/' and a name: 0 exactly when there is such a file, which is then gone. */
  lemma UnlinkCall(s: Fs, path: CString, n: CString)
    requires Inv(s) && n != [] && path == [47] + n
    ensures var (s', reply) := Step(s, Unlink(Some(path)));
            && reply == Reply(if n in Abs(s).files then 0 else -1, [])
            && (n !in Abs(s).files ==> s' == s)
            && (n in Abs(s).files && (forall h :: h in Abs(s).handles ==> Abs(s).handles[h].name != n) ==>
                  Inv(s') && Abs(s') == Abs(s).(files := Abs(s).files - {n}))
  {
    hide DiskInv;
    hide HandlesOk;
    hide AbsWith;
    hide NameMap;
    hide Dir;
    hide TfsUnlink;
    GoodPath(path, n);
    StepRefines(s, Unlink(Some(path)));
    NamesAreFiles(s, n);
    if n !in Abs(s).files {
      UnlinkMisses(s, Some(path));
    }
  }

  /** tfs_close: 0 exactly for an open handle, which is then no longer one. */
  lemma CloseCall(s: Fs, h: int)
    requires Inv(s)
    ensures var (s', reply) := Step(s, Close(h));
            && Inv(s')
            && reply == Reply(if h in Abs(s).handles then 0 else -1, [])
            && Abs(s') == Abs(s).(handles := if h in Abs(s).handles then Abs(s).handles - {h} else Abs(s).handles)
  {
    hide DiskInv;
    hide HandlesOk;
    hide AbsWith;
    hide TfsClose;
    StepRefines(s, Close(h));
    hide TfsClose;
  }

  // ---------- tfs_write and tfs_read ----------

  function Least(a: nat, b: nat): nat {
    if a < b then a else b
  }

  /** What a write of k bytes at an offset makes of a file, byte by byte. */
  ghost predicate BytesWritten(was: seq<Byte>, now: seq<Byte>, offset: nat, buffer: seq<Byte>, k: nat) {
    && k <= |buffer| && |now| == (if offset + k > |was| then offset + k else |was|)
    && forall p :: 0 <= p < |now| ==>
         now[p] == if offset <= p < offset + k then buffer[p - offset] else if p < |was| then was[p] else 0
  }

  /** A write through an open handle: as many bytes as fit the block from the offset on, unless an empty file
      finds every block with the root or another file. */
  ghost predicate Writes(a: AbsFs, a': AbsFs, reply: Reply, h: int, buffer: seq<Byte>)
    requires AbsValid(a) && h in a.handles
  {
    var n, offset := a.handles[h].name, a.handles[h].offset;
    var k := Least(|buffer|, a.params.blockSize - offset);
    if k == 0 then a' == a && reply == Reply(0, [])
    else if a.files[n] == [] && |set m | m in a.files && a.files[m] != []| + 1 == a.params.maxBlocks then
      a' == a && reply == Reply(-1, [])
    else
      && reply == Reply(k, [])
      && a'.params == a.params && a'.handles == a.handles[h := Opened(n, offset + k)]
      && a'.files.Keys == a.files.Keys && (forall m :: m in a.files && m != n ==> a'.files[m] == a.files[m])
      && BytesWritten(a.files[n], a'.files[n], offset, buffer, k)
  }

  lemma AbsWritesIs(a: AbsFs, h: int, buffer: seq<Byte>)
    requires AbsValid(a) && |buffer| + a.params.blockSize < SIZE_T
    ensures Disciplined(a, Write(h, buffer))
    ensures h !in a.handles ==> AbsWrite(a, h, buffer) == (a, Reply(-1, []))
    ensures h in a.handles ==> Writes(a, AbsWrite(a, h, buffer).0, AbsWrite(a, h, buffer).1, h, buffer)
  {
    hide Overwrite;
    hide BytesWritten;
    if h in a.handles {
      var n, offset := a.handles[h].name, a.handles[h].offset;
      OffsetFits(a, h);
      var k := Least(|buffer|, a.params.blockSize - offset);
      OverwriteBytes(a.files[n], offset, buffer, k);
      assert NonEmpty(a.files) == (set m | m in a.files && a.files[m] != []);
      hide NonEmpty;
      hide AbsValid;
    }
  }

  lemma OffsetFits(a: AbsFs, h: int)
    requires AbsValid(a) && h in a.handles
    ensures a.handles[h].name in a.files
    ensures a.handles[h].offset <= |a.files[a.handles[h].name]| <= a.params.blockSize
  {
  }

  lemma OverwriteBytes(was: seq<Byte>, offset: nat, buffer: seq<Byte>, k: nat)
    requires offset <= |was| && k <= |buffer|
    ensures BytesWritten(was, Overwrite(was, offset, buffer[..k]), offset, buffer, k)
  {
  }

  lemma WriteCall(s: Fs, h: int, buffer: seq<Byte>)
    requires Inv(s) && |buffer| + s.disk.params.blockSize < 0x1_0000_0000_0000_0000
    ensures var (s', reply) := Step(s, Write(h, buffer));
            && Inv(s') && AbsValid(Abs(s))
            && (h !in Abs(s).handles ==> Abs(s') == Abs(s) && reply == Reply(-1, []))
            && (h in Abs(s).handles ==> Writes(Abs(s), Abs(s'), reply, h, buffer))
  {
    hide DiskInv;
    hide HandlesOk;
    hide AbsWith;
    hide TfsWrite;
    hide AbsWrite;
    hide Writes;
    hide NonEmpty;
    StepRefines(s, Write(h, buffer));
    AbsParams(s);
    AbsWritesIs(Abs(s), h, buffer);
    hide Overwrite;
  }

  /** A read through an open handle: the next bytes of the file, as many as asked for or left. Only the handle moves. */
  ghost predicate ReadsOn(a: AbsFs, a': AbsFs, reply: Reply, h: int, len: nat)
    requires AbsValid(a) && h in a.handles
  {
    var n, offset := a.handles[h].name, a.handles[h].offset;
    var k := Least(len, |a.files[n]| - offset);
    && reply == Reply(k, a.files[n][offset..offset + k])
    && a'.params == a.params && a'.files == a.files && a'.handles == a.handles[h := Opened(n, offset + k)]
  }

  lemma AbsReadIs(a: AbsFs, h: int, len: nat)
    requires AbsValid(a)
    ensures Disciplined(a, Read(h, len))
    ensures h in a.handles ==> ReadsOn(a, AbsRead(a, h, len).0, AbsRead(a, h, len).1, h, len)
    ensures h !in a.handles ==> AbsRead(a, h, len) == (a, Reply(-1, []))
  {
  }

  lemma ReadCall(s: Fs, h: int, len: nat)
    requires Inv(s)
    ensures var (s', reply) := Step(s, Read(h, len));
            && Inv(s') && AbsValid(Abs(s))
            && (h !in Abs(s).handles ==> Abs(s') == Abs(s) && reply == Reply(-1, []))
            && (h in Abs(s).handles ==> ReadsOn(Abs(s), Abs(s'), reply, h, len))
  {
    hide DiskInv;
    hide HandlesOk;
    hide AbsWith;
    hide Disciplined;
    hide TfsRead;
    hide AbsRead;
    hide ReadsOn;
    StepRefines(s, Read(h, len));
    AbsReadIs(Abs(s), h, len);
    hide ReadsOn;
  }

  // ---------- appending and truncating ----------

  /** Open for appending, write, open again, read. */
  function AppendCalls(path: CString, creat: bool, h: nat, chunk: seq<Byte>, r: nat, len: nat): seq<Call> {
    [Open(Some(path), Mode(creat, false, true)), Write(h, chunk),
     Open(Some(path), Mode(false, false, false)), Read(r, len)]
  }

  /** Two handles, the number of bytes that fit, and the bytes read. */
  function AppendReplies(grown: int, h: nat, r: nat, len: nat, content: seq<Byte>): seq<Reply> {
    var k := Least(len, |content|);
    [Reply(h, []), Reply(grown, []), Reply(r, []), Reply(k, content[..k])]
  }

  /** `was` and behind it as much of the chunk as a block takes. */
  function Appended(was: seq<Byte>, chunk: seq<Byte>, blockSize: nat): seq<Byte> {
    (was + chunk)[..Least(|was + chunk|, blockSize)]
  }

  /** There is a file of this name, with a block or one to be had, and h and r are the next two handles. */
  ghost predicate Appendable(a: AbsFs, n: CString, was: seq<Byte>, h: nat, r: nat) {
    && n != [] && n in a.files && was == a.files[n]
    && FirstUnused(a.handles, h, a.params.maxOpenFiles) && h < a.params.maxOpenFiles
    && FirstUnused(a.handles[h := Opened(n, 0)], r, a.params.maxOpenFiles) && r < a.params.maxOpenFiles
    && (was != [] || |set m | m in a.files && a.files[m] != []| + 1 != a.params.maxBlocks)
  }

  /** Opened for appending and written to, a file holds what it held and, behind it, as much of the chunk as its block
      takes; a second handle reads it back from the beginning. */
  lemma AppendThenRead(s: Fs, path: CString, n: CString, creat: bool, h: nat, chunk: seq<Byte>, r: nat, len: nat,
                       was: seq<Byte>, content: seq<Byte>)
    requires Inv(s) && Appendable(Abs(s), n, was, h, r) && path == [47] + n
    requires |chunk| + s.disk.params.blockSize < 0x1_0000_0000_0000_0000
    requires content == Appended(was, chunk, s.disk.params.blockSize)
    ensures Follows(s, AppendCalls(path, creat, h, chunk, r, len)) && |was| <= |content|
    ensures Run(s, AppendCalls(path, creat, h, chunk, r, len)).1
         == AppendReplies(|content| - |was|, h, r, len, content)
  {
    AbsIsValid(s, NameMap(Dir(s.disk)), InodeMap(Dir(s.disk)));
    AbsParams(s);
    hide DiskInv;
    hide HandlesOk;
    hide AbsWith;
    hide DisciplinedRun;
    hide AbsRun;
    hide Run;
    hide Appendable;
    hide AppendCalls;
    AbsAppendThenRead(Abs(s), path, n, creat, h, chunk, r, len, was, content);
    RunRefines(s, AppendCalls(path, creat, h, chunk, r, len));
  }

  lemma AbsAppendThenRead(a: AbsFs, path: CString, n: CString, creat: bool, h: nat, chunk: seq<Byte>, r: nat, len: nat,
                          was: seq<Byte>, content: seq<Byte>)
    requires AbsValid(a) && Appendable(a, n, was, h, r) && path == [47] + n
    requires |chunk| + a.params.blockSize < SIZE_T
    requires content == Appended(was, chunk, a.params.blockSize)
    ensures DisciplinedRun(a, AppendCalls(path, creat, h, chunk, r, len)) && |was| <= |content|
    ensures AbsRun(a, AppendCalls(path, creat, h, chunk, r, len)).1
         == AppendReplies(|content| - |was|, h, r, len, content)
  {
    hide AbsStep;
    hide AbsValid;
    hide LowestHandle;
    hide Fill;
    hide DisciplinedRun;
    hide AbsRun;
    var c0, c1 := Open(Some(path), Mode(creat, false, true)), Write(h, chunk);
    var c2, c3 := Open(Some(path), Mode(false, false, false)), Read(r, len);
    var a1 := a.(handles := a.handles[h := Opened(n, |was|)]);
    var a2 := a.(files := a.files[n := content], handles := a.handles[h := Opened(n, |content|)]);
    var a3 := a2.(handles := a2.handles[r := Opened(n, 0)]);
    BlockHolds(a, n);
    OpensToAppend(a, path, n, creat, h, a1);
    FillIs(was, chunk, a.params.blockSize, content);
    AppendsOn(a1, h, n, chunk);
    AtEndAfter(a, n, h, content, a1, a2);
    KeysStay(a.handles, h, Opened(n, 0), Opened(n, |content|), r, a.params.maxOpenFiles);
    FirstUnusedIs(a2.handles, r, a.params.maxOpenFiles);
    GoodPath(path, n);
    Reopen(a2, Some(path), r);
    ReadBack3(a3, n, r, len, content);
    hide Appendable;
    hide FirstUnused;
    var last := AbsRun1(a3, c3);
    assert [c2] + [c3] == [c2, c3] && [c1] + [c2, c3] == [c1, c2, c3];
    RunOne(a2, c2, a3, Reply(r, []), [c3]);
    RunOne(a1, c1, a2, Reply(|content| - |was|, []), [c2, c3]);
    RunOne(a, c0, a1, Reply(h, []), [c1, c2, c3]);
    assert [c0] + [c1, c2, c3] == AppendCalls(path, creat, h, chunk, r, len);
  }

  lemma AbsRun1(a: AbsFs, c: Call) returns (reply: Reply)
    requires AbsValid(a) && Disciplined(a, c)
    ensures AbsStep(a, c).1 == reply && DisciplinedRun(a, [c]) && AbsRun(a, [c]).1 == [reply]
  {
    hide AbsStep;
    hide AbsValid;
    hide Disciplined;
    AbsStepValid(a, c);
    reply := AbsStep(a, c).1;
    RunOne(a, c, AbsStep(a, c).0, reply, []);
    assert [c] + [] == [c];
  }

  lemma BlockHolds(a: AbsFs, n: CString)
    requires AbsValid(a) && n in a.files
    ensures |a.files[n]| <= a.params.blockSize
  {
  }

  lemma AppendsOn(a: AbsFs, h: int, n: CString, chunk: seq<Byte>)
    requires AbsValid(a) && n in a.files && h in a.handles && a.handles[h] == Opened(n, |a.files[n]|)
    requires a.files[n] != [] || |set m | m in a.files && a.files[m] != []| + 1 != a.params.maxBlocks
    requires |chunk| + a.params.blockSize < SIZE_T
    ensures |a.files[n]| <= a.params.blockSize
    ensures var content := Fill(a.files[n], chunk, a.params.blockSize);
            && AbsStep(a, Write(h, chunk)) == (AtEnd(a, h, n, content), Reply(|content| - |a.files[n]|, []))
            && AbsValid(AtEnd(a, h, n, content))
  {
    assert NonEmpty(a.files) == set m | m in a.files && a.files[m] != [];
    AppendOne(a, h, n, chunk);
    hide AbsStep;
    hide Fill;
    hide AtEnd;
  }

  lemma OpensToAppend(a: AbsFs, path: CString, n: CString, creat: bool, h: nat, a1: AbsFs)
    requires AbsValid(a) && n != [] && path == [47] + n && n in a.files
    requires FirstUnused(a.handles, h, a.params.maxOpenFiles) && h < a.params.maxOpenFiles
    requires a1 == a.(handles := a.handles[h := Opened(n, |a.files[n]|)])
    ensures var c := Open(Some(path), Mode(creat, false, true));
            Disciplined(a, c) && AbsStep(a, c) == (a1, Reply(h, [])) && AbsValid(a1)
  {
    AbsOpenIs(a, path, n, Mode(creat, false, true), h);
    hide AbsOpen;
  }

  lemma FillIs(was: seq<Byte>, chunk: seq<Byte>, blockSize: nat, content: seq<Byte>)
    requires |was| <= blockSize && content == Appended(was, chunk, blockSize)
    ensures Fill(was, chunk, blockSize) == content && |was| <= |content|
  {
  }

  lemma AtEndAfter(a: AbsFs, n: CString, h: int, content: seq<Byte>, a1: AbsFs, a2: AbsFs)
    requires n in a.files && a1 == a.(handles := a.handles[h := Opened(n, |a.files[n]|)])
    requires a2 == a.(files := a.files[n := content], handles := a.handles[h := Opened(n, |content|)])
    ensures AtEnd(a1, h, n, content) == a2
  {
    assert a1.handles[h := Opened(n, |content|)] == a2.handles;
  }

  lemma KeysStay(handles: map<int, Opened>, h: int, one: Opened, two: Opened, r: nat, limit: nat)
    requires FirstUnused(handles[h := one], r, limit)
    ensures FirstUnused(handles[h := two], r, limit)
  {
    var m1, m2 := handles[h := one], handles[h := two];
    assert m1.Keys == m2.Keys;
    assert forall j :: j in m1 <==> j in m2;
  }

  lemma ReadBack3(a: AbsFs, n: CString, r: nat, len: nat, content: seq<Byte>)
    requires AbsValid(a) && r in a.handles && a.handles[r] == Opened(n, 0) && n in a.files && a.files[n] == content
    ensures Disciplined(a, Read(r, len))
    ensures AbsStep(a, Read(r, len)).1 == Reply(Least(len, |content|), content[..Least(len, |content|)])
    ensures AbsValid(AbsStep(a, Read(r, len)).0)
  {
    AbsStepValid(a, Read(r, len));
    AbsReadIs(a, r, len);
    hide AbsRead;
  }

  /** Opened for truncation, in append mode or not, a file is empty: a read returns 0. */
  lemma TruncateThenRead(s: Fs, path: CString, n: CString, creat: bool, append: bool, h: nat, len: nat)
    requires Inv(s) && n != [] && path == [47] + n && n in Abs(s).files
    requires FirstUnused(Abs(s).handles, h, s.disk.params.maxOpenFiles) && h < s.disk.params.maxOpenFiles
    requires forall g :: g in Abs(s).handles && Abs(s).handles[g].name == n ==> Abs(s).handles[g].offset == 0
    ensures var calls := [Open(Some(path), Mode(creat, true, append)), Read(h, len)];
            Follows(s, calls) && Run(s, calls).1 == [Reply(h, []), Reply(0, [])]
  {
    AbsIsValid(s, NameMap(Dir(s.disk)), InodeMap(Dir(s.disk)));
    AbsParams(s);
    hide DiskInv;
    hide HandlesOk;
    hide AbsWith;
    hide DisciplinedRun;
    hide AbsRun;
    hide Run;
    AbsTruncateThenRead(Abs(s), path, n, creat, append, h, len);
    RunRefines(s, [Open(Some(path), Mode(creat, true, append)), Read(h, len)]);
  }

  lemma OpensEmptied(a: AbsFs, path: CString, n: CString, creat: bool, append: bool, h: nat)
    requires AbsValid(a) && n != [] && path == [47] + n && n in a.files
    requires FirstUnused(a.handles, h, a.params.maxOpenFiles) && h < a.params.maxOpenFiles
    requires forall g :: g in a.handles && a.handles[g].name == n ==> a.handles[g].offset == 0
    ensures var c := Open(Some(path), Mode(creat, true, append));
            && Disciplined(a, c) && AbsStep(a, c).1 == Reply(h, [])
            && var a1 := AbsStep(a, c).0;
               && AbsValid(a1) && h in a1.handles && a1.handles[h] == Opened(n, 0)
               && n in a1.files && a1.files[n] == []
  {
    AbsOpenIs(a, path, n, Mode(creat, true, append), h);
    GoodPath(path, n);
    AbsStepValid(a, Open(Some(path), Mode(creat, true, append)));
    hide AbsValid;
    hide AbsOpen;
  }

  lemma AbsTruncateThenRead(a: AbsFs, path: CString, n: CString, creat: bool, append: bool, h: nat, len: nat)
    requires AbsValid(a) && n != [] && path == [47] + n && n in a.files
    requires FirstUnused(a.handles, h, a.params.maxOpenFiles) && h < a.params.maxOpenFiles
    requires forall g :: g in a.handles && a.handles[g].name == n ==> a.handles[g].offset == 0
    ensures var calls := [Open(Some(path), Mode(creat, true, append)), Read(h, len)];
            DisciplinedRun(a, calls) && AbsRun(a, calls).1 == [Reply(h, []), Reply(0, [])]
  {
    hide AbsStep;
    hide AbsValid;
    hide DisciplinedRun;
    hide AbsRun;
    hide Disciplined;
    var c0, c1 := Open(Some(path), Mode(creat, true, append)), Read(h, len);
    OpensEmptied(a, path, n, creat, append, h);
    var a1 := AbsStep(a, c0).0;
    ReadBack3(a1, n, h, len, []);
    var last := AbsRun1(a1, c1);
    RunOne(a, c0, a1, Reply(h, []), [c1]);
    assert [c0] + [c1] == [c0, c1];
  }

  // ---------- the tables ----------

  /** An allocator takes the first FREE entry and no other, or returns -1 when all are TAKEN. */
  ghost predicate TakesFirst(was: seq<Alloc>, now: seq<Alloc>, i: int) {
    if i == -1 then now == was && forall j :: 0 <= j < |was| ==> was[j] == Taken
    else
      && 0 <= i < |was| && was[i] == Free && (forall j :: 0 <= j < i ==> was[j] == Taken)
      && now == was[i := Taken]
  }

  lemma AllocatorsTakeFirst(s: Fs, inumber: int, offset: nat)
    requires Shape(s)
    ensures var (t, i) := InodeAlloc(s.disk); TakesFirst(s.disk.inodeAlloc, t.inodeAlloc, i)
    ensures var (t, b) := DataBlockAlloc(s.disk); TakesFirst(s.disk.blockAlloc, t.blockAlloc, b)
    ensures var (t, h) := AddToOpenFileTable(s, inumber, offset);
            TakesFirst(s.openAlloc, t.openAlloc, h) && (h != -1 ==> t.openFiles[h] == OpenFile(inumber, offset))
  {
    hide BlockStart;
  }

  /** A directory entry is 44 bytes: the name field, then the number as a little-endian int. */
  lemma EntryLayout(e: DirEntry)
    requires IsEntry(e)
    ensures var b := EntryBytes(e);
            && |b| == 44 && b[..40] == e.name
            && var n: int := b[40] as int + 256 * (b[41] as int) + 65536 * (b[42] as int) + 16777216 * (b[43] as int);
               n == if e.inumber < 0 then e.inumber + 4294967296 else e.inumber
  {
    var u0 := if e.inumber < 0 then e.inumber + TWO32 else e.inumber;
    var u1 := u0 / 256;
    var u2 := u1 / 256;
    assert u0 == 256 * u1 + u0 % 256 && u1 == 256 * u2 + u1 % 256 && u2 == 256 * (u2 / 256) + u2 % 256;
  }
}
