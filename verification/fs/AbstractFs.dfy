/** What TecnicoFS means to its callers: files by name, handles by number, and the four limits. */
module AbstractFs {
  import opened Collections
  import opened Memory
  import opened FsState

  /** TFS_O_CREAT, TFS_O_TRUNC and TFS_O_APPEND, in any combination. */
  datatype Mode = Mode(creat: bool, trunc: bool, append: bool)

  /** A path argument; None is a NULL pointer. */
  type Path = Option<CString>

  datatype Opened = Opened(name: CString, offset: nat)

  datatype AbsFs = AbsFs(params: Params, files: map<CString, seq<Byte>>, handles: map<int, Opened>)

  datatype Call =
    | Open(path: Path, mode: Mode)
    | Close(handle: int)
    | Write(handle: int, buffer: seq<Byte>)
    | Read(handle: int, len: nat)
    | Unlink(path: Path)

  /** The return value, and the bytes a read stored in the caller's buffer. */
  datatype Reply = Reply(ret: int, bytes: seq<Byte>)

  predicate ValidPathname(path: Path) {
    path.Some? && |path.value| > 1 && path.value[0] == '/' as int
  }

  /** The name without the leading '/'. */
  function FileName(path: Path): CString
    requires ValidPathname(path)
  {
    path.value[1..]
  }

  function NonEmpty(files: map<CString, seq<Byte>>): set<CString> {
    set n | n in files && files[n] != []
  }

  /** The lowest handle not in use, or the table size. */
  function LowestHandle(handles: map<int, Opened>, from: nat, limit: nat): (h: nat)
    requires from <= limit
    ensures from <= h <= limit
    ensures forall j :: from <= j < h ==> j in handles
    ensures h < limit ==> h !in handles
    decreases limit - from
  {
    if from == limit || from !in handles then from else LowestHandle(handles, from + 1, limit)
  }

  function AbsAddHandle(a: AbsFs, name: CString, offset: nat): (r: (AbsFs, Reply)) {
    var h := LowestHandle(a.handles, 0, a.params.maxOpenFiles);
    if h == a.params.maxOpenFiles then (a, Reply(-1, []))
    else (a.(handles := a.handles[h := Opened(name, offset)]), Reply(h, []))
  }

  /** Room for one more file: an inode, a directory slot, and a name that fits its field. */
  predicate CanCreate(a: AbsFs, name: CString)
    requires a.params.Valid()
  {
    |a.files| + 1 < a.params.maxInodes && |name| < MAX_FILE_NAME && |a.files| < a.params.MaxDirEntries()
  }

  function AbsOpen(a: AbsFs, path: Path, mode: Mode): (r: (AbsFs, Reply))
    requires a.params.Valid()
  {
    if !ValidPathname(path) then (a, Reply(-1, []))
    else
      var name := FileName(path);
      if name in a.files then
        var content := if mode.trunc then [] else a.files[name];
        AbsAddHandle(a.(files := a.files[name := content]), name, if mode.append then |content| else 0)
      else if mode.creat && CanCreate(a, name) then
        AbsAddHandle(a.(files := a.files[name := []]), name, 0)
      else (a, Reply(-1, []))
  }

  function AbsClose(a: AbsFs, h: int): (r: (AbsFs, Reply)) {
    if h in a.handles then (a.(handles := a.handles - {h}), Reply(0, [])) else (a, Reply(-1, []))
  }

  /** Every handle names a file and stands inside it, and no file outgrows a block. */
  predicate AbsValid(a: AbsFs) {
    && a.params.Valid()
    && (forall n :: n in a.files ==> |a.files[n]| <= a.params.blockSize)
    && (forall h :: h in a.handles ==>
          (a.handles[h].name in a.files && a.handles[h].offset <= |a.files[a.handles[h].name]|))
  }

  function AbsAdvance(a: AbsFs, h: int, n: nat): AbsFs
    requires h in a.handles
  {
    a.(handles := a.handles[h := Opened(a.handles[h].name, a.handles[h].offset + n)])
  }

  function AbsWrite(a: AbsFs, h: int, buffer: seq<Byte>): (r: (AbsFs, Reply))
    requires AbsValid(a)
  {
    if h !in a.handles then (a, Reply(-1, []))
    else
      var Opened(name, offset) := a.handles[h];
      var n := Min(|buffer|, a.params.blockSize - offset);
      if n == 0 then (a, Reply(0, []))
      else if a.files[name] == [] && |NonEmpty(a.files)| + 1 == a.params.maxBlocks then (a, Reply(-1, []))
      else
        (AbsAdvance(a.(files := a.files[name := Overwrite(a.files[name], offset, buffer[..n])]), h, n), Reply(n, []))
  }

  function AbsRead(a: AbsFs, h: int, len: nat): (r: (AbsFs, Reply))
    requires AbsValid(a)
  {
    if h !in a.handles then (a, Reply(-1, []))
    else
      var Opened(name, offset) := a.handles[h];
      var n := Min(len, |a.files[name]| - offset);
      (AbsAdvance(a, h, n), Reply(n, a.files[name][offset..offset + n]))
  }

  function AbsUnlink(a: AbsFs, path: Path): (r: (AbsFs, Reply)) {
    if ValidPathname(path) && FileName(path) in a.files
    then (a.(files := a.files - {FileName(path)}), Reply(0, []))
    else (a, Reply(-1, []))
  }

  function AbsStep(a: AbsFs, c: Call): (r: (AbsFs, Reply))
    requires AbsValid(a)
  {
    match c
    case Open(path, mode) => AbsOpen(a, path, mode)
    case Close(h) => AbsClose(a, h)
    case Write(h, buffer) => AbsWrite(a, h, buffer)
    case Read(h, len) => AbsRead(a, h, len)
    case Unlink(path) => AbsUnlink(a, path)
  }

  /** The discipline the library relies on: no handle is left on an unlinked file or past the end
      of a truncated one, and a buffer is an object of the C address space. */
  predicate Disciplined(a: AbsFs, c: Call) {
    match c
    case Open(path, mode) =>
      ValidPathname(path) && FileName(path) in a.files && mode.trunc ==>
        forall h :: h in a.handles && a.handles[h].name == FileName(path) ==> a.handles[h].offset == 0
    case Unlink(path) =>
      ValidPathname(path) && FileName(path) in a.files ==>
        forall h :: h in a.handles ==> a.handles[h].name != FileName(path)
    case Write(_, buffer) => |buffer| + a.params.blockSize < SIZE_T
    case _ => true
  }

  lemma AbsStepValid(a: AbsFs, c: Call)
    requires AbsValid(a) && Disciplined(a, c)
    ensures AbsValid(AbsStep(a, c).0) && AbsStep(a, c).0.params == a.params
  {
    match c
    case Open(path, mode) =>
    case Close(h) =>
    case Write(h, buffer) => AbsWriteValid(a, h, buffer);
    case Read(h, len) =>
    case Unlink(path) =>
  }

  lemma AbsWriteValid(a: AbsFs, h: int, buffer: seq<Byte>)
    requires AbsValid(a)
    ensures AbsValid(AbsWrite(a, h, buffer).0) && AbsWrite(a, h, buffer).0.params == a.params
  {
  }

  predicate DisciplinedRun(a: AbsFs, calls: seq<Call>)
    requires AbsValid(a)
    decreases |calls|
  {
    calls == [] ||
    (Disciplined(a, calls[0]) && (AbsStepValid(a, calls[0]); DisciplinedRun(AbsStep(a, calls[0]).0, calls[1..])))
  }

  function AbsRun(a: AbsFs, calls: seq<Call>): (r: (AbsFs, seq<Reply>))
    requires AbsValid(a) && DisciplinedRun(a, calls)
    ensures AbsValid(r.0) && r.0.params == a.params && |r.1| == |calls|
    decreases |calls|
  {
    if calls == [] then (a, [])
    else
      AbsStepValid(a, calls[0]);
      var (a1, reply) := AbsStep(a, calls[0]);
      var (a2, replies) := AbsRun(a1, calls[1..]);
      (a2, [reply] + replies)
  }
}
