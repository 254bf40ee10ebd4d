/** What is written in chunks through one handle is read back in pieces through another. */
module FsRoundTrip {
  import opened Collections
  import opened Memory
  import opened FsState
  import opened AbstractFs
  import opened FsInvariant
  import opened FsTheorems
  import opened FsRuns

  function Writes(h: int, chunks: seq<seq<Byte>>): (calls: seq<Call>)
    ensures |calls| == |chunks|
  {
    seq(|chunks|, i requires 0 <= i < |chunks| => Write(h, chunks[i]))
  }

  function Reads(h: int, lens: seq<nat>): (calls: seq<Call>)
    ensures |calls| == |lens|
  {
    seq(|lens|, i requires 0 <= i < |lens| => Read(h, lens[i]))
  }

  lemma WritesTail(h: int, chunks: seq<seq<Byte>>)
    requires chunks != []
    ensures Writes(h, chunks)[0] == Write(h, chunks[0]) && Writes(h, chunks)[1..] == Writes(h, chunks[1..])
  {
  }

  lemma ReadsTail(h: int, lens: seq<nat>)
    requires lens != []
    ensures Reads(h, lens)[0] == Read(h, lens[0]) && Reads(h, lens)[1..] == Reads(h, lens[1..])
  {
  }

  /** What the calls of a run returned, added up. */
  function TotalRet(replies: seq<Reply>): int {
    if replies == [] then 0 else replies[0].ret + TotalRet(replies[1..])
  }

  /** What the reads of a run stored, one after the other. */
  function AllBytes(replies: seq<Reply>): seq<Byte> {
    if replies == [] then [] else replies[0].bytes + AllBytes(replies[1..])
  }

  // ---------- runs put together ----------

  /** One call in front of a run. */
  lemma RunOne(a: AbsFs, c: Call, a1: AbsFs, reply: Reply, rest: seq<Call>)
    requires AbsValid(a) && Disciplined(a, c) && AbsStep(a, c) == (a1, reply) && AbsValid(a1)
    requires DisciplinedRun(a1, rest)
    ensures DisciplinedRun(a, [c] + rest)
    ensures AbsRun(a, [c] + rest) == (AbsRun(a1, rest).0, [reply] + AbsRun(a1, rest).1)
  {
    hide AbsStep;
    hide Disciplined;
    hide AbsValid;
    assert ([c] + rest)[1..] == rest;
  }

  /** A run in front of a run. */
  lemma {:induction false} RunTwo(a: AbsFs, one: seq<Call>, two: seq<Call>)
    requires AbsValid(a) && DisciplinedRun(a, one) && DisciplinedRun(AbsRun(a, one).0, two)
    ensures DisciplinedRun(a, one + two)
    ensures AbsRun(a, one + two).0 == AbsRun(AbsRun(a, one).0, two).0
    ensures AbsRun(a, one + two).1 == AbsRun(a, one).1 + AbsRun(AbsRun(a, one).0, two).1
    decreases |one|
  {
    if one == [] {
      assert one + two == two;
      assert [] + AbsRun(a, two).1 == AbsRun(a, two).1;
    } else {
      RunSplit(a, one);
      var a1, reply, rest := AbsStep(a, one[0]).0, AbsStep(a, one[0]).1, one[1..];
      RunTwo(a1, rest, two);
      hide AbsStep;
      hide Disciplined;
      hide AbsValid;
      hide DisciplinedRun;
      hide AbsRun;
      RunOne(a, one[0], a1, reply, rest + two);
      assert [one[0]] + (rest + two) == one + two;
      Associates([reply], AbsRun(a1, rest).1, AbsRun(AbsRun(a, one).0, two).1);
    }
  }

  lemma Associates<T>(a: seq<T>, b: seq<T>, c: seq<T>)
    ensures a + (b + c) == (a + b) + c
  {
  }

  /** A run is its first call and the rest. */
  lemma RunSplit(a: AbsFs, calls: seq<Call>)
    requires AbsValid(a) && calls != [] && DisciplinedRun(a, calls)
    ensures Disciplined(a, calls[0])
    ensures var (a1, reply) := AbsStep(a, calls[0]);
            AbsValid(a1) && DisciplinedRun(a1, calls[1..])
            && AbsRun(a, calls) == (AbsRun(a1, calls[1..]).0, [reply] + AbsRun(a1, calls[1..]).1)
  {
    hide AbsStep;
    hide Disciplined;
    hide AbsValid;
    AbsStepValid(a, calls[0]);
  }

  // ---------- writing at the end of a file ----------

  /** As much of `more` as fits after `content` in a block. */
  function Fill(content: seq<Byte>, more: seq<Byte>, blockSize: nat): (c: seq<Byte>)
    requires |content| <= blockSize
    ensures |content| <= |c| <= blockSize
  {
    content + more[..Min(|more|, blockSize - |content|)]
  }

  lemma FillTwice(content: seq<Byte>, one: seq<Byte>, more: seq<Byte>, blockSize: nat)
    requires |content| <= blockSize
    ensures Fill(Fill(content, one, blockSize), more, blockSize) == Fill(content, one + more, blockSize)
  {
    var n := Min(|one|, blockSize - |content|);
    if n == |one| {
      var m := Min(|more|, blockSize - |content| - n);
      assert (one + more)[..n + m] == one + more[..m];
    } else {
      assert (one + more)[..n] == one[..n];
    }
  }

  /** The state in which handle h stands at the end of file n, with these contents. */
  function AtEnd(a: AbsFs, h: int, n: CString, content: seq<Byte>): AbsFs {
    a.(files := a.files[n := content], handles := a.handles[h := Opened(n, |content|)])
  }

  /** Handle h stands at the end of file n, which has a block or can have one. */
  predicate CanAppend(a: AbsFs, h: int, n: CString) {
    && AbsValid(a) && h in a.handles && n in a.files && a.handles[h] == Opened(n, |a.files[n]|)
    && (a.files[n] == [] ==> |NonEmpty(a.files)| + 1 != a.params.maxBlocks)
  }

  /** One write at the end appends what fits and says how much that was. */
  lemma AppendOne(a: AbsFs, h: int, n: CString, chunk: seq<Byte>)
    requires CanAppend(a, h, n) && |chunk| + a.params.blockSize < SIZE_T
    ensures var content := Fill(a.files[n], chunk, a.params.blockSize);
            AbsStep(a, Write(h, chunk)) == (AtEnd(a, h, n, content), Reply(|content| - |a.files[n]|, []))
    ensures CanAppend(AbsStep(a, Write(h, chunk)).0, h, n)
  {
    var c, k := a.files[n], Min(|chunk|, a.params.blockSize - |a.files[n]|);
    AbsStepValid(a, Write(h, chunk));
    if k == 0 {
      assert Fill(c, chunk, a.params.blockSize) == c;
      assert AtEnd(a, h, n, c) == a;
    } else {
      assert Overwrite(c, |c|, chunk[..k]) == c + chunk[..k];
      AppendRoom(a, h, n, c + chunk[..k]);
    }
  }

  lemma AppendRoom(a: AbsFs, h: int, n: CString, content: seq<Byte>)
    requires n in a.files && h in a.handles && content != []
    ensures AtEnd(a, h, n, content).files[n] != []
    ensures AtEnd(a, h, n, content).handles[h] == Opened(n, |content|)
  {
  }

  /** A list of chunks: the file ends up with what fits of their concatenation, and the return values add up to it. */
  lemma {:induction false} AppendAll(a: AbsFs, h: int, n: CString, chunks: seq<seq<Byte>>)
    requires CanAppend(a, h, n)
    requires forall i :: 0 <= i < |chunks| ==> |chunks[i]| + a.params.blockSize < SIZE_T
    ensures DisciplinedRun(a, Writes(h, chunks))
    ensures var content := Fill(a.files[n], Flatten(chunks), a.params.blockSize);
            AbsRun(a, Writes(h, chunks)).0 == AtEnd(a, h, n, content)
            && TotalRet(AbsRun(a, Writes(h, chunks)).1) == |content| - |a.files[n]|
    decreases |chunks|
  {
    if chunks == [] {
      assert Fill(a.files[n], [], a.params.blockSize) == a.files[n];
      assert AtEnd(a, h, n, a.files[n]) == a;
    } else {
      hide AbsStep;
      hide Fill;
      hide Writes;
      hide DisciplinedRun;
      hide AbsRun;
      hide AtEnd;
      var one := Fill(a.files[n], chunks[0], a.params.blockSize);
      var a1, reply := AtEnd(a, h, n, one), Reply(|one| - |a.files[n]|, []);
      AppendOne(a, h, n, chunks[0]);
      AtEndTwice(a, h, n, one, Fill(one, Flatten(chunks[1..]), a.params.blockSize));
      AppendAll(a1, h, n, chunks[1..]);
      FillTwice(a.files[n], chunks[0], Flatten(chunks[1..]), a.params.blockSize);
      AppendStep(a, h, n, chunks, a1, reply);
    }
  }

  /** One write in front of others. */
  lemma AppendStep(a: AbsFs, h: int, n: CString, chunks: seq<seq<Byte>>, a1: AbsFs, reply: Reply)
    requires AbsValid(a) && chunks != [] && |chunks[0]| + a.params.blockSize < SIZE_T
    requires AbsStep(a, Write(h, chunks[0])) == (a1, reply) && AbsValid(a1)
    requires DisciplinedRun(a1, Writes(h, chunks[1..]))
    ensures DisciplinedRun(a, Writes(h, chunks))
    ensures AbsRun(a, Writes(h, chunks)).0 == AbsRun(a1, Writes(h, chunks[1..])).0
    ensures TotalRet(AbsRun(a, Writes(h, chunks)).1) == reply.ret + TotalRet(AbsRun(a1, Writes(h, chunks[1..])).1)
  {
    hide AbsStep;
    hide AbsValid;
    hide DisciplinedRun;
    hide AbsRun;
    WritesTail(h, chunks);
    var rest := Writes(h, chunks[1..]);
    RunOne(a, Write(h, chunks[0]), a1, reply, rest);
    assert Writes(h, chunks) == [Write(h, chunks[0])] + rest;
    hide Writes;
    assert ([reply] + AbsRun(a1, rest).1)[1..] == AbsRun(a1, rest).1;
  }

  lemma AtEndTwice(a: AbsFs, h: int, n: CString, one: seq<Byte>, two: seq<Byte>)
    ensures AtEnd(AtEnd(a, h, n, one), h, n, two) == AtEnd(a, h, n, two)
    ensures AtEnd(a, h, n, one).files[n] == one && AtEnd(a, h, n, one).params == a.params
  {
    assert a.files[n := one][n := two] == a.files[n := two];
    assert a.handles[h := Opened(n, |one|)][h := Opened(n, |two|)] == a.handles[h := Opened(n, |two|)];
  }

  // ---------- reading on ----------

  /** The state in which handle h has moved to this offset. */
  function MovedTo(a: AbsFs, h: int, offset: nat): AbsFs
    requires h in a.handles
  {
    a.(handles := a.handles[h := Opened(a.handles[h].name, offset)])
  }

  lemma ReadOne(a: AbsFs, h: int, len: nat, end: nat, rest: seq<Byte>)
    requires AbsValid(a) && h in a.handles && rest == a.files[a.handles[h].name][a.handles[h].offset..]
    requires end == a.handles[h].offset + Min(len, |rest|)
    ensures AbsStep(a, Read(h, len)) == (MovedTo(a, h, end), Reply(Min(len, |rest|), rest[..Min(len, |rest|)]))
    ensures AbsValid(MovedTo(a, h, end))
    ensures h in MovedTo(a, h, end).handles && MovedTo(a, h, end).handles[h] == Opened(a.handles[h].name, end)
    ensures a.handles[h].name in MovedTo(a, h, end).files
    ensures MovedTo(a, h, end).files[a.handles[h].name][end..] == rest[Min(len, |rest|)..]
  {
    AbsStepValid(a, Read(h, len));
    var content, o := a.files[a.handles[h].name], a.handles[h].offset;
    assert content[o..end] == rest[..end - o];
    assert content[end..] == rest[end - o..];
  }

  /** Consecutive pieces of `rest`, each as long as asked for or as is left, and the replies that carry them. */
  function Pieces(rest: seq<Byte>, lens: seq<nat>): (replies: seq<Reply>)
    ensures |replies| == |lens|
  {
    if lens == [] then []
    else
      var n := Min(lens[0], |rest|);
      [Reply(n, rest[..n])] + Pieces(rest[n..], lens[1..])
  }

  /** The pieces put together are what was asked for altogether. */
  lemma {:induction false} PiecesTogether(rest: seq<Byte>, lens: seq<nat>)
    ensures AllBytes(Pieces(rest, lens)) == rest[..Min(Sum(lens), |rest|)]
    ensures TotalRet(Pieces(rest, lens)) == Min(Sum(lens), |rest|)
    decreases |lens|
  {
    if lens != [] {
      var n := Min(lens[0], |rest|);
      PiecesTogether(rest[n..], lens[1..]);
      SplitPrefix(rest, n, Min(Sum(lens[1..]), |rest| - n));
      assert Pieces(rest, lens)[1..] == Pieces(rest[n..], lens[1..]);
      hide Pieces;
    }
  }

  lemma SplitPrefix(s: seq<Byte>, n: nat, m: nat)
    requires n + m <= |s|
    ensures s[..n] + s[n..][..m] == s[..n + m]
  {
  }

  /** Once the earlier reads have asked for everything, a read returns 0 and stores nothing. */
  lemma {:induction false} PiecesEnd(rest: seq<Byte>, lens: seq<nat>, i: nat)
    requires i < |lens| && Sum(lens[..i]) >= |rest|
    ensures Pieces(rest, lens)[i] == Reply(0, [])
    decreases i
  {
    if i > 0 {
      var n := Min(lens[0], |rest|);
      assert lens[..i][1..] == lens[1..][..i - 1];
      PiecesEnd(rest[n..], lens[1..], i - 1);
    }
  }

  /** Reads through one handle return the pieces of the rest of the file, and move the handle on by as much. */
  lemma {:induction false} ReadOn(a: AbsFs, h: int, lens: seq<nat>, rest: seq<Byte>)
    requires AbsValid(a) && h in a.handles && rest == a.files[a.handles[h].name][a.handles[h].offset..]
    ensures DisciplinedRun(a, Reads(h, lens))
    ensures AbsRun(a, Reads(h, lens))
         == (MovedTo(a, h, a.handles[h].offset + Min(Sum(lens), |rest|)), Pieces(rest, lens))
    decreases |lens|
  {
    hide AbsStep;
    hide Reads;
    hide DisciplinedRun;
    hide AbsRun;
    hide MovedTo;
    if lens == [] {
      ReadNothing(a, h);
    } else {
      var n, o := Min(lens[0], |rest|), a.handles[h].offset;
      var a1 := MovedTo(a, h, o + n);
      ReadOne(a, h, lens[0], o + n, rest);
      ReadOn(a1, h, lens[1..], rest[n..]);
      hide AbsValid;
      ReadStep(a, h, lens, a1, Reply(n, rest[..n]));
      MovedTwice(a, h, o + n, o + n + Min(Sum(lens[1..]), |rest| - n));
    }
  }

  lemma ReadNothing(a: AbsFs, h: int)
    requires AbsValid(a) && h in a.handles
    ensures DisciplinedRun(a, Reads(h, []))
    ensures AbsRun(a, Reads(h, [])) == (MovedTo(a, h, a.handles[h].offset), [])
  {
    hide AbsStep;
    hide AbsValid;
    assert a.handles[h := a.handles[h]] == a.handles;
  }

  lemma MovedTwice(a: AbsFs, h: int, one: nat, two: nat)
    requires h in a.handles
    ensures MovedTo(MovedTo(a, h, one), h, two) == MovedTo(a, h, two)
  {
    assert a.handles[h := Opened(a.handles[h].name, one)][h := Opened(a.handles[h].name, two)]
        == a.handles[h := Opened(a.handles[h].name, two)];
  }

  /** One read in front of others. */
  lemma ReadStep(a: AbsFs, h: int, lens: seq<nat>, a1: AbsFs, reply: Reply)
    requires AbsValid(a) && h in a.handles && lens != [] && AbsStep(a, Read(h, lens[0])) == (a1, reply)
    requires AbsValid(a1) && DisciplinedRun(a1, Reads(h, lens[1..]))
    ensures DisciplinedRun(a, Reads(h, lens))
    ensures AbsRun(a, Reads(h, lens))
         == (AbsRun(a1, Reads(h, lens[1..])).0, [reply] + AbsRun(a1, Reads(h, lens[1..])).1)
  {
    hide AbsStep;
    hide AbsValid;
    hide DisciplinedRun;
    hide AbsRun;
    ReadsTail(h, lens);
    RunOne(a, Read(h, lens[0]), a1, reply, Reads(h, lens[1..]));
    assert Reads(h, lens) == [Read(h, lens[0])] + Reads(h, lens[1..]);
  }

  // ---------- there and back ----------

  /** Open, write the chunks, open again, read. */
  function Session(path: Path, w: int, chunks: seq<seq<Byte>>, r: int, lens: seq<nat>): seq<Call> {
    [Open(path, Mode(true, false, false))] + Writes(w, chunks)
    + ([Open(path, Mode(false, false, false))] + Reads(r, lens))
  }

  /** Creating a file that is not there, with room for it and for two handles. */
  predicate RoomFor(a: AbsFs, path: Path, w: int, r: int) {
    && AbsValid(a) && ValidPathname(path) && FileName(path) !in a.files && CanCreate(a, FileName(path))
    && w == LowestHandle(a.handles, 0, a.params.maxOpenFiles) < a.params.maxOpenFiles
    && r == LowestHandle(a.handles[w := Opened(FileName(path), 0)], 0, a.params.maxOpenFiles) < a.params.maxOpenFiles
    && |NonEmpty(a.files)| + 1 < a.params.maxBlocks
  }

  lemma NewFile(a: AbsFs, path: Path, w: int, r: int)
    requires RoomFor(a, path, w, r)
    ensures var a1 := a.(files := a.files[FileName(path) := []], handles := a.handles[w := Opened(FileName(path), 0)]);
            AbsStep(a, Open(path, Mode(true, false, false))) == (a1, Reply(w, [])) && CanAppend(a1, w, FileName(path))
    ensures Disciplined(a, Open(path, Mode(true, false, false)))
  {
    AbsStepValid(a, Open(path, Mode(true, false, false)));
    assert NonEmpty(a.files[FileName(path) := []]) == NonEmpty(a.files);
  }

  /** The lowest free handle depends on which handles are open, not on where they stand. */
  lemma {:induction false} LowestHandleKeys(one: map<int, Opened>, two: map<int, Opened>, from: nat, limit: nat)
    requires one.Keys == two.Keys && from <= limit
    ensures LowestHandle(one, from, limit) == LowestHandle(two, from, limit)
    decreases limit - from
  {
    assert from in one <==> from in two;
    if from < limit && from in one {
      LowestHandleKeys(one, two, from + 1, limit);
    }
  }

  lemma Reopen(a: AbsFs, path: Path, r: int)
    requires AbsValid(a) && ValidPathname(path) && FileName(path) in a.files
    requires r == LowestHandle(a.handles, 0, a.params.maxOpenFiles) < a.params.maxOpenFiles
    ensures var a1 := a.(handles := a.handles[r := Opened(FileName(path), 0)]);
            AbsStep(a, Open(path, Mode(false, false, false))) == (a1, Reply(r, [])) && AbsValid(a1)
    ensures Disciplined(a, Open(path, Mode(false, false, false)))
  {
    AbsStepValid(a, Open(path, Mode(false, false, false)));
    assert a.files[FileName(path) := a.files[FileName(path)]] == a.files;
  }

  /** The first half of a session: a new file, filled. */
  lemma WriteNew(a: AbsFs, path: Path, n: CString, w: int, r: int, chunks: seq<seq<Byte>>, content: seq<Byte>)
    requires RoomFor(a, path, w, r) && n == FileName(path)
    requires forall i :: 0 <= i < |chunks| ==> |chunks[i]| + a.params.blockSize < SIZE_T
    requires content == Flatten(chunks)[..Min(|Flatten(chunks)|, a.params.blockSize)]
    ensures var calls := [Open(path, Mode(true, false, false))] + Writes(w, chunks);
            var a2 := a.(files := a.files[n := content], handles := a.handles[w := Opened(n, |content|)]);
            DisciplinedRun(a, calls) && AbsRun(a, calls).0 == a2
            && exists wrote :: |wrote| == |chunks| && TotalRet(wrote) == |content|
                                && AbsRun(a, calls).1 == [Reply(w, [])] + wrote
  {
    NewFile(a, path, w, r);
    hide RoomFor;
    hide AbsStep;
    var a1 := a.(files := a.files[n := []], handles := a.handles[w := Opened(n, 0)]);
    AppendAll(a1, w, n, chunks);
    assert Fill([], Flatten(chunks), a.params.blockSize) == content;
    hide DisciplinedRun;
    hide AbsRun;
    hide Fill;
    hide Writes;
    RunOne(a, Open(path, Mode(true, false, false)), a1, Reply(w, []), Writes(w, chunks));
    hide CanAppend;
    hide AtEnd;
    Overwritten(a, n, w, content, a1);
    Said(AbsRun(a1, Writes(w, chunks)).1, |chunks|, |content|);
  }

  lemma Overwritten(a: AbsFs, n: CString, w: int, content: seq<Byte>, a1: AbsFs)
    requires a1 == a.(files := a.files[n := []], handles := a.handles[w := Opened(n, 0)])
    ensures AtEnd(a1, w, n, content)
         == a.(files := a.files[n := content], handles := a.handles[w := Opened(n, |content|)])
  {
    assert a.files[n := []][n := content] == a.files[n := content];
    assert a.handles[w := Opened(n, 0)][w := Opened(n, |content|)] == a.handles[w := Opened(n, |content|)];
  }

  lemma Said(wrote: seq<Reply>, count: nat, total: int)
    requires |wrote| == count && TotalRet(wrote) == total
    ensures exists replies :: |replies| == count && replies == wrote && TotalRet(replies) == total
  {
  }

  lemma ReadBack(a: AbsFs, path: Path, n: CString, r: int, lens: seq<nat>)
    requires AbsValid(a) && ValidPathname(path) && n == FileName(path) && n in a.files
    requires r == LowestHandle(a.handles, 0, a.params.maxOpenFiles) < a.params.maxOpenFiles
    ensures var calls := [Open(path, Mode(false, false, false))] + Reads(r, lens);
            DisciplinedRun(a, calls) && AbsRun(a, calls).0.files == a.files
            && AbsRun(a, calls).1 == [Reply(r, [])] + Pieces(a.files[n], lens)
  {
    Reopen(a, path, r);
    var a1 := a.(handles := a.handles[r := Opened(n, 0)]);
    ReadOn(a1, r, lens, a.files[n]);
    hide DisciplinedRun;
    hide AbsRun;
    hide AbsStep;
    hide Pieces;
    RunOne(a, Open(path, Mode(false, false, false)), a1, Reply(r, []), Reads(r, lens));
  }

  /** The replies of a session: the two handles, and in between and after, what was written and what was read. */
  lemma AbsRoundTrip(a: AbsFs, path: Path, w: int, chunks: seq<seq<Byte>>, r: int, lens: seq<nat>, content: seq<Byte>)
    requires RoomFor(a, path, w, r)
    requires forall i :: 0 <= i < |chunks| ==> |chunks[i]| + a.params.blockSize < SIZE_T
    requires content == Flatten(chunks)[..Min(|Flatten(chunks)|, a.params.blockSize)]
    ensures DisciplinedRun(a, Session(path, w, chunks, r, lens))
    ensures AbsRun(a, Session(path, w, chunks, r, lens)).0.files == a.files[FileName(path) := content]
    ensures exists wrote :: |wrote| == |chunks| && TotalRet(wrote) == |content|
              && AbsRun(a, Session(path, w, chunks, r, lens)).1
              == [Reply(w, [])] + wrote + ([Reply(r, [])] + Pieces(content, lens))
  {
    var n := FileName(path);
    WriteNew(a, path, n, w, r, chunks, content);
    hide AbsRun;
    hide DisciplinedRun;
    hide Writes;
    hide Reads;
    hide CanCreate;
    var one := [Open(path, Mode(true, false, false))] + Writes(w, chunks);
    var two := [Open(path, Mode(false, false, false))] + Reads(r, lens);
    var a2 := a.(files := a.files[n := content], handles := a.handles[w := Opened(n, |content|)]);
    LowestHandleKeys(a.handles[w := Opened(n, 0)], a2.handles, 0, a.params.maxOpenFiles);
    ReadBack(a2, path, n, r, lens);
    RunTwo(a, one, two);
    hide AbsValid;
    hide RoomFor;
    hide LowestHandle;
    assert Session(path, w, chunks, r, lens) == one + two;
    var wrote :| |wrote| == |chunks| && AbsRun(a, one).1 == [Reply(w, [])] + wrote && TotalRet(wrote) == |content|;
  }

  /** On the tables: the bytes read back are the first of the bytes written, as many as fit a block and were
      asked for. */
  lemma ChunkedRoundTrip(s: Fs, path: Path, w: int, chunks: seq<seq<Byte>>, r: int, lens: seq<nat>, content: seq<Byte>)
    requires Inv(s) && RoomFor(Abs(s), path, w, r)
    requires forall i :: 0 <= i < |chunks| ==> |chunks[i]| + s.disk.params.blockSize < SIZE_T
    requires content == Flatten(chunks)[..Min(|Flatten(chunks)|, s.disk.params.blockSize)]
    ensures Follows(s, Session(path, w, chunks, r, lens))
    ensures exists wrote :: |wrote| == |chunks| && TotalRet(wrote) == |content|
              && Run(s, Session(path, w, chunks, r, lens)).1
              == [Reply(w, [])] + wrote + ([Reply(r, [])] + Pieces(content, lens))
    ensures AllBytes(Pieces(content, lens)) == content[..Min(Sum(lens), |content|)]
    ensures forall i :: 0 <= i < |lens| && Sum(lens[..i]) >= |content| ==> Pieces(content, lens)[i] == Reply(0, [])
  {
    hide DiskInv;
    hide HandlesOk;
    hide AbsWith;
    hide RoomFor;
    hide DisciplinedRun;
    hide AbsRun;
    hide Run;
    hide Session;
    AbsParams(s);
    AbsRoundTrip(Abs(s), path, w, chunks, r, lens, content);
    RunRefines(s, Session(path, w, chunks, r, lens));
    PiecesTogether(content, lens);
    forall i | 0 <= i < |lens| && Sum(lens[..i]) >= |content|
      ensures Pieces(content, lens)[i] == Reply(0, [])
    {
      PiecesEnd(content, lens, i);
    }
  }
}
