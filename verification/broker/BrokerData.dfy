/** What the boxes' files hold, what the sizes say, and where the subscribers stand. */
module BrokerData {
  import opened Collections
  import opened Memory
  import opened BrokerSteps
  import opened BrokerCounters

  // ---------- packets one after the other ----------

  ghost predicate Packets(log: seq<seq<Byte>>) {
    forall k :: 0 <= k < |log| ==> IsPacket(log[k])
  }

  lemma {:induction false} FlattenLength(log: seq<seq<Byte>>)
    requires Packets(log)
    ensures |Flatten(log)| == PACKET_SIZE * |log|
    decreases |log|
  {
    if log != [] {
      assert forall k :: 0 <= k < |log| - 1 ==> log[1..][k] == log[k + 1];
      FlattenLength(log[1..]);
    }
  }

  /** The k-th packet stands at k packet sizes. */
  lemma FlattenAt(log: seq<seq<Byte>>, k: nat)
    requires Packets(log) && k < |log|
    ensures |Flatten(log)| == PACKET_SIZE * |log|
    ensures Flatten(log)[PACKET_SIZE * k..PACKET_SIZE * k + PACKET_SIZE] == log[k]
  {
    assert log == log[..k] + ([log[k]] + log[k + 1..]);
    FlattenAppend(log[..k], [log[k]] + log[k + 1..]);
    assert ([log[k]] + log[k + 1..])[1..] == log[k + 1..];
    FlattenLength(log[..k]);
    FlattenLength(log);
  }

  // ---------- names, files and logs ----------

  /** Different names are different files. */
  ghost predicate DirOk(dir: map<CString, nat>, files: seq<seq<Byte>>) {
    && (forall n :: n in dir ==> dir[n] < |files|)
    && (forall m, n :: m in dir && n in dir && m != n ==> dir[m] != dir[n])
  }

  /** The box's file starts with the log; what a file that existed before holds beyond it is left over. */
  ghost predicate Backed(box: Box, dir: map<CString, nat>, files: seq<seq<Byte>>) {
    match box.fd
    case None => box.log == []
    case Some(f) =>
      && box.name in dir && dir[box.name] == f && f < |files|
      && box.writeOffset == PACKET_SIZE * |box.log| <= |files[f]|
      && files[f][..PACKET_SIZE * |box.log|] == Flatten(box.log)
  }

  ghost predicate FilesOk(list: seq<nat>, cells: seq<Box>, dir: map<CString, nat>, files: seq<seq<Byte>>) {
    forall k :: 0 <= k < |list| && list[k] < |cells| ==> Backed(cells[list[k]], dir, files)
  }

  /** The same file and the same log. */
  predicate SameFile(box: Box, box': Box) {
    box'.name == box.name && box'.fd == box.fd && box'.writeOffset == box.writeOffset && box'.log == box.log
  }

  lemma FilesKept(list: seq<nat>, cells: seq<Box>, dir: map<CString, nat>, files: seq<seq<Byte>>, b: nat, box: Box)
    requires FilesOk(list, cells, dir, files) && b < |cells| && SameFile(cells[b], box)
    ensures FilesOk(list, cells[b := box], dir, files)
  {
    hide Flatten;
  }

  /** A packet written at the end of the log: the box's file has it, and no other box's file has changed. */
  lemma FilesStored(list: seq<nat>, cells: seq<Box>, dir: map<CString, nat>, files: seq<seq<Byte>>,
                    b: nat, box: Box, p: seq<Byte>)
    requires ListOk(list, cells) && DirOk(dir, files) && FilesOk(list, cells, dir, files)
    requires b in list && b < |cells| && Packets(cells[b].log) && IsPacket(p) && cells[b].fd.Some?
    requires box.name == cells[b].name && box.fd == cells[b].fd
    requires box.writeOffset == cells[b].writeOffset + PACKET_SIZE && box.log == cells[b].log + [p]
    ensures cells[b].fd.value < |files| && cells[b].writeOffset <= |files[cells[b].fd.value]|
    ensures var f := box.fd.value;
            var files' := files[f := Overwrite(files[f], cells[b].writeOffset, p)];
            DirOk(dir, files') && FilesOk(list, cells[b := box], dir, files')
  {
    var f, o := box.fd.value, cells[b].writeOffset;
    var k :| 0 <= k < |list| && list[k] == b;
    assert Backed(cells[b], dir, files);
    var files' := files[f := Overwrite(files[f], o, p)];
    FlattenSnoc(cells[b].log, p);
    hide Flatten;
    assert files'[f][..o] == files[f][..o] && files'[f][o..o + PACKET_SIZE] == p;
    assert files'[f][..o + PACKET_SIZE] == files'[f][..o] + files'[f][o..o + PACKET_SIZE];
    hide Overwrite;
    forall j | 0 <= j < |list|
      ensures Backed(cells[b := box][list[j]], dir, files')
    {
      assert Backed(cells[list[j]], dir, files);
      assert j != k ==> cells[list[j]].name != cells[b].name;
    }
  }

  // ---------- sizes ----------

  /** size is what has been written, but for the packet a publisher has stored and not yet announced. */
  ghost predicate SizeOk(workers: seq<Worker>, cells: seq<Box>, b: nat)
    requires b < |cells|
  {
    Packets(cells[b].log) && cells[b].size + PACKET_SIZE * Count(workers, Storing, b) == PACKET_SIZE * |cells[b].log|
  }

  ghost predicate SizesOk(workers: seq<Worker>, cells: seq<Box>) {
    forall b: nat :: b < |cells| ==> SizeOk(workers, cells, b)
  }

  lemma SizesStep(workers: seq<Worker>, cells: seq<Box>, i: int, b: nat, x: Worker, box: Box)
    requires SizesOk(workers, cells) && 0 <= i < |workers| && b < |cells|
    requires workers[i].Idle? || workers[i].box == b
    requires x.Idle? || x.box == b
    requires Packets(box.log)
    requires box.size - cells[b].size == PACKET_SIZE * (|box.log| - |cells[b].log|)
                                       + PACKET_SIZE * (One(workers[i], Storing, b) - One(x, Storing, b))
    ensures SizesOk(workers[i := x], cells[b := box])
  {
    var workers', cells' := workers[i := x], cells[b := box];
    forall c: nat | c < |cells'|
      ensures SizeOk(workers', cells', c)
    {
      assert SizeOk(workers, cells, c);
      CountUpdate(workers, i, x, Storing, c);
    }
  }

  /** Nothing announced is missing from the log. */
  lemma SizeBound(workers: seq<Worker>, cells: seq<Box>, b: nat)
    requires SizesOk(workers, cells) && b < |cells|
    ensures cells[b].size <= PACKET_SIZE * |cells[b].log|
  {
    assert SizeOk(workers, cells, b);
  }

  // ---------- subscribers ----------

  /** What has been delivered is the beginning of the log. */
  ghost predicate DeliveryOk(d: Delivery, cells: seq<Box>) {
    && d.box < |cells| && |d.packets| <= |cells[d.box].log| && Packets(cells[d.box].log)
    && PACKET_SIZE * |d.packets| <= cells[d.box].size
    && forall k :: 0 <= k < |d.packets| ==> d.packets[k] == Relabel(cells[d.box].log[k])
  }

  ghost predicate DeliveriesOk(deliveries: seq<Delivery>, cells: seq<Box>) {
    forall s :: 0 <= s < |deliveries| ==> DeliveryOk(deliveries[s], cells)
  }

  /** The subscriber reads the box's own file, has a record of its own, and stands behind what it has delivered. */
  ghost predicate SubscriberOk(x: Worker, cells: seq<Box>, files: seq<seq<Byte>>, deliveries: seq<Delivery>) {
    x.Subscribes() ==>
      && x.session < |deliveries| && deliveries[x.session].box == x.box < |cells|
      && var box, done := cells[x.box], |deliveries[x.session].packets|;
         match x
         case SubWaiting(_, f, pos, _) =>
           f < |files| && (box.fd.Some? ==> f == box.fd.value) && pos == PACKET_SIZE * done <= box.size
         case SubReady(_, f, pos, _) =>
           && f < |files| && (box.fd.Some? ==> f == box.fd.value)
           && pos == PACKET_SIZE * done && pos + PACKET_SIZE <= box.size
         case SubHolding(_, f, pos, _, p) =>
           && f < |files| && (box.fd.Some? ==> f == box.fd.value) && pos == PACKET_SIZE * (done + 1) <= box.size
           && done < |box.log| && IsPacket(box.log[done]) && p == Relabel(box.log[done])
         case _ => true
  }

  ghost predicate SubscribersOk(workers: seq<Worker>, cells: seq<Box>, files: seq<seq<Byte>>,
                                deliveries: seq<Delivery>) {
    && (forall i :: 0 <= i < |workers| ==> SubscriberOk(workers[i], cells, files, deliveries))
    && (forall i, j :: 0 <= i < j < |workers| && workers[i].Subscribes() && workers[j].Subscribes() ==>
          workers[i].session != workers[j].session)
  }

  /** A box only ever gains packets, and keeps its descriptor. */
  ghost predicate Grows(box: Box, box': Box) {
    && box'.fd == box.fd && box.size <= box'.size && box.log <= box'.log && Packets(box'.log)
  }

  lemma SubscribersKept(workers: seq<Worker>, cells: seq<Box>, files: seq<seq<Byte>>, deliveries: seq<Delivery>,
                        i: int, b: nat, x: Worker, box: Box, files': seq<seq<Byte>>)
    requires SubscribersOk(workers, cells, files, deliveries) && 0 <= i < |workers| && b < |cells|
    requires Grows(cells[b], box) && |files'| >= |files|
    requires SubscriberOk(x, cells[b := box], files', deliveries)
    requires x.Subscribes() ==> workers[i].Subscribes() && workers[i].session == x.session
    ensures SubscribersOk(workers[i := x], cells[b := box], files', deliveries)
  {
    var workers', cells' := workers[i := x], cells[b := box];
    forall j | 0 <= j < |workers'|
      ensures SubscriberOk(workers'[j], cells', files', deliveries)
    {
      assert SubscriberOk(workers[j], cells, files, deliveries);
    }
  }

  lemma DeliveriesKept(deliveries: seq<Delivery>, cells: seq<Box>, b: nat, box: Box)
    requires DeliveriesOk(deliveries, cells) && b < |cells| && Grows(cells[b], box)
    ensures DeliveriesOk(deliveries, cells[b := box])
  {
    forall s | 0 <= s < |deliveries|
      ensures DeliveryOk(deliveries[s], cells[b := box])
    {
      assert DeliveryOk(deliveries[s], cells);
    }
  }

  /** A read at a position that the size has passed returns the whole next packet of the log. */
  lemma ReadsPacket(box: Box, dir: map<CString, nat>, files: seq<seq<Byte>>, f: nat, done: nat)
    requires Backed(box, dir, files) && Packets(box.log) && f < |files| && (box.fd.Some? ==> f == box.fd.value)
    requires done < |box.log|
    ensures PACKET_SIZE * done + PACKET_SIZE <= |files[f]|
    ensures files[f][PACKET_SIZE * done..PACKET_SIZE * done + PACKET_SIZE] == box.log[done]
  {
    var at, end := PACKET_SIZE * done, PACKET_SIZE * |box.log|;
    FlattenAt(box.log, done);
    hide Flatten;
    assert files[f][at..at + PACKET_SIZE] == files[f][..end][at..at + PACKET_SIZE];
  }
}
