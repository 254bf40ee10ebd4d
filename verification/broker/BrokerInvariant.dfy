/** What every step of the broker keeps. */
module BrokerInvariant {
  import opened Collections
  import opened Memory
  import opened BrokerSteps
  import opened BrokerCounters
  import opened BrokerData
  import opened BrokerSessions

  ghost predicate Inv(w: World) {
    && CountersOk(w.workers, w.list, w.cells)
    && DirOk(w.dir, w.files)
    && FilesOk(w.list, w.cells, w.dir, w.files)
    && SizesOk(w.workers, w.cells)
    && SubscribersOk(w.workers, w.cells, w.files, w.deliveries)
    && DeliveriesOk(w.deliveries, w.cells)
    && PublishersOk(w.workers, w.cells)
    && EventsOk(w.events, w.list, w.cells, w.dir)
  }

  /** Every pointer a handler follows is to a box in the list, every descriptor it uses is open. */
  lemma InvRunnable(w: World)
    requires Inv(w)
    ensures Runnable(w)
  {
    hide CounterOk;
    hide SizesOk;
    hide EventsOk;
    hide Count;
    hide Flatten;
    hide DeliveryOk;
    forall b | b in w.list && b < |w.cells| && w.cells[b].fd.Some?
      ensures w.cells[b].fd.value < |w.files| && w.cells[b].writeOffset <= |w.files[w.cells[b].fd.value]|
    {
      var k :| 0 <= k < |w.list| && w.list[k] == b;
      assert Backed(w.cells[w.list[k]], w.dir, w.files);
    }
    forall i | 0 <= i < |w.workers|
      ensures PublisherOk(w.workers[i], w.cells) && SubscriberOk(w.workers[i], w.cells, w.files, w.deliveries)
    {
    }
  }

  /** The box of a worker in a session, in the list and among the cells. */
  lemma BoxOf(w: World, i: int)
    requires Inv(w) && 0 <= i < |w.workers| && !w.workers[i].Idle?
    ensures w.workers[i].box in w.list && w.workers[i].box < |w.cells|
    ensures Backed(w.cells[w.workers[i].box], w.dir, w.files)
    ensures PublisherOk(w.workers[i], w.cells) && SubscriberOk(w.workers[i], w.cells, w.files, w.deliveries)
    ensures BoxOk(w.cells[w.workers[i].box]) && SizeOk(w.workers, w.cells, w.workers[i].box)
    ensures CounterOk(w.workers, w.cells, w.workers[i].box)
  {
    hide Count;
    hide Flatten;
    hide EventsOk;
    hide BoxOk;
    hide Backed;
    hide SizeOk;
    hide CounterOk;
    hide PublisherOk;
    hide SubscriberOk;
    var k :| 0 <= k < |w.list| && w.list[k] == w.workers[i].box;
    assert Backed(w.cells[w.list[k]], w.dir, w.files);
  }

  /** The other fields a session's step may touch, and what they must satisfy for the box and the worker afterwards. */
  lemma SessionKeeps(w: World, i: int, b: nat, x: Worker, box: Box)
    requires Inv(w) && 0 <= i < |w.workers| && b in w.list && b < |w.cells|
    requires w.workers[i].Idle? || w.workers[i].box == b
    requires x.Idle? || x.box == b
    requires SameFile(w.cells[b], box) && Packets(box.log)
    requires box.publishers == w.cells[b].publishers - One(w.workers[i], Publishing, b) + One(x, Publishing, b) <= 1
    requires box.subscribers == w.cells[b].subscribers - One(w.workers[i], Subscribing, b) + One(x, Subscribing, b)
    requires box.size
          == w.cells[b].size + PACKET_SIZE * (One(w.workers[i], Storing, b) - One(x, Storing, b))
          >= w.cells[b].size
    requires x.Subscribes() ==> w.workers[i].Subscribes() && w.workers[i].session == x.session
    requires SubscriberOk(x, w.cells[b := box], w.files, w.deliveries)
    requires PublishersOk(w.workers[i := x], w.cells[b := box])
    ensures Inv(Moved(WithCell(w, b, box), i, x))
  {
    SessionStep(w.workers, w.list, w.cells, i, b, x, box);
    FilesKept(w.list, w.cells, w.dir, w.files, b, box);
    SizesStep(w.workers, w.cells, i, b, x, box);
    SubscribersKept(w.workers, w.cells, w.files, w.deliveries, i, b, x, box, w.files);
    DeliveriesKept(w.deliveries, w.cells, b, box);
    EventsKept(w.events, w.list, w.cells, w.dir, b, box);
    hide CountersOk;
    hide DirOk;
    hide FilesOk;
    hide SizesOk;
    hide SubscribersOk;
    hide DeliveriesOk;
    hide PublishersOk;
    hide EventsOk;
  }
  lemma MovedOnly(w: World, i: int, b: nat, x: Worker)
    requires 0 <= i < |w.workers| && b < |w.cells|
    ensures Moved(WithCell(w, b, w.cells[b]), i, x) == Moved(w, i, x)
  {
    assert w.cells[b := w.cells[b]] == w.cells;
  }

  /** A worker goes on in its session, and the box stays as it is. */
  lemma WorkerKeeps(w: World, i: int, x: Worker)
    requires Inv(w) && 0 <= i < |w.workers| && !w.workers[i].Idle? && !x.Idle? && x.box == w.workers[i].box
    requires w.workers[i].Publishes() == x.Publishes() && w.workers[i].PubStored? == x.PubStored?
    requires x.Subscribes() ==> w.workers[i].session == x.session
    requires SubscriberOk(x, w.cells, w.files, w.deliveries) && PublisherOk(x, w.cells)
    ensures Inv(Moved(w, i, x))
  {
    var b := x.box;
    BoxOf(w, i);
    MovedOnly(w, i, b, x);
    assert w.cells[b := w.cells[b]] == w.cells;
    PublishersKept(w.workers, w.cells, i, b, x, w.cells[b]);
    hide Count;
    hide Inv;
    hide SubscriberOk;
    hide PublisherOk;
    hide PublishersOk;
    hide Backed;
    hide BoxOk;
    SessionKeeps(w, i, b, x, w.cells[b]);
  }

  // ---------- publishers ----------

  lemma AttachPublisherKeeps(w: World, i: int, name: CString, input: seq<seq<Byte>>)
    requires Inv(w) && Runnable(w) && 0 <= i < |w.workers| && w.workers[i].Idle?
    ensures Inv(AttachPublisher(w, i, name, input))
  {
    hide Inv;
    hide Backed;
    hide BoxOk;
    hide Count;
    hide CountersOk;
    hide PublishersOk;
    hide PublisherOk;
    hide Records;
    var k := Find(w.list, w.cells, name);
    if k < |w.list| && w.cells[w.list[k]].publishers <= 0 {
      var b, box := w.list[k], w.cells[w.list[k]];
      var s := Session(input, 0, []);
      var box', x := box.(publishers := 1, sessions := box.sessions + [s]), PubReading(b, |box.sessions|);
      ListedOk(w, k);
      NewSession(box, s, box');
      PublisherStarts(w.cells, b, |box.sessions|, box', s);
      InvCounters(w);
      PublishersStep(w.workers, w.list, w.cells, i, b, x, box');
      SessionKeeps(w, i, b, x, box');
    }
  }

  lemma InvCounters(w: World)
    requires Inv(w)
    ensures CountersOk(w.workers, w.list, w.cells) && PublishersOk(w.workers, w.cells)
  {
  }

  lemma NewSession(box: Box, s: Session, box': Box)
    requires BoxOk(box) && s == Session(s.input, 0, [])
    requires box' == box.(publishers := box'.publishers, sessions := box.sessions + [s])
    ensures BoxOk(box')
  {
    ContributionsLast(box.sessions, s);
    assert box.log + [] == box.log;
  }

  lemma PublisherStarts(cells: seq<Box>, b: nat, k: nat, box: Box, s: Session)
    requires b < |cells| && k + 1 == |box.sessions| && box.sessions[k] == s && s == Session(s.input, 0, [])
    ensures PublisherOk(PubReading(b, k), cells[b := box])
  {
    assert s.input[..0] == [];
  }

  lemma ListedOk(w: World, k: int)
    requires Inv(w) && 0 <= k < |w.list|
    ensures w.list[k] < |w.cells| && Backed(w.cells[w.list[k]], w.dir, w.files) && BoxOk(w.cells[w.list[k]])
    ensures CounterOk(w.workers, w.cells, w.list[k]) && Packets(w.cells[w.list[k]].log)
    ensures 0 <= w.cells[w.list[k]].publishers <= 1
  {
    assert SizeOk(w.workers, w.cells, w.list[k]);
    hide EventsOk;
  }

  lemma ReceiveKeeps(w: World, i: int)
    requires Inv(w) && Runnable(w) && 0 <= i < |w.workers| && w.workers[i].PubReading?
    ensures Inv(ReceivePacket(w, i))
  {
    hide Inv;
    hide Backed;
    hide BoxOk;
    hide Count;
    hide CountersOk;
    hide PublishersOk;
    hide Runnable;
    BoxOf(w, i);
    var PubReading(b, k) := w.workers[i];
    var box := w.cells[b];
    var s := box.sessions[k];
    if s.taken >= |s.input| {
      WorkerKeeps(w, i, PubLeaving(b, k));
    } else {
      var p, s' := s.input[s.taken], s.(taken := s.taken + 1);
      var box' := WithSession(box, k, s');
      var x := if FromServer(p) then PubHolding(b, k, p) else PubLeaving(b, k);
      SessionRead(box, k, s', box');
      assert PublisherOk(x, w.cells[b := box']);
      InvCounters(w);
      PublishersStep(w.workers, w.list, w.cells, i, b, x, box');
      SessionKeeps(w, i, b, x, box');
    }
  }

  lemma SessionRead(box: Box, k: nat, s: Session, box': Box)
    requires BoxOk(box) && k + 1 == |box.sessions| && box.sessions[k].taken < |box.sessions[k].input|
    requires s == box.sessions[k].(taken := box.sessions[k].taken + 1) && box' == WithSession(box, k, s)
    ensures BoxOk(box')
  {
    ContributionsChange(box.sessions, s);
    assert s.input[..s.taken][..s.taken - 1] == s.input[..s.taken - 1];
  }

  /** A packet stored by the last session keeps the log in the order of the sessions. */
  lemma SessionStored(box: Box, k: nat, p: seq<Byte>, s: Session, box': Box)
    requires BoxOk(box) && k + 1 == |box.sessions|
    requires var t := box.sessions[k];
             && 0 < t.taken <= |t.input| && t.stored == t.input[..t.taken - 1]
             && p == t.input[t.taken - 1] && FromServer(p)
    requires s == box.sessions[k].(stored := box.sessions[k].stored + [p])
    requires box' == WithSession(box.(writeOffset := box.writeOffset + PACKET_SIZE, log := box.log + [p]), k, s)
    ensures BoxOk(box') && s.stored == s.input[..s.taken]
  {
    ContributionsChange(box.sessions, s);
    assert s.input[..s.taken] == s.input[..s.taken - 1] + [p];
  }

  lemma StoreKeeps(w: World, i: int, ok: bool)
    requires Inv(w) && Runnable(w) && 0 <= i < |w.workers| && w.workers[i].PubHolding?
    ensures Inv(StorePacket(w, i, ok))
  {
    hide Inv;
    hide Backed;
    hide BoxOk;
    hide Count;
    hide CountersOk;
    hide PublishersOk;
    BoxOf(w, i);
    var PubHolding(b, k, p) := w.workers[i];
    var box := w.cells[b];
    if !ok || box.fd.None? {
      WorkerKeeps(w, i, PubLeaving(b, k));
    } else {
      var s' := box.sessions[k].(stored := box.sessions[k].stored + [p]);
      var x := PubStored(b, k);
      var box' := WithSession(box.(writeOffset := box.writeOffset + PACKET_SIZE, log := box.log + [p]), k, s');
      SessionStored(box, k, p, s', box');
      assert PublisherOk(x, w.cells[b := box']);
      InvCounters(w);
      PublishersStep(w.workers, w.list, w.cells, i, b, x, box');
      StoredRest(w, i, b, p, box', x);
    }
  }

  lemma StoredRest(w: World, i: int, b: nat, p: seq<Byte>, box: Box, x: Worker)
    requires Inv(w) && Runnable(w) && 0 <= i < |w.workers|
    requires w.workers[i].PubHolding? && w.workers[i].box == b && x.PubStored? && x.box == b
    requires b in w.list && b < |w.cells| && IsPacket(p) && w.cells[b].fd.Some? && box.fd == w.cells[b].fd
    requires box == w.cells[b].(writeOffset := w.cells[b].writeOffset + PACKET_SIZE, log := w.cells[b].log + [p],
                                sessions := box.sessions)
    requires PublishersOk(w.workers[i := x], w.cells[b := box])
    ensures var f := box.fd.value;
            Inv(Moved(WithCell(w, b, box), i, x).(
                  files := w.files[f := Overwrite(w.files[f], w.cells[b].writeOffset, p)]))
  {
    BoxOf(w, i);
    var f := box.fd.value;
    var files := w.files[f := Overwrite(w.files[f], w.cells[b].writeOffset, p)];
    assert Packets(box.log);
    SessionStep(w.workers, w.list, w.cells, i, b, x, box);
    FilesStored(w.list, w.cells, w.dir, w.files, b, box, p);
    SizesStep(w.workers, w.cells, i, b, x, box);
    SubscribersKept(w.workers, w.cells, w.files, w.deliveries, i, b, x, box, files);
    DeliveriesKept(w.deliveries, w.cells, b, box);
    EventsKept(w.events, w.list, w.cells, w.dir, b, box);
    hide CountersOk;
    hide DirOk;
    hide FilesOk;
    hide SizesOk;
    hide SubscribersOk;
    hide DeliveriesOk;
    hide PublishersOk;
    hide EventsOk;
    hide Overwrite;
    hide Runnable;
    hide Backed;
  }

  lemma PublishKeeps(w: World, i: int)
    requires Inv(w) && Runnable(w) && 0 <= i < |w.workers| && w.workers[i].PubStored?
    ensures Inv(PublishSize(w, i))
  {
    hide Inv;
    hide Backed;
    hide BoxOk;
    hide Count;
    hide CountersOk;
    hide PublishersOk;
    hide Runnable;
    InvCounters(w);
    BoxOf(w, i);
    var PubStored(b, k) := w.workers[i];
    var box, x := w.cells[b].(size := w.cells[b].size + PACKET_SIZE), PubReading(b, k);
    PublishersKept(w.workers, w.cells, i, b, x, box);
    SessionKeeps(w, i, b, x, box);
  }

  lemma DetachPublisherKeeps(w: World, i: int)
    requires Inv(w) && Runnable(w) && 0 <= i < |w.workers| && w.workers[i].PubLeaving?
    ensures Inv(DetachPublisher(w, i))
  {
    hide Inv;
    hide Backed;
    hide BoxOk;
    hide Count;
    hide CountersOk;
    hide PublishersOk;
    hide Runnable;
    InvCounters(w);
    BoxOf(w, i);
    var b := w.workers[i].box;
    var box := w.cells[b].(publishers := w.cells[b].publishers - 1);
    PublishersKept(w.workers, w.cells, i, b, Idle, box);
    SessionKeeps(w, i, b, Idle, box);
  }

  // ---------- subscribers ----------

  lemma AttachSubscriberKeeps(w: World, i: int, name: CString, opens: bool)
    requires Inv(w) && Runnable(w) && 0 <= i < |w.workers| && w.workers[i].Idle?
    ensures Inv(AttachSubscriber(w, i, name, opens))
  {
    hide Inv;
    hide Count;
    hide BoxOk;
    hide CounterOk;
    var k := Find(w.list, w.cells, name);
    if k < |w.list| && opens && name in w.dir {
      var b, box := w.list[k], w.cells[w.list[k]];
      ListedOk(w, k);
      var box', x := box.(subscribers := box.subscribers + 1), SubWaiting(b, w.dir[name], 0, |w.deliveries|);
      NewSubscriber(w, i, b, x, box', Delivery(b, []));
      hide Runnable;
      hide Backed;
      SubscriberStarts(w, i, b, x, box', w.deliveries + [Delivery(b, [])]);
    }
  }

  lemma SubscriberStarts(w: World, i: int, b: nat, x: Worker, box: Box, deliveries: seq<Delivery>)
    requires Inv(w) && 0 <= i < |w.workers| && w.workers[i].Idle? && b in w.list && b < |w.cells|
    requires box == w.cells[b].(subscribers := w.cells[b].subscribers + 1) && x.SubWaiting? && x.box == b
    requires Packets(box.log) && box.publishers <= 1
    requires SubscribersOk(w.workers[i := x], w.cells[b := box], w.files, deliveries)
    requires DeliveriesOk(deliveries, w.cells[b := box])
    ensures Inv(Moved(WithCell(w, b, box), i, x).(deliveries := deliveries))
  {
    hide CountersOk;
    hide DirOk;
    hide FilesOk;
    hide SizesOk;
    hide SubscribersOk;
    hide DeliveriesOk;
    hide PublishersOk;
    hide EventsOk;
    SessionStep(w.workers, w.list, w.cells, i, b, x, box);
    FilesKept(w.list, w.cells, w.dir, w.files, b, box);
    SizesStep(w.workers, w.cells, i, b, x, box);
    PublishersKept(w.workers, w.cells, i, b, x, box);
    EventsKept(w.events, w.list, w.cells, w.dir, b, box);
  }

  lemma NewSubscriber(w: World, i: int, b: nat, x: Worker, box: Box, d: Delivery)
    requires Inv(w) && 0 <= i < |w.workers| && w.workers[i].Idle? && b < |w.cells|
    requires SameFile(w.cells[b], box) && box.size == w.cells[b].size && Packets(box.log) && d == Delivery(b, [])
    requires x.SubWaiting? && x.box == b && x.session == |w.deliveries| && x.pos == 0 && x.file < |w.files|
    requires box.fd.Some? ==> x.file == box.fd.value
    ensures SubscribersOk(w.workers[i := x], w.cells[b := box], w.files, w.deliveries + [d])
    ensures DeliveriesOk(w.deliveries + [d], w.cells[b := box])
  {
    hide CountersOk;
    hide EventsOk;
    hide PublishersOk;
    hide FilesOk;
    hide SizesOk;
    hide DirOk;
    hide Relabel;
    var workers, cells, deliveries := w.workers[i := x], w.cells[b := box], w.deliveries + [d];
    DeliveriesKept(w.deliveries, w.cells, b, box);
    forall j | 0 <= j < |workers|
      ensures SubscriberOk(workers[j], cells, w.files, deliveries)
    {
      assert j != i ==> SubscriberOk(w.workers[j], w.cells, w.files, w.deliveries);
    }
    forall j, l | 0 <= j < l < |workers| && workers[j].Subscribes() && workers[l].Subscribes()
      ensures workers[j].session != workers[l].session
    {
      assert j != i ==> SubscriberOk(w.workers[j], w.cells, w.files, w.deliveries);
      assert l != i ==> SubscriberOk(w.workers[l], w.cells, w.files, w.deliveries);
    }
    forall s | 0 <= s < |deliveries|
      ensures DeliveryOk(deliveries[s], cells)
    {
      assert s < |w.deliveries| ==> DeliveryOk(w.deliveries[s], cells);
    }
  }

  lemma PassWaitKeeps(w: World, i: int)
    requires Inv(w) && Runnable(w) && Enabled(w, i, Check)
    ensures Inv(PassWait(w, i))
  {
    hide Inv;
    hide Count;
    hide BoxOk;
    hide Backed;
    hide CounterOk;
    BoxOf(w, i);
    StoredAtMostOnce(w, w.workers[i].box);
    var SubWaiting(b, f, pos, session) := w.workers[i];
    PastMultiple(w.cells[b].size, |w.deliveries[session].packets|, |w.cells[b].log|, Count(w.workers, Storing, b));
    WorkerKeeps(w, i, SubReady(b, f, pos, session));
  }

  lemma StoredAtMostOnce(w: World, b: nat)
    requires Inv(w) && b < |w.cells|
    ensures Count(w.workers, Storing, b) <= 1
  {
    assert CounterOk(w.workers, w.cells, b);
    StoringPublishes(w.workers, b);
  }

  /** A size that is a number of packets and not this position is a packet or more further on. */
  lemma PastMultiple(size: nat, done: nat, stored: nat, held: nat)
    requires size + PACKET_SIZE * held == PACKET_SIZE * stored && PACKET_SIZE * done <= size
    requires size != PACKET_SIZE * done
    ensures PACKET_SIZE * done + PACKET_SIZE <= size
  {
  }

  /** The read after the wait: a whole packet, the next of the log. */
  lemma FetchIs(w: World, i: int)
    requires Inv(w) && Runnable(w) && 0 <= i < |w.workers| && w.workers[i].SubReady?
    ensures FetchLength(w, i) == PACKET_SIZE
    ensures var SubReady(b, f, pos, session) := w.workers[i];
            && pos + PACKET_SIZE <= |w.files[f]|
            && |w.deliveries[session].packets| < |w.cells[b].log|
            && w.files[f][pos..pos + PACKET_SIZE] == w.cells[b].log[|w.deliveries[session].packets|]
  {
    BoxOf(w, i);
    SizeBound(w.workers, w.cells, w.workers[i].box);
    var SubReady(b, f, pos, session) := w.workers[i];
    ReadsPacket(w.cells[b], w.dir, w.files, f, |w.deliveries[session].packets|);
    hide Inv;
    hide Count;
    hide BoxOk;
    hide Backed;
  }

  lemma FetchKeeps(w: World, i: int)
    requires Inv(w) && Runnable(w) && 0 <= i < |w.workers| && w.workers[i].SubReady?
    ensures Inv(FetchPacket(w, i))
  {
    hide Inv;
    hide Count;
    hide BoxOk;
    hide Backed;
    hide CounterOk;
    hide SizeOk;
    hide FetchLength;
    hide Relabel;
    BoxOf(w, i);
    FetchIs(w, i);
    var SubReady(b, f, pos, session) := w.workers[i];
    WorkerKeeps(w, i, SubHolding(b, f, pos + PACKET_SIZE, session, Relabel(w.files[f][pos..pos + PACKET_SIZE])));
  }

  lemma DeliverKeeps(w: World, i: int, ok: bool)
    requires Inv(w) && Runnable(w) && 0 <= i < |w.workers| && w.workers[i].SubHolding?
    ensures Inv(DeliverPacket(w, i, ok))
  {
    BoxOf(w, i);
    var SubHolding(b, f, pos, session, p) := w.workers[i];
    if !ok {
      hide Inv;
      WorkerKeeps(w, i, SubLeaving(b, session));
    } else {
      var x, d := SubWaiting(b, f, pos, session), w.deliveries[session];
      MovedOnly(w, i, b, x);
      assert w.cells[b := w.cells[b]] == w.cells;
      SessionStep(w.workers, w.list, w.cells, i, b, x, w.cells[b]);
      SizesStep(w.workers, w.cells, i, b, x, w.cells[b]);
      PublishersKept(w.workers, w.cells, i, b, x, w.cells[b]);
      Delivered(w, i, x, d.(packets := d.packets + [p]));
      hide CountersOk;
      hide DirOk;
      hide FilesOk;
      hide SizesOk;
      hide SubscribersOk;
      hide DeliveriesOk;
      hide PublishersOk;
      hide EventsOk;
      hide Runnable;
      hide Backed;
    }
  }

  lemma Delivered(w: World, i: int, x: Worker, d: Delivery)
    requires Inv(w) && 0 <= i < |w.workers| && w.workers[i].SubHolding? && w.workers[i].session < |w.deliveries|
    requires var SubHolding(b, f, pos, session, p) := w.workers[i];
             x == SubWaiting(b, f, pos, session)
             && d == w.deliveries[session].(packets := w.deliveries[session].packets + [p])
    ensures SubscribersOk(w.workers[i := x], w.cells, w.files, w.deliveries[x.session := d])
    ensures DeliveriesOk(w.deliveries[x.session := d], w.cells)
  {
    var workers, deliveries := w.workers[i := x], w.deliveries[x.session := d];
    hide CountersOk;
    hide EventsOk;
    hide PublishersOk;
    hide FilesOk;
    hide SizesOk;
    hide Relabel;
    assert SubscriberOk(w.workers[i], w.cells, w.files, w.deliveries) && DeliveryOk(w.deliveries[x.session], w.cells);
    forall j | 0 <= j < |workers|
      ensures SubscriberOk(workers[j], w.cells, w.files, deliveries)
    {
      assert SubscriberOk(w.workers[j], w.cells, w.files, w.deliveries);
    }
    forall s | 0 <= s < |deliveries|
      ensures DeliveryOk(deliveries[s], w.cells)
    {
      assert DeliveryOk(w.deliveries[s], w.cells);
    }
  }

  lemma DetachSubscriberKeeps(w: World, i: int)
    requires Inv(w) && Runnable(w) && 0 <= i < |w.workers| && w.workers[i].SubLeaving?
    ensures Inv(DetachSubscriber(w, i))
  {
    hide Inv;
    hide Backed;
    hide BoxOk;
    hide Count;
    hide CountersOk;
    hide PublishersOk;
    hide Runnable;
    InvCounters(w);
    BoxOf(w, i);
    var b := w.workers[i].box;
    var box := w.cells[b].(subscribers := w.cells[b].subscribers - 1);
    PublishersKept(w.workers, w.cells, i, b, Idle, box);
    SessionKeeps(w, i, b, Idle, box);
  }

  // ---------- boxes ----------

  lemma FoundIsListed(w: World, name: CString)
    requires Runnable(w)
    ensures Find(w.list, w.cells, name) < |w.list| <==> Listed(w.list, w.cells, name)
  {
  }

  /** A new box changes nothing for the boxes, handlers and records there are. */
  lemma NewBoxKeeps(w: World, box: Box, dir: map<CString, nat>, files: seq<seq<Byte>>)
    requires Inv(w) && !Listed(w.list, w.cells, box.name)
    requires box == Box(box.name, 0, 0, 0, box.fd, 0, [], [])
    requires w.files <= files && DirOk(dir, files) && (forall n :: n in w.dir ==> n in dir && dir[n] == w.dir[n])
    requires forall n :: n in dir ==> n in w.dir || n == box.name
    requires box.fd.Some? ==> box.name in dir && dir[box.name] == box.fd.value
    ensures Inv(w.(cells := w.cells + [box], list := w.list + [|w.cells|], dir := dir, files := files,
                   events := w.events + [Event(Created, box.name, true, 0)]))
  {
    AddToList(w.workers, w.list, w.cells, box);
    EventsCreated(w.events, w.list, w.cells, w.dir, box, dir);
    NewBoxFiles(w, box, dir, files);
    NewBoxSizes(w, box);
    NewBoxSessions(w, box, files);
    hide CountersOk;
    hide DirOk;
    hide FilesOk;
    hide SizesOk;
    hide SubscribersOk;
    hide DeliveriesOk;
    hide PublishersOk;
    hide EventsOk;
  }

  lemma NewBoxFiles(w: World, box: Box, dir: map<CString, nat>, files: seq<seq<Byte>>)
    requires Inv(w) && w.files <= files && DirOk(dir, files)
    requires box == Box(box.name, 0, 0, 0, box.fd, 0, [], [])
    requires forall n :: n in w.dir ==> n in dir && dir[n] == w.dir[n]
    requires box.fd.Some? ==> box.name in dir && dir[box.name] == box.fd.value
    ensures FilesOk(w.list + [|w.cells|], w.cells + [box], dir, files)
  {
    var list, cells := w.list + [|w.cells|], w.cells + [box];
    hide CountersOk;
    hide EventsOk;
    hide PublishersOk;
    hide SizesOk;
    hide SubscribersOk;
    hide DeliveriesOk;
    forall k | 0 <= k < |list| && list[k] < |cells|
      ensures Backed(cells[list[k]], dir, files)
    {
      if k < |w.list| {
        assert w.list[k] < |w.cells| ==> Backed(w.cells[w.list[k]], w.dir, w.files);
      }
    }
  }

  lemma NewBoxSizes(w: World, box: Box)
    requires Inv(w) && box == Box(box.name, 0, 0, 0, box.fd, 0, [], [])
    ensures SizesOk(w.workers, w.cells + [box])
  {
    var cells := w.cells + [box];
    forall i | 0 <= i < |w.workers|
      ensures !Plays(w.workers[i], Storing, |w.cells|)
    {
      if !w.workers[i].Idle? {
        BoxOf(w, i);
      }
    }
    NobodyCounts(w.workers, Storing, |w.cells|);
    hide Count;
    hide Plays;
    hide CountersOk;
    hide EventsOk;
    hide PublishersOk;
    hide FilesOk;
    hide SubscribersOk;
    hide DeliveriesOk;
    forall b: nat | b < |cells|
      ensures SizeOk(w.workers, cells, b)
    {
      assert b < |w.cells| ==> SizeOk(w.workers, w.cells, b);
    }
  }

  lemma NewBoxSessions(w: World, box: Box, files: seq<seq<Byte>>)
    requires Inv(w) && w.files <= files && box == Box(box.name, 0, 0, 0, box.fd, 0, [], [])
    ensures SubscribersOk(w.workers, w.cells + [box], files, w.deliveries)
    ensures DeliveriesOk(w.deliveries, w.cells + [box])
    ensures PublishersOk(w.workers, w.cells + [box])
  {
    var cells := w.cells + [box];
    hide CountersOk;
    hide EventsOk;
    hide FilesOk;
    hide SizesOk;
    hide Relabel;
    forall i | 0 <= i < |w.workers|
      ensures SubscriberOk(w.workers[i], cells, files, w.deliveries) && PublisherOk(w.workers[i], cells)
    {
      assert SubscriberOk(w.workers[i], w.cells, w.files, w.deliveries) && PublisherOk(w.workers[i], w.cells);
    }
    forall s | 0 <= s < |w.deliveries|
      ensures DeliveryOk(w.deliveries[s], cells)
    {
      assert DeliveryOk(w.deliveries[s], w.cells);
    }
    forall b | 0 <= b < |cells|
      ensures BoxOk(cells[b])
    {
    }
  }

  lemma CreateKeeps(w: World, name: CString, opens: bool)
    requires Inv(w) && Runnable(w)
    ensures Inv(ServeCreate(w, name, opens))
  {
    FoundIsListed(w, name);
    if Listed(w.list, w.cells, name) {
      EventsRefused(w.events, w.list, w.cells, w.dir, Event(Created, name, false, -1));
    } else {
      hide Inv;
      hide Listed;
      hide Runnable;
      var box := Box(name, 0, 0, 0, None, 0, [], []);
      InvDir(w);
      if !opens {
        NewBoxKeeps(w, box, w.dir, w.files);
      } else if name in w.dir {
        NewBoxKeeps(w, box.(fd := Some(w.dir[name])), w.dir, w.files);
      } else {
        NewFileKeeps(w.dir, w.files, name);
        NewBoxKeeps(w, box.(fd := Some(|w.files|)), w.dir[name := |w.files|], w.files + [[]]);
      }
    }
  }

  lemma InvDir(w: World)
    requires Inv(w)
    ensures DirOk(w.dir, w.files)
  {
  }

  lemma NewFileKeeps(dir: map<CString, nat>, files: seq<seq<Byte>>, name: CString)
    requires DirOk(dir, files) && name !in dir
    ensures DirOk(dir[name := |files|], files + [[]])
  {
  }

  lemma RemoveKeeps(w: World, name: CString)
    requires Inv(w) && Runnable(w)
    ensures Inv(ServeRemove(w, name))
  {
    var k := Find(w.list, w.cells, name);
    if k < |w.list| && w.cells[w.list[k]].publishers == 0 && w.cells[w.list[k]].subscribers == 0 {
      RemoveFromList(w.workers, w.list, w.cells, k);
      EventsRemoved(w.events, w.list, w.cells, w.dir, k, name);
      FilesRemoved(w, k, name);
    } else {
      EventsRefused(w.events, w.list, w.cells, w.dir, Event(Removed, name, false, -1));
    }
    hide CountersOk;
    hide DirOk;
    hide FilesOk;
    hide SizesOk;
    hide SubscribersOk;
    hide DeliveriesOk;
    hide PublishersOk;
    hide EventsOk;
    hide Runnable;
  }

  /** Unlinking one box's file leaves the other boxes' files where they are. */
  lemma FilesRemoved(w: World, k: int, name: CString)
    requires Inv(w) && 0 <= k < |w.list| && w.list[k] < |w.cells| && w.cells[w.list[k]].name == name
    ensures DirOk(w.dir - {name}, w.files)
    ensures FilesOk(w.list[..k] + w.list[k + 1..], w.cells, w.dir - {name}, w.files)
  {
    var list, dir := w.list[..k] + w.list[k + 1..], w.dir - {name};
    hide EventsOk;
    hide PublishersOk;
    hide SizesOk;
    hide SubscribersOk;
    hide DeliveriesOk;
    hide Flatten;
    hide CounterOk;
    forall j | 0 <= j < |list| && list[j] < |w.cells|
      ensures Backed(w.cells[list[j]], dir, w.files)
    {
      var l := if j < k then j else j + 1;
      assert list[j] == w.list[l] && Backed(w.cells[w.list[l]], w.dir, w.files);
    }
  }

  // ---------- every step ----------

  lemma StepKeeps(w: World, i: int, step: Step)
    requires Inv(w) && Runnable(w) && Enabled(w, i, step)
    ensures Inv(Next(w, i, step))
  {
    match step
    case RegisterPublisher(name, input) => hide Inv; hide Runnable; AttachPublisherKeeps(w, i, name, input);
    case Receive => hide Inv; hide Runnable; ReceiveKeeps(w, i);
    case Store(ok) => hide Inv; hide Runnable; StoreKeeps(w, i, ok);
    case Publish => hide Inv; hide Runnable; PublishKeeps(w, i);
    case LeavePublisher => hide Inv; hide Runnable; DetachPublisherKeeps(w, i);
    case RegisterSubscriber(name, opens) => hide Inv; hide Runnable; AttachSubscriberKeeps(w, i, name, opens);
    case Check => hide Inv; hide Runnable; PassWaitKeeps(w, i);
    case Fetch => hide Inv; hide Runnable; FetchKeeps(w, i);
    case Deliver(ok) => hide Inv; hide Runnable; DeliverKeeps(w, i, ok);
    case LeaveSubscriber => hide Inv; hide Runnable; DetachSubscriberKeeps(w, i);
    case Create(name, opens) => hide Inv; hide Runnable; CreateKeeps(w, name, opens);
    case Remove(name) => hide Inv; hide Runnable; RemoveKeeps(w, name);
  }
}
