/** The broker of mbroker.c as a state machine. A step is one lock region, one file or pipe operation,
    or one request served in a single region. */
module BrokerSteps {
  import opened Collections
  import opened Memory

  const PACKET_SIZE: nat := 1025
  const ID_SEND_MSG_SERVER: Byte := 9
  const ID_SEND_MSG_SUBSCRIBER: Byte := 10

  predicate IsPacket(p: seq<Byte>) {
    |p| == PACKET_SIZE
  }

  /** packet.code = ID_SEND_MSG_SUBSCRIBER. */
  function Relabel(p: seq<Byte>): (r: seq<Byte>)
    requires IsPacket(p)
    ensures IsPacket(r) && r[0] == ID_SEND_MSG_SUBSCRIBER && r[1..] == p[1..]
  {
    p[0 := ID_SEND_MSG_SUBSCRIBER]
  }

  /** One publisher's session, remembered: what its pipe yields, read by read, how much has been read,
      and the packets of it that reached the box's file. */
  datatype Session = Session(input: seq<seq<Byte>>, taken: nat, stored: seq<seq<Byte>>)

  /** A message_box. `log` and `sessions` are not fields of the source: they remember the packets
      written since the box was created, and the publisher sessions in attach order. */
  datatype Box = Box(
    name: CString,
    publishers: int,
    subscribers: int,
    size: nat,
    fd: Option<nat>,
    writeOffset: nat,
    log: seq<seq<Byte>>,
    sessions: seq<Session>)

  /** Where a worker thread is in the handler it runs. A box is a pointer, a file descriptor names a file. */
  datatype Worker =
    | Idle
    | PubReading(box: nat, session: nat)
    | PubHolding(box: nat, session: nat, packet: seq<Byte>)
    | PubStored(box: nat, session: nat)
    | PubLeaving(box: nat, session: nat)
    | SubWaiting(box: nat, file: nat, pos: nat, session: nat)
    | SubReady(box: nat, file: nat, pos: nat, session: nat)
    | SubHolding(box: nat, file: nat, pos: nat, session: nat, packet: seq<Byte>)
    | SubLeaving(box: nat, session: nat)
  {
    predicate Publishes() {
      PubReading? || PubHolding? || PubStored? || PubLeaving?
    }

    predicate Subscribes() {
      HasFile() || SubLeaving?
    }

    predicate HasFile() {
      SubWaiting? || SubReady? || SubHolding?
    }
  }

  /** What a subscriber's pipe has been given, in order. */
  datatype Delivery = Delivery(box: nat, packets: seq<seq<Byte>>)

  datatype Op = Created | Removed

  /** A create or remove request as served: the reply code, and whether the list changed. */
  datatype Event = Event(op: Op, name: CString, changed: bool, code: int)

  /** `cells` are the message boxes ever allocated, by address; `list` the addresses linked from msg_boxes, in order.
      `dir` and `files` are the operating system's: names of files, and the bytes of each. */
  datatype World = World(
    workers: seq<Worker>,
    list: seq<nat>,
    cells: seq<Box>,
    dir: map<CString, nat>,
    files: seq<seq<Byte>>,
    deliveries: seq<Delivery>,
    events: seq<Event>)

  datatype Step =
    | RegisterPublisher(name: CString, input: seq<seq<Byte>>)
    | Receive
    | Store(ok: bool)
    | Publish
    | LeavePublisher
    | RegisterSubscriber(name: CString, opens: bool)
    | Check
    | Fetch
    | Deliver(ok: bool)
    | LeaveSubscriber
    | Create(name: CString, opens: bool)
    | Remove(name: CString)

  /** get_msg_box: the position in the list of the first box of this name, or the length. */
  function Find(list: seq<nat>, cells: seq<Box>, name: CString, from: nat := 0): (i: nat)
    requires from <= |list| && forall k :: 0 <= k < |list| ==> list[k] < |cells|
    ensures from <= i <= |list|
    ensures forall k :: from <= k < i ==> cells[list[k]].name != name
    ensures i < |list| ==> cells[list[i]].name == name
    decreases |list| - from
  {
    if from == |list| || cells[list[from]].name == name then from else Find(list, cells, name, from + 1)
  }

  // ---------- what must hold for the handlers to be safe to run ----------

  /** Every pointer in the list and in a running handler is to a box that has not been freed. */
  ghost predicate Pointers(w: World) {
    && (forall k :: 0 <= k < |w.list| ==> w.list[k] < |w.cells|)
    && (forall i :: 0 <= i < |w.workers| && !w.workers[i].Idle? ==> w.workers[i].box in w.list)
  }

  /** Descriptors name files, a publisher's box remembers its session, a subscriber has its delivery record. */
  ghost predicate Records(w: World) {
    && (forall b :: b in w.list && b < |w.cells| && w.cells[b].fd.Some? ==>
          w.cells[b].fd.value < |w.files| && w.cells[b].writeOffset <= |w.files[w.cells[b].fd.value]|)
    && (forall n :: n in w.dir ==> w.dir[n] < |w.files|)
    && (forall i :: 0 <= i < |w.workers| && w.workers[i].Publishes() && w.workers[i].box < |w.cells| ==>
          w.workers[i].session < |w.cells[w.workers[i].box].sessions|)
    && (forall i :: 0 <= i < |w.workers| && w.workers[i].Subscribes() ==> w.workers[i].session < |w.deliveries|)
    && (forall i :: 0 <= i < |w.workers| && w.workers[i].HasFile() ==>
          w.workers[i].file < |w.files|)
    && (forall i :: 0 <= i < |w.workers| ==>
          && (w.workers[i].PubHolding? ==> IsPacket(w.workers[i].packet))
          && (w.workers[i].SubHolding? ==> IsPacket(w.workers[i].packet)))
  }

  ghost predicate Runnable(w: World) {
    Pointers(w) && Records(w)
  }

  /** Worker i can take this step. */
  ghost predicate Enabled(w: World, i: int, step: Step)
    requires Runnable(w)
  {
    0 <= i < |w.workers| &&
    match step
    case RegisterPublisher(_, _) => w.workers[i].Idle?
    case Receive => w.workers[i].PubReading?
    case Store(_) => w.workers[i].PubHolding?
    case Publish => w.workers[i].PubStored?
    case LeavePublisher => w.workers[i].PubLeaving?
    case RegisterSubscriber(_, _) => w.workers[i].Idle?
    case Check => w.workers[i].SubWaiting? && w.cells[w.workers[i].box].size != w.workers[i].pos
    case Fetch => w.workers[i].SubReady?
    case Deliver(_) => w.workers[i].SubHolding?
    case LeaveSubscriber => w.workers[i].SubLeaving?
    case Create(_, _) => w.workers[i].Idle?
    case Remove(_) => w.workers[i].Idle?
  }

  function Moved(w: World, i: int, worker: Worker): World
    requires 0 <= i < |w.workers|
  {
    w.(workers := w.workers[i := worker])
  }

  function WithCell(w: World, b: nat, box: Box): World
    requires b < |w.cells|
  {
    w.(cells := w.cells[b := box])
  }

  function WithSession(box: Box, k: nat, s: Session): Box
    requires k < |box.sessions|
  {
    box.(sessions := box.sessions[k := s])
  }

  // ---------- publishers ----------

  /** handle_packet_register_pub under messages_lock: refused when there is no such box or it has a publisher. */
  function AttachPublisher(w: World, i: int, name: CString, input: seq<seq<Byte>>): World
    requires Runnable(w) && 0 <= i < |w.workers|
  {
    var k := Find(w.list, w.cells, name);
    if k == |w.list| || w.cells[w.list[k]].publishers > 0 then w
    else
      var b, box := w.list[k], w.cells[w.list[k]];
      Moved(WithCell(w, b, box.(publishers := 1, sessions := box.sessions + [Session(input, 0, [])])),
            i, PubReading(b, |box.sessions|))
  }

  /** Its read: nothing more to read, or not a message for the server, ends the session. */
  function ReceivePacket(w: World, i: int): World
    requires Runnable(w) && 0 <= i < |w.workers| && w.workers[i].PubReading?
  {
    var PubReading(b, k) := w.workers[i];
    var box := w.cells[b];
    var s := box.sessions[k];
    if s.taken >= |s.input| then Moved(w, i, PubLeaving(b, k))
    else
      var p := s.input[s.taken];
      Moved(WithCell(w, b, WithSession(box, k, s.(taken := s.taken + 1))), i,
            if IsPacket(p) && p[0] == ID_SEND_MSG_SERVER then PubHolding(b, k, p) else PubLeaving(b, k))
  }

  /** The write of handle_packet_register_pub: all of the packet at the descriptor's offset, or none of it. */
  function StorePacket(w: World, i: int, ok: bool): World
    requires Runnable(w) && 0 <= i < |w.workers| && w.workers[i].PubHolding?
  {
    var PubHolding(b, k, p) := w.workers[i];
    var box := w.cells[b];
    if !ok || box.fd.None? then Moved(w, i, PubLeaving(b, k))
    else
      var s, f := box.sessions[k], box.fd.value;
      var box' := WithSession(box.(writeOffset := box.writeOffset + PACKET_SIZE, log := box.log + [p]), k,
                              s.(stored := s.stored + [p]));
      Moved(WithCell(w, b, box'), i, PubStored(b, k))
      .(files := w.files[f := Overwrite(w.files[f], box.writeOffset, p)])
  }

  /** Its region under wait_mutex: the size is announced. */
  function PublishSize(w: World, i: int): World
    requires Runnable(w) && 0 <= i < |w.workers| && w.workers[i].PubStored?
  {
    var PubStored(b, k) := w.workers[i];
    Moved(WithCell(w, b, w.cells[b].(size := w.cells[b].size + PACKET_SIZE)), i, PubReading(b, k))
  }

  /** Its end. */
  function DetachPublisher(w: World, i: int): World
    requires Runnable(w) && 0 <= i < |w.workers| && w.workers[i].PubLeaving?
  {
    var b := w.workers[i].box;
    Moved(WithCell(w, b, w.cells[b].(publishers := w.cells[b].publishers - 1)), i, Idle)
  }

  // ---------- subscribers ----------

  /** handle_packet_register_sub under messages_lock: the box's file is opened for reading. */
  function AttachSubscriber(w: World, i: int, name: CString, opens: bool): World
    requires Runnable(w) && 0 <= i < |w.workers|
  {
    var k := Find(w.list, w.cells, name);
    if k == |w.list| || !opens || name !in w.dir then w
    else
      var b, box := w.list[k], w.cells[w.list[k]];
      Moved(WithCell(w, b, box.(subscribers := box.subscribers + 1)), i, SubWaiting(b, w.dir[name], 0, |w.deliveries|))
      .(deliveries := w.deliveries + [Delivery(b, [])])
  }

  /** Its region under wait_mutex, when the wait is over. */
  function PassWait(w: World, i: int): World
    requires 0 <= i < |w.workers| && w.workers[i].SubWaiting?
  {
    var SubWaiting(b, f, pos, session) := w.workers[i];
    Moved(w, i, SubReady(b, f, pos, session))
  }

  /** Its read from the file, which moves the offset by what it returns. */
  function FetchPacket(w: World, i: int): World
    requires Runnable(w) && 0 <= i < |w.workers| && w.workers[i].SubReady?
  {
    var SubReady(b, f, pos, session) := w.workers[i];
    var rread := FetchLength(w, i);
    if rread == 0 then Moved(w, i, SubWaiting(b, f, pos, session))
    else if rread != PACKET_SIZE then Moved(w, i, SubLeaving(b, session))
    else Moved(w, i, SubHolding(b, f, pos + rread, session, Relabel(w.files[f][pos..pos + rread])))
  }

  /** What read returns: up to a packet of the bytes from the offset on. */
  function FetchLength(w: World, i: int): (n: nat)
    requires Runnable(w) && 0 <= i < |w.workers| && w.workers[i].SubReady?
    ensures n <= PACKET_SIZE && (n > 0 ==> w.workers[i].pos + n <= |w.files[w.workers[i].file]|)
  {
    var pos, size := w.workers[i].pos, |w.files[w.workers[i].file]|;
    if pos >= size then 0 else Min(PACKET_SIZE, size - pos)
  }

  /** Its write to the pipe, which takes the packet, or the session ends. */
  function DeliverPacket(w: World, i: int, ok: bool): World
    requires Runnable(w) && 0 <= i < |w.workers| && w.workers[i].SubHolding?
  {
    var SubHolding(b, f, pos, session, p) := w.workers[i];
    if !ok then Moved(w, i, SubLeaving(b, session))
    else
      var d := w.deliveries[session];
      Moved(w, i, SubWaiting(b, f, pos, session))
      .(deliveries := w.deliveries[session := d.(packets := d.packets + [p])])
  }

  /** Its end. */
  function DetachSubscriber(w: World, i: int): World
    requires Runnable(w) && 0 <= i < |w.workers| && w.workers[i].SubLeaving?
  {
    var b := w.workers[i].box;
    Moved(WithCell(w, b, w.cells[b].(subscribers := w.cells[b].subscribers - 1)), i, Idle)
  }

  // ---------- creating and removing boxes ----------

  /** add_msg_box: the new box goes to the end of the list. O_CREAT without O_TRUNC opens a file that exists as
      it is. */
  function AddBox(w: World, name: CString, opens: bool): World {
    var box := Box(name, 0, 0, 0, None, 0, [], []);
    if !opens then
      w.(cells := w.cells + [box], list := w.list + [|w.cells|])
    else if name in w.dir then
      w.(cells := w.cells + [box.(fd := Some(w.dir[name]))], list := w.list + [|w.cells|])
    else
      w.(cells := w.cells + [box.(fd := Some(|w.files|))], list := w.list + [|w.cells|],
         dir := w.dir[name := |w.files|], files := w.files + [[]])
  }

  /** handle_packet_create_msg_box: the reply is 0 when get_msg_box returned NULL. */
  function ServeCreate(w: World, name: CString, opens: bool): World
    requires Runnable(w)
  {
    if Find(w.list, w.cells, name) == |w.list|
    then AddBox(w, name, opens).(events := w.events + [Event(Created, name, true, 0)])
    else w.(events := w.events + [Event(Created, name, false, -1)])
  }

  /** handle_packet_remove_msg_box: a box in use stays. remove_msg_box unlinks the box and its file. */
  function ServeRemove(w: World, name: CString): World
    requires Runnable(w)
  {
    var k := Find(w.list, w.cells, name);
    if k < |w.list| && w.cells[w.list[k]].publishers == 0 && w.cells[w.list[k]].subscribers == 0
    then w.(list := w.list[..k] + w.list[k + 1..], dir := w.dir - {name},
            events := w.events + [Event(Removed, name, true, 0)])
    else w.(events := w.events + [Event(Removed, name, false, -1)])
  }

  ghost function Next(w: World, i: int, step: Step): World
    requires Runnable(w) && Enabled(w, i, step)
  {
    match step
    case RegisterPublisher(name, input) => AttachPublisher(w, i, name, input)
    case Receive => ReceivePacket(w, i)
    case Store(ok) => StorePacket(w, i, ok)
    case Publish => PublishSize(w, i)
    case LeavePublisher => DetachPublisher(w, i)
    case RegisterSubscriber(name, opens) => AttachSubscriber(w, i, name, opens)
    case Check => PassWait(w, i)
    case Fetch => FetchPacket(w, i)
    case Deliver(ok) => DeliverPacket(w, i, ok)
    case LeaveSubscriber => DetachSubscriber(w, i)
    case Create(name, opens) => ServeCreate(w, name, opens)
    case Remove(name) => ServeRemove(w, name)
  }
}
