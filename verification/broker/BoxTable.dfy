/** The list of message boxes as a sequence of their fields, in list order. */
module BoxTable {
  import opened Collections
  import opened Memory
  import opened BrokerSteps
  import opened BrokerCounters

  datatype Fields = Fields(name: CString, publishers: int, subscribers: int, size: nat, fd: Option<nat>)

  function FieldsOf(box: Box): Fields {
    Fields(box.name, box.publishers, box.subscribers, box.size, box.fd)
  }

  /** The position of the first box of this name, or the length. */
  function Position(boxes: seq<Fields>, name: CString): (i: nat)
    ensures i <= |boxes|
    ensures forall k :: 0 <= k < i ==> boxes[k].name != name
    ensures i < |boxes| ==> boxes[i].name == name
  {
    if boxes == [] || boxes[0].name == name then 0 else 1 + Position(boxes[1..], name)
  }

  lemma PositionIs(boxes: seq<Fields>, name: CString, i: nat)
    requires i <= |boxes| && (forall k :: 0 <= k < i ==> boxes[k].name != name)
    requires (i < |boxes| ==> boxes[i].name == name)
    ensures Position(boxes, name) == i
  {
    var j := Position(boxes, name);
    if j < i {
      assert false;
    } else if i < j {
      assert false;
    }
  }

  ghost predicate NamesDistinct(boxes: seq<Fields>) {
    forall j, k :: 0 <= j < k < |boxes| ==> boxes[j].name != boxes[k].name
  }

  /** Create, register and remove, as the four critical sections leave the list. */
  function Add(boxes: seq<Fields>, name: CString, fd: Option<nat>): seq<Fields> {
    if Position(boxes, name) < |boxes| then boxes else boxes + [Fields(name, 0, 0, 0, fd)]
  }

  function Drop(boxes: seq<Fields>, name: CString): seq<Fields> {
    var i := Position(boxes, name);
    if i < |boxes| && boxes[i].publishers == 0 && boxes[i].subscribers == 0 then boxes[..i] + boxes[i + 1..] else boxes
  }

  function Publish(boxes: seq<Fields>, name: CString): seq<Fields> {
    var i := Position(boxes, name);
    if i < |boxes| && boxes[i].publishers <= 0 then boxes[i := boxes[i].(publishers := 1)] else boxes
  }

  function Subscribe(boxes: seq<Fields>, name: CString, opens: bool): seq<Fields> {
    var i := Position(boxes, name);
    if i < |boxes| && opens then boxes[i := boxes[i].(subscribers := boxes[i].subscribers + 1)] else boxes
  }

  /** What a session does to its box: announce a packet, and leave. */
  function Announce(boxes: seq<Fields>, name: CString): (r: seq<Fields>)
    ensures |r| == |boxes|
  {
    var i := Position(boxes, name);
    if i < |boxes| then boxes[i := boxes[i].(size := boxes[i].size + PACKET_SIZE)] else boxes
  }

  function Unpublish(boxes: seq<Fields>, name: CString): (r: seq<Fields>)
    ensures |r| == |boxes|
  {
    var i := Position(boxes, name);
    if i < |boxes| then boxes[i := boxes[i].(publishers := boxes[i].publishers - 1)] else boxes
  }

  function Unsubscribe(boxes: seq<Fields>, name: CString): (r: seq<Fields>)
    ensures |r| == |boxes|
  {
    var i := Position(boxes, name);
    if i < |boxes| then boxes[i := boxes[i].(subscribers := boxes[i].subscribers - 1)] else boxes
  }

  /** None of them brings a second box of a name. */
  lemma StayDistinct(boxes: seq<Fields>, name: CString, fd: Option<nat>, opens: bool)
    requires NamesDistinct(boxes)
    ensures NamesDistinct(Add(boxes, name, fd)) && NamesDistinct(Drop(boxes, name))
    ensures NamesDistinct(Publish(boxes, name)) && NamesDistinct(Subscribe(boxes, name, opens))
    ensures NamesDistinct(Announce(boxes, name))
    ensures NamesDistinct(Unpublish(boxes, name)) && NamesDistinct(Unsubscribe(boxes, name))
  {
    hide Position;
    RestDistinct(boxes, Position(boxes, name));
  }

  lemma RestDistinct(boxes: seq<Fields>, i: nat)
    requires NamesDistinct(boxes) && i <= |boxes|
    ensures i < |boxes| ==> NamesDistinct(boxes[..i] + boxes[i + 1..])
  {
  }

  /** Dropping takes out the box of that name if nobody uses it, and keeps the rest in order. */
  lemma DropIs(boxes: seq<Fields>, name: CString, i: nat)
    requires NamesDistinct(boxes) && i < |boxes| && boxes[i].name == name
    ensures Drop(boxes, name)
         == if boxes[i].publishers == 0 && boxes[i].subscribers == 0 then boxes[..i] + boxes[i + 1..] else boxes
    ensures Position(Drop(boxes, name), name) == |Drop(boxes, name)|
       <==> boxes[i].publishers == 0 && boxes[i].subscribers == 0
  {
    PositionIs(boxes, name, i);
    var rest := boxes[..i] + boxes[i + 1..];
    assert forall k :: 0 <= k < |rest| ==> rest[k] == boxes[if k < i then k else k + 1];
    PositionIs(rest, name, |rest|);
  }

  // ---------- the same list in the state machine ----------

  function Rows(list: seq<nat>, cells: seq<Box>): (boxes: seq<Fields>)
    requires forall k :: 0 <= k < |list| ==> list[k] < |cells|
    ensures |boxes| == |list| && forall k :: 0 <= k < |list| ==> boxes[k] == FieldsOf(cells[list[k]])
  {
    seq(|list|, k requires 0 <= k < |list| => FieldsOf(cells[list[k]]))
  }

  function Table(w: World): (boxes: seq<Fields>)
    requires forall k :: 0 <= k < |w.list| ==> w.list[k] < |w.cells|
    ensures |boxes| == |w.list|
  {
    Rows(w.list, w.cells)
  }

  lemma RowsMore(list: seq<nat>, cells: seq<Box>, box: Box)
    requires forall k :: 0 <= k < |list| ==> list[k] < |cells|
    ensures Rows(list + [|cells|], cells + [box]) == Rows(list, cells) + [FieldsOf(box)]
  {
  }

  lemma RowsLess(list: seq<nat>, cells: seq<Box>, i: nat)
    requires i < |list| && forall k :: 0 <= k < |list| ==> list[k] < |cells|
    ensures var rest := list[..i] + list[i + 1..];
            && (forall k :: 0 <= k < |rest| ==> rest[k] < |cells|)
            && Rows(rest, cells) == Rows(list, cells)[..i] + Rows(list, cells)[i + 1..]
  {
  }

  lemma FindIsPosition(w: World, name: CString)
    requires forall k :: 0 <= k < |w.list| ==> w.list[k] < |w.cells|
    ensures Find(w.list, w.cells, name) == Position(Table(w), name)
  {
    PositionIs(Table(w), name, Find(w.list, w.cells, name));
  }

  /** Where add_msg_box's open(2) leads. */
  function Opened(w: World, name: CString, opens: bool): Option<nat> {
    if !opens then None else if name in w.dir then Some(w.dir[name]) else Some(|w.files|)
  }

  lemma CreateTable(w: World, name: CString, opens: bool)
    requires Runnable(w)
    ensures var w' := ServeCreate(w, name, opens);
            && (forall k :: 0 <= k < |w'.list| ==> w'.list[k] < |w'.cells|)
            && Table(w') == Add(Table(w), name, Opened(w, name, opens))
  {
    hide Find;
    hide Position;
    hide Records;
    FindIsPosition(w, name);
    RowsMore(w.list, w.cells, Box(name, 0, 0, 0, Opened(w, name, opens), 0, [], []));
    hide Rows;
  }

  lemma RemoveTable(w: World, name: CString)
    requires Runnable(w)
    ensures var w' := ServeRemove(w, name);
            && (forall k :: 0 <= k < |w'.list| ==> w'.list[k] < |w'.cells|)
            && Table(w') == Drop(Table(w), name)
  {
    hide Find;
    hide Position;
    hide Records;
    FindIsPosition(w, name);
    var i := Find(w.list, w.cells, name);
    if i < |w.list| {
      RowsLess(w.list, w.cells, i);
    }
    hide Rows;
  }

  lemma AttachTable(w: World, i: int, name: CString, input: seq<seq<Byte>>, opens: bool)
    requires Runnable(w) && 0 <= i < |w.workers|
    requires forall j, k :: 0 <= j < k < |w.list| ==> w.list[j] != w.list[k]
    ensures Table(AttachPublisher(w, i, name, input)) == Publish(Table(w), name)
    ensures Table(AttachSubscriber(w, i, name, opens)) == Subscribe(Table(w), name, opens && name in w.dir)
  {
    hide Find;
    hide Position;
    hide Records;
    FindIsPosition(w, name);
    var k := Find(w.list, w.cells, name);
    if k < |w.list| {
      var box := w.cells[w.list[k]];
      CellTable(w, k, box.(publishers := 1, sessions := box.sessions + [Session(input, 0, [])]));
      CellTable(w, k, box.(subscribers := w.cells[w.list[k]].subscribers + 1));
    }
  }

  /** Changing one box changes its row. */
  lemma CellTable(w: World, k: nat, box: Box)
    requires k < |w.list| && (forall j :: 0 <= j < |w.list| ==> w.list[j] < |w.cells|)
    requires forall i, j :: 0 <= i < j < |w.list| ==> w.list[i] != w.list[j]
    ensures Table(WithCell(w, w.list[k], box)) == Table(w)[k := FieldsOf(box)]
  {
  }

  /** The row of a box in the list is found by its name. */
  lemma RowOf(w: World, b: nat) returns (k: nat)
    requires ListOk(w.list, w.cells) && b in w.list
    ensures k < |w.list| && w.list[k] == b && b < |w.cells| && Position(Table(w), w.cells[b].name) == k
  {
    k :| 0 <= k < |w.list| && w.list[k] == b;
    PositionIs(Table(w), w.cells[b].name, k);
  }

  lemma AnnounceTable(w: World, i: int)
    requires Runnable(w) && ListOk(w.list, w.cells) && 0 <= i < |w.workers| && w.workers[i].PubStored?
    ensures w.workers[i].box < |w.cells|
    ensures Table(PublishSize(w, i)) == Announce(Table(w), w.cells[w.workers[i].box].name)
  {
    hide Records;
    hide Position;
    var b := w.workers[i].box;
    var k := RowOf(w, b);
    CellTable(w, k, w.cells[b].(size := w.cells[b].size + PACKET_SIZE));
    hide Rows;
  }

  lemma UnpublishTable(w: World, i: int)
    requires Runnable(w) && ListOk(w.list, w.cells) && 0 <= i < |w.workers| && w.workers[i].PubLeaving?
    ensures w.workers[i].box < |w.cells|
    ensures Table(DetachPublisher(w, i)) == Unpublish(Table(w), w.cells[w.workers[i].box].name)
  {
    hide Records;
    hide Position;
    var b := w.workers[i].box;
    var k := RowOf(w, b);
    CellTable(w, k, w.cells[b].(publishers := w.cells[b].publishers - 1));
    hide Rows;
  }

  lemma UnsubscribeTable(w: World, i: int)
    requires Runnable(w) && ListOk(w.list, w.cells) && 0 <= i < |w.workers| && w.workers[i].SubLeaving?
    ensures w.workers[i].box < |w.cells|
    ensures Table(DetachSubscriber(w, i)) == Unsubscribe(Table(w), w.cells[w.workers[i].box].name)
  {
    hide Records;
    hide Position;
    var b := w.workers[i].box;
    var k := RowOf(w, b);
    CellTable(w, k, w.cells[b].(subscribers := w.cells[b].subscribers - 1));
    hide Rows;
  }
}
