/** The linked list of mbroker.c: nodes, next pointers, and the four critical sections under messages_lock. */
module BoxList {
  import opened Collections
  import opened Memory
  import opened BoxTable

  /** A message_box, without its file, mutex and condition variable. */
  class MessageBox {
    const name: CString
    const fd: Option<nat>
    var publishers: int
    var subscribers: int
    var size: nat
    var next: MessageBox?

    constructor (name: CString, fd: Option<nat>)
      ensures this.name == name && this.fd == fd && publishers == 0 && subscribers == 0 && size == 0 && next == null
    {
      this.name := name;
      this.fd := fd;
      publishers := 0;
      subscribers := 0;
      size := 0;
      next := null;
    }

    /** The node holds these fields. */
    ghost predicate Holds(f: Fields)
      reads this
    {
      f == Fields(name, publishers, subscribers, size, fd)
    }
  }

  /** No node twice. */
  ghost predicate Distinct(nodes: seq<MessageBox>) {
    forall i, j :: 0 <= i < j < |nodes| ==> nodes[i] != nodes[j]
  }

  lemma DistinctFrom(nodes: seq<MessageBox>, i: nat)
    requires Distinct(nodes) && i < |nodes|
    ensures forall k :: 0 <= k < |nodes| && k != i ==> nodes[k] != nodes[i]
  {
  }

  lemma DistinctRest(nodes: seq<MessageBox>, i: nat)
    requires Distinct(nodes) && i < |nodes|
    ensures Distinct(nodes[..i] + nodes[i + 1..])
  {
  }

  class MessageBoxes {
    var msgBoxes: MessageBox?
    ghost var nodes: seq<MessageBox>
    ghost var boxes: seq<Fields>

    /** The nodes are the ones the next pointers lead through, each once, and the last points nowhere. */
    ghost predicate Valid()
      reads this, nodes
    {
      && msgBoxes == At(0)
      && (forall i, j :: 0 <= i < |nodes| && 0 <= j < |nodes| && j == i + 1 ==> nodes[i].next == nodes[j])
      && (nodes != [] ==> nodes[|nodes| - 1].next == null)
      && Distinct(nodes)
      && |boxes| == |nodes| && (forall i :: 0 <= i < |nodes| ==> nodes[i].Holds(boxes[i]))
    }

    /** The i-th node, or NULL behind the last. */
    ghost function At(i: nat): MessageBox?
      reads this
    {
      if i < |nodes| then nodes[i] else null
    }

    constructor ()
      ensures Valid() && nodes == [] && boxes == []
    {
      msgBoxes := null;
      nodes := [];
      boxes := [];
    }

    /** get_msg_box. */
    method GetMsgBox(name: CString) returns (box: MessageBox?)
      requires Valid()
      ensures box == At(Position(boxes, name))
    {
      hide Position;
      box := msgBoxes;
      ghost var i := 0;
      while box != null
        invariant i <= |nodes| && box == At(i)
        invariant forall k :: 0 <= k < i ==> nodes[k].name != name
        decreases |nodes| - i
      {
        if box.name == name {
          PositionIs(boxes, name, i);
          return;
        }
        box := box.next;
        i := i + 1;
      }
      PositionIs(boxes, name, |nodes|);
    }

    /** add_msg_box: the new node is linked behind the last. */
    method AddMsgBox(name: CString, fd: Option<nat>)
      requires Valid()
      modifies this, nodes
      ensures Valid() && |nodes| == |old(nodes)| + 1 && nodes[..|old(nodes)|] == old(nodes)
      ensures fresh(nodes[|old(nodes)|])
      ensures boxes == old(boxes) + [Fields(name, 0, 0, 0, fd)]
    {
      hide Position;
      var newBox := new MessageBox(name, fd);
      if msgBoxes == null {
        msgBoxes := newBox;
      } else {
        var current := msgBoxes;
        ghost var i := 0;
        while current.next != null
          invariant 0 <= i < |nodes| && current == nodes[i]
          decreases |nodes| - i
        {
          assert current.next == At(i + 1);
          current := current.next;
          i := i + 1;
        }
        assert current.next == At(i + 1);
        current.next := newBox;
      }
      nodes := nodes + [newBox];
      boxes := boxes + [Fields(name, 0, 0, 0, fd)];
    }

    /** remove_msg_box: the first node of that name is unlinked; the others stay, in their order. */
    method RemoveMsgBox(name: CString)
      requires Valid()
      modifies this, nodes
      ensures Valid()
      ensures var i := Position(old(boxes), name);
              && nodes == (if i < |old(nodes)| then old(nodes)[..i] + old(nodes)[i + 1..] else old(nodes))
              && boxes == (if i < |old(nodes)| then old(boxes)[..i] + old(boxes)[i + 1..] else old(boxes))
    {
      hide Position;
      var current: MessageBox? := msgBoxes;
      var previous: MessageBox? := null;
      ghost var i := 0;
      while current != null
        invariant i <= |nodes| && current == At(i)
        invariant previous == if i > 0 then At(i - 1) else null
        invariant forall k :: 0 <= k < i ==> nodes[k].name != name
        decreases |nodes| - i
      {
        if current.name == name {
          PositionIs(boxes, name, i);
          Unlink(previous, current, i);
          return;
        }
        previous := current;
        current := current.next;
        i := i + 1;
      }
      PositionIs(boxes, name, |nodes|);
    }

    /** The node behind it, if any, takes its place. */
    method Unlink(previous: MessageBox?, current: MessageBox, ghost i: nat)
      requires Valid() && i < |nodes| && current == nodes[i] && previous == (if i > 0 then At(i - 1) else null)
      modifies this, nodes
      ensures Valid() && nodes == old(nodes)[..i] + old(nodes)[i + 1..]
      ensures boxes == old(boxes)[..i] + old(boxes)[i + 1..]
    {
      hide Distinct;
      DistinctRest(nodes, i);
      assert current.next == At(i + 1);
      ghost var rest, rows := nodes[..i] + nodes[i + 1..], boxes[..i] + boxes[i + 1..];
      if previous == null {
        msgBoxes := current.next;
      } else {
        DistinctFrom(nodes, i - 1);
        previous.next := current.next;
      }
      forall k | 0 <= k < |rest|
        ensures rest[k].Holds(rows[k])
        ensures rest[k].next == if k + 1 < |rest| then rest[k + 1] else null
      {
        ghost var l := if k < i then k else k + 1;
        assert rest[k] == nodes[l] && rows[k] == boxes[l] && nodes[l].Holds(boxes[l]);
        assert old(nodes[l].next) == old(At(l + 1));
      }
      nodes := rest;
      boxes := rows;
    }

    // ---------- the critical sections ----------

    /** handle_packet_create_msg_box; `fd` is what add_msg_box's open would return. */
    method Create(name: CString, fd: Option<nat>) returns (code: int)
      requires Valid() && NamesDistinct(boxes)
      modifies this, nodes
      ensures Valid() && NamesDistinct(boxes) && boxes == Add(old(boxes), name, fd)
      ensures code == (if boxes == old(boxes) then -1 else 0)
    {
      hide Position;
      hide NamesDistinct;
      StayDistinct(boxes, name, fd, false);
      var box := GetMsgBox(name);
      if box == null {
        AddMsgBox(name, fd);
        return 0;
      }
      return -1;
    }

    /** handle_packet_remove_msg_box. */
    method Remove(name: CString) returns (code: int)
      requires Valid() && NamesDistinct(boxes)
      modifies this, nodes
      ensures Valid() && NamesDistinct(boxes) && boxes == Drop(old(boxes), name)
      ensures code == (if boxes == old(boxes) then -1 else 0)
    {
      hide Position;
      hide NamesDistinct;
      StayDistinct(boxes, name, None, false);
      var box := GetMsgBox(name);
      if box != null && box.publishers == 0 && box.subscribers == 0 {
        RemoveMsgBox(name);
        return 0;
      }
      return -1;
    }

    /** handle_packet_register_pub: the box, or NULL when the publisher is turned away. */
    method RegisterPublisher(name: CString) returns (box: MessageBox?)
      requires Valid() && NamesDistinct(boxes)
      modifies this`boxes, nodes
      ensures Valid() && NamesDistinct(boxes) && boxes == Publish(old(boxes), name)
      ensures box != null ==> box in nodes && box.name == name && box.publishers == 1
      ensures box == null <==>
                (Position(old(boxes), name) == |nodes| || old(boxes)[Position(old(boxes), name)].publishers > 0)
    {
      hide Distinct;
      hide Position;
      hide NamesDistinct;
      StayDistinct(boxes, name, None, false);
      ghost var i := Position(boxes, name);
      box := GetMsgBox(name);
      if box == null || box.publishers > 0 {
        return null;
      }
      DistinctFrom(nodes, i);
      box.publishers := 1;
      boxes := boxes[i := boxes[i].(publishers := 1)];
    }

    /** handle_packet_register_sub: the box, or NULL when there is none or its file does not open. */
    method RegisterSubscriber(name: CString, opens: bool) returns (box: MessageBox?)
      requires Valid() && NamesDistinct(boxes)
      modifies this`boxes, nodes
      ensures Valid() && NamesDistinct(boxes) && boxes == Subscribe(old(boxes), name, opens)
      ensures box != null ==> box in nodes && box.name == name
      ensures box == null <==> (Position(old(boxes), name) == |nodes| || !opens)
    {
      hide Distinct;
      hide Position;
      hide NamesDistinct;
      StayDistinct(boxes, name, None, opens);
      ghost var i := Position(boxes, name);
      box := GetMsgBox(name);
      if box == null || !opens {
        return null;
      }
      DistinctFrom(nodes, i);
      box.subscribers := box.subscribers + 1;
      boxes := boxes[i := boxes[i].(subscribers := boxes[i].subscribers + 1)];
    }

    // ---------- the sessions ----------

    /** msg->size += sizeof(msg_packet). */
    method AnnouncePacket(box: MessageBox)
      requires Valid() && NamesDistinct(boxes) && box in nodes
      modifies this`boxes, nodes
      ensures Valid() && NamesDistinct(boxes) && boxes == Announce(old(boxes), box.name)
    {
      hide Position;
      hide NamesDistinct;
      hide Distinct;
      StayDistinct(boxes, box.name, None, false);
      ghost var i := RowOfNode(box);
      box.size := box.size + BrokerSteps.PACKET_SIZE;
      boxes := boxes[i := boxes[i].(size := boxes[i].size + BrokerSteps.PACKET_SIZE)];
    }

    /** msg->publishers--. */
    method LeavePublisher(box: MessageBox)
      requires Valid() && NamesDistinct(boxes) && box in nodes
      modifies this`boxes, nodes
      ensures Valid() && NamesDistinct(boxes) && boxes == Unpublish(old(boxes), box.name)
    {
      hide Position;
      hide NamesDistinct;
      hide Distinct;
      StayDistinct(boxes, box.name, None, false);
      ghost var i := RowOfNode(box);
      box.publishers := box.publishers - 1;
      boxes := boxes[i := boxes[i].(publishers := boxes[i].publishers - 1)];
    }

    /** msg->subscribers--. */
    method LeaveSubscriber(box: MessageBox)
      requires Valid() && NamesDistinct(boxes) && box in nodes
      modifies this`boxes, nodes
      ensures Valid() && NamesDistinct(boxes) && boxes == Unsubscribe(old(boxes), box.name)
    {
      hide Position;
      hide NamesDistinct;
      hide Distinct;
      StayDistinct(boxes, box.name, None, false);
      ghost var i := RowOfNode(box);
      box.subscribers := box.subscribers - 1;
      boxes := boxes[i := boxes[i].(subscribers := boxes[i].subscribers - 1)];
    }

    /** A node's row is the one of its name. */
    lemma RowOfNode(box: MessageBox) returns (i: nat)
      requires Valid() && NamesDistinct(boxes) && box in nodes
      ensures i < |nodes| && nodes[i] == box && Position(boxes, box.name) == i
      ensures forall k :: 0 <= k < |nodes| && k != i ==> nodes[k] != box
    {
      i :| 0 <= i < |nodes| && nodes[i] == box;
      DistinctFrom(nodes, i);
      PositionIs(boxes, box.name, i);
    }
  }
}
