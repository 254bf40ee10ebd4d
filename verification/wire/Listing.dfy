/** The listing: packet by packet from the broker's list to the manager's output. */
module Listing {
  import opened Collections
  import opened Memory
  import opened BoxTable
  import opened BoxList
  import opened Sorting
  import opened Vectors

  const NAME_LEN: nat := 32
  const RESPONSE_SIZE: nat := 58
  const ID_RESPONSE_LIST_MSG_BOX: Byte := 8
  const WORD: nat := 8

  // ---------- 64-bit numbers ----------

  /** 256 to the n. */
  function Pow256(n: nat): (p: nat)
    ensures p >= 1
  {
    if n == 0 then 1 else 256 * Pow256(n - 1)
  }

  /** n bytes of a number, least significant first. */
  function WordBytes(v: nat, n: nat): (b: seq<Byte>)
    ensures |b| == n
  {
    if n == 0 then [] else [v % 256] + WordBytes(v / 256, n - 1)
  }

  function WordValue(b: seq<Byte>): nat {
    if b == [] then 0 else var low: int := b[0]; low + 256 * WordValue(b[1..])
  }

  lemma {:induction false} WordRoundTrip(v: nat, n: nat)
    requires v < Pow256(n)
    ensures WordValue(WordBytes(v, n)) == v
    decreases n
  {
    if n > 0 {
      assert v == 256 * (v / 256) + v % 256;
      WordRoundTrip(v / 256, n - 1);
      assert WordBytes(v, n)[1..] == WordBytes(v / 256, n - 1);
    }
  }

  // ---------- packets ----------

  /** The names fit their field, and the counters are u64. */
  predicate RowFits(r: Row) {
    |r.name| < NAME_LEN && r.size < Pow256(WORD) && r.publishers < Pow256(WORD) && r.subscribers < Pow256(WORD)
  }

  ghost predicate RowsFit(rows: seq<Row>) {
    forall k :: 0 <= k < |rows| ==> RowFits(rows[k])
  }

  /** A list_msg_box_response_packet. */
  function Response(last: bool, field: seq<Byte>, size: nat, publishers: nat, subscribers: nat): (p: seq<Byte>)
    requires |field| == NAME_LEN
    ensures |p| == RESPONSE_SIZE
  {
    [ID_RESPONSE_LIST_MSG_BOX, if last then 1 else 0] + field
    + WordBytes(size, WORD) + WordBytes(publishers, WORD) + WordBytes(subscribers, WORD)
  }

  function IsLast(p: seq<Byte>): bool
    requires |p| == RESPONSE_SIZE
  {
    p[1] != 0
  }

  function ReadRow(p: seq<Byte>): Row
    requires |p| == RESPONSE_SIZE
  {
    Row(CStr(p[2..34]), WordValue(p[34..42]), WordValue(p[42..50]), WordValue(p[50..58]))
  }

  /** strcpy into a field: what it held before stays behind the terminator. */
  function StrCpyField(field: seq<Byte>, name: CString): (r: seq<Byte>)
    requires |field| == NAME_LEN && |name| < NAME_LEN
    ensures |r| == NAME_LEN && CStr(r) == name
  {
    var r := name + [0] + field[|name| + 1..];
    CStrIs(r, name);
    r
  }

  lemma ReadResponse(last: bool, field: seq<Byte>, r: Row)
    requires |field| == NAME_LEN && RowFits(r) && CStr(field) == r.name
    ensures var p := Response(last, field, r.size, r.publishers, r.subscribers);
            ReadRow(p) == r && (IsLast(p) <==> last)
  {
    hide CStr;
    hide WordBytes;
    hide WordValue;
    hide Pow256;
    var p := Response(last, field, r.size, r.publishers, r.subscribers);
    WordRoundTrip(r.size, WORD);
    WordRoundTrip(r.publishers, WORD);
    WordRoundTrip(r.subscribers, WORD);
    assert p[2..34] == field;
    assert p[34..42] == WordBytes(r.size, WORD);
    assert p[42..50] == WordBytes(r.publishers, WORD);
    assert p[50..58] == WordBytes(r.subscribers, WORD);
  }

  // ---------- the broker's side ----------

  /** One packet a box; the name field is one variable of the handler, written over and over. */
  function ListPackets(rows: seq<Row>, field: seq<Byte>): (packets: seq<seq<Byte>>)
    requires |field| == NAME_LEN && forall k :: 0 <= k < |rows| ==> RowFits(rows[k])
    ensures |packets| == |rows| && forall k :: 0 <= k < |packets| ==> |packets[k]| == RESPONSE_SIZE
  {
    if rows == [] then []
    else
      assert RowFits(rows[0]);
      var r, next := rows[0], StrCpyField(field, rows[0].name);
      [Response(|rows| == 1, next, r.size, r.publishers, r.subscribers)] + ListPackets(rows[1..], next)
  }

  /** With no boxes, one packet without a name; its counters are whatever the variable held. */
  function NoBoxesPacket(size: nat, publishers: nat, subscribers: nat): seq<Byte> {
    Response(true, Zeros(NAME_LEN), size, publishers, subscribers)
  }

  /** In a stream of boxes the last packet is marked as such, and no other. */
  lemma {:induction false} OneLast(rows: seq<Row>, field: seq<Byte>, k: nat)
    requires |field| == NAME_LEN && RowsFit(rows) && k < |rows|
    ensures IsLast(ListPackets(rows, field)[k]) <==> k == |rows| - 1
    ensures ReadRow(ListPackets(rows, field)[k]) == rows[k]
    decreases k
  {
    hide Response;
    hide ReadRow;
    hide IsLast;
    hide StrCpyField;
    hide Pow256;
    assert RowFits(rows[0]);
    var next := StrCpyField(field, rows[0].name);
    if k == 0 {
      ReadResponse(|rows| == 1, next, rows[0]);
    } else {
      OneLast(rows[1..], next, k - 1);
    }
  }

  /** The rows of the boxes in the list. */
  function RowsOf(boxes: seq<Fields>): (rows: seq<Row>)
    requires forall k :: 0 <= k < |boxes| ==> boxes[k].publishers >= 0 && boxes[k].subscribers >= 0
    ensures |rows| == |boxes|
    ensures forall k :: 0 <= k < |boxes| ==>
              rows[k] == Row(boxes[k].name, boxes[k].size, boxes[k].publishers, boxes[k].subscribers)
  {
    seq(|boxes|, k requires 0 <= k < |boxes| =>
      Row(boxes[k].name, boxes[k].size, boxes[k].publishers, boxes[k].subscribers))
  }

  /** The loop over the list from a position on sends the packets of the rows from there. */
  lemma ListPacketsFrom(rows: seq<Row>, i: nat, field: seq<Byte>)
    requires |field| == NAME_LEN && RowsFit(rows) && i < |rows|
    ensures var r, next := rows[i], StrCpyField(field, rows[i].name);
            (ListPackets(rows[i..], field)
             == [Response(i == |rows| - 1, next, r.size, r.publishers, r.subscribers)]
                + ListPackets(rows[i + 1..], next))
  {
    assert rows[i..][1..] == rows[i + 1..];
  }

  /** handle_packet_list_msg_box. `stack` and the three numbers are what its packet variable held. */
  method SendList(boxes: MessageBoxes, stack: seq<Byte>, size: nat, publishers: nat, subscribers: nat)
    returns (sent: seq<seq<Byte>>)
    requires boxes.Valid() && |stack| == NAME_LEN
    requires forall k :: 0 <= k < |boxes.boxes| ==> boxes.boxes[k].publishers >= 0 && boxes.boxes[k].subscribers >= 0
    requires RowsFit(RowsOf(boxes.boxes))
    ensures sent == if boxes.boxes == [] then [NoBoxesPacket(size, publishers, subscribers)]
                    else ListPackets(RowsOf(boxes.boxes), stack)
  {
    hide Response;
    hide ListPackets;
    hide StrCpyField;
    hide Pow256;
    if boxes.msgBoxes == null {
      return [NoBoxesPacket(size, publishers, subscribers)];
    }
    sent := [];
    var field := stack;
    var it := boxes.msgBoxes;
    ghost var rows, i := RowsOf(boxes.boxes), 0;
    assert rows[0..] == rows && [] + ListPackets(rows, stack) == ListPackets(rows, stack);
    while it != null
      invariant i <= |rows| && it == boxes.At(i) && |field| == NAME_LEN
      invariant sent + ListPackets(rows[i..], field) == ListPackets(rows, stack)
      decreases |rows| - i
    {
      assert RowFits(rows[i]);
      ListPacketsFrom(rows, i, field);
      assert boxes.nodes[i].Holds(boxes.boxes[i]);
      assert it.next == boxes.At(i + 1);
      field := StrCpyField(field, it.name);
      var packet := Response(it.next == null, field, it.size, it.publishers, it.subscribers);
      ghost var rest := ListPackets(rows[i + 1..], field);
      assert sent + ([packet] + rest) == (sent + [packet]) + rest;
      sent := sent + [packet];
      it := it.next;
      i := i + 1;
    }
    assert rows[i..] == [];
    NoPackets(field);
    assert sent + [] == sent;
  }

  lemma NoPackets(field: seq<Byte>)
    requires |field| == NAME_LEN
    ensures ListPackets([], field) == []
  {
  }

  // ---------- the manager's side ----------

  datatype Output =
    | NoBoxesFound
    | Lines(rows: seq<Row>)
    | Disconnected
    | ReadError
    | VectorFull

  /** What execute_command_list makes of the bytes still in the pipe, with these rows collected. */
  function Collected(fifo: seq<Byte>, rows: seq<Row>): Output
    decreases |fifo|
  {
    if Grown(5, |rows| + 1) > MAX_CAPACITY then VectorFull
    else if fifo == [] then Disconnected
    else if |fifo| < RESPONSE_SIZE then ReadError
    else
      var p := fifo[..RESPONSE_SIZE];
      if ReadRow(p).name == [] && IsLast(p) then NoBoxesFound
      else if IsLast(p) then Lines(SortRows(rows + [ReadRow(p)]))
      else Collected(fifo[RESPONSE_SIZE..], rows + [ReadRow(p)])
  }

  /** One turn of the loop, at a position of the pipe. */
  lemma CollectedAt(fifo: seq<Byte>, at: nat, rows: seq<Row>, p: seq<Byte>)
    requires at <= |fifo| && p == fifo[at..Min(|fifo|, at + RESPONSE_SIZE)]
    ensures var output := Collected(fifo[at..], rows);
            if Grown(5, |rows| + 1) > MAX_CAPACITY then output == VectorFull
            else if p == [] then output == Disconnected
            else if |p| != RESPONSE_SIZE then output == ReadError
            else if ReadRow(p).name == [] && IsLast(p) then output == NoBoxesFound
            else if IsLast(p) then output == Lines(SortRows(rows + [ReadRow(p)]))
            else output == Collected(fifo[at + RESPONSE_SIZE..], rows + [ReadRow(p)])
  {
    hide ReadRow;
    hide SortRows;
    hide Grown;
    if |p| == RESPONSE_SIZE {
      assert fifo[at..][..RESPONSE_SIZE] == p && fifo[at..][RESPONSE_SIZE..] == fifo[at + RESPONSE_SIZE..];
    }
  }

  /** The vector of the rows read so far. */
  ghost predicate Collecting(v: Vector<Row>)
    reads v, v.buff
  {
    v.Valid() && v.initial == 5 && Grown(5, v.size) <= MAX_CAPACITY
  }

  /** vector_push of a fresh packet, which then panics, or has a slot for what is read. */
  method PushSlot(v: Vector<Row>) returns (panics: bool)
    requires Collecting(v)
    modifies v, v.buff
    ensures v.buff == old(v.buff) || fresh(v.buff)
    ensures panics <==> Grown(5, old(v.size) + 1) > MAX_CAPACITY
    ensures !panics ==> Collecting(v) && v.size == old(v.size) + 1 && v.Contents()[..old(v.size)] == old(v.Contents())
  {
    GrownMore(5, v.size);
    hide Grown;
    hide Copied;
    panics := v.Push(Row([], 0, 0, 0));
  }

  /** execute_command_list: a slot is pushed, then read into, until a packet says it is the last. */
  method ExecuteCommandList(fifo: seq<Byte>) returns (output: Output)
    ensures output == Collected(fifo, [])
  {
    hide Collected;
    hide Grown;
    hide ReadRow;
    hide SortRows;
    hide IsLast;
    assert Grown(5, 0) <= MAX_CAPACITY by {
      LimitFromFive(0);
    }
    var v := new Vector<Row>.Create(5);
    var at := 0;
    assert fifo[0..] == fifo;
    while true
      invariant at <= |fifo| && fresh(v) && fresh(v.buff) && Collecting(v)
      invariant Collected(fifo, []) == Collected(fifo[at..], v.Contents())
      decreases |fifo| - at
    {
      var fifoRead := fifo[at..Min(|fifo|, at + RESPONSE_SIZE)];
      ghost var rows := v.Contents();
      CollectedAt(fifo, at, rows, fifoRead);
      var panics := PushSlot(v);
      if panics {
        return VectorFull;
      }
      if fifoRead == [] {
        return Disconnected;
      } else if |fifoRead| != RESPONSE_SIZE {
        return ReadError;
      }
      v.buff[v.size - 1] := ReadRow(fifoRead);
      assert v.Contents() == rows + [ReadRow(fifoRead)];
      if ReadRow(fifoRead).name == [] && IsLast(fifoRead) {
        return NoBoxesFound;
      }
      at := at + RESPONSE_SIZE;
      if IsLast(fifoRead) {
        output := PrintSorted(v);
        return;
      }
    }
  }

  /** Its end: sort and print. */
  method PrintSorted(v: Vector<Row>) returns (output: Output)
    requires v.Valid()
    modifies v.buff
    ensures output == Lines(SortRows(old(v.Contents())))
  {
    SortInPlace(v.buff, v.size);
    var lines := [];
    for i := 0 to v.size
      invariant lines == v.buff[..i]
    {
      lines := lines + [v.buff[i]];
    }
    return Lines(lines);
  }

  // ---------- there and back ----------

  /** The manager collects exactly the boxes the broker sent. */
  lemma {:induction false} CollectsAll(rows: seq<Row>, field: seq<Byte>, got: seq<Row>)
    requires |field| == NAME_LEN && rows != [] && RowsFit(rows)
    ensures Collected(Flatten(ListPackets(rows, field)), got)
         == if |got| + |rows| > 71140 then VectorFull
            else if rows[|rows| - 1].name == [] then NoBoxesFound
            else Lines(SortRows(got + rows))
    decreases |rows|
  {
    hide Response;
    hide ReadRow;
    hide IsLast;
    hide StrCpyField;
    hide Pow256;
    hide SortRows;
    hide Grown;
    hide Collected;
    assert RowFits(rows[0]);
    var r, next := rows[0], StrCpyField(field, rows[0].name);
    var p, rest := Response(|rows| == 1, next, r.size, r.publishers, r.subscribers), ListPackets(rows[1..], next);
    ReadResponse(|rows| == 1, next, r);
    assert ListPackets(rows, field) == [p] + rest;
    CollectsOne(p, rest, got);
    if |rows| == 1 {
      assert rows == [r];
    } else {
      CollectsAll(rows[1..], next, got + [r]);
      assert got + [r] + rows[1..] == got + rows;
    }
  }

  /** One packet in front of others. */
  lemma CollectsOne(p: seq<Byte>, rest: seq<seq<Byte>>, got: seq<Row>)
    requires |p| == RESPONSE_SIZE
    ensures Collected(Flatten([p] + rest), got)
         == if |got| >= 71140 then VectorFull
            else if IsLast(p) then (if ReadRow(p).name == [] then NoBoxesFound else Lines(SortRows(got + [ReadRow(p)])))
            else Collected(Flatten(rest), got + [ReadRow(p)])
  {
    hide ReadRow;
    hide IsLast;
    hide SortRows;
    LimitFromFive(|got| + 1);
    hide Grown;
    assert ([p] + rest)[1..] == rest;
    var fifo := Flatten([p] + rest);
    assert fifo[..RESPONSE_SIZE] == p && fifo[RESPONSE_SIZE..] == Flatten(rest);
  }

  /** For lists under the vector's limit: the boxes, sorted; and "NO BOXES FOUND" exactly for the empty list
      and for one that ends with a box whose name is empty. */
  lemma ListingRoundTrip(rows: seq<Row>, field: seq<Byte>, size: nat, publishers: nat, subscribers: nat)
    requires |field| == NAME_LEN && RowsFit(rows) && |rows| <= 71140
    ensures var stream :=
              if rows == [] then [NoBoxesPacket(size, publishers, subscribers)] else ListPackets(rows, field);
            var output := Collected(Flatten(stream), []);
            && (output == NoBoxesFound <==> rows == [] || rows[|rows| - 1].name == [])
            && (output == NoBoxesFound || output == Lines(SortRows(rows)))
  {
    if rows == [] {
      NoBoxesRead(size, publishers, subscribers);
    } else {
      CollectsAll(rows, field, []);
      assert [] + rows == rows;
    }
  }

  lemma NoBoxesRead(size: nat, publishers: nat, subscribers: nat)
    ensures Collected(Flatten([NoBoxesPacket(size, publishers, subscribers)]), []) == NoBoxesFound
  {
    hide WordBytes;
    hide Grown;
    LimitFromFive(1);
    var p := NoBoxesPacket(size, publishers, subscribers);
    assert Flatten([p]) == p;
    assert p[2..34] == Zeros(NAME_LEN) && p[..RESPONSE_SIZE] == p;
    CStrIs(p[2..34], []);
  }

  /** The lines are the boxes in the one strict order of their names there is. */
  lemma PrintedOrder(rows: seq<Row>, t: seq<Row>)
    requires Sorting.NamesDistinct(rows)
    ensures StrictlyOrdered(SortRows(rows)) && multiset(SortRows(rows)) == multiset(rows)
    ensures StrictlyOrdered(t) && multiset(t) == multiset(rows) <==> t == SortRows(rows)
  {
    SortRowsSorts(rows);
    StrictIfDistinct(rows, SortRows(rows));
    if StrictlyOrdered(t) && multiset(t) == multiset(rows) {
      OneStrictOrder(t, SortRows(rows));
    }
  }
}
