/** The request packets of protocol.c and the broker's loop that takes them apart again. */
module Protocol {
  import opened Collections
  import opened Memory

  const MAX_PIPE_NAME_LEN: nat := 256
  const MAX_BOX_NAME_LEN: nat := 32
  const REGISTER_SIZE: nat := 289 // a code and both names
  const LIST_SIZE: nat := 257 // a code and the pipe's name

  /** packet_size, by id - 1. */
  const PACKET_SIZES: seq<nat> := [289, 289, 289, 1029, 289, 1029, 257, 58, 1025, 1025]

  /** The number of bytes of a packet, its id included, or -1: a u8, a 4-byte int, names of 256 and 32 bytes,
      texts of 1024, and 8-byte counters, packed. */
  function IdSizeLookup(id: int): (size: int)
    ensures size == -1 <==> !(1 <= id <= 10)
    ensures id in {1, 2, 3, 5} ==> size == 1 + MAX_PIPE_NAME_LEN + MAX_BOX_NAME_LEN
    ensures id in {4, 6} ==> size == 1 + 4 + 1024
    ensures id == 7 ==> size == 1 + MAX_PIPE_NAME_LEN
    ensures id == 8 ==> size == 1 + 1 + MAX_BOX_NAME_LEN + 8 + 8 + 8
    ensures id in {9, 10} ==> size == 1 + 1024
  {
    if !(1 <= id <= 10) then -1 else PACKET_SIZES[id - 1]
  }

  datatype Kind = RegisterPublisher | RegisterSubscriber | CreateBox | RemoveBox

  datatype Request =
    | OnBox(kind: Kind, pipe: CString, box: CString)
    | ListBoxes(pipe: CString)

  function KindId(kind: Kind): Byte {
    match kind
    case RegisterPublisher => 1
    case RegisterSubscriber => 2
    case CreateBox => 3
    case RemoveBox => 5
  }

  /** strcpy stays inside the fields when each name leaves room for its terminator. */
  predicate Fits(r: Request) {
    |r.pipe| < MAX_PIPE_NAME_LEN && (r.OnBox? ==> |r.box| < MAX_BOX_NAME_LEN)
  }

  /** As many bytes as the id in front says. */
  predicate IsFrame(p: seq<Byte>) {
    p != [] && |p| == IdSizeLookup(p[0])
  }

  /** What the write_packet functions, and the manager for a list request, put on the pipe. */
  function Encode(r: Request): (p: seq<Byte>)
    requires Fits(r)
    ensures IsFrame(p)
  {
    match r
    case OnBox(kind, pipe, box) => [KindId(kind)] + Pad(pipe, MAX_PIPE_NAME_LEN) + Pad(box, MAX_BOX_NAME_LEN)
    case ListBoxes(pipe) => [7] + Pad(pipe, MAX_PIPE_NAME_LEN)
  }

  /** What the handlers read out of a packet; None is an id process_packet does not know. */
  function Decode(p: seq<Byte>): (r: Option<Request>)
    requires IsFrame(p)
  {
    if p[0] == 1 then Some(ReadNames(RegisterPublisher, p))
    else if p[0] == 2 then Some(ReadNames(RegisterSubscriber, p))
    else if p[0] == 3 then Some(ReadNames(CreateBox, p))
    else if p[0] == 5 then Some(ReadNames(RemoveBox, p))
    else if p[0] == 7 then Some(ListBoxes(CStr(p[1..])))
    else None
  }

  /** C strings: the first name ends at the first NUL, wherever that is. */
  function ReadNames(kind: Kind, p: seq<Byte>): Request
    requires |p| == REGISTER_SIZE
  {
    OnBox(kind, CStr(p[1..]), CStr(p[1 + MAX_PIPE_NAME_LEN..]))
  }

  /** A handler reads what the client wrote. */
  lemma DecodeEncode(r: Request)
    requires Fits(r)
    ensures Decode(Encode(r)) == Some(r)
  {
    hide CStr;
    var p := Encode(r);
    CStrIs(p[1..], r.pipe);
    if r.OnBox? {
      CStrIs(p[1 + MAX_PIPE_NAME_LEN..], r.box);
    }
  }

  // ---------- writing a request ----------

  /** strcpy to a position: the bytes of the name and a terminator. */
  function Copied(p: seq<Byte>, at: nat, name: CString): (r: seq<Byte>)
    requires at + |name| < |p|
    ensures |r| == |p|
  {
    Splice(p, at, name + [0])
  }

  /** Both copies, terminators included, end inside the packet. */
  predicate CopiesInside(pipe: CString, box: CString) {
    1 + |pipe| < REGISTER_SIZE && 1 + MAX_PIPE_NAME_LEN + |box| < REGISTER_SIZE
  }

  /** What memset, the code and the two copies leave in the packet. */
  function Written(kind: Kind, pipe: CString, box: CString): (p: seq<Byte>)
    requires CopiesInside(pipe, box)
    ensures |p| == REGISTER_SIZE
  {
    Copied(Copied([KindId(kind)] + Zeros(REGISTER_SIZE - 1), 1, pipe), 1 + MAX_PIPE_NAME_LEN, box)
  }

  /** write_packet_create, _remove, _register_sub and _register_pub. The copies stay inside the packet exactly for names
      of at most these lengths; past its end, nothing is promised. */
  method WritePacket(packet: array<Byte>, kind: Kind, pipe: CString, box: CString) returns (inside: bool)
    requires packet.Length == REGISTER_SIZE
    modifies packet
    ensures inside <==> |pipe| <= 287 && |box| <= 31
    ensures inside ==> CopiesInside(pipe, box) && packet[..] == Written(kind, pipe, box)
    ensures inside ==> packet[0] == match kind
                                    case RegisterPublisher => 1
                                    case RegisterSubscriber => 2
                                    case CreateBox => 3
                                    case RemoveBox => 5
  {
    for i := 0 to packet.Length
      invariant forall k :: 0 <= k < i ==> packet[k] == 0
    {
      packet[i] := 0;
    }
    packet[0] := KindId(kind);
    assert packet[..] == [KindId(kind)] + Zeros(REGISTER_SIZE - 1);
    hide Copied;
    inside := StrCpy(packet, 1, pipe);
    if inside {
      inside := StrCpy(packet, 1 + MAX_PIPE_NAME_LEN, box);
    }
  }

  /** strcpy, as far as the destination reaches. */
  method StrCpy(packet: array<Byte>, at: nat, name: CString) returns (inside: bool)
    modifies packet
    ensures inside <==> at + |name| < packet.Length
    ensures inside ==> packet[..] == Copied(old(packet[..]), at, name)
  {
    for i := 0 to |name|
      invariant i == 0 || at + i <= packet.Length
      invariant forall k :: 0 <= k < packet.Length ==>
                  packet[k] == if at <= k < at + i then name[k - at] else old(packet[k])
    {
      if at + i >= packet.Length {
        return false;
      }
      packet[at + i] := name[i];
    }
    if at + |name| >= packet.Length {
      return false;
    }
    packet[at + |name|] := 0;
    return true;
  }

  /** Names that fit their fields leave the packet with both fields padded. */
  lemma WrittenIsEncode(kind: Kind, pipe: CString, box: CString)
    requires Fits(OnBox(kind, pipe, box))
    ensures CopiesInside(pipe, box) && Written(kind, pipe, box) == Encode(OnBox(kind, pipe, box))
  {
    var p, q := Written(kind, pipe, box), Encode(OnBox(kind, pipe, box));
    assert forall k :: 0 <= k < REGISTER_SIZE ==> p[k] == q[k];
  }

  /** While the copies stay inside, the names are read back exactly when the first fits its field,
      or what runs over is what the second puts there. */
  lemma ReadBackExactly(kind: Kind, pipe: CString, box: CString)
    requires CopiesInside(pipe, box)
    ensures IsFrame(Written(kind, pipe, box))
    ensures Decode(Written(kind, pipe, box)) == Some(OnBox(kind, pipe, box))
       <==> |pipe| < MAX_PIPE_NAME_LEN || pipe[MAX_PIPE_NAME_LEN..] == box
  {
    hide CStr;
    var p := Written(kind, pipe, box);
    assert p[0] == KindId(kind);
    CStrIs(p[1 + MAX_PIPE_NAME_LEN..], box);
    if |pipe| < MAX_PIPE_NAME_LEN {
      CStrIs(p[1..], pipe);
    } else {
      var read := pipe[..MAX_PIPE_NAME_LEN] + box;
      assert p[1..][..|read|] == read;
      CStrIs(p[1..], read);
      assert pipe == pipe[..MAX_PIPE_NAME_LEN] + pipe[MAX_PIPE_NAME_LEN..];
      if pipe == read {
        assert pipe[MAX_PIPE_NAME_LEN..] == read[MAX_PIPE_NAME_LEN..];
      }
    }
  }

  /** The manager checks the pipe's name and not the box's: its packet is good exactly for box names below 32 bytes,
      and with one of 32 the copy leaves it. */
  lemma ManagerPacket(kind: Kind, pipe: CString, box: CString)
    requires |pipe| < MAX_PIPE_NAME_LEN
    ensures CopiesInside(pipe, box) <==> |box| < MAX_BOX_NAME_LEN
    ensures CopiesInside(pipe, box) ==>
              IsFrame(Written(kind, pipe, box)) && Decode(Written(kind, pipe, box)) == Some(OnBox(kind, pipe, box))
    ensures !CopiesInside(pipe, seq(MAX_BOX_NAME_LEN, i => 'a' as int))
  {
    if CopiesInside(pipe, box) {
      ReadBackExactly(kind, pipe, box);
    }
  }

  // ---------- the broker's loop ----------

  /** How reading the register pipe stops: it waits for an id or for the body of one, since the broker holds a write end
      and the pipe never ends, or panics on an id or on a body cut short. */
  datatype Stop = Waiting | WaitingForBody(id: Byte) | IllegalId(id: Byte) | Corrupted

  /** The packets handed to the workers from these bytes. */
  function Frames(bytes: seq<Byte>): (r: (seq<seq<Byte>>, Stop))
    decreases |bytes|
  {
    if bytes == [] then ([], Waiting)
    else
      var size := IdSizeLookup(bytes[0]);
      if size == -1 then ([], IllegalId(bytes[0]))
      else if |bytes| == 1 then ([], WaitingForBody(bytes[0]))
      else if |bytes| < size then ([], Corrupted)
      else
        var (packets, stop) := Frames(bytes[size..]);
        ([bytes[..size]] + packets, stop)
  }

  /** One turn of the loop, at a position of the stream. */
  lemma FramesAt(fifo: seq<Byte>, at: nat)
    requires at < |fifo|
    ensures var size, stopped := IdSizeLookup(fifo[at]), Frames(fifo[at..]);
            if size == -1 then stopped == ([], IllegalId(fifo[at]))
            else if at + 1 == |fifo| then stopped == ([], WaitingForBody(fifo[at]))
            else if at + size > |fifo| then stopped == ([], Corrupted)
            else stopped == ([fifo[at..at + size]] + Frames(fifo[at + size..]).0, Frames(fifo[at + size..]).1)
  {
    var size := IdSizeLookup(fifo[at]);
    if size != -1 && at + size <= |fifo| {
      assert fifo[at..][size..] == fifo[at + size..];
      assert fifo[at..][..size] == fifo[at..at + size];
    }
  }

  lemma FramesEnd()
    ensures Frames([]) == ([], Waiting)
  {
  }

  /** The loop of the broker's main: the id, the size it stands for, the body. */
  method ReadRequests(fifo: seq<Byte>) returns (packets: seq<seq<Byte>>, stop: Stop)
    ensures (packets, stop) == Frames(fifo)
  {
    hide Frames;
    hide IdSizeLookup;
    packets := [];
    var at := 0;
    assert fifo[at..] == fifo && [] + Frames(fifo).0 == Frames(fifo).0;
    while at < |fifo|
      invariant at <= |fifo|
      invariant Frames(fifo) == (packets + Frames(fifo[at..]).0, Frames(fifo[at..]).1)
    {
      FramesAt(fifo, at);
      assert packets + [] == packets;
      var size := IdSizeLookup(fifo[at]);
      if size == -1 {
        return packets, IllegalId(fifo[at]);
      }
      if at + 1 == |fifo| {
        return packets, WaitingForBody(fifo[at]);
      }
      var body := fifo[at + 1..Min(|fifo|, at + size)];
      if |body| != size - 1 {
        return packets, Corrupted;
      }
      var packet := [fifo[at]] + body;
      assert packet == fifo[at..at + size];
      ghost var rest := Frames(fifo[at + size..]).0;
      assert packets + ([packet] + rest) == (packets + [packet]) + rest;
      packets := packets + [packet];
      at := at + size;
    }
    FramesEnd();
    assert fifo[at..] == [] && packets + [] == packets;
    return packets, Waiting;
  }

  ghost predicate AllFrames(packets: seq<seq<Byte>>) {
    forall k :: 0 <= k < |packets| ==> IsFrame(packets[k])
  }

  /** A byte stream is taken apart into these packets, with nothing left, exactly when it is these packets put
      together. */
  lemma {:induction false} FramesExactly(bytes: seq<Byte>, packets: seq<seq<Byte>>)
    ensures Frames(bytes) == (packets, Waiting) <==> AllFrames(packets) && bytes == Flatten(packets)
    decreases |bytes| + |packets|
  {
    if Frames(bytes) == (packets, Waiting) && bytes != [] {
      var size := |packets[0]|;
      FramesExactly(bytes[size..], packets[1..]);
      assert Frames(bytes).0[1..] == Frames(bytes[size..]).0;
      assert packets == [packets[0]] + packets[1..];
      assert bytes == bytes[..size] + bytes[size..];
    }
    if AllFrames(packets) && bytes == Flatten(packets) && packets != [] {
      var size := |packets[0]|;
      assert bytes[..size] == packets[0] && bytes[size..] == Flatten(packets[1..]);
      assert bytes[0] == packets[0][0];
      FramesExactly(bytes[size..], packets[1..]);
      assert forall k :: 0 <= k < |packets| - 1 ==> packets[1..][k] == packets[k + 1];
      assert packets == [packets[0]] + packets[1..];
    }
  }

  /** Wherever the loop stops, the packets before it were put together in front of what is left. */
  lemma {:induction false} FramesPrefix(bytes: seq<Byte>)
    ensures AllFrames(Frames(bytes).0) && Flatten(Frames(bytes).0) <= bytes
    ensures var rest := bytes[|Flatten(Frames(bytes).0)|..];
            match Frames(bytes).1
            case Waiting => rest == []
            case WaitingForBody(id) => rest == [id] && IdSizeLookup(id) != -1
            case IllegalId(id) => rest != [] && rest[0] == id && IdSizeLookup(id) == -1
            case Corrupted => 1 < |rest| < IdSizeLookup(rest[0])
    decreases |bytes|
  {
    hide IdSizeLookup;
    if bytes != [] {
      var size := IdSizeLookup(bytes[0]);
      if size != -1 && size <= |bytes| {
        FramesPrefix(bytes[size..]);
        var packets := Frames(bytes[size..]).0;
        assert ([bytes[..size]] + packets)[1..] == packets;
        assert bytes == bytes[..size] + bytes[size..];
        assert bytes[size..][|Flatten(packets)|..] == bytes[size + |Flatten(packets)|..];
      }
    }
  }

  function EncodeAll(rs: seq<Request>): (packets: seq<seq<Byte>>)
    requires forall k :: 0 <= k < |rs| ==> Fits(rs[k])
    ensures |packets| == |rs|
    ensures forall k :: 0 <= k < |rs| ==> packets[k] == Encode(rs[k])
  {
    seq(|rs|, k requires 0 <= k < |rs| => Encode(rs[k]))
  }

  /** Requests written one after the other are read back, in order, with nothing left over. */
  lemma FramingRoundTrip(rs: seq<Request>)
    requires forall k :: 0 <= k < |rs| ==> Fits(rs[k])
    ensures var (packets, stop) := Frames(Flatten(EncodeAll(rs)));
            && stop == Waiting && |packets| == |rs|
            && forall k :: 0 <= k < |rs| ==> IsFrame(packets[k]) && Decode(packets[k]) == Some(rs[k])
  {
    FramesExactly(Flatten(EncodeAll(rs)), EncodeAll(rs));
    forall k | 0 <= k < |rs|
      ensures Decode(Encode(rs[k])) == Some(rs[k])
    {
      DecodeEncode(rs[k]);
    }
  }
}
