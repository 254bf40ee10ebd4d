/** The packets byte by byte: requests, the listing, and what the manager makes of any stream of bytes. */
module WireLayout {
  import opened Collections
  import opened Memory
  import opened Sorting
  import opened Vectors
  import opened Protocol
  import opened Listing

  // ---------- requests ----------

  /** A field of a packet from a position to another: a name, and NULs behind it. */
  ghost predicate NameField(p: seq<Byte>, from: nat, to: nat, name: CString) {
    && from + |name| < to <= |p|
    && (forall k :: 0 <= k < |name| ==> p[from + k] == name[k])
    && forall k :: from + |name| <= k < to ==> p[k] == 0
  }

  /** A register, create or remove packet: 1, 2, 3 or 5, the pipe's name to byte 256, the box's to byte 288. */
  lemma RequestLayout(kind: Kind, pipe: CString, box: CString)
    requires |pipe| < 256 && |box| < 32
    ensures CopiesInside(pipe, box)
    ensures var p := Written(kind, pipe, box);
            && |p| == 289
            && p[0] == (match kind
                        case RegisterPublisher => 1
                        case RegisterSubscriber => 2
                        case CreateBox => 3
                        case RemoveBox => 5)
            && NameField(p, 1, 257, pipe) && NameField(p, 257, 289, box)
  {
  }

  /** A list request: 7 and the pipe's name. */
  lemma ListRequestLayout(pipe: CString)
    requires |pipe| < 256
    ensures var p := Encode(ListBoxes(pipe)); |p| == 257 && p[0] == 7 && NameField(p, 1, 257, pipe)
  {
  }

  /** The broker takes 1, 2, 3 and 5 for requests on a box, 7 for a list, and knows no other. */
  lemma DecodedKind(p: seq<Byte>)
    requires IsFrame(p)
    ensures match Decode(p)
            case None => p[0] in {4, 6, 8, 9, 10}
            case Some(ListBoxes(_)) => p[0] == 7
            case Some(OnBox(kind, _, _)) =>
              match kind
              case RegisterPublisher => p[0] == 1
              case RegisterSubscriber => p[0] == 2
              case CreateBox => p[0] == 3
              case RemoveBox => p[0] == 5
  {
  }

  // ---------- the listing ----------

  /** The 64-bit number that begins at this byte, least significant byte first. */
  function U64(p: seq<Byte>, at: nat): (v: int)
    requires at + 8 <= |p|
  {
    U32(p, at) + 4294967296 * U32(p, at + 4)
  }

  function U32(p: seq<Byte>, at: nat): (v: int)
    requires at + 4 <= |p|
  {
    var b0: int, b1: int, b2: int, b3: int := p[at], p[at + 1], p[at + 2], p[at + 3];
    b0 + 256 * b1 + 65536 * b2 + 16777216 * b3
  }

  lemma WordIsU64(b: seq<Byte>)
    requires |b| == 8
    ensures WordValue(b) == U64(b, 0)
  {
    FourBytes(b);
    FourBytes(b[4..]);
    assert b[4..][4..] == [];
  }

  lemma FourBytes(b: seq<Byte>)
    requires |b| >= 4
    ensures WordValue(b) == U32(b, 0) + 4294967296 * WordValue(b[4..])
  {
    assert b[1..][1..] == b[2..] && b[2..][1..] == b[3..] && b[3..][1..] == b[4..];
    var b3: int := b[3];
    assert WordValue(b[3..]) == b3 + 256 * WordValue(b[4..]);
    var b2: int := b[2];
    assert WordValue(b[2..]) == b2 + 256 * WordValue(b[3..]);
    var b1: int := b[1];
    assert WordValue(b[1..]) == b1 + 256 * WordValue(b[2..]);
  }

  /** The fields of a packet of the listing, as numbers and as a name. */
  lemma RowAt(p: seq<Byte>)
    requires |p| == 58
    ensures ReadRow(p) == Row(CStr(p[2..34]), U64(p, 34), U64(p, 42), U64(p, 50))
    ensures IsLast(p) <==> p[1] != 0
    ensures ReadRow(p).name == [] <==> p[2] == 0
  {
    hide CStr;
    hide WordValue;
    WordIsU64(p[34..42]);
    WordIsU64(p[42..50]);
    WordIsU64(p[50..58]);
    hide U64;
    assert U64(p[34..42], 0) == U64(p, 34) && U64(p[42..50], 0) == U64(p, 42) && U64(p[50..58], 0) == U64(p, 50) by {
      U64Slice(p, 34);
      U64Slice(p, 42);
      U64Slice(p, 50);
    }
    assert p[2..34][0] == p[2];
    if p[2] == 0 {
      CStrIs(p[2..34], []);
    }
  }

  lemma U64Slice(p: seq<Byte>, at: nat)
    requires at + 8 <= |p|
    ensures U64(p[at..at + 8], 0) == U64(p, at)
  {
  }

  /** A row can be sent: a name of at most 31 bytes and counters of 64 bits. */
  lemma RowFitsIs(r: Row)
    ensures RowFits(r) <==>
              |r.name| < 32 && r.size < 0x1_0000_0000_0000_0000
              && r.publishers < 0x1_0000_0000_0000_0000 && r.subscribers < 0x1_0000_0000_0000_0000
  {
    assert Pow256(8) == 0x1_0000_0000_0000_0000 by {
      assert Pow256(2) == 65536 && Pow256(4) == 65536 * Pow256(2) && Pow256(6) == 65536 * Pow256(4);
    }
  }

  /** A packet of the listing that carries this row. */
  ghost predicate Carries(p: seq<Byte>, last: bool, r: Row) {
    && |p| == 58 && p[0] == 8 && p[1] == (if last then 1 else 0)
    && |r.name| < 32 && p[2..2 + |r.name|] == r.name && p[2 + |r.name|] == 0
    && U64(p, 34) == r.size && U64(p, 42) == r.publishers && U64(p, 50) == r.subscribers
  }

  lemma ResponseCarries(last: bool, field: seq<Byte>, r: Row)
    requires |field| == 32 && RowFits(r) && CStr(field) == r.name
    ensures Carries(Response(last, field, r.size, r.publishers, r.subscribers), last, r)
  {
    ReadResponse(last, field, r);
    hide U64;
    hide CStr;
    hide WordBytes;
    hide WordValue;
    hide Pow256;
    var p := Response(last, field, r.size, r.publishers, r.subscribers);
    assert p[2..34] == field && p[2..34][..|r.name|] == p[2..2 + |r.name|];
    RowAt(p);
    hide ReadRow;
  }

  /** What the broker sends for the k-th box, byte by byte. */
  lemma {:induction false} ListLayout(rows: seq<Row>, field: seq<Byte>, k: nat)
    requires |field| == 32 && RowsFit(rows) && k < |rows|
    ensures Carries(ListPackets(rows, field)[k], k == |rows| - 1, rows[k])
    decreases k
  {
    hide Response;
    hide Carries;
    hide StrCpyField;
    hide Pow256;
    assert RowFits(rows[0]);
    var next := StrCpyField(field, rows[0].name);
    if k == 0 {
      ResponseCarries(|rows| == 1, next, rows[0]);
    } else {
      ListLayout(rows[1..], next, k - 1);
    }
  }

  /** Behind a name and its terminator stands what the packet before had there, and in the first what the handler's
      variable had. */
  lemma {:induction false} BehindTheName(rows: seq<Row>, field: seq<Byte>, k: nat, j: nat)
    requires |field| == 32 && RowsFit(rows) && k < |rows| && |rows[k].name| < j < 32
    ensures ListPackets(rows, field)[k][2 + j]
         == if k == 0 then field[j] else ListPackets(rows, field)[k - 1][2 + j]
    decreases k
  {
    hide WordBytes;
    hide Pow256;
    hide CStr;
    assert RowFits(rows[0]);
    var next := StrCpyField(field, rows[0].name);
    var r := rows[0];
    assert ListPackets(rows, field)[0] == Response(|rows| == 1, next, r.size, r.publishers, r.subscribers);
    assert ListPackets(rows, field)[0][2 + j] == next[j];
    if k > 0 {
      BehindTheName(rows[1..], next, k - 1, j);
    }
  }

  /** And without boxes. */
  lemma NoBoxesLayout(size: nat, publishers: nat, subscribers: nat)
    requires RowFits(Row([], size, publishers, subscribers))
    ensures var p := NoBoxesPacket(size, publishers, subscribers);
            && Carries(p, true, Row([], size, publishers, subscribers))
            && forall k :: 2 <= k < 34 ==> p[k] == 0
  {
    hide WordBytes;
    hide Pow256;
    CStrIs(Zeros(32), []);
    ResponseCarries(true, Zeros(32), Row([], size, publishers, subscribers));
    hide Carries;
  }

  // ---------- the manager, on any stream ----------

  /** The rows of the first n packets of a stream. */
  function RowsRead(fifo: seq<Byte>, n: nat): (rows: seq<Row>)
    requires 58 * n <= |fifo|
    ensures |rows| == n
  {
    if n == 0 then [] else RowsRead(fifo, n - 1) + [ReadRow(fifo[58 * (n - 1)..58 * n])]
  }

  /** The stream begins with n packets none of which is the last. */
  ghost predicate GoesOn(fifo: seq<Byte>, n: nat) {
    58 * n <= |fifo| && forall k :: 0 <= k < n ==> fifo[58 * k + 1] == 0
  }

  lemma {:induction false} CollectsSoFar(fifo: seq<Byte>, n: nat)
    requires GoesOn(fifo, n) && n <= 71140
    ensures Collected(fifo, []) == Collected(fifo[58 * n..], RowsRead(fifo, n))
    decreases n
  {
    hide ReadRow;
    hide Collected;
    hide Grown;
    if n == 0 {
      assert fifo[0..] == fifo;
    } else {
      CollectsSoFar(fifo, n - 1);
      var p := fifo[58 * (n - 1)..58 * n];
      LimitFromFive(n);
      CollectedAt(fifo, 58 * (n - 1), RowsRead(fifo, n - 1), p);
      assert p[1] == fifo[58 * (n - 1) + 1];
    }
  }

  /** For every stream of bytes: behind n packets none of which is the last, the vector is full at 71140, the pipe ends
      between packets or inside one, or a last packet either has an empty name, or gives the sorted rows of all. */
  lemma ManagerOutcome(fifo: seq<Byte>, n: nat)
    requires GoesOn(fifo, n) && n <= 71140
    ensures var output := Collected(fifo, []);
            if n == 71140 then output == VectorFull
            else if |fifo| == 58 * n then output == Disconnected
            else if |fifo| < 58 * n + 58 then output == ReadError
            else if fifo[58 * n + 1] == 0 then GoesOn(fifo, n + 1)
            else if fifo[58 * n + 2] == 0 then output == NoBoxesFound
            else output == Lines(SortRows(RowsRead(fifo, n + 1)))
  {
    hide ReadRow;
    hide Collected;
    hide Grown;
    hide SortRows;
    CollectsSoFar(fifo, n);
    LimitFromFive(n + 1);
    var p := fifo[58 * n..Min(|fifo|, 58 * n + 58)];
    CollectedAt(fifo, 58 * n, RowsRead(fifo, n), p);
    if |p| == 58 {
      RowAt(p);
      assert p[1] == fifo[58 * n + 1] && p[2] == fifo[58 * n + 2];
    }
  }
}
