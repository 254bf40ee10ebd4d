/** Bytes, C strings and the few C library routines the sources rely on
    (sections 7.24.2.4 and 7.24.4.4 of ISO/IEC 9899:2018 for strncpy and strncmp). */
module Memory {

  type Byte = b: int | 0 <= b < 256

  /** A string value as a C function sees it: its bytes up to the terminator, none of them NUL. */
  type CString = s: seq<Byte> | forall i :: 0 <= i < |s| ==> s[i] != 0

  function Zeros(n: nat): (z: seq<Byte>)
    ensures |z| == n && forall i :: 0 <= i < n ==> z[i] == 0
  {
    seq(n, i => 0)
  }

  /** A name stored in a fixed field and padded with NULs, as strncpy and memset followed by strcpy leave it. */
  function Pad(s: CString, width: nat): (field: seq<Byte>)
    requires |s| <= width
    ensures |field| == width
  {
    s + Zeros(width - |s|)
  }

  /** The position of the first NUL, or the length. */
  function FirstNul(field: seq<Byte>, from: nat := 0): (r: nat)
    requires from <= |field|
    ensures from <= r <= |field|
    ensures forall j :: from <= j < r ==> field[j] != 0
    ensures r < |field| ==> field[r] == 0
    decreases |field| - from
  {
    if from == |field| || field[from] == 0 then from else FirstNul(field, from + 1)
  }

  /** The string held by a field: its bytes before the first NUL. */
  function CStr(field: seq<Byte>): (s: CString)
    ensures |s| <= |field| && s == field[..|s|]
    ensures |s| < |field| ==> field[|s|] == 0
  {
    field[..FirstNul(field)]
  }

  /** CStr is determined by where the first NUL is. */
  lemma CStrIs(field: seq<Byte>, s: CString)
    requires |s| <= |field| && field[..|s|] == s
    requires |s| < |field| ==> field[|s|] == 0
    ensures CStr(field) == s
  {
    var r := CStr(field);
    if |r| < |s| {
      assert false;
    } else if |s| < |r| {
      assert false;
    }
  }

  lemma CStrPad(s: CString, width: nat)
    requires |s| <= width
    ensures CStr(Pad(s, width)) == s
  {
    CStrIs(Pad(s, width), s);
  }

  /** strncmp(field, s, |field|) == 0. */
  predicate StrncmpEqual(field: seq<Byte>, s: CString)
  {
    CStr(field) == if |s| <= |field| then s else s[..|field|]
  }

  /** memcpy of `bytes` to position `at`. */
  function Splice(data: seq<Byte>, at: nat, bytes: seq<Byte>): (r: seq<Byte>)
    requires at + |bytes| <= |data|
    ensures |r| == |data|
    ensures forall p :: 0 <= p < |data| ==> r[p] == if at <= p < at + |bytes| then bytes[p - at] else data[p]
  {
    data[..at] + bytes + data[at + |bytes|..]
  }

  /** What a memcpy does to a window of the destination: it happens inside, or it is not seen. */
  lemma SpliceWindow(data: seq<Byte>, at: nat, bytes: seq<Byte>, lo: nat, hi: nat)
    requires at + |bytes| <= |data| && lo <= hi <= |data|
    ensures lo <= at && at + |bytes| <= hi ==> Splice(data, at, bytes)[lo..hi] == Splice(data[lo..hi], at - lo, bytes)
    ensures hi <= at || at + |bytes| <= lo ==> Splice(data, at, bytes)[lo..hi] == data[lo..hi]
  {
  }

  /** `bytes` written over `content` from `offset` on, extending it where it ends. */
  function Overwrite(content: seq<Byte>, offset: nat, bytes: seq<Byte>): (r: seq<Byte>)
    requires offset <= |content|
    ensures |r| == if offset + |bytes| <= |content| then |content| else offset + |bytes|
  {
    content[..offset] + bytes + if offset + |bytes| <= |content| then content[offset + |bytes|..] else []
  }

  const TWO32: int := 0x1_0000_0000
  const INT_MAX: int := 0x7fff_ffff

  /** The value range of a C int. */
  predicate IsInt(v: int) {
    -INT_MAX - 1 <= v <= INT_MAX
  }

  /** The four bytes of a C int, least significant first. */
  function EncodeInt(v: int): (b: seq<Byte>)
    requires IsInt(v)
    ensures |b| == 4
  {
    var u0 := if v < 0 then v + TWO32 else v;
    var u1 := u0 / 256;
    var u2 := u1 / 256;
    [u0 % 256, u1 % 256, u2 % 256, u2 / 256]
  }

  function DecodeInt(b: seq<Byte>): (v: int)
    requires |b| == 4
    ensures IsInt(v)
  {
    var b0: int, b1: int, b2: int, b3: int := b[0], b[1], b[2], b[3];
    var u := b0 + 256 * (b1 + 256 * (b2 + 256 * b3));
    if u > INT_MAX then u - TWO32 else u
  }

  lemma IntRoundTrip(v: int)
    requires IsInt(v)
    ensures DecodeInt(EncodeInt(v)) == v
  {
    var u0 := if v < 0 then v + TWO32 else v;
    var u1 := u0 / 256;
    var u2 := u1 / 256;
    assert u2 == u2 % 256 + 256 * (u2 / 256);
    assert u1 == u1 % 256 + 256 * u2;
    assert u0 == u0 % 256 + 256 * u1;
  }
}
