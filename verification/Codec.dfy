/** Byte order and message layout: rpc.h:35-36, rdma.h:40-45, rdma.c:286-300, rdma.c:771-784 and
    rdma.c:486-498.

    `htonll` and `ntohll` are both `cpu_to_be64`, so the reader undoes the writer only because
    reversing eight bytes is its own inverse. */
module Codec {

  type byte = x: int | 0 <= x < 256

  const TWO_TO_THE_64: int := 0x1_0000_0000_0000_0000

  type u64 = x: int | 0 <= x < TWO_TO_THE_64

  datatype Endian = Little | Big

  /** The `n` low-order bytes of `x`, least significant first. */
  function ToLE(x: nat, n: nat): (s: seq<byte>)
    ensures |s| == n
  {
    if n == 0 then [] else [x % 256] + ToLE(x / 256, n - 1)
  }

  function FromLE(s: seq<byte>): nat {
    if s == [] then 0 else s[0] + 256 * FromLE(s[1..])
  }

  function Pow256(n: nat): (p: nat)
    ensures p > 0
  {
    if n == 0 then 1 else 256 * Pow256(n - 1)
  }

  lemma Pow256Of8()
    ensures Pow256(8) == TWO_TO_THE_64
  {
    assert Pow256(4) == 0x1_0000_0000;
  }

  lemma {:induction false} FromLEBound(s: seq<byte>)
    ensures FromLE(s) < Pow256(|s|)
  {
    if s != [] {
      FromLEBound(s[1..]);
    }
  }

  lemma {:induction false} FromToLE(x: nat, n: nat)
    requires x < Pow256(n)
    ensures FromLE(ToLE(x, n)) == x
  {
    if n > 0 {
      FromToLE(x / 256, n - 1);
      assert ToLE(x, n)[1..] == ToLE(x / 256, n - 1);
    }
  }

  lemma Digits(low: byte, high: nat)
    ensures (low + 256 * high) % 256 == low && (low + 256 * high) / 256 == high
  {
  }

  lemma {:induction false} ToFromLE(s: seq<byte>)
    ensures ToLE(FromLE(s), |s|) == s
  {
    if s != [] {
      ToFromLE(s[1..]);
      Digits(s[0], FromLE(s[1..]));
      assert s == [s[0]] + s[1..];
    }
  }

  function Reverse(s: seq<byte>): (r: seq<byte>)
    ensures |r| == |s|
    ensures forall i :: 0 <= i < |s| ==> r[i] == s[|s| - 1 - i]
  {
    if s == [] then [] else Reverse(s[1..]) + [s[0]]
  }

  lemma ReverseTwice(s: seq<byte>)
    ensures Reverse(Reverse(s)) == s
  {
    assert |Reverse(Reverse(s))| == |s|;
  }

  /** The bytes a host of the given order keeps for a 64-bit variable. */
  function Store(e: Endian, x: u64): (s: seq<byte>)
    ensures |s| == 8
  {
    if e.Little? then ToLE(x, 8) else Reverse(ToLE(x, 8))
  }

  function Load(e: Endian, s: seq<byte>): u64
    requires |s| == 8
  {
    Pow256Of8();
    FromLEBound(s);
    FromLEBound(Reverse(s));
    if e.Little? then FromLE(s) else FromLE(Reverse(s))
  }

  lemma LoadStore(e: Endian, x: u64)
    ensures Load(e, Store(e, x)) == x
  {
    Pow256Of8();
    FromToLE(x, 8);
    ReverseTwice(ToLE(x, 8));
  }

  lemma StoreLoad(e: Endian, s: seq<byte>)
    requires |s| == 8
    ensures Store(e, Load(e, s)) == s
  {
    ToFromLE(s);
    ToFromLE(Reverse(s));
    ReverseTwice(s);
  }

  /** `cpu_to_be64`, the one function behind both macro names. */
  function CpuToBe64(e: Endian, x: u64): u64 {
    if e.Little? then Load(Little, Reverse(Store(Little, x))) else x
  }

  /** Converting twice gives the value back, which is why one macro can serve both directions. */
  lemma SwapIsInvolution(e: Endian, x: u64)
    ensures CpuToBe64(e, CpuToBe64(e, x)) == x
  {
    var s := Store(Little, x);
    StoreLoad(Little, Reverse(s));
    ReverseTwice(s);
    LoadStore(Little, x);
  }

  /** What a converted field looks like in memory: eight bytes, most significant first. */
  function Field(x: u64): (s: seq<byte>)
    ensures |s| == 8
  {
    Reverse(ToLE(x, 8))
  }

  lemma {:induction false} ToLEAt(x: nat, n: nat, i: nat)
    requires i < n
    ensures ToLE(x, n)[i] == (x / Pow256(i)) % 256
  {
    if i > 0 {
      ToLEAt(x / 256, n - 1, i - 1);
      DivDiv(x, Pow256(i - 1));
    }
  }

  lemma DivDiv(x: nat, p: nat)
    requires p > 0
    ensures (x / 256) / p == x / (256 * p)
  {
    var q := (x / 256) / p;
    var r := (x / 256) % p;
    assert x == (q * p + r) * 256 + x % 256;
    assert x == q * (256 * p) + (r * 256 + x % 256);
    assert r * 256 + x % 256 < 256 * p;
    DivUnique(x, 256 * p, q, r * 256 + x % 256);
  }

  lemma DivUnique(x: nat, d: nat, q: nat, r: nat)
    requires d > 0 && x == q * d + r && r < d
    ensures x / d == q
  {
    assert x == (x / d) * d + x % d;
    assert (x / d - q) * d == r - x % d;
    MulBound(x / d - q, d);
  }

  lemma MulBound(k: int, d: nat)
    ensures k >= 1 ==> k * d >= d
    ensures k <= -1 ==> k * d <= 0 - d
  {
  }

  /** Byte `i` on the wire is digit 7-i of the value in base 256. */
  lemma FieldIsMostSignificantFirst(x: u64, i: nat)
    requires i < 8
    ensures Field(x)[i] == (x / Pow256(7 - i)) % 256
  {
    ToLEAt(x, 8, 7 - i);
  }

  /** A field's eight bytes, from the first, are the digits of its value in base 256. */
  lemma FieldValue(x: u64)
    ensures var f := Field(x);
      x == 0x100_0000_0000_0000 * (f[0] as int) + 0x1_0000_0000_0000 * (f[1] as int) + 0x100_0000_0000 * (f[2] as int)
           + 0x1_0000_0000 * (f[3] as int) + 0x100_0000 * (f[4] as int) + 0x1_0000 * (f[5] as int)
           + 0x100 * (f[6] as int) + f[7] as int
  {
    Pow256Of8();
    FromToLE(x, 8);
    EightDigits(ToLE(x, 8));
  }

  lemma EightDigits(s: seq<byte>)
    requires |s| == 8
    ensures FromLE(s) ==
      s[0] as int + 0x100 * (s[1] as int) + 0x1_0000 * (s[2] as int) + 0x100_0000 * (s[3] as int)
      + 0x1_0000_0000 * (s[4] as int) + 0x100_0000_0000 * (s[5] as int) + 0x1_0000_0000_0000 * (s[6] as int)
      + 0x100_0000_0000_0000 * (s[7] as int)
  {
    assert s[0..] == s;
    FourDigits(s, 0);
    FourDigits(s, 4);
    assert s[8..] == [];
  }

  lemma FourDigits(s: seq<byte>, i: nat)
    requires i + 4 <= |s|
    ensures FromLE(s[i..]) == s[i] as int + 0x100 * (s[i + 1] as int) + 0x1_0000 * (s[i + 2] as int)
                              + 0x100_0000 * (s[i + 3] as int) + 0x1_0000_0000 * FromLE(s[i + 4..])
  {
    assert s[i..][1..] == s[i + 1..] && s[i + 1..][1..] == s[i + 2..];
    assert s[i + 2..][1..] == s[i + 3..] && s[i + 3..][1..] == s[i + 4..];
    assert FromLE(s[i + 2..]) == s[i + 2] as int + 256 * FromLE(s[i + 3..]);
  }

  /** Whatever the sender's byte order, storing the converted value puts the same bytes in memory. */
  lemma StoreConverted(e: Endian, x: u64)
    ensures Store(e, CpuToBe64(e, x)) == Field(x)
  {
    StoreLoad(Little, Reverse(Store(Little, x)));
  }

  /** Whatever the reader's byte order, converting the loaded value gives the number sent. */
  lemma LoadConverted(e: Endian, x: u64)
    ensures CpuToBe64(e, Load(e, Field(x))) == x
  {
    StoreConverted(e, x);
    LoadStore(e, CpuToBe64(e, x));
    SwapIsInvolution(e, x);
  }

  method Memcpy(dst: array<byte>, off: nat, src: seq<byte>)
    requires off + |src| <= dst.Length
    modifies dst
    ensures dst[..] == old(dst[..off]) + src + old(dst[off + |src|..])
  {
    for i := 0 to |src|
      invariant dst[..] == old(dst[..off]) + src[..i] + old(dst[off + i..])
    {
      assert dst[off + i + 1..] == old(dst[off + i + 1..]);
      dst[off + i] := src[i];
      assert dst[..] == old(dst[..off]) + src[..i + 1] + old(dst[off + i + 1..]);
    }
    assert src[..|src|] == src;
  }

  // ---------------------------------------------------------------- messages

  const HEADER_SIZE: nat := 24

  /** struct rpc_msg_header: sequence number, address of the client's channel, address of its wait queue. */
  datatype Header = Header(seqn: u64, ch: u64, sem: u64)

  /** The one buffer size that leaves room for this much data. */
  function MsgBufSize(dataSize: int): (r: int)
    ensures forall b :: MsgDataSize(b) == dataSize <==> b == r
  {
    dataSize + HEADER_SIZE
  }

  function MsgDataSize(bufSize: int): int {
    bufSize - HEADER_SIZE
  }

  /** The bytes of a message, in the field order of struct rdma_msg. */
  function Wire(h: Header, data: seq<byte>): (w: seq<byte>)
    ensures |w| == HEADER_SIZE + |data|
  {
    Field(h.seqn) + Field(h.ch) + Field(h.sem) + data
  }

  method PutField(msg: array<byte>, off: nat, e: Endian, x: u64)
    requires off + 8 <= msg.Length
    modifies msg
    ensures msg[off..off + 8] == Field(x)
    ensures msg[..off] == old(msg[..off]) && msg[off + 8..] == old(msg[off + 8..])
  {
    StoreConverted(e, x);
    hide Store, CpuToBe64, Field;
    Memcpy(msg, off, Store(e, CpuToBe64(e, x)));
  }

  /** Writes a message into its buffer, field by field as send_rdma_msg does. */
  method Format(msg: array<byte>, e: Endian, h: Header, data: seq<byte>)
    requires msg.Length == HEADER_SIZE + |data|
    modifies msg
    ensures msg[..] == Wire(h, data)
  {
    hide Field;
    PutField(msg, 0, e, h.seqn);
    PutField(msg, 16, e, h.sem);
    assert msg[..8] == msg[..16][..8] == Field(h.seqn);
    PutField(msg, 8, e, h.ch);
    assert msg[16..24] == msg[16..][..8] == Field(h.sem);
    assert msg[..24] == msg[..8] + msg[8..16] + msg[16..24];
    Memcpy(msg, HEADER_SIZE, data);
  }

  /** How `receive_msg` reads one header field out of a receive buffer. */
  function ReadField(e: Endian, w: seq<byte>, off: nat): u64
    requires off + 8 <= |w|
  {
    CpuToBe64(e, Load(e, w[off..off + 8]))
  }

  function ReadHeader(e: Endian, w: seq<byte>): Header
    requires |w| >= HEADER_SIZE
  {
    Header(ReadField(e, w, 0), ReadField(e, w, 8), ReadField(e, w, 16))
  }

  /** Any reader recovers all four parts of a message, whoever wrote it. */
  lemma ReadWire(e: Endian, h: Header, data: seq<byte>)
    ensures ReadHeader(e, Wire(h, data)) == h
    ensures Wire(h, data)[HEADER_SIZE..] == data
  {
    var w := Wire(h, data);
    assert w[0..8] == Field(h.seqn);
    assert w[8..16] == Field(h.ch);
    assert w[16..24] == Field(h.sem);
    LoadConverted(e, h.seqn);
    LoadConverted(e, h.ch);
    LoadConverted(e, h.sem);
  }

  /** Where each part stands, as in the packed struct: number, channel, wait queue, data. */
  lemma WireLayout(h: Header, data: seq<byte>)
    ensures |Wire(h, data)| == 24 + |data|
    ensures Wire(h, data)[0..8] == Field(h.seqn)
    ensures Wire(h, data)[8..16] == Field(h.ch)
    ensures Wire(h, data)[16..24] == Field(h.sem)
    ensures Wire(h, data)[24..] == data
  {
  }

  /** Two messages with the same bytes are the same message. */
  lemma WireInjective(h: Header, data: seq<byte>, h': Header, data': seq<byte>)
    requires Wire(h, data) == Wire(h', data')
    ensures h == h' && data == data'
  {
    ReadWire(Little, h, data);
    ReadWire(Little, h', data');
  }
}
