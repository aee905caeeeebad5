/** The packet format of pdu.c: four bytes of sequence number in network order, two bytes
    of checksum, one flag byte, then the payload. */
module Pdu {
  import opened Checksum

  const HEADER_LEN := 7
  const MAX_PDU := 1407

  const RR: byte := 5
  const SREJ: byte := 6
  const FNAME_OK: byte := 9
  const END_OF_FILE: byte := 10
  const DATA: byte := 16
  const SREJ_RETRAN: byte := 17
  const DATA_TIMEOUT: byte := 18
  const EOF_ACK: byte := 32

  const U32_LIMIT := 0x1_0000_0000

  /** The bytes htonl leaves in memory; higher bits are cut off. */
  function U32(n: nat): (b: seq<byte>)
    ensures |b| == 4
  {
    [n / 0x100 / 0x100 / 0x100 % 0x100, n / 0x100 / 0x100 % 0x100, n / 0x100 % 0x100, n % 0x100]
  }

  /** ntohl of the four bytes at the front of `b`. */
  function ToU32(b: seq<byte>): (n: nat)
    requires |b| >= 4
    ensures n < U32_LIMIT
  {
    ((b[0] as int * 0x100 + b[1] as int) * 0x100 + b[2] as int) * 0x100 + b[3] as int
  }

  lemma U32RoundTrip(n: nat)
    requires n < U32_LIMIT
    ensures ToU32(U32(n)) == n
  {
    var n1 := n / 0x100;
    var n2 := n1 / 0x100;
    var n3 := n2 / 0x100;
    assert n3 % 0x100 == n3;
  }

  lemma ToU32RoundTrip(b: seq<byte>)
    requires |b| == 4
    ensures U32(ToU32(b)) == b
  {
    var n := ToU32(b);
    var b0, b1, b2, b3 := b[0] as int, b[1] as int, b[2] as int, b[3] as int;
    assert n / 0x100 == (b0 * 0x100 + b1) * 0x100 + b2;
    assert n / 0x100 / 0x100 == b0 * 0x100 + b1;
    assert n / 0x100 / 0x100 / 0x100 == b0;
  }

  /** Writes the 16-bit checksum field the way memcpy does on a little-endian host. */
  function PutChecksum(p: seq<byte>, c: nat): (q: seq<byte>)
    requires |p| >= 6 && c < 0x1_0000
    ensures |q| == |p|
  {
    p[4 := c % 0x100][5 := c / 0x100]
  }

  function ChecksumField(p: seq<byte>): nat
    requires |p| >= 6
  {
    p[4] as int + 0x100 * p[5] as int
  }

  /** Clears the checksum field, computes the checksum and stores it. */
  function Seal(p: seq<byte>): (q: seq<byte>)
    requires |p| >= 6
    ensures |q| == |p|
  {
    PutChecksum(p, Cksum(PutChecksum(p, 0)))
  }

  /** The packet createPDU builds. */
  function Sealed(seqNum: nat, flag: byte, payload: seq<byte>): (p: seq<byte>)
    ensures |p| == HEADER_LEN + |payload|
  {
    Seal(U32(seqNum) + [0, 0, flag] + payload)
  }

  /** An in-place rewrite of a stored packet: new flag, new checksum (server.c:184-190, 413-431). */
  function Reseal(p: seq<byte>, flag: byte): (q: seq<byte>)
    requires |p| >= HEADER_LEN
    ensures |q| == |p|
  {
    Seal(p[6 := flag])
  }

  function SeqOf(p: seq<byte>): nat
    requires |p| >= 4
  {
    ToU32(p)
  }

  function FlagOf(p: seq<byte>): byte
    requires |p| >= HEADER_LEN
  {
    p[6]
  }

  /** The sequence number an RR or SREJ carries as its payload. */
  function ValueOf(p: seq<byte>): nat
    requires |p| >= HEADER_LEN + 4
  {
    ToU32(p[HEADER_LEN..])
  }

  // ---------------------------------------------------------------- sealing

  lemma WordSumPut(p: seq<byte>, c: nat)
    requires |p| >= 6 && c < 0x1_0000
    ensures WordSum(PutChecksum(p, c)) == WordSum(PutChecksum(p, 0)) + c
  {
    var z := PutChecksum(p, 0);
    var z4 := z[4 := c % 0x100];
    WordSumUpdate(z, 4, c % 0x100);
    WordSumUpdate(z4, 5, c / 0x100);
    assert PutChecksum(p, c) == z4[5 := c / 0x100];
  }

  /** Whatever the bytes are, odd lengths and all-zero packets included, sealing makes them verify. */
  lemma SealVerifies(p: seq<byte>)
    requires |p| >= 6
    ensures Verifies(Seal(p))
  {
    var w := WordSum(PutChecksum(p, 0));
    var k := FoldGap(w);
    WordSumPut(p, 0xFFFF - FoldAll(w));
    MultipleVerifies(Seal(p), k + 1);
  }

  lemma SealedParts(seqNum: nat, flag: byte, payload: seq<byte>)
    ensures var p := Sealed(seqNum, flag, payload);
            && Verifies(p) && FlagOf(p) == flag && p[HEADER_LEN..] == payload
            && p[..4] == U32(seqNum)
  {
    SealVerifies(U32(seqNum) + [0, 0, flag] + payload);
  }

  /** createPDU and the header decoding of recv_buf are inverse, and the packet verifies. */
  lemma SealedDecodes(seqNum: nat, flag: byte, payload: seq<byte>)
    requires seqNum < U32_LIMIT
    ensures var p := Sealed(seqNum, flag, payload);
            Verifies(p) && SeqOf(p) == seqNum && FlagOf(p) == flag && p[HEADER_LEN..] == payload
  {
    SealedParts(seqNum, flag, payload);
    U32RoundTrip(seqNum);
    var p := Sealed(seqNum, flag, payload);
    assert ToU32(p) == ToU32(p[..4]);
  }

  /** The same for a packet that carries a sequence number. */
  lemma ControlDecodes(seqNum: nat, flag: byte, value: nat)
    requires value < U32_LIMIT
    ensures var p := Sealed(seqNum, flag, U32(value));
            Verifies(p) && FlagOf(p) == flag && ValueOf(p) == value
  {
    SealedParts(seqNum, flag, U32(value));
    U32RoundTrip(value);
  }

  lemma SplitHeader(p: seq<byte>)
    requires |p| >= HEADER_LEN
    ensures U32(SeqOf(p)) + p[4..6] + [FlagOf(p)] + p[HEADER_LEN..] == p
  {
    ToU32RoundTrip(p[..4]);
    assert SeqOf(p) == ToU32(p[..4]);
  }

  /** Decoding then encoding gives an accepted packet back, except for the two ways
      one's-complement arithmetic has of writing zero: exactly the packets with checksum field
      FFFF over a body that is not all zero are accepted without being what createPDU builds. */
  lemma AcceptedIsSealed(p: seq<byte>)
    requires |p| >= HEADER_LEN && Verifies(p)
    ensures p == Sealed(SeqOf(p), FlagOf(p), p[HEADER_LEN..])
            <==> ChecksumField(p) != 0xFFFF || WordSum(PutChecksum(p, 0)) == 0
  {
    SplitHeader(p);
    var body := U32(SeqOf(p)) + [0, 0, FlagOf(p)] + p[HEADER_LEN..];
    assert PutChecksum(body, 0) == PutChecksum(p, 0);
    var c, w := ChecksumField(p), WordSum(PutChecksum(p, 0));
    assert p == PutChecksum(p, c);
    WordSumPut(p, c);
    var n := VerifiedMultiple(p);
    var k := FoldGap(w);
    var c' := 0xFFFF - FoldAll(w);
    assert c - c' == 0xFFFF * (n - k - 1);
    assert Seal(body) == PutChecksum(p, c');
    PutInjective(p, c, c');
  }

  lemma PutInjective(p: seq<byte>, c: nat, d: nat)
    requires |p| >= 6 && c < 0x1_0000 && d < 0x1_0000
    ensures PutChecksum(p, c) == PutChecksum(p, d) <==> c == d
  {
    assert PutChecksum(p, c)[4] == c % 0x100 && PutChecksum(p, c)[5] == c / 0x100;
    assert PutChecksum(p, d)[4] == d % 0x100 && PutChecksum(p, d)[5] == d / 0x100;
  }

  // -------------------------------------------------------------- resealing

  /** Rewriting a stored packet keeps its sequence number and payload. */
  lemma ResealSealed(seqNum: nat, flag: byte, payload: seq<byte>, newFlag: byte)
    ensures Reseal(Sealed(seqNum, flag, payload), newFlag) == Sealed(seqNum, newFlag, payload)
  {
    var before := Sealed(seqNum, flag, payload)[6 := newFlag];
    var built := U32(seqNum) + [0, 0, newFlag] + payload;
    assert PutChecksum(before, 0) == PutChecksum(built, 0);
    var c := Cksum(PutChecksum(built, 0));
    assert PutChecksum(before, c) == PutChecksum(built, c);
  }

  /** Any number of SREJ and timeout rewrites of one packet, oldest first. */
  function ResealAll(p: seq<byte>, flags: seq<byte>): (q: seq<byte>)
    requires |p| >= HEADER_LEN
    ensures |q| == |p|
    decreases |flags|
  {
    if flags == [] then p else ResealAll(Reseal(p, flags[0]), flags[1..])
  }

  /** After any number of rewrites the packet still verifies, and only the flag byte and the
      checksum bytes can differ from the packet that was first built. */
  lemma {:induction false} RewritesPreserveMeaning(seqNum: nat, flag: byte, payload: seq<byte>, flags: seq<byte>)
    requires seqNum < U32_LIMIT
    ensures var p := ResealAll(Sealed(seqNum, flag, payload), flags);
            && p == Sealed(seqNum, (if flags == [] then flag else flags[|flags| - 1]), payload)
            && Verifies(p) && SeqOf(p) == seqNum && p[HEADER_LEN..] == payload
    decreases |flags|
  {
    if flags == [] {
      SealedDecodes(seqNum, flag, payload);
    } else {
      ResealSealed(seqNum, flag, payload, flags[0]);
      RewritesPreserveMeaning(seqNum, flags[0], payload, flags[1..]);
    }
  }

  // ---------------------------------------------------------------- methods

  /** The buffer `s` after `src` was copied over it at `at`. */
  function Patch(s: seq<byte>, at: nat, src: seq<byte>): (r: seq<byte>)
    requires at + |src| <= |s|
    ensures |r| == |s|
  {
    s[..at] + src + s[at + |src|..]
  }

  lemma PatchAppends(front: seq<byte>, s: seq<byte>, src: seq<byte>)
    requires |front| + |src| <= |s|
    ensures Patch(front + s[|front|..], |front|, src) == front + src + s[|front + src|..]
  {
  }

  /** The four copies of createPDU put the unsealed packet in front of what was there. */
  lemma PatchesBuild(s: seq<byte>, seqNum: nat, flag: byte, payload: seq<byte>)
    requires HEADER_LEN + |payload| <= |s|
    ensures var h := Patch(Patch(Patch(s, 0, U32(seqNum)), 4, [0, 0]), 6, [flag]);
            Patch(h, HEADER_LEN, payload) == U32(seqNum) + [0, 0, flag] + payload + s[HEADER_LEN + |payload|..]
  {
    var b := U32(seqNum);
    assert Patch(s, 0, b) == b + s[4..];
    PatchAppends(b, s, [0, 0]);
    PatchAppends(b + [0, 0], s, [flag]);
    assert b + [0, 0] + [flag] == b + [0, 0, flag];
    PatchAppends(b + [0, 0, flag], s, payload);
  }

  lemma PatchSeals(built: seq<byte>, tail: seq<byte>, c: nat)
    requires |built| >= HEADER_LEN && c < 0x1_0000
    ensures Patch(built + tail, 4, [c % 0x100, c / 0x100]) == PutChecksum(built, c) + tail
  {
  }

  /** memcpy into a buffer. */
  method Memcpy(dst: array<byte>, at: nat, src: seq<byte>)
    requires at + |src| <= dst.Length
    modifies dst
    ensures dst[..] == Patch(old(dst[..]), at, src)
  {
    var i := 0;
    while i < |src|
      invariant 0 <= i <= |src|
      invariant forall k :: 0 <= k < i ==> dst[at + k] == src[k]
      invariant forall k :: 0 <= k < at || at + i <= k < dst.Length ==> dst[k] == old(dst[k])
    {
      dst[at + i] := src[i];
      i := i + 1;
    }
  }

  /** pdu.c:31-48. Builds the packet at the front of `pduBuffer` and leaves the rest alone. */
  method CreatePdu(pduBuffer: array<byte>, seqNum: nat, flag: byte, payload: seq<byte>) returns (pduLength: nat)
    requires HEADER_LEN + |payload| <= pduBuffer.Length && |payload| <= 0x8000
    modifies pduBuffer
    ensures pduLength == HEADER_LEN + |payload|
    ensures pduBuffer[..] == Sealed(seqNum, flag, payload) + old(pduBuffer[pduLength..])
  {
    pduLength := HEADER_LEN + |payload|;
    ghost var before := pduBuffer[..];
    ghost var built := U32(seqNum) + [0, 0, flag] + payload;
    PatchesBuild(before, seqNum, flag, payload);
    Memcpy(pduBuffer, 0, U32(seqNum));
    Memcpy(pduBuffer, 4, [0, 0]);
    Memcpy(pduBuffer, 6, [flag]);
    Memcpy(pduBuffer, HEADER_LEN, payload);
    assert pduBuffer[..pduLength] == built == PutChecksum(built, 0);
    var checksum := InCksum(pduBuffer[..pduLength]);
    PatchSeals(built, before[pduLength..], checksum);
    Memcpy(pduBuffer, 4, [checksum % 0x100, checksum / 0x100]);
  }

  /** pdu.c:196-220. Receives one datagram into `buf`, cut to the buffer's size, and decodes
      the header from the buffer. */
  method RecvBuf(buf: array<byte>, datagram: seq<byte>) returns (len: nat, flag: byte, seqNum: nat)
    requires buf.Length == MAX_PDU
    modifies buf
    ensures len == if |datagram| <= MAX_PDU then |datagram| else MAX_PDU
    ensures buf[..] == Patch(old(buf[..]), 0, datagram[..len])
    ensures seqNum == SeqOf(buf[..]) && flag == FlagOf(buf[..])
    ensures len >= HEADER_LEN ==> seqNum == SeqOf(datagram) && flag == FlagOf(datagram)
  {
    len := if |datagram| <= MAX_PDU then |datagram| else MAX_PDU;
    Memcpy(buf, 0, datagram[..len]);
    seqNum := ToU32(buf[..4]);
    flag := buf[6];
  }
}
