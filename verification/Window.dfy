/** The sliding window of window.c: the bounds and the slot array, changed in place.
    Every operation is stated on the whole abstract value, `Abs()`. */
module Window {
  import opened Checksum
  import opened Pdu
  import opened Ring

  class Window {
    var upper: nat
    var current: nat
    var lower: nat
    const size: nat
    const windowBuffer: array<Slot>

    ghost function Abs(): Ring
      reads this, windowBuffer
    {
      Ring(lower, current, upper, size, windowBuffer[..])
    }

    ghost predicate Valid()
      reads this, windowBuffer
    {
      Abs().Wf()
    }

    /** window.c:41-53. */
    constructor (windowSize: nat)
      requires windowSize >= 1
      ensures Valid() && fresh(windowBuffer) && Abs() == Created(windowSize)
    {
      lower := 1;
      current := 1;
      upper := 1 + windowSize;
      size := windowSize;
      windowBuffer := new Slot[windowSize](_ => EmptySlot());
    }

    /** window.c:21-24. */
    method IsValid(seqNum: nat) returns (valid: bool)
      requires Valid()
      ensures valid == Abs().IsValid(seqNum)
    {
      var index := seqNum % size;
      valid := windowBuffer[index].valid;
    }

    /** window.c:31-34. */
    method GetPacket(seqNum: nat) returns (packet: seq<byte>)
      requires Valid()
      ensures packet == Abs().At(seqNum).packet && |packet| == MAX_PDU
    {
      var index := seqNum % size;
      packet := windowBuffer[index].packet;
    }

    /** window.c:26-29. */
    method GetLower() returns (packet: seq<byte>)
      requires Valid()
      ensures packet == Abs().At(lower).packet && |packet| == MAX_PDU
    {
      packet := GetPacket(lower);
    }

    /** window.c:36-38. */
    method Full() returns (full: bool)
      ensures full == Abs().Full()
    {
      full := current == upper;
    }

    /** window.c:56-59: unconditional, so the window can also move backwards. */
    method Slide(rrNum: nat)
      requires Valid()
      modifies this
      ensures Valid() && Abs() == old(Abs()).Slide(rrNum)
    {
      lower := rrNum;
      upper := lower + size;
    }

    /** window.c:63-65. */
    method CurUpdate()
      requires Valid()
      modifies this
      ensures Valid() && Abs() == old(Abs()).CurUpdate()
    {
      current := current + 1;
    }

    /** window.c:69-77. */
    method Add(seqNum: nat, packet: seq<byte>)
      requires Valid() && |packet| <= MAX_PDU
      modifies windowBuffer
      ensures Valid() && Abs() == old(Abs()).Add(seqNum, packet)
    {
      var index := seqNum % size;
      windowBuffer[index] := windowBuffer[index].(packet := Overlay(packet, windowBuffer[index].packet));
      windowBuffer[index] := windowBuffer[index].(seqNum := seqNum);
      windowBuffer[index] := windowBuffer[index].(valid := true);
    }

    /** window.c:81-84. */
    method Remove(seqNum: nat)
      requires Valid()
      modifies windowBuffer
      ensures Valid() && Abs() == old(Abs()).Remove(seqNum)
    {
      var index := seqNum % size;
      windowBuffer[index] := windowBuffer[index].(valid := false);
    }

    /** A write through the pointer that window_get_packet or window_get_lower returned. */
    method Rewrite(seqNum: nat, packet: seq<byte>)
      requires Valid() && |packet| == MAX_PDU
      modifies windowBuffer
      ensures Valid() && Abs() == old(Abs()).Rewrite(seqNum, packet)
    {
      var index := seqNum % size;
      windowBuffer[index] := windowBuffer[index].(packet := packet);
    }
  }
}
