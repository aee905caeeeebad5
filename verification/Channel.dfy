/** The lossy, corrupting channel of libcpe464: every send runs the standard events on a copy
    of the packet, then possibly one random event, and transmits what is left. */
module Channel {
  import opened Checksum
  import opened Pdu

  /** The message events. `Drop(true, _)` drops everything, `Drop(false, l)` the message
      numbers in `l`; `Info` only prints. */
  datatype MsgEvent = Info | Flip | Drop(dropAll: bool, dropList: seq<nat>)

  /** What drand48 decides for one send: which byte each standard event would flip, and whether a
      random event strikes, which one, and which byte it flips. */
  datatype Draw = Draw(standardBytes: seq<nat>, strike: Strike)

  datatype Strike = Quiet | Strike(randCase: nat, byteToFlip: nat)

  /** Xor with 0xFF, see ComplementIsXor. */
  function Complement(b: byte): byte {
    0xFF - b
  }

  lemma ComplementIsXor(b: bv8)
    ensures (b ^ 0xFF) as int == Complement(b as int)
  {
    assert b ^ 0xFF == 0xFF - b;
  }

  predicate Drops(e: MsgEvent, msgNo: nat) {
    e.Drop? && (e.dropAll || msgNo in e.dropList)
  }

  predicate Alters(e: MsgEvent) {
    e.Flip?
  }

  /** What reaches the network: nothing, or these bytes. */
  datatype Delivery = Lost | Sent(bytes: seq<byte>)

  /** The packet after one event that does not drop it. */
  function Altered(e: MsgEvent, packet: seq<byte>, at: nat): (r: seq<byte>)
    requires Alters(e) ==> at < |packet|
    ensures |r| == |packet|
  {
    if Alters(e) then packet[at := Complement(packet[at])] else packet
  }

  /** The bytes drawn lie in the packet, those that matter. */
  ghost predicate BytesFit(events: seq<MsgEvent>, bytes: seq<nat>, len: nat) {
    |bytes| == |events| && forall i :: 0 <= i < |events| && Alters(events[i]) ==> bytes[i] < len
  }

  ghost predicate DrawFits(draw: Draw, standard: seq<MsgEvent>, random: seq<MsgEvent>, packet: seq<byte>) {
    && BytesFit(standard, draw.standardBytes, |packet|)
    && (draw.strike.Strike? ==> draw.strike.randCase < |random| && draw.strike.byteToFlip < |packet|)
  }

  /** The standard events, one after the other, up to the first that drops the packet. */
  ghost function AfterEvents(events: seq<MsgEvent>, bytes: seq<nat>, packet: seq<byte>, msgNo: nat): (d: Delivery)
    requires BytesFit(events, bytes, |packet|)
    ensures d.Sent? ==> |d.bytes| == |packet|
    decreases |events|
  {
    if events == [] then Sent(packet)
    else if Drops(events[0], msgNo) then Lost
    else AfterEvents(events[1..], bytes[1..], Altered(events[0], packet, bytes[0]), msgNo)
  }

  /** The fate of `packet` as message number `msgNo`. */
  ghost function Fate(standard: seq<MsgEvent>, random: seq<MsgEvent>, packet: seq<byte>, msgNo: nat, draw: Draw)
    : Delivery
    requires DrawFits(draw, standard, random, packet)
  {
    match AfterEvents(standard, draw.standardBytes, packet, msgNo)
    case Lost => Lost
    case Sent(bytes) =>
      match draw.strike
      case Quiet => Sent(bytes)
      case Strike(randCase, byteToFlip) =>
        if Drops(random[randCase], msgNo) then Lost else Sent(Altered(random[randCase], bytes, byteToFlip))
  }

  /** libcpe464/MsgEvents/errorDrop.cpp:29-63. */
  method RunDrop(dropAll: bool, dropList: seq<nat>, msgNo: nat) returns (code: int)
    ensures code == if dropAll || msgNo in dropList then 2 else 0
  {
    var toDrop := dropAll;
    var it := 0;
    while it < |dropList|
      invariant 0 <= it <= |dropList|
      invariant toDrop == dropAll
      invariant msgNo !in dropList[..it]
    {
      if dropList[it] == msgNo {
        toDrop := true;
        break;
      }
      it := it + 1;
    }
    return if toDrop then 2 else 0;
  }

  /** libcpe464/MsgEvents/errorFlipBits.cpp:9-27 complements one byte in place. */
  method RunFlip(buf: array<byte>, byteToFlip: nat) returns (code: int)
    requires byteToFlip < buf.Length
    modifies buf
    ensures code == 1
    ensures buf[..] == old(buf[..])[byteToFlip := Complement(old(buf[byteToFlip]))]
  {
    buf[byteToFlip] := Complement(buf[byteToFlip]);
    return 1;
  }

  class PacketManager {
    var msgNo: nat
    var standard: seq<MsgEvent>
    var random: seq<MsgEvent>

    /** PacketManager.cpp:35-39. */
    constructor ()
      ensures msgNo == 0 && standard == [] && random == []
    {
      msgNo := 0;
      standard := [];
      random := [];
    }

    /** PacketManager.cpp:76-86. */
    method AddMsgEventStandard(e: MsgEvent)
      modifies this`standard
      ensures standard == old(standard) + [e]
    {
      standard := standard + [e];
    }

    /** PacketManager.cpp:88-98. */
    method AddMsgEventRandom(e: MsgEvent)
      modifies this`random
      ensures random == old(random) + [e]
    {
      random := random + [e];
    }

    /** One event on the copied packet; the result codes are those of IMsgEvent.h. */
    method RunEvent(e: MsgEvent, buf: array<byte>, byteToFlip: nat) returns (code: int)
      requires Alters(e) ==> byteToFlip < buf.Length
      modifies buf
      ensures code == if Drops(e, msgNo) then 2 else if Alters(e) then 1 else 0
      ensures buf[..] == Altered(e, old(buf[..]), byteToFlip)
    {
      match e
      case Info => code := 0;
      case Flip => code := RunFlip(buf, byteToFlip);
      case Drop(all, list) => code := RunDrop(all, list, msgNo);
    }

    /** PacketManager.cpp:100-130, on the standard list: stops at the first drop. */
    method RunMsgEvents(buf: array<byte>, bytes: seq<nat>) returns (code: int)
      requires BytesFit(standard, bytes, buf.Length)
      modifies buf
      ensures var d := AfterEvents(standard, bytes, old(buf[..]), msgNo);
              code == if d.Lost? then 2 else if exists k :: 0 <= k < |standard| && Alters(standard[k]) then 1 else 0
      ensures code != 2 ==> AfterEvents(standard, bytes, old(buf[..]), msgNo) == Sent(buf[..])
    {
      var hasChanged := false;
      for i := 0 to |standard|
        invariant hasChanged <==> exists k :: 0 <= k < i && Alters(standard[k])
        invariant BytesFit(standard[i..], bytes[i..], buf.Length)
        invariant AfterEvents(standard[i..], bytes[i..], buf[..], msgNo)
                  == AfterEvents(standard, bytes, old(buf[..]), msgNo)
      {
        assert standard[i..][1..] == standard[i + 1..] && bytes[i..][1..] == bytes[i + 1..];
        var nResult := RunEvent(standard[i], buf, bytes[i]);
        if nResult == 1 {
          hasChanged := true;
        } else if nResult == 2 {
          return 2;
        }
      }
      return if hasChanged then 1 else 0;
    }

    /** PacketManager.cpp:132-189. */
    method ProcessEvents(buf: array<byte>, draw: Draw) returns (code: int)
      requires DrawFits(draw, standard, random, buf[..])
      modifies buf
      ensures code == 2 <==> Fate(standard, random, old(buf[..]), msgNo, draw).Lost?
      ensures code != 2 ==>
                (code == 0 || code == 1) && Fate(standard, random, old(buf[..]), msgNo, draw) == Sent(buf[..])
    {
      var hasChanged, hasDropped := 0, false;
      var nResult := RunMsgEvents(buf, draw.standardBytes);
      if nResult == 2 {
        hasDropped := true;
      } else if nResult == 1 {
        hasChanged := 1;
      }
      match draw.strike {
        case Quiet =>
        case Strike(randCase, byteToFlip) =>
          nResult := RunEvent(random[randCase], buf, byteToFlip);
          if nResult == 2 {
            hasDropped := true;
          } else {
            hasChanged := nResult;
          }
      }
      return if hasDropped then 2 else hasChanged;
    }

    /** PacketManager.cpp:354-416. The events work on a copy, so the caller's buffer keeps its
        bytes; it is not in the modifies clause. */
    method SendTo(buf: array<byte>, len: nat, draw: Draw) returns (delivery: Delivery)
      requires 0 < len <= buf.Length && DrawFits(draw, standard, random, buf[..len])
      modifies this`msgNo
      ensures msgNo == old(msgNo) + 1
      ensures delivery == Fate(standard, random, buf[..len], msgNo, draw)
    {
      msgNo := msgNo + 1;
      var bufTmp := new byte[len];
      Memcpy(bufTmp, 0, buf[..len]);
      assert bufTmp[..] == buf[..len];
      var nResult := ProcessEvents(bufTmp, draw);
      delivery := if nResult == 2 then Lost else Sent(bufTmp[..]);
    }
  }

  // ----------------------------------------------------- corruption equals loss

  /** SettingsManager.cpp puts flips on the random list only. */
  ghost predicate NoFlips(standard: seq<MsgEvent>) {
    forall i :: 0 <= i < |standard| ==> !Alters(standard[i])
  }

  /** Without flips the standard events only drop. */
  lemma {:induction false} NoFlipsOnlyDrop(events: seq<MsgEvent>, bytes: seq<nat>, packet: seq<byte>, msgNo: nat)
    requires BytesFit(events, bytes, |packet|) && NoFlips(events)
    ensures AfterEvents(events, bytes, packet, msgNo)
            == if exists i :: 0 <= i < |events| && Drops(events[i], msgNo) then Lost else Sent(packet)
    decreases |events|
  {
    if events != [] && !Drops(events[0], msgNo) {
      NoFlipsOnlyDrop(events[1..], bytes[1..], packet, msgNo);
      assert forall i :: 0 < i < |events| ==> events[i] == events[1..][i - 1];
    }
  }

  /** Which standard events lose a message: one that drops everything, or one that lists it. */
  ghost predicate LostByStandard(standard: seq<MsgEvent>, msgNo: nat) {
    exists i :: 0 <= i < |standard| && standard[i].Drop? && (standard[i].dropAll || msgNo in standard[i].dropList)
  }

  /** The fate of every send, exactly, with flips on the random list only. It is lost when a standard
      event loses it, or the random event that strikes drops everything or lists it; the random event
      of the program drops everything. Otherwise a flip that strikes changes the byte drawn and no
      other, and without one the packet arrives as it is. */
  lemma FateExactly(standard: seq<MsgEvent>, random: seq<MsgEvent>, packet: seq<byte>, msgNo: nat, draw: Draw)
    requires DrawFits(draw, standard, random, packet) && NoFlips(standard)
    ensures var d := Fate(standard, random, packet, msgNo, draw);
            if LostByStandard(standard, msgNo) then d == Lost
            else
              match draw.strike
              case Quiet => d == Sent(packet)
              case Strike(randCase, at) =>
                match random[randCase]
                case Info => d == Sent(packet)
                case Drop(dropAll, dropList) => d == if dropAll || msgNo in dropList then Lost else Sent(packet)
                case Flip =>
                  && d.Sent? && |d.bytes| == |packet|
                  && d.bytes[at] == 0xFF - packet[at]
                  && forall k :: 0 <= k < |packet| && k != at ==> d.bytes[k] == packet[k]
  {
    NoFlipsOnlyDrop(standard, draw.standardBytes, packet, msgNo);
    assert LostByStandard(standard, msgNo) <==> exists i :: 0 <= i < |standard| && Drops(standard[i], msgNo);
  }

  /** An event that drops everything, on the standard list, loses every message. */
  lemma DropAllLosesAll(standard: seq<MsgEvent>, random: seq<MsgEvent>, packet: seq<byte>, msgNo: nat, draw: Draw,
                        i: nat)
    requires DrawFits(draw, standard, random, packet)
    requires i < |standard| && standard[i].Drop? && standard[i].dropAll
    ensures Fate(standard, random, packet, msgNo, draw) == Lost
  {
    DropAllStops(standard, draw.standardBytes, packet, msgNo, i);
  }

  lemma {:induction false} DropAllStops(events: seq<MsgEvent>, bytes: seq<nat>, packet: seq<byte>, msgNo: nat, i: nat)
    requires BytesFit(events, bytes, |packet|) && i < |events| && events[i].Drop? && events[i].dropAll
    ensures AfterEvents(events, bytes, packet, msgNo) == Lost
    decreases |events|
  {
    if i > 0 && !Drops(events[0], msgNo) {
      DropAllStops(events[1..], bytes[1..], Altered(events[0], packet, bytes[0]), msgNo, i - 1);
    }
  }

  /** A send delivers nothing, the exact bytes, or the bytes with one of them complemented. */
  lemma ThreeFates(standard: seq<MsgEvent>, random: seq<MsgEvent>, packet: seq<byte>, msgNo: nat, draw: Draw)
    requires DrawFits(draw, standard, random, packet) && NoFlips(standard)
    ensures var d := Fate(standard, random, packet, msgNo, draw);
            || d == Lost
            || d == Sent(packet)
            || exists i :: 0 <= i < |packet| && d == Sent(packet[i := Complement(packet[i])])
  {
    NoFlipsOnlyDrop(standard, draw.standardBytes, packet, msgNo);
    if draw.strike.Strike? && Alters(random[draw.strike.randCase])
       && !Fate(standard, random, packet, msgNo, draw).Lost? {
      var at := draw.strike.byteToFlip;
      assert Fate(standard, random, packet, msgNo, draw) == Sent(packet[at := Complement(packet[at])]);
    }
  }

  /** Whatever byte is hit, header, checksum field or odd last byte, the altered packet is
      rejected: what a receiver accepts is the packet that was sent. */
  lemma AcceptedIsUnmodified(standard: seq<MsgEvent>, random: seq<MsgEvent>, packet: seq<byte>, msgNo: nat, draw: Draw)
    requires Verifies(packet) && DrawFits(draw, standard, random, packet) && NoFlips(standard)
    ensures var d := Fate(standard, random, packet, msgNo, draw);
            d.Sent? ==> |d.bytes| == |packet| && (Verifies(d.bytes) <==> d.bytes == packet)
  {
    ThreeFates(standard, random, packet, msgNo, draw);
    forall i | 0 <= i < |packet|
      ensures !Verifies(packet[i := Complement(packet[i])])
    {
      OneByteChangeDetected(packet, i, Complement(packet[i]));
    }
  }

  // -------------------------------------------------------------- drop list

  /** A standard list that holds a drop list, once or more, and otherwise events that only print. */
  ghost predicate ListDrops(standard: seq<MsgEvent>, dropList: seq<nat>) {
    && Drop(false, dropList) in standard
    && forall i :: 0 <= i < |standard| ==> standard[i] == Info || standard[i] == Drop(false, dropList)
  }

  /** No random event strikes; no standard event uses its byte. */
  function QuietDraw(standard: seq<MsgEvent>): Draw {
    Draw(seq(|standard|, _ => 0), Quiet)
  }

  /** What arrives when `packets` are sent as messages `first`, `first + 1`, ... over a channel
      without flips on its standard list, and no random event strikes. */
  ghost function Arrivals(standard: seq<MsgEvent>, random: seq<MsgEvent>, packets: seq<seq<byte>>, first: nat)
    : seq<seq<byte>>
    requires NoFlips(standard)
    decreases |packets|
  {
    if packets == [] then []
    else
      var rest := Arrivals(standard, random, packets[1..], first + 1);
      match Fate(standard, random, packets[0], first, QuietDraw(standard))
      case Lost => rest
      case Sent(bytes) => [bytes] + rest
  }

  /** `kept` lists, in increasing order, exactly the message numbers first .. first + n - 1
      that are not on the list. */
  ghost predicate Survivors(kept: seq<nat>, dropList: seq<nat>, first: nat, n: nat) {
    && (forall i, j :: 0 <= i < j < |kept| ==> kept[i] < kept[j])
    && (forall k :: 0 <= k < |kept| ==> first <= kept[k] < first + n && kept[k] !in dropList)
    && (forall m :: first <= m < first + n && m !in dropList ==> m in kept)
  }

  lemma ArrivalsStep(standard: seq<MsgEvent>, random: seq<MsgEvent>, dropList: seq<nat>,
                     packets: seq<seq<byte>>, first: nat)
    requires packets != [] && ListDrops(standard, dropList)
    ensures NoFlips(standard)
    ensures var rest := Arrivals(standard, random, packets[1..], first + 1);
            Arrivals(standard, random, packets, first) == if first in dropList then rest else [packets[0]] + rest
  {
    var i :| 0 <= i < |standard| && standard[i] == Drop(false, dropList);
    NoFlipsOnlyDrop(standard, QuietDraw(standard).standardBytes, packets[0], first);
    assert Drops(standard[i], first) <==> first in dropList;
  }

  lemma SurvivorsStep(rest: seq<nat>, dropList: seq<nat>, first: nat, n: nat)
    requires Survivors(rest, dropList, first + 1, n)
    ensures Survivors(if first in dropList then rest else [first] + rest, dropList, first, n + 1)
  {
    var kept := if first in dropList then rest else [first] + rest;
    forall m | first <= m < first + n + 1 && m !in dropList
      ensures m in kept
    {
      if m == first { assert kept[0] == m; } else { assert m in rest; }
    }
  }

  /** `out` lists the packets that were sent under the message numbers in `kept`. */
  ghost predicate Picks(out: seq<seq<byte>>, packets: seq<seq<byte>>, kept: seq<nat>, first: nat) {
    && |out| == |kept|
    && forall k :: 0 <= k < |kept| ==> first <= kept[k] < first + |packets| && out[k] == packets[kept[k] - first]
  }

  lemma PicksStep(out: seq<seq<byte>>, packets: seq<seq<byte>>, kept: seq<nat>, first: nat)
    requires packets != [] && Picks(out, packets[1..], kept, first + 1)
    ensures Picks(out, packets, kept, first)
    ensures Picks([packets[0]] + out, packets, [first] + kept, first)
  {
  }

  /** The delivered sequence is the sent one with exactly the listed 1-based positions removed,
      in order and unaltered, whatever else on the standard list only prints. */
  lemma {:induction false} DropListIsExact(standard: seq<MsgEvent>, random: seq<MsgEvent>, dropList: seq<nat>,
                                           packets: seq<seq<byte>>, first: nat)
    returns (kept: seq<nat>)
    requires ListDrops(standard, dropList)
    ensures NoFlips(standard)
    ensures Survivors(kept, dropList, first, |packets|)
    ensures Picks(Arrivals(standard, random, packets, first), packets, kept, first)
    decreases |packets|
  {
    if packets == [] {
      kept := [];
    } else {
      var rest := DropListIsExact(standard, random, dropList, packets[1..], first + 1);
      ArrivalsStep(standard, random, dropList, packets, first);
      SurvivorsStep(rest, dropList, first, |packets| - 1);
      PicksStep(Arrivals(standard, random, packets[1..], first + 1), packets, rest, first);
      kept := if first in dropList then rest else [first] + rest;
    }
  }
}
