/** The ring buffer of window.c as a value, and its refinement of a map from sequence
    numbers to packets. */
module Ring {
  import opened Checksum
  import opened Pdu
  import opened Modular

  /** window.c:7-11. `packet` is always the whole 1407-byte array; a shorter packet leaves
      the bytes behind it as they were. */
  datatype Slot = Slot(seqNum: nat, valid: bool, packet: seq<byte>)

  datatype Ring = Ring(lower: nat, current: nat, upper: nat, size: nat, slots: seq<Slot>) {

    ghost predicate Wf() {
      && size >= 1
      && |slots| == size
      && forall i :: 0 <= i < size ==> |slots[i].packet| == MAX_PDU
    }

    /** The slot sequence number `s` is kept in; nothing compares the stored number with `s`. */
    function At(s: nat): Slot
      requires Wf()
    {
      slots[s % size]
    }

    function Put(s: nat, slot: Slot): (w: Ring)
      requires Wf() && |slot.packet| == MAX_PDU
      ensures w.Wf() && w.size == size
    {
      this.(slots := slots[s % size := slot])
    }

    function IsValid(s: nat): bool
      requires Wf()
    {
      At(s).valid
    }

    predicate Full() {
      current == upper
    }

    function Add(s: nat, packet: seq<byte>): (w: Ring)
      requires Wf() && |packet| <= MAX_PDU
      ensures w.Wf() && w.size == size
    {
      Put(s, Slot(s, true, Overlay(packet, At(s).packet)))
    }

    function Remove(s: nat): (w: Ring)
      requires Wf()
      ensures w.Wf() && w.size == size
    {
      Put(s, At(s).(valid := false))
    }

    /** An in-place change of the bytes of a stored packet. */
    function Rewrite(s: nat, packet: seq<byte>): (w: Ring)
      requires Wf() && |packet| == MAX_PDU
      ensures w.Wf() && w.size == size
    {
      Put(s, At(s).(packet := packet))
    }

    function Slide(rr: nat): Ring {
      this.(lower := rr, upper := rr + size)
    }

    function CurUpdate(): Ring {
      this.(current := current + 1)
    }
  }

  /** memcpy of `packet` over the front of `old`. */
  function Overlay(packet: seq<byte>, before: seq<byte>): (r: seq<byte>)
    requires |packet| <= |before|
    ensures |r| == |before| && r[..|packet|] == packet && r[|packet|..] == before[|packet|..]
  {
    packet + before[|packet|..]
  }

  function EmptySlot(): Slot {
    Slot(0, false, seq(MAX_PDU, _ => 0))
  }

  /** window.c:41-53; calloc clears every slot. */
  function Created(size: nat): (w: Ring)
    requires size >= 1
    ensures w.Wf()
  {
    Ring(1, 1, 1 + size, size, seq(size, _ => EmptySlot()))
  }

  // ---------------------------------------------------------------- indices

  /** Changing the slot of `s` leaves every other number within one ring of `s` alone. */
  lemma PutFrame(w: Ring, s: nat, slot: Slot)
    requires w.Wf() && |slot.packet| == MAX_PDU
    ensures w.Put(s, slot).Wf() && w.Put(s, slot).At(s) == slot
    ensures forall t: nat :: t != s && t < s + w.size && s < t + w.size ==> w.Put(s, slot).At(t) == w.At(t)
  {
    forall t: nat | t != s && t < s + w.size && s < t + w.size
      ensures w.Put(s, slot).At(t) == w.At(t)
    {
      if t % w.size == s % w.size { SameSlot(s, t, w.size); }
    }
  }

  /** A number and the same number one lap later share a slot. */
  lemma NextLap(w: Ring, s: nat)
    requires w.Wf()
    ensures w.At(s + w.size) == w.At(s)
  {
    AddLap(s, w.size);
  }

  // ------------------------------------------------------------- refinement

  /** The ring, seen from `base`, holds exactly the packets of `m`: validity agrees with
      membership over the whole window and each stored packet is the one mapped. */
  ghost predicate Refines(w: Ring, base: nat, m: map<nat, seq<byte>>) {
    && w.Wf()
    && (forall s :: s in m ==> base <= s < base + w.size && |m[s]| <= MAX_PDU)
    && (forall s: nat :: base <= s < base + w.size ==> (w.IsValid(s) <==> s in m))
    && (forall s :: s in m ==> w.At(s).packet[..|m[s]|] == m[s] && w.At(s).seqNum == s)
  }

  datatype Op = Insert(s: nat, packet: seq<byte>) | Delete(s: nat) | Shift(base: nat)

  /** The window an operation must respect: additions and removals lie in it, and it
      moves only past numbers that are not live. */
  ghost predicate Permitted(base: nat, size: nat, m: map<nat, seq<byte>>, op: Op) {
    match op
    case Insert(s, packet) => base <= s < base + size && |packet| <= MAX_PDU
    case Delete(s) => base <= s < base + size
    case Shift(b) => base <= b && forall s :: s in m ==> b <= s
  }

  function RingStep(w: Ring, op: Op): Ring
    requires w.Wf() && (op.Insert? ==> |op.packet| <= MAX_PDU)
  {
    match op
    case Insert(s, packet) => w.Add(s, packet)
    case Delete(s) => w.Remove(s)
    case Shift(_) => w
  }

  function MapStep(m: map<nat, seq<byte>>, op: Op): map<nat, seq<byte>> {
    match op
    case Insert(s, packet) => m[s := packet]
    case Delete(s) => m - {s}
    case Shift(_) => m
  }

  function BaseStep(base: nat, op: Op): nat {
    if op.Shift? then op.base else base
  }

  /** Moving the window past dead numbers uncovers only empty slots. */
  lemma ShiftUncoversNothing(w: Ring, base: nat, m: map<nat, seq<byte>>, b: nat, t: nat)
    requires Refines(w, base, m) && Permitted(base, w.size, m, Shift(b))
    requires b <= t < b + w.size && t >= base + w.size
    ensures !w.IsValid(t)
  {
    var q, r := (t - base) / w.size, (t - base) % w.size;
    var s := base + r;
    ModLaps(s, w.size, q);
    assert t == s + w.size * q;
    if s in m {
      assert b <= s < b + w.size;
      SameSlot(s, t, w.size);
      assert false;
    }
  }

  lemma AddRefines(w: Ring, base: nat, m: map<nat, seq<byte>>, s: nat, packet: seq<byte>)
    requires Refines(w, base, m) && base <= s < base + w.size && |packet| <= MAX_PDU
    ensures Refines(w.Add(s, packet), base, m[s := packet])
  {
    PutFrame(w, s, Slot(s, true, Overlay(packet, w.At(s).packet)));
  }

  lemma RemoveRefines(w: Ring, base: nat, m: map<nat, seq<byte>>, s: nat)
    requires Refines(w, base, m) && base <= s < base + w.size
    ensures Refines(w.Remove(s), base, m - {s})
  {
    PutFrame(w, s, w.At(s).(valid := false));
  }

  lemma ShiftRefines(w: Ring, base: nat, m: map<nat, seq<byte>>, b: nat)
    requires Refines(w, base, m) && Permitted(base, w.size, m, Shift(b))
    ensures Refines(w, b, m)
  {
    forall t: nat | b <= t < b + w.size
      ensures w.IsValid(t) <==> t in m
    {
      if t >= base + w.size { ShiftUncoversNothing(w, base, m, b, t); }
    }
  }

  /** One operation on ring and map side by side; on one live number it never disturbs another. */
  lemma StepRefines(w: Ring, base: nat, m: map<nat, seq<byte>>, op: Op)
    requires Refines(w, base, m) && Permitted(base, w.size, m, op)
    ensures Refines(RingStep(w, op), BaseStep(base, op), MapStep(m, op))
    ensures RingStep(w, op).size == w.size
  {
    match op {
      case Insert(s, packet) => AddRefines(w, base, m, s, packet);
      case Delete(s) => RemoveRefines(w, base, m, s);
      case Shift(b) => ShiftRefines(w, base, m, b);
    }
  }

  ghost predicate PermittedRun(base: nat, size: nat, m: map<nat, seq<byte>>, ops: seq<Op>)
    decreases |ops|
  {
    ops != [] ==>
      && Permitted(base, size, m, ops[0])
      && PermittedRun(BaseStep(base, ops[0]), size, MapStep(m, ops[0]), ops[1..])
  }

  function MapRun(m: map<nat, seq<byte>>, ops: seq<Op>): map<nat, seq<byte>>
    decreases |ops|
  {
    if ops == [] then m else MapRun(MapStep(m, ops[0]), ops[1..])
  }

  function BaseRun(base: nat, ops: seq<Op>): nat
    decreases |ops|
  {
    if ops == [] then base else BaseRun(BaseStep(base, ops[0]), ops[1..])
  }

  ghost function RingRun(w: Ring, ops: seq<Op>): Ring
    requires w.Wf()
    requires forall i :: 0 <= i < |ops| && ops[i].Insert? ==> |ops[i].packet| <= MAX_PDU
    decreases |ops|
  {
    if ops == [] then w
    else
      PutKeepsWf(w, ops[0]);
      RingRun(RingStep(w, ops[0]), ops[1..])
  }

  lemma PutKeepsWf(w: Ring, op: Op)
    requires w.Wf() && (op.Insert? ==> |op.packet| <= MAX_PDU)
    ensures RingStep(w, op).Wf()
  {
  }

  /** Over every run of additions and removals whose live numbers stay within one moving
      window, the ring and the map agree on validity and on every stored packet. */
  lemma {:induction false} RingRefinesMap(w: Ring, base: nat, m: map<nat, seq<byte>>, ops: seq<Op>)
    requires Refines(w, base, m) && PermittedRun(base, w.size, m, ops)
    requires forall i :: 0 <= i < |ops| && ops[i].Insert? ==> |ops[i].packet| <= MAX_PDU
    ensures Refines(RingRun(w, ops), BaseRun(base, ops), MapRun(m, ops))
    decreases |ops|
  {
    if ops != [] {
      StepRefines(w, base, m, ops[0]);
      RingRefinesMap(RingStep(w, ops[0]), BaseStep(base, ops[0]), MapStep(m, ops[0]), ops[1..]);
    }
  }

  /** A new ring is the empty map. */
  lemma CreatedRefines(size: nat, base: nat)
    requires size >= 1
    ensures Refines(Created(size), base, map[])
  {
    forall s: nat ensures !Created(size).IsValid(s) { assert s % size < size; }
  }

  /** Outside one window the refinement fails: a slot filled for `s` answers for the
      number one lap later just the same. */
  lemma OutsideTheWindow(size: nat, s: nat, packet: seq<byte>)
    requires size >= 1 && |packet| <= MAX_PDU
    ensures var w := Created(size).Add(s, packet);
            w.Wf() && w.IsValid(s + size) && w.At(s + size).seqNum == s
  {
    var w := Created(size).Add(s, packet);
    PutFrame(Created(size), s, Slot(s, true, Overlay(packet, Created(size).At(s).packet)));
    NextLap(w, s);
  }
}
