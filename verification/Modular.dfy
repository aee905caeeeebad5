/** Remainders of slot numbers: who shares a slot with whom. */
module Modular {

  lemma LargeMultiple(n: int, k: int)
    requires n >= 1
    ensures k != 0 ==> n * k >= n || n * k <= -n
  {
    if k > 0 { assert n * (k - 1) >= 0; }
    if k < 0 { assert n * (-k - 1) >= 0; }
  }

  /** Two numbers less than one ring apart share a slot only if they are equal. */
  lemma SameSlot(s: nat, t: nat, size: nat)
    requires size >= 1 && s % size == t % size && s < t + size && t < s + size
    ensures s == t
  {
    LargeMultiple(size, t / size - s / size);
    assert t - s == size * (t / size - s / size);
  }

  lemma AddLap(s: nat, size: nat)
    requires size >= 1
    ensures (s + size) % size == s % size
  {
    var k := (s + size) / size - s / size;
    LargeMultiple(size, 1 - k);
    assert (s + size) % size - s % size == size * (1 - k);
  }

  lemma {:induction false} ModLaps(s: nat, size: nat, q: nat)
    requires size >= 1
    ensures size * q >= 0 && (s + size * q) % size == s % size
  {
    if q > 0 {
      ModLaps(s, size, q - 1);
      AddLap(s + size * (q - 1), size);
      assert size * q == size * (q - 1) + size;
    }
  }

  /** Every number below a window shares a slot with one inside it. */
  lemma {:induction false} Lift(s: nat, lo: nat, size: nat) returns (q: nat)
    requires size >= 1 && s < lo + size
    ensures lo <= q < lo + size && q % size == s % size
    decreases lo - s
  {
    if s >= lo {
      q := s;
    } else {
      AddLap(s, size);
      q := Lift(s + size, lo, size);
    }
  }
}
