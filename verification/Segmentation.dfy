/** How the server cuts the file into packets: read returns the next `size` bytes, or what is
    left, and zero bytes at the end. */
module Segmentation {
  import opened Checksum
  import opened Modular

  function ReadLen(rest: seq<byte>, size: nat): (k: nat)
    ensures k <= |rest|
  {
    if |rest| < size then |rest| else size
  }

  /** The payloads of packets 1, 2, ... */
  function Split(file: seq<byte>, size: nat): seq<seq<byte>>
    requires size >= 1
    decreases |file|
  {
    if file == [] then []
    else
      var k := ReadLen(file, size);
      [file[..k]] + Split(file[k..], size)
  }

  function Flatten(chunks: seq<seq<byte>>): seq<byte> {
    if chunks == [] then [] else chunks[0] + Flatten(chunks[1..])
  }

  /** Every chunk is full except possibly the last, and none is empty. */
  ghost predicate Segmented(chunks: seq<seq<byte>>, size: nat) {
    && size >= 1
    && (forall k :: 0 <= k < |chunks| ==> 1 <= |chunks[k]| <= size)
    && (forall k :: 0 <= k < |chunks| - 1 ==> |chunks[k]| == size)
  }

  /** The file ends in a packet that is not full. */
  predicate Short(chunks: seq<seq<byte>>, size: nat) {
    |chunks| > 0 && |chunks[|chunks| - 1]| < size
  }

  lemma SplitStep(file: seq<byte>, size: nat)
    requires size >= 1 && file != []
    ensures var k := ReadLen(file, size);
            && Split(file, size) == [file[..k]] + Split(file[k..], size)
            && Split(file, size)[1..] == Split(file[k..], size)
            && file == file[..k] + file[k..]
            && (k < size ==> Split(file[k..], size) == [])
  {
  }

  /** Cutting and joining is the identity, and every packet but the last is full. */
  lemma {:induction false} SplitJoins(file: seq<byte>, size: nat)
    requires size >= 1
    ensures Flatten(Split(file, size)) == file && Segmented(Split(file, size), size)
    decreases |file|
  {
    if file != [] {
      SplitStep(file, size);
      SplitJoins(file[ReadLen(file, size)..], size);
    }
  }

  lemma Distribute(a: int, n: int)
    ensures a * (n + 1) == a * n + a && a * (n - 1) == a * n - a
  {
  }

  /** The number of packets is the length divided by the packet size, rounded up. */
  lemma {:induction false} SplitCount(file: seq<byte>, size: nat)
    requires size >= 1
    ensures var n := |Split(file, size)|;
            if file == [] then n == 0 else size * (n - 1) < |file| <= size * n
    decreases |file|
  {
    if file != [] {
      SplitStep(file, size);
      var k := ReadLen(file, size);
      var n := |Split(file[k..], size)|;
      SplitCount(file[k..], size);
      assert |Split(file, size)| == n + 1;
      Distribute(size, n);
    }
  }

  /** The last packet is short exactly when the length is not a multiple of the packet size. */
  lemma {:induction false} ShortIff(file: seq<byte>, size: nat)
    requires size >= 1
    ensures Short(Split(file, size), size) <==> |file| % size != 0
    decreases |file|
  {
    if |file| > size {
      var tail := file[size..];
      var rest := Split(tail, size);
      assert Split(file, size) == [file[..size]] + rest && rest != [];
      ShortIff(tail, size);
      assert Split(file, size)[|rest|] == rest[|rest| - 1];
      AddLap(|file| - size, size);
    } else if file != [] {
      assert file[..|file|] == file && file[|file|..] == [];
      assert Split(file, size) == [file];
      Remainders(|file|, size);
    }
  }

  lemma Remainders(n: nat, size: nat)
    requires n <= size && size >= 1
    ensures n % size == if n == size then 0 else n
  {
    AddLap(0, size);
  }

  lemma {:induction false} FlattenConcat(a: seq<seq<byte>>, b: seq<seq<byte>>)
    ensures Flatten(a + b) == Flatten(a) + Flatten(b)
  {
    if a == [] {
      assert a + b == b;
    } else {
      assert (a + b)[1..] == a[1..] + b;
      FlattenConcat(a[1..], b);
    }
  }

  /** The first packets carry a prefix of the file. */
  lemma PrefixOfFile(file: seq<byte>, size: nat, k: nat)
    requires size >= 1 && k <= |Split(file, size)|
    ensures Flatten(Split(file, size)[..k]) <= file
    ensures k == |Split(file, size)| ==> Flatten(Split(file, size)[..k]) == file
  {
    var chunks := Split(file, size);
    SplitJoins(file, size);
    FlattenConcat(chunks[..k], chunks[k..]);
    assert chunks[..k] + chunks[k..] == chunks;
  }
}
