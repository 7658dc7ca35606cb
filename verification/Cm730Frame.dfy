/**
 Frames on the serial bus: two header bytes 0xFF, an id, a length, an error or
 instruction byte, the payload, and a checksum over everything behind the header.
 */
module Cm730Frame {
  import opened Basics

  const HEADER: byte := 0xFF
  const ID: nat := 2
  const LENGTH: nat := 3
  const INSTRUCTION: nat := 4
  const ERRBIT: nat := 4
  const PARAMETER: nat := 5

  /** The length byte: how many bytes follow it. */
  function Follow(p: seq<byte>): (n: nat)
    requires |p| > LENGTH
    ensures n < 256
  {
    p[LENGTH]
  }

  function Sum(s: seq<byte>): nat {
    if s == [] then 0 else s[0] + Sum(s[1..])
  }

  /** The complemented low byte of the sum. */
  function Complement(sum: nat): byte {
    255 - sum % 256
  }

  /** The bytes of a buffer that its length byte says are covered by the checksum. */
  function Covered(p: seq<byte>): seq<byte>
    requires |p| > LENGTH && Follow(p) + 3 <= |p|
  {
    p[ID..Follow(p) + 3]
  }

  function Checksum(p: seq<byte>): byte
    requires |p| > LENGTH && Follow(p) + 3 <= |p|
  {
    Complement(Sum(Covered(p)))
  }

  /** A header, a length that reaches exactly to the end, and a matching checksum. */
  predicate WellFormed(p: seq<byte>) {
    |p| > LENGTH && p[0] == HEADER && p[1] == HEADER && |p| == Follow(p) + 4 && Follow(p) >= 1 &&
    p[|p| - 1] == Checksum(p)
  }

  lemma {:induction false} SumAppend(a: seq<byte>, b: seq<byte>)
    ensures Sum(a + b) == Sum(a) + Sum(b)
  {
    if a == [] {
      assert a + b == b;
    } else {
      assert (a + b)[1..] == a[1..] + b;
      SumAppend(a[1..], b);
    }
  }

  lemma AddByte(s: seq<byte>, b: byte, checksum: byte)
    requires checksum == Sum(s) % 256
    ensures (checksum + b) % 256 == Sum(s + [b]) % 256
  {
    SumAppend(s, [b]);
    assert Sum([b]) == b;
  }

  /**
   The covered bytes and the checksum add up to 255 modulo 256, which is what every
   device on the bus tests.
   */
  lemma ChecksumCompletes(p: seq<byte>)
    requires |p| > LENGTH && p[3] + 3 <= |p|
    ensures (Sum(p[2..p[3] + 3]) + Checksum(p)) % 256 == 255
  {
  }

  /** The sum of some bytes, byte by byte. */
  lemma SumExactly(a: seq<byte>, b: byte)
    ensures Sum([]) == 0 && Sum([b]) == b && Sum(a + [b]) == Sum(a) + b
  {
    assert [b][1..] == [];
    SumAppend(a, [b]);
  }

  /** A frame: two bytes 255, a length byte that counts what follows it, and bytes that sum up to 255 modulo 256. */
  lemma WellFormedExactly(p: seq<byte>)
    ensures WellFormed(p) <==>
            |p| >= 5 && p[0] == 255 && p[1] == 255 && p[3] == |p| - 4 && Sum(p[2..]) % 256 == 255
  {
    if |p| >= 5 && p[3] == |p| - 4 {
      ChecksumCompletes(p);
      assert p[2..] == p[2..|p| - 1] + [p[|p| - 1]];
      SumExactly(p[2..|p| - 1], p[|p| - 1]);
    }
  }

  /** A body on the wire: two bytes 255 in front, and behind it what makes the sum 255 modulo 256. */
  ghost predicate Wired(p: seq<byte>, body: seq<byte>) {
    |p| == |body| + 3 && p[0] == 255 && p[1] == 255 && p[2..|p| - 1] == body && Sum(p[2..]) % 256 == 255
  }

  /** CalculateChecksum: the loop over a wrapping byte. */
  method CalculateChecksum(packet: array<byte>) returns (r: byte)
    requires packet.Length >= 260
    ensures r == Checksum(packet[..])
  {
    var checksum: byte := 0;
    var end: nat := packet[LENGTH];
    end := end + 3;
    var i := 2;
    while i < end
      invariant 2 <= i <= end
      invariant checksum == Sum(packet[2..i]) % 256
    {
      AddByte(packet[2..i], packet[i], checksum);
      assert packet[2..i + 1] == packet[2..i] + [packet[i]];
      checksum := (checksum + packet[i]) % 256;
      i := i + 1;
    }
    assert packet[..][2..end] == packet[2..end];
    r := 255 - checksum;
  }

  // ---------- words ----------

  function LowByte(word: int): byte {
    word % 256
  }

  /** The second byte of the two's complement representation. */
  function HighByte(word: int): byte {
    word / 256 % 256
  }

  /** An unsigned 16-bit word. */
  function MakeWord(low: byte, high: byte): nat {
    (high * 256 + low) % 65536
  }

  /** Splitting and joining keeps the low sixteen bits, negative numbers in two's complement. */
  lemma WordRoundTrip(word: int)
    ensures LowByte(word) + 256 * HighByte(word) == word % 65536
    ensures MakeWord(LowByte(word), HighByte(word)) == word % 65536
  {
  }

  /** The low byte comes first. */
  lemma WordExactly(low: byte, high: byte)
    ensures MakeWord(low, high) == low + 256 * high
  {
  }

  // ---------- transmitting ----------

  /** A packet as it leaves: header and checksum filled in. */
  function Sealed(tx: seq<byte>): seq<byte>
    requires |tx| >= 260
  {
    var t := tx[0 := HEADER][1 := HEADER];
    t[Follow(t) + 3 := Checksum(t)]
  }

  lemma CoveredIgnores(p: seq<byte>, q: seq<byte>)
    requires |p| > LENGTH && |q| > LENGTH && Follow(p) == Follow(q) && Follow(p) + 3 <= |p| && Follow(p) + 3 <= |q|
    requires Follow(p) >= 1 && p[2..Follow(p) + 3] == q[2..Follow(p) + 3]
    ensures Checksum(p) == Checksum(q)
  {
  }

  /** Every frame that is sent passes the receiver's checksum test; only a zero length byte breaks it. */
  lemma SealedIsWellFormed(tx: seq<byte>)
    requires |tx| >= 260
    ensures Follow(tx) >= 1 ==> WellFormed(Sealed(tx)[..Follow(tx) + 4])
    ensures Follow(tx) >= 1 ==> Sealed(tx)[2..Follow(tx) + 3] == tx[2..Follow(tx) + 3]
  {
    if Follow(tx) >= 1 {
      var t := tx[0 := HEADER][1 := HEADER];
      var n := Follow(tx) + 4;
      var p := Sealed(tx)[..n];
      assert t[2..n - 1] == tx[2..n - 1];
      assert Sealed(tx)[2..n - 1] == tx[2..n - 1];
      assert p[2..n - 1] == t[2..n - 1];
      CoveredIgnores(p, t);
    }
  }

  // ---------- looking for a header ----------

  predicate HeaderAt(s: seq<byte>, k: int) {
    0 <= k && k + 1 < |s| && s[k] == HEADER && s[k + 1] == HEADER
  }

  /**
   Where the scan over the first n bytes stops: at the first header, or before a
   last byte that may begin one, or at the last byte.
   */
  function Scan(s: seq<byte>, n: nat): (i: nat)
    requires n <= |s|
    ensures n == 0 ==> i == 0
    ensures n > 0 ==> i < n
  {
    ScanFrom(s, n, 0)
  }

  function ScanFrom(s: seq<byte>, n: nat, i: nat): (r: nat)
    requires n <= |s|
    requires n == 0 ==> i == 0
    requires n > 0 ==> i < n
    ensures i <= r
    ensures n == 0 ==> r == 0
    ensures n > 0 ==> r < n
    decreases n - i
  {
    if i + 1 >= n then i
    else if s[i] == HEADER && s[i + 1] == HEADER then i
    else if i == n - 2 && s[n - 1] == HEADER then i
    else ScanFrom(s, n, i + 1)
  }

  /** No header begins before the place where the scan stops. */
  lemma {:induction false} ScanSkipsNoHeader(s: seq<byte>, n: nat, i: nat)
    requires n <= |s| && (n == 0 ==> i == 0) && (n > 0 ==> i < n)
    ensures forall k :: i <= k < ScanFrom(s, n, i) ==> !HeaderAt(s[..n], k)
    ensures n >= 3 && ScanFrom(s, n, i) == 0 ==> HeaderAt(s[..n], 0)
    decreases n - i
  {
    if i + 1 >= n || (s[i] == HEADER && s[i + 1] == HEADER) || (i == n - 2 && s[n - 1] == HEADER) {
    } else {
      ScanSkipsNoHeader(s, n, i + 1);
      assert !HeaderAt(s[..n], i);
    }
  }

  lemma ScanAtHeader(s: seq<byte>, n: nat)
    requires n <= |s| && HeaderAt(s[..n], 0)
    ensures Scan(s, n) == 0
  {
  }

  /** The header scan of both receive paths. */
  method FindHeader(rx: array<byte>, n: nat) returns (i: nat)
    requires n <= rx.Length
    ensures i == Scan(rx[..], n)
  {
    i := 0;
    while i + 1 < n
      invariant n == 0 ==> i == 0
      invariant n > 0 ==> i < n
      invariant Scan(rx[..], n) == ScanFrom(rx[..], n, i)
    {
      if rx[i] == HEADER && rx[i + 1] == HEADER { break; }
      else if i == n - 2 && rx[n - 1] == HEADER { break; }
      i := i + 1;
    }
  }

  /** The first count bytes become those d places on. */
  function Shifted(s: seq<byte>, d: nat, count: nat): (r: seq<byte>)
    requires d + count <= |s|
    ensures |r| == |s|
  {
    s[d..d + count] + s[count..]
  }

  /** The copy loops that move the rest of the buffer to its front. */
  method ShiftDown(rx: array<byte>, d: nat, count: nat)
    requires d + count <= rx.Length
    modifies rx
    ensures rx[..] == Shifted(old(rx[..]), d, count)
  {
    ghost var was := rx[..];
    var j := 0;
    while j < count
      invariant j <= count
      invariant forall k :: 0 <= k < j ==> rx[k] == was[k + d]
      invariant forall k :: j <= k < rx.Length ==> rx[k] == was[k]
    {
      rx[j] := rx[j + d];
      j := j + 1;
    }
  }
}
