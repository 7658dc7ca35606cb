/**
 What the servos make of a control cycle's packet. A servo that hears a synchronous write
 looks for its own id among the groups and copies the bytes behind it into its registers.
 */
module Servo {
  import opened Basics
  import opened Cm730Frame
  import opened JointFusion

  /** The 256 registers of a servo. */
  type Registers = r: seq<byte> | |r| == 256 witness seq(256, _ => 0)

  /** A synchronous write that passes the test: two bytes 255, and from the id on a sum of 255 modulo 256. */
  ghost predicate Heard(p: seq<byte>) {
    && |p| >= 8 && p[0] == 255 && p[1] == 255 && p[2] == 254 && p[3] == |p| - 4 && p[4] == 131
    && Sum(p[2..]) % 256 == 255
  }

  /** The registers from an address on replaced by some bytes, as far as they go. */
  function Stored(r: Registers, start: nat, data: seq<byte>): (s: Registers)
    ensures forall a :: 0 <= a < 256 ==> s[a] == if start <= a < start + |data| then data[a - start] else r[a]
  {
    seq(256, a requires 0 <= a < 256 => if start <= a < start + |data| then data[a - start] else r[a])
  }

  /** The registers after the first k groups: an id each, and as many bytes as the packet says, from its address on. */
  function Executed(p: seq<byte>, id: byte, r: Registers, k: nat): Registers
    requires |p| >= 8 && 7 + k * (p[6] + 1 as nat) <= |p|
    decreases k
  {
    if k == 0 then r
    else
      var (at, n) := (7 + (k - 1) * (p[6] + 1 as nat), p[6]);
      assert k * (n + 1 as nat) == (k - 1) * (n + 1 as nat) + n + 1;
      var before := Executed(p, id, r, k - 1);
      if p[at] == id then Stored(before, p[5], p[at + 1..at + 1 + n]) else before
  }

  lemma GroupsFit(p: seq<byte>, k: nat)
    requires |p| >= 8 && p[6] == 6 && 7 + 7 * k <= |p|
    ensures 7 + k * (p[6] + 1 as nat) == 7 + 7 * k
  {
  }

  lemma ExecutedStep(p: seq<byte>, id: byte, r: Registers, k: nat)
    requires |p| >= 8 && p[6] == 6 && 7 + 7 * (k + 1) <= |p|
    ensures 7 + k * (p[6] + 1 as nat) <= |p| && 7 + (k + 1) * (p[6] + 1 as nat) <= |p|
    ensures Executed(p, id, r, k + 1)
            == if p[7 + 7 * k] == id then Stored(Executed(p, id, r, k), p[5], p[8 + 7 * k..14 + 7 * k])
               else Executed(p, id, r, k)
  {
    GroupsFit(p, k);
    GroupsFit(p, k + 1);
    assert k * (p[6] + 1 as nat) == 7 * k;
  }

  /** A servo that is not addressed keeps its registers. */
  lemma {:induction false} Unaddressed(p: seq<byte>, id: byte, r: Registers, k: nat)
    requires |p| >= 8 && p[6] == 6 && 7 + 7 * k <= |p| && forall j :: 0 <= j < k ==> p[7 + 7 * j] != id
    ensures 7 + k * (p[6] + 1 as nat) <= |p| && Executed(p, id, r, k) == r
    decreases k
  {
    GroupsFit(p, k);
    if k > 0 {
      Unaddressed(p, id, r, k - 1);
      ExecutedStep(p, id, r, k - 1);
    }
  }

  /** A servo addressed once stores the six bytes of its group. */
  lemma {:induction false} AddressedOnce(p: seq<byte>, id: byte, r: Registers, k: nat, m: nat)
    requires |p| >= 8 && p[6] == 6 && 7 + 7 * k <= |p| && m < k && p[7 + 7 * m] == id
    requires forall j :: 0 <= j < k && j != m ==> p[7 + 7 * j] != id
    ensures 7 + k * (p[6] + 1 as nat) <= |p|
    ensures Executed(p, id, r, k) == Stored(r, p[5], p[8 + 7 * m..14 + 7 * m])
    decreases k
  {
    GroupsFit(p, k);
    hide Executed;
    ExecutedStep(p, id, r, k - 1);
    if m == k - 1 { Unaddressed(p, id, r, k - 1); } else { AddressedOnce(p, id, r, k - 1, m); }
  }

  /** The registers of a servo that was told its gains and its position. */
  ghost predicate Obeys(s: Registers, r: Registers, j: Joint, offset: int) {
    && s[26] == j.dGain % 256 && s[27] == j.iGain % 256 && s[28] == j.pGain % 256 && s[29] == 0
    && s[30] + 256 * (s[31] as nat) == (j.value + offset) % 65536
    && forall a :: 0 <= a < 256 && !(26 <= a <= 31) ==> s[a] == r[a]
  }

  lemma GroupObeyed(p: seq<byte>, r: Registers, m: nat, id: int, j: Joint, offset: int)
    requires 14 + 7 * m <= |p| && p[5] == 26
    requires Decode(p, m) == Order(id, j.dGain % 256, j.iGain % 256, j.pGain % 256, (j.value + offset) % 65536)
    requires p[7 + 7 * m + 4] == 0
    ensures Obeys(Stored(r, p[5], p[8 + 7 * m..14 + 7 * m]), r, j, offset)
  {
    WordExactly(p[7 + 7 * m + 5], p[7 + 7 * m + 6]);
    hide MakeWord;
  }

  lemma PacketHeard(cur: Table, offset: seq<int>)
    requires |offset| == NUMBER_OF_JOINTS
    ensures var (p, n) := (JointPacket(cur, offset), |EnabledTo(cur, NUMBER_OF_JOINTS)|);
            Heard(p) && |p| == 8 + 7 * n && p[5] == 26 && p[6] == 6
  {
    OrdersDecode(cur, offset);
    WellFormedExactly(JointPacket(cur, offset));
    hide JointPacket, EnabledTo, Decode, WellFormed;
  }

  lemma PacketGroup(cur: Table, offset: seq<int>, k: nat)
    requires |offset| == NUMBER_OF_JOINTS && k < |EnabledTo(cur, NUMBER_OF_JOINTS)|
    ensures var (p, id) := (JointPacket(cur, offset), EnabledTo(cur, NUMBER_OF_JOINTS)[k]);
            && 14 + 7 * k <= |p| && p[7 + 7 * k] == id && p[7 + 7 * k + 4] == 0
            && var j := cur[id];
               Decode(p, k) == Order(id, j.dGain % 256, j.iGain % 256, j.pGain % 256, (j.value + offset[id]) % 65536)
  {
    OrdersDecode(cur, offset);
    hide JointPacket, EnabledTo, WellFormed;
    assert Decode(JointPacket(cur, offset), k).id == EnabledTo(cur, NUMBER_OF_JOINTS)[k];
  }

  /**
   What a cycle does to the servos: the packet is one they hear, every servo whose joint
   is enabled has its gains in registers 26 to 28 and the position word, offset included,
   in 30 and 31, and every other register and servo is left alone.
   */
  lemma ServosObey(cur: Table, offset: seq<int>, id: byte, r: Registers)
    requires |offset| == NUMBER_OF_JOINTS
    ensures var p := JointPacket(cur, offset);
            && Heard(p) && (|p| - 8) % 7 == 0 && 7 + (|p| - 8) / 7 * (p[6] + 1 as nat) <= |p|
            && var s := Executed(p, id, r, (|p| - 8) / 7);
               if 1 <= id < NUMBER_OF_JOINTS && cur[id].enable then Obeys(s, r, cur[id], offset[id]) else s == r
  {
    hide JointPacket, EnabledTo, Decode, Executed, Obeys, Heard, Stored;
    var (p, ids) := (JointPacket(cur, offset), EnabledTo(cur, NUMBER_OF_JOINTS));
    PacketHeard(cur, offset);
    EnabledInOrder(cur, NUMBER_OF_JOINTS, id);
    GroupsFit(p, |ids|);
    assert (|p| - 8) / 7 == |ids| && (|p| - 8) % 7 == 0;
    if id in ids {
      var m :| 0 <= m < |ids| && ids[m] == id;
      PacketGroup(cur, offset, m);
      forall j | 0 <= j < |ids| && j != m ensures p[7 + 7 * j] != id {
        PacketGroup(cur, offset, j);
        assert ids[j] != ids[m];
      }
      AddressedOnce(p, id, r, |ids|, m);
      GroupObeyed(p, r, m, id, cur[id], offset[id]);
    } else {
      forall j | 0 <= j < |ids| ensures p[7 + 7 * j] != id {
        PacketGroup(cur, offset, j);
        assert ids[j] in ids;
      }
      Unaddressed(p, id, r, |ids|);
    }
  }
}
