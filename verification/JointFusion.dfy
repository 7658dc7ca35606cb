/**
 One control cycle of the motion manager: the joints of all modules are fused in the
 order of registration, and the enabled ones are sent in one synchronous write.
 */
module JointFusion {
  import opened Basics
  import opened Cm730Frame
  import opened Cm730Receive
  import opened Cm730Bulk
  import opened Cm730

  const NUMBER_OF_JOINTS: nat := 21
  const MIN_VALUE: int := 0
  const MAX_VALUE: int := 4095
  const CENTER_VALUE: int := 2048
  const PARAM_BYTES: nat := 7
  const P_D_GAIN: byte := 26

  datatype Joint = Joint(enable: bool, value: int, pGain: int, iGain: int, dGain: int)

  /** Joint 0 is not used. */
  type Table = t: seq<Joint> | |t| == NUMBER_OF_JOINTS
    witness seq(NUMBER_OF_JOINTS, _ => Joint(true, CENTER_VALUE, 32, 0, 0))

  function Clamped(value: int): int {
    if value < MIN_VALUE then MIN_VALUE else if value >= MAX_VALUE then MAX_VALUE else value
  }

  // ---------- fusion ----------

  /** What a joint of the current table becomes under a module's joint. */
  function Overlay(cur: Joint, over: Joint): Joint {
    if over.enable then
      cur.(value := Clamped(over.value), pGain := over.pGain, iGain := over.iGain, dGain := over.dGain)
    else cur
  }

  function OverlayAll(cur: Table, over: Table): Table {
    seq(NUMBER_OF_JOINTS, id requires 0 <= id < NUMBER_OF_JOINTS =>
          if id == 0 then cur[0] else Overlay(cur[id], over[id]))
  }

  /** All modules, in the order of registration. */
  function Fuse(cur: Table, modules: seq<Table>): Table
    decreases |modules|
  {
    if modules == [] then cur else OverlayAll(Fuse(cur, modules[..|modules| - 1]), modules[|modules| - 1])
  }

  /** A module other than the ones from k on does not enable the joint. */
  ghost predicate NoneEnablesFrom(modules: seq<Table>, id: nat, k: nat)
    requires id < NUMBER_OF_JOINTS
  {
    forall j :: k <= j < |modules| ==> !modules[j][id].enable
  }

  /** Without an enabling module a joint keeps everything it had. */
  lemma {:induction false} UnclaimedStays(cur: Table, modules: seq<Table>, id: nat)
    requires 1 <= id < NUMBER_OF_JOINTS && NoneEnablesFrom(modules, id, 0)
    ensures Fuse(cur, modules)[id] == cur[id]
    decreases |modules|
  {
    if modules != [] {
      var n := |modules| - 1;
      assert NoneEnablesFrom(modules[..n], id, 0);
      UnclaimedStays(cur, modules[..n], id);
    }
  }

  /** The last registered module that enables a joint decides its value and its gains. */
  lemma {:induction false} LastEnablingWins(cur: Table, modules: seq<Table>, id: nat, k: nat)
    requires 1 <= id < NUMBER_OF_JOINTS && k < |modules| && modules[k][id].enable && NoneEnablesFrom(modules, id, k + 1)
    ensures Fuse(cur, modules)[id] == modules[k][id].(enable := cur[id].enable, value := Clamped(modules[k][id].value))
    ensures var (v, r) := (modules[k][id].value, Fuse(cur, modules)[id].value);
            r == if v < 0 then 0 else if v > 4095 then 4095 else v
    decreases |modules|
  {
    var n := |modules| - 1;
    KeepsEnable(cur, modules[..n], id);
    if k < n {
      assert NoneEnablesFrom(modules[..n], id, k + 1);
      LastEnablingWins(cur, modules[..n], id, k);
    }
  }

  /** Fusion never switches a joint of the current table on or off. */
  lemma {:induction false} KeepsEnable(cur: Table, modules: seq<Table>, id: nat)
    requires id < NUMBER_OF_JOINTS
    ensures Fuse(cur, modules)[id].enable == cur[id].enable
    decreases |modules|
  {
    if modules != [] { KeepsEnable(cur, modules[..|modules| - 1], id); }
  }

  // ---------- the parameters of the synchronous write ----------

  /** Seven parameters of one joint: id, D, I and P gain, a zero, and the position word. */
  function Group(id: nat, j: Joint, offset: int): seq<int> {
    [id, j.dGain, j.iGain, j.pGain, 0, LowByte(j.value + offset), HighByte(j.value + offset)]
  }

  /** The enabled joints below n, in order. */
  function EnabledTo(cur: Table, n: nat): (ids: seq<nat>)
    requires n <= NUMBER_OF_JOINTS
    ensures |ids| <= n
    ensures forall k :: 0 <= k < |ids| ==> 1 <= ids[k] < n
  {
    if n <= 1 then [] else EnabledTo(cur, n - 1) + if cur[n - 1].enable then [n - 1] else []
  }

  function PackTo(cur: Table, offset: seq<int>, n: nat): seq<int>
    requires n <= NUMBER_OF_JOINTS && |offset| == NUMBER_OF_JOINTS
  {
    if n <= 1 then []
    else PackTo(cur, offset, n - 1) + if cur[n - 1].enable then Group(n - 1, cur[n - 1], offset[n - 1]) else []
  }

  /** Exactly the enabled joints, in strictly increasing order. */
  lemma {:induction false} EnabledInOrder(cur: Table, n: nat, id: nat)
    requires n <= NUMBER_OF_JOINTS
    ensures id in EnabledTo(cur, n) <==> 1 <= id < n && cur[id].enable
    ensures forall a, b :: 0 <= a < b < |EnabledTo(cur, n)| ==> EnabledTo(cur, n)[a] < EnabledTo(cur, n)[b]
    decreases n
  {
    if n > 1 { EnabledInOrder(cur, n - 1, id); }
  }

  lemma {:induction false} PackedGroups(cur: Table, offset: seq<int>, n: nat)
    requires n <= NUMBER_OF_JOINTS && |offset| == NUMBER_OF_JOINTS
    ensures |PackTo(cur, offset, n)| == 7 * |EnabledTo(cur, n)|
    ensures forall k :: 0 <= k < |EnabledTo(cur, n)| ==>
              PackTo(cur, offset, n)[7 * k..7 * k + 7]
              == Group(EnabledTo(cur, n)[k], cur[EnabledTo(cur, n)[k]], offset[EnabledTo(cur, n)[k]])
    decreases n
  {
    if n > 1 {
      PackedGroups(cur, offset, n - 1);
      hide Group;
      var (before, ids) := (PackTo(cur, offset, n - 1), EnabledTo(cur, n - 1));
      forall k | 0 <= k < |ids| ensures PackTo(cur, offset, n)[7 * k..7 * k + 7] == before[7 * k..7 * k + 7] {
      }
      if cur[n - 1].enable { GroupLength(n - 1, cur[n - 1], offset[n - 1]); }
    }
  }

  lemma GroupLength(id: nat, j: Joint, offset: int)
    ensures |Group(id, j, offset)| == 7
  {
  }

  /** What a servo reads from its group. */
  datatype Order = Order(id: int, dGain: int, iGain: int, pGain: int, position: int)

  function Decode(p: seq<byte>, k: nat): Order
    requires PARAMETER + 2 + 7 * k + 7 <= |p|
  {
    var at := PARAMETER + 2 + 7 * k;
    Order(p[at], p[at + 1], p[at + 2], p[at + 3], MakeWord(p[at + 5], p[at + 6]))
  }

  /** The write that carries the enabled joints of a table. */
  function JointPacket(cur: Table, offset: seq<int>): (p: seq<byte>)
    requires |offset| == NUMBER_OF_JOINTS
  {
    PackedGroups(cur, offset, NUMBER_OF_JOINTS);
    var params := PackTo(cur, offset, NUMBER_OF_JOINTS);
    Sealed(SyncPacket(P_D_GAIN, PARAM_BYTES, params))[..|params| + 8]
  }

  /**
   The packet passes the servos' checksum test, and its groups are exactly the enabled
   joints in the order of their ids, each with its gains as bytes and the low sixteen
   bits of value plus offset.
   */
  lemma OrdersDecode(cur: Table, offset: seq<int>)
    requires |offset| == NUMBER_OF_JOINTS
    ensures var (p, ids) := (JointPacket(cur, offset), EnabledTo(cur, NUMBER_OF_JOINTS));
            && WellFormed(p) && |p| == PARAMETER + 2 + 7 * |ids| + 1
            && p[2] == 254 && p[3] == |p| - 4 && p[4] == 131 && p[5] == 26 && p[6] == 6
            && forall k :: 0 <= k < |ids| ==>
                 && Decode(p, k)
                    == Order(ids[k],
                             cur[ids[k]].dGain % 256, cur[ids[k]].iGain % 256, cur[ids[k]].pGain % 256,
                             (cur[ids[k]].value + offset[ids[k]]) % 65536)
                 && p[PARAMETER + 2 + 7 * k + 4] == 0
  {
    hide PackTo, EnabledTo, Sealed, SyncPacket, WellFormed, Decode, Group;
    PackedGroups(cur, offset, NUMBER_OF_JOINTS);
    var params := PackTo(cur, offset, NUMBER_OF_JOINTS);
    var tx := SyncPacket(P_D_GAIN, PARAM_BYTES, params);
    SyncFields(P_D_GAIN, PARAM_BYTES, params);
    SealedIsWellFormed(tx);
    var (p, ids) := (JointPacket(cur, offset), EnabledTo(cur, NUMBER_OF_JOINTS));
    SealedKeeps(tx);
    PayloadByte(tx, Sealed(tx), 5);
    PayloadByte(tx, Sealed(tx), 6);
    forall k | 0 <= k < |ids|
      ensures Decode(p, k) == Order(ids[k], cur[ids[k]].dGain % 256, cur[ids[k]].iGain % 256, cur[ids[k]].pGain % 256,
                                    (cur[ids[k]].value + offset[ids[k]]) % 65536)
      ensures p[PARAMETER + 2 + 7 * k + 4] == 0
    {
      var at := 7 * k;
      PayloadByte(tx, Sealed(tx), PARAMETER + 2 + at);
      PayloadByte(tx, Sealed(tx), PARAMETER + 2 + at + 1);
      PayloadByte(tx, Sealed(tx), PARAMETER + 2 + at + 2);
      PayloadByte(tx, Sealed(tx), PARAMETER + 2 + at + 3);
      PayloadByte(tx, Sealed(tx), PARAMETER + 2 + at + 4);
      PayloadByte(tx, Sealed(tx), PARAMETER + 2 + at + 5);
      PayloadByte(tx, Sealed(tx), PARAMETER + 2 + at + 6);
      SliceBytes(params, at);
      DecodeGroup(p, k, ids[k], cur[ids[k]], offset[ids[k]], params[at..at + 7]);
    }
  }

  /** What the port accepts of the sealed buffer is the same part of the packet. */
  lemma SentPart(cur: Table, offset: seq<int>, accepted: nat)
    requires |offset| == NUMBER_OF_JOINTS && 7 * |EnabledTo(cur, NUMBER_OF_JOINTS)| + 4 < 256
    requires |PackTo(cur, offset, NUMBER_OF_JOINTS)| == 7 * |EnabledTo(cur, NUMBER_OF_JOINTS)|
    ensures var (full, n) := (Sealed(SyncPacket(P_D_GAIN, PARAM_BYTES, PackTo(cur, offset, NUMBER_OF_JOINTS))),
                              7 * |EnabledTo(cur, NUMBER_OF_JOINTS)| + 8);
            |full| >= n && |JointPacket(cur, offset)| == n &&
            full[..if accepted < n then accepted else n] ==
            if accepted < n then JointPacket(cur, offset)[..accepted] else JointPacket(cur, offset)
  {
    hide PackTo, EnabledTo, Sealed, SyncPacket;
    SyncFields(P_D_GAIN, PARAM_BYTES, PackTo(cur, offset, NUMBER_OF_JOINTS));
    SealedKeeps(SyncPacket(P_D_GAIN, PARAM_BYTES, PackTo(cur, offset, NUMBER_OF_JOINTS)));
  }

  lemma PayloadByte(tx: seq<byte>, s: seq<byte>, i: nat)
    requires |tx| == |s| && |tx| >= 260 && 2 <= i < Follow(tx) + 3 && s[2..Follow(tx) + 3] == tx[2..Follow(tx) + 3]
    ensures s[i] == tx[i]
  {
    assert s[2..Follow(tx) + 3][i - 2] == tx[2..Follow(tx) + 3][i - 2];
  }

  lemma SliceBytes(params: seq<int>, at: nat)
    requires at + 7 <= |params|
    ensures var g := params[at..at + 7];
            g[0] == params[at] && g[1] == params[at + 1] && g[2] == params[at + 2] && g[3] == params[at + 3] &&
            g[4] == params[at + 4] && g[5] == params[at + 5] && g[6] == params[at + 6]
  {
  }

  lemma DecodeGroup(p: seq<byte>, k: nat, id: nat, j: Joint, offset: int, group: seq<int>)
    requires PARAMETER + 2 + 7 * k + 7 <= |p| && id < 256 && group == Group(id, j, offset)
    requires var at := PARAMETER + 2 + 7 * k;
             p[at] == LowByte(group[0]) && p[at + 1] == LowByte(group[1]) && p[at + 2] == LowByte(group[2]) &&
             p[at + 3] == LowByte(group[3]) && p[at + 4] == LowByte(group[4]) && p[at + 5] == LowByte(group[5]) &&
             p[at + 6] == LowByte(group[6])
    ensures Decode(p, k) == Order(id, j.dGain % 256, j.iGain % 256, j.pGain % 256, (j.value + offset) % 65536)
    ensures p[PARAMETER + 2 + 7 * k + 4] == 0
  {
    WordRoundTrip(j.value + offset);
    LowTwice(j.value + offset);
    hide MakeWord, HighByte;
  }

  lemma LowTwice(word: int)
    ensures LowByte(LowByte(word)) == LowByte(word) && LowByte(HighByte(word)) == HighByte(word)
  {
  }

  // ---------- who owns a joint ----------

  /** One change to the owners of a joint, for any kind of module. */
  datatype Change<M> = SetEnable(m: M, enable: bool, exclusive: bool) | AddModule(m: M, enabled: bool)
    | RemoveModule(m: M)

  datatype Ownership<M> = Ownership(registered: set<M>, owners: set<M>)

  /** The registered modules that enable the joint, after a change. */
  function OwnersAfter<M>(owners: set<M>, registered: set<M>, m: M, enable: bool, exclusive: bool): set<M> {
    if enable then (if exclusive then {} else owners) + {m} * registered else owners - {m}
  }

  function Changed<M>(s: Ownership<M>, c: Change<M>): Ownership<M> {
    match c
    case SetEnable(m, enable, exclusive) => s.(owners := OwnersAfter(s.owners, s.registered, m, enable, exclusive))
    case AddModule(m, enabled) => Ownership(s.registered + {m}, if enabled then s.owners + {m} else s.owners)
    case RemoveModule(m) => Ownership(s.registered - {m}, s.owners - {m})
  }

  function ChangedBy<M>(s: Ownership<M>, changes: seq<Change<M>>): Ownership<M>
    decreases |changes|
  {
    if changes == [] then s else ChangedBy(Changed(s, changes[0]), changes[1..])
  }

  /** Exclusive enables, disables of any kind, and removals. */
  predicate Careful<M>(c: Change<M>) {
    match c
    case SetEnable(_, enable, exclusive) => enable ==> exclusive
    case AddModule(_, _) => false
    case RemoveModule(_) => true
  }

  ghost predicate AtMostOne<M(!new)>(owners: set<M>) {
    forall a, b :: a in owners && b in owners ==> a == b
  }

  lemma {:induction false} SingleOwnerStays<M(!new)>(s: Ownership<M>, changes: seq<Change<M>>)
    requires AtMostOne(s.owners) && forall i :: 0 <= i < |changes| ==> Careful(changes[i])
    ensures AtMostOne(ChangedBy(s, changes).owners)
    decreases |changes|
  {
    if changes != [] {
      assert Careful(changes[0]);
      SingleOwnerStays(Changed(s, changes[0]), changes[1..]);
    }
  }

  /**
   After an exclusive enable the module is the only registered owner, whatever came
   before; and single ownership lasts over any further exclusive enables, disables
   and removals, until a module is added or enabled without exclusion.
   */
  lemma ExclusiveOwnership<M(!new)>(s: Ownership<M>, m: M, changes: seq<Change<M>>)
    requires m in s.registered && forall i :: 0 <= i < |changes| ==> Careful(changes[i])
    ensures Changed(s, SetEnable(m, true, true)).owners == {m}
    ensures AtMostOne(ChangedBy(Changed(s, SetEnable(m, true, true)), changes).owners)
  {
    SingleOwnerStays(Changed(s, SetEnable(m, true, true)), changes);
  }

  /** Adding a module that enables the joint, as new ones do, ends single ownership. */
  lemma AddingEndsOwnership<M(!new)>(s: Ownership<M>, m: M, other: M)
    requires s.owners == {m} && other != m
    ensures !AtMostOne(Changed(s, AddModule(other, true)).owners)
  {
    assert m in Changed(s, AddModule(other, true)).owners && other in Changed(s, AddModule(other, true)).owners;
  }

  // ---------- the classes ----------

  class JointData {
    const joints: array<Joint>

    ghost predicate Valid() {
      joints.Length == NUMBER_OF_JOINTS
    }

    ghost function Joints(): Table
      requires Valid()
      reads joints
    {
      joints[..]
    }

    constructor ()
      ensures Valid() && fresh(joints)
      ensures forall i :: 0 <= i < NUMBER_OF_JOINTS ==> joints[i] == Joint(true, CENTER_VALUE, 32, 0, 0)
    {
      joints := new Joint[NUMBER_OF_JOINTS](_ => Joint(true, CENTER_VALUE, 32, 0, 0));
    }

    method SetValue(id: nat, value: int)
      requires Valid() && id < NUMBER_OF_JOINTS
      modifies joints
      ensures joints[..] == old(joints[..])[id := old(joints[id]).(value := Clamped(value))]
      ensures MIN_VALUE <= joints[id].value <= MAX_VALUE
    {
      var v := value;
      if v < MIN_VALUE {
        v := MIN_VALUE;
      } else if v >= MAX_VALUE {
        v := MAX_VALUE;
      }
      joints[id] := joints[id].(value := v);
    }

    method SetGains(id: nat, p: int, i: int, d: int)
      requires Valid() && id < NUMBER_OF_JOINTS
      modifies joints
      ensures joints[..] == old(joints[..])[id := old(joints[id]).(pGain := p, iGain := i, dGain := d)]
    {
      joints[id] := joints[id].(pGain := p, iGain := i, dGain := d);
    }

    /** SetEnable: an exclusive enable first takes the joint from every registered module. */
    method SetEnable(id: nat, enable: bool, exclusive: bool, manager: MotionManager)
      requires Valid() && id < NUMBER_OF_JOINTS && manager.ModulesValid()
      requires forall j :: j in manager.Registered() && j != this ==> j.joints != joints
      modifies joints, manager.Owned()
      ensures manager.Owners(id) == OwnersAfter(old(manager.Owners(id)), manager.Registered(), this, enable, exclusive)
      ensures forall j: JointData :: j.Valid() && (j == this || j in manager.Registered()) ==>
                j.joints[id].enable ==
                if j.joints == joints then enable
                else old(j.joints[id].enable) && !(enable && exclusive && j in manager.Registered())
      ensures forall j: JointData, k |
                j.Valid() && (j == this || j in manager.Registered()) && 0 <= k < NUMBER_OF_JOINTS ::
                j.joints[k] == old(j.joints[k]).(enable := j.joints[k].enable) &&
                (k != id ==> j.joints[k] == old(j.joints[k]))
    {
      if enable && exclusive { manager.SetJointDisable(id); }
      joints[id] := joints[id].(enable := enable);
    }
  }

  class MotionModule {
    const joint: JointData

    constructor (joint: JointData)
      ensures this.joint == joint
    {
      this.joint := joint;
    }

    /** What a module does to its own joints in a cycle; `next` is whatever it decides. */
    method Process(next: Table)
      requires joint.Valid()
      modifies joint.joints
      ensures joint.joints[..] == next
    {
      var i := 0;
      while i < NUMBER_OF_JOINTS
        invariant 0 <= i <= NUMBER_OF_JOINTS && joint.joints[..i] == next[..i]
      {
        joint.joints[i] := next[i];
        i := i + 1;
      }
    }
  }

  class MotionManager {
    var modules: seq<MotionModule>
    const current: JointData
    const offset: array<int>
    const cm730: Controller
    var calibrationStatus: int
    var enabled: bool

    constructor (current: JointData, offset: array<int>, cm730: Controller)
      ensures this.current == current && this.offset == offset && this.cm730 == cm730 && modules == []
      ensures calibrationStatus == 0 && !enabled
    {
      this.current, this.offset, this.cm730, modules := current, offset, cm730, [];
      calibrationStatus, enabled := 0, false;
    }

    ghost function Registered(): set<JointData>
      reads this
    {
      set m | m in modules :: m.joint
    }

    ghost function Owned(): set<object>
      reads this
    {
      set m | m in modules :: m.joint.joints
    }

    /** The registered modules that enable a joint. */
    ghost function Owners(id: nat): set<JointData>
      requires id < NUMBER_OF_JOINTS && ModulesValid()
      reads this, Owned()
    {
      set m | m in modules && m.joint.joints[id].enable :: m.joint
    }

    ghost predicate ModulesValid()
      reads this
    {
      forall m :: m in modules ==> m.joint.Valid()
    }

    ghost predicate Valid()
      reads this
    {
      && ModulesValid() && current.Valid() && offset.Length == NUMBER_OF_JOINTS && cm730.Valid()
      && current.joints !in Owned()
    }

    /** The gyroscope is calibrated and the manager switched on. */
    predicate Active()
      reads this
    {
      calibrationStatus == 1 && enabled
    }

    method AddModule(m: MotionModule)
      modifies this`modules
      ensures modules == old(modules) + [m]
    {
      modules := modules + [m];
    }

    /** Every registered module lets go of the joint; nothing else changes. */
    method SetJointDisable(id: nat)
      requires id < NUMBER_OF_JOINTS && ModulesValid()
      modifies Owned()
      ensures forall m :: m in modules ==> !m.joint.joints[id].enable
      ensures forall m, k :: m in modules && 0 <= k < NUMBER_OF_JOINTS ==>
                m.joint.joints[k] == old(m.joint.joints[k]).(enable := m.joint.joints[k].enable) &&
                (k != id ==> m.joint.joints[k] == old(m.joint.joints[k]))
    {
      var i := 0;
      while i < |modules|
        invariant 0 <= i <= |modules|
        invariant forall j :: 0 <= j < i ==> !modules[j].joint.joints[id].enable
        invariant forall m, k :: m in modules && 0 <= k < NUMBER_OF_JOINTS ==>
                    m.joint.joints[k] == old(m.joint.joints[k]).(enable := m.joint.joints[k].enable) &&
                    (k != id ==> m.joint.joints[k] == old(m.joint.joints[k]))
      {
        var a := modules[i].joint.joints;
        a[id] := a[id].(enable := false);
        i := i + 1;
      }
    }

    /** The fusing loops: every module runs, then its enabled joints overwrite the current ones. */
    method FuseModules(outcomes: seq<Table>)
      requires Valid() && |outcomes| == |modules|
      modifies current.joints, Owned()
      ensures current.joints[..] == Fuse(old(current.joints[..]), outcomes)
    {
      hide OverlayAll;
      var i := 0;
      while i < |modules|
        invariant 0 <= i <= |modules|
        invariant current.joints[..] == Fuse(old(current.joints[..]), outcomes[..i])
      {
        var m := modules[i];
        assert m in modules;
        m.Process(outcomes[i]);
        OverlayModule(m.joint, outcomes[i]);
        assert outcomes[..i + 1][..i] == outcomes[..i];
        i := i + 1;
      }
      assert outcomes[..i] == outcomes;
    }

    method OverlayModule(joint: JointData, ghost over: Table)
      requires current.Valid() && joint.Valid() && joint.joints != current.joints && joint.joints[..] == over
      modifies current.joints
      ensures current.joints[..] == OverlayAll(old(current.joints[..]), over)
    {
      ghost var was := current.joints[..];
      var id := 1;
      while id < NUMBER_OF_JOINTS
        invariant 1 <= id <= NUMBER_OF_JOINTS && joint.joints[..] == over
        invariant forall k :: id <= k < NUMBER_OF_JOINTS ==> current.joints[k] == was[k]
        invariant forall k :: 0 <= k < id ==> current.joints[k] == OverlayAll(was, over)[k]
      {
        var j := joint.joints[id];
        if j.enable {
          current.SetValue(id, j.value);
          current.SetGains(id, j.pGain, j.iGain, j.dGain);
        }
        id := id + 1;
      }
    }

    /** The packing loop. */
    method PackJoints() returns (param: array<int>, jointNum: nat)
      requires Valid()
      ensures fresh(param) && param.Length == NUMBER_OF_JOINTS * PARAM_BYTES && jointNum * PARAM_BYTES <= param.Length
      ensures param[..jointNum * PARAM_BYTES] == PackTo(current.joints[..], offset[..], NUMBER_OF_JOINTS)
      ensures jointNum == |EnabledTo(current.joints[..], NUMBER_OF_JOINTS)|
    {
      hide Group;
      param := new int[NUMBER_OF_JOINTS * PARAM_BYTES];
      ghost var (cur, off) := (current.joints[..], offset[..]);
      var n := 0;
      jointNum := 0;
      var id := 1;
      while id < NUMBER_OF_JOINTS
        invariant 1 <= id <= NUMBER_OF_JOINTS && n == 7 * jointNum && cur == current.joints[..] && off == offset[..]
        invariant jointNum == |EnabledTo(cur, id)| && n <= param.Length
        invariant param[..n] == PackTo(cur, off, id)
      {
        if current.joints[id].enable {
          PutGroup(param, n, id, current.joints[id], offset[id]);
          GroupLength(id, cur[id], off[id]);
          assert param[..n + 7] == param[..n] + param[n..n + 7];
          n := n + 7;
          jointNum := jointNum + 1;
        }
        id := id + 1;
      }
    }

    method PutGroup(param: array<int>, n: nat, id: nat, j: Joint, offset: int)
      requires n + 7 <= param.Length
      modifies param
      ensures param[..n] == old(param[..n]) && param[n..n + 7] == Group(id, j, offset)
    {
      param[n] := id;
      param[n + 1] := j.dGain;
      param[n + 2] := j.iGain;
      param[n + 3] := j.pGain;
      param[n + 4] := 0;
      param[n + 5] := LowByte(j.value + offset);
      param[n + 6] := HighByte(j.value + offset);
    }

    /** The fusing and sending part of a control cycle; it waits for calibration and for being enabled. */
    method Process(outcomes: seq<Table>, accepted: nat)
      requires Valid() && |outcomes| == |modules|
      modifies current.joints, Owned(), cm730.port`incoming, cm730.port`polls, cm730.port`sent, cm730.bulk
      ensures Active() ==> current.joints[..] == Fuse(old(current.joints[..]), outcomes)
      ensures Active() && EnabledTo(current.joints[..], NUMBER_OF_JOINTS) != [] ==>
                var p := JointPacket(current.joints[..], offset[..]);
                cm730.port.sent == old(cm730.port.sent) + if accepted < |p| then p[..accepted] else p
      ensures !Active() || EnabledTo(current.joints[..], NUMBER_OF_JOINTS) == [] ==>
                cm730.port.sent == old(cm730.port.sent)
      ensures !Active() ==> unchanged(current.joints) && forall m :: m in modules ==> unchanged(m.joint.joints)
    {
      hide Fuse, Sealed, SyncPacket, PackTo, EnabledTo;
      if calibrationStatus == 1 && enabled {
        FuseModules(outcomes);
        var param, jointNum := PackJoints();
        PackedGroups(current.joints[..], offset[..], NUMBER_OF_JOINTS);
        if jointNum > 0 {
          ghost var cur := current.joints[..];
          var res := cm730.SyncWrite(P_D_GAIN, PARAM_BYTES, jointNum, param, accepted);
          SentPart(cur, offset[..], accepted);
        }
      }
    }
  }
}
