/**
 The bulk read: one buffer that should hold the replies of several devices is
 parsed frame by frame into their tables, shifting the rest to the front.
 */
module Cm730Bulk {
  import opened Basics
  import opened Cm730Frame
  import opened Cm730Receive

  const TABLE_SIZE: nat := 68
  const DEVICES: nat := 254

  type Table = t: seq<byte> | |t| == TABLE_SIZE witness seq(TABLE_SIZE, _ => 0)

  /** BulkReadData: what was asked of a device and what came back. */
  datatype BulkData = BulkData(start: nat, length: nat, error: int, table: Table)

  type Store = s: seq<BulkData> | |s| == DEVICES
    witness seq(DEVICES, _ => BulkData(0, 0, -1, seq(TABLE_SIZE, _ => 0)))

  /** A table with a payload written from an address on; cells outside the table do not exist. */
  function Written(table: Table, start: nat, payload: seq<byte>): (r: Table)
    ensures forall a :: 0 <= a < TABLE_SIZE ==>
              r[a] == if start <= a < start + |payload| then payload[a - start] else table[a]
  {
    seq(TABLE_SIZE, a requires 0 <= a < TABLE_SIZE =>
      if start <= a < start + |payload| then payload[a - start] else table[a])
  }

  /** A matched frame is stored with the device it names. */
  function Accept(bulk: Store, id: byte, error: byte, payload: seq<byte>): Store {
    if id >= DEVICES then bulk
    else
      var d := bulk[id];
      bulk[id := d.(table := Written(d.table, d.start, payload), error := error)]
  }

  // ---------- the parse loop as a function of the buffer ----------

  function PayloadLength(p: seq<byte>): nat
    requires |p| > LENGTH
  {
    if Follow(p) < 2 then 0 else Follow(p) - 2
  }

  predicate FrameMatches(p: seq<byte>)
    requires |p| >= 260
  {
    p[LENGTH + Follow(p)] == Checksum(p)
  }

  /** The buffer after its first frame or its first two bytes were moved out. */
  function After(p: seq<byte>, n: int, taken: nat): seq<byte>
    requires n < |p|
  {
    if n - taken + 1 <= 0 then p else Shifted(p, taken, n - taken + 1)
  }

  /**
   The parse loop from a buffer with n bytes, num replies outstanding; total on
   every buffer, the remaining length getting smaller each time round.
   */
  function Parse(p: seq<byte>, n: nat, num: int, bulk: Store, res: Outcome): (Store, Outcome)
    requires |p| >= 260 && n < |p|
    decreases n
  {
    var i := Scan(p, n);
    if i > 0 then Parse(Shifted(p, i, n - i), n - i, num, bulk, res)
    else
      var ok := FrameMatches(p);
      var bulk' := if ok then AcceptFront(bulk, p) else bulk;
      var num' := if ok then num - 1 else num;
      var res' := if ok then res else RxCorrupt;
      if num' == 0 then (bulk', res')
      else if n - Taken(p) <= 6 then (bulk', RxCorrupt)
      else Parse(After(p, n, Taken(p)), n - Taken(p), num', bulk', res')
  }

  /** How many bytes one round at a header consumes: the frame, or the two header bytes of a bad one. */
  function Taken(p: seq<byte>): (t: nat)
    requires |p| >= 260
    ensures t >= 2
  {
    if FrameMatches(p) then LENGTH + 1 + Follow(p) else 2
  }

  /** The frame at the front of the buffer goes to its device. */
  function AcceptFront(bulk: Store, p: seq<byte>): Store
    requires |p| >= 260
  {
    Accept(bulk, p[ID], p[ERRBIT], p[PARAMETER..PARAMETER + PayloadLength(p)])
  }

  lemma ParseStep(p: seq<byte>, n: nat, num: int, bulk: Store, res: Outcome)
    requires |p| >= 260 && n < |p|
    ensures Scan(p, n) > 0 ==>
              Parse(p, n, num, bulk, res)
              == Parse(Shifted(p, Scan(p, n), n - Scan(p, n)), n - Scan(p, n), num, bulk, res)
    ensures Scan(p, n) == 0 && FrameMatches(p) ==>
              Parse(p, n, num, bulk, res)
              == if num == 1 then (AcceptFront(bulk, p), res)
                 else if n - Taken(p) <= 6 then (AcceptFront(bulk, p), RxCorrupt)
                 else Parse(After(p, n, Taken(p)), n - Taken(p), num - 1, AcceptFront(bulk, p), res)
    ensures Scan(p, n) == 0 && !FrameMatches(p) ==>
              Parse(p, n, num, bulk, res)
              == if num == 0 then (bulk, RxCorrupt)
                 else if n - Taken(p) <= 6 then (bulk, RxCorrupt)
                 else Parse(After(p, n, Taken(p)), n - Taken(p), num, bulk, RxCorrupt)
  {
    hide Scan, FrameMatches, Taken, AcceptFront, After, Shifted;
  }

  /** Parsing can only spoil the outcome of the reception. */
  lemma {:induction false} ParseOutcome(p: seq<byte>, n: nat, num: int, bulk: Store, res: Outcome)
    requires |p| >= 260 && n < |p|
    ensures Parse(p, n, num, bulk, res).1 == res || Parse(p, n, num, bulk, res).1 == RxCorrupt
    decreases n
  {
    hide Parse, Scan, FrameMatches, Taken, AcceptFront;
    ParseStep(p, n, num, bulk, res);
    var i := Scan(p, n);
    if i > 0 {
      ParseOutcome(Shifted(p, i, n - i), n - i, num, bulk, res);
    } else if n - Taken(p) > 6 {
      if FrameMatches(p) {
        ParseOutcome(After(p, n, Taken(p)), n - Taken(p), num - 1, AcceptFront(bulk, p), res);
      } else {
        ParseOutcome(After(p, n, Taken(p)), n - Taken(p), num, bulk, RxCorrupt);
      }
    }
  }

  // ---------- frames ----------

  datatype Frame = Frame(id: byte, error: byte, payload: seq<byte>) {
    predicate Valid() {
      id < DEVICES && |payload| <= 253
    }

    function Bytes(): (b: seq<byte>)
      requires Valid()
      ensures |b| == |payload| + 6
    {
      Head() + [Complement(Sum(Head()[2..]))]
    }

    function Head(): (b: seq<byte>)
      requires Valid()
      ensures |b| == |payload| + 5
    {
      var follow: byte := |payload| + 2;
      [HEADER, HEADER, id, follow, error] + payload
    }
  }

  ghost predicate AllValid(frames: seq<Frame>) {
    forall k :: 0 <= k < |frames| ==> frames[k].Valid()
  }

  function Stream(frames: seq<Frame>): (s: seq<byte>)
    requires AllValid(frames)
    ensures |s| >= 6 * |frames|
  {
    if frames == [] then [] else frames[0].Bytes() + Stream(frames[1..])
  }

  /** The tables after a list of frames was accepted one by one. */
  function AcceptAll(bulk: Store, frames: seq<Frame>): Store
    requires AllValid(frames)
    decreases |frames|
  {
    if frames == [] then bulk
    else AcceptAll(Accept(bulk, frames[0].id, frames[0].error, frames[0].payload), frames[1..])
  }

  lemma FrameIsWellFormed(f: Frame)
    requires f.Valid()
    ensures WellFormed(f.Bytes())
  {
    var b := f.Bytes();
    assert Covered(b) == f.Head()[2..];
  }

  /** A buffer that begins with a frame: the scan stops at once and the parse sees that frame. */
  lemma FrameInFront(p: seq<byte>, n: nat, f: Frame)
    requires f.Valid() && |p| >= 260 && |f.payload| + 6 <= n < |p| && p[..|f.payload| + 6] == f.Bytes()
    ensures Scan(p, n) == 0 && FrameMatches(p)
    ensures Follow(p) == |f.payload| + 2 && PayloadLength(p) == |f.payload|
    ensures p[ID] == f.id && p[ERRBIT] == f.error
    ensures p[PARAMETER..PARAMETER + |f.payload|] == f.payload
  {
    var b, m := f.Bytes(), |f.payload| + 6;
    FrameIsWellFormed(f);
    assert forall k :: 0 <= k < m ==> p[k] == b[k];
    assert HeaderAt(p[..n], 0);
    ScanAtHeader(p, n);
    SliceOfPrefix(p, 2, m - 1, m);
    CoveredIgnores(p, b);
    assert p[PARAMETER..PARAMETER + |f.payload|] == b[5..5 + |f.payload|];
  }

  lemma FrameTakenOut(p: seq<byte>, n: nat, first: seq<byte>, rest: seq<byte>)
    requires n < |p| && p[..n] == first + rest
    ensures var q := After(p, n, |first|);
            |q| == |p| && n - |first| == |rest| && q[..|rest|] == rest
  {
    var q := After(p, n, |first|);
    assert q[..|rest|] == p[|first|..n];
    assert p[|first|..n] == p[..n][|first|..];
  }

  /** Whether parsing a stream of replies reports success: the last of several may not be empty. */
  predicate Parsable(frames: seq<Frame>) {
    |frames| == 1 || (|frames| > 1 && frames[|frames| - 1].payload != [])
  }

  lemma {:induction false} StreamLength(frames: seq<Frame>)
    requires AllValid(frames) && frames != []
    ensures |Stream(frames)| <= 6 <==> |frames| == 1 && frames[0].payload == []
  {
    if |frames| > 1 {
      assert |Stream(frames[1..])| >= 6;
    } else {
      assert Stream(frames[1..]) == [];
    }
  }

  /**
   Parsing replies one behind the other, no more than were asked for, stores every one of
   them, except a last one without payload behind others. The outcome of the reception
   stands exactly when all were there and none was lost; else the read is corrupt.
   */
  lemma {:induction false} ParseReplies(p: seq<byte>, n: nat, num: nat, frames: seq<Frame>, bulk: Store, res: Outcome)
    requires |p| >= 260 && n < |p| && AllValid(frames) && frames != [] && num >= |frames|
    requires p[..n] == Stream(frames)
    ensures Parse(p, n, num, bulk, res)
            == (AcceptAll(bulk, if Parsable(frames) then frames else frames[..|frames| - 1]),
                if Parsable(frames) && num == |frames| then res else RxCorrupt)
    decreases |frames|
  {
    hide Parse, After, Stream, Accept, AcceptAll;
    var f := frames[0];
    var m := |f.payload| + 6;
    StreamSplit(p, n, frames);
    ParseFirstFrame(p, n, num, f, bulk, res);
    AcceptFirst(bulk, frames);
    if |frames| == 1 {
      OneStream(frames);
    } else {
      var rest := frames[1..];
      StreamLength(rest);
      FrameTakenOut(p, n, f.Bytes(), Stream(rest));
      ParsableRest(frames);
      if n - m > 6 {
        var bulk' := Accept(bulk, f.id, f.error, f.payload);
        ParseReplies(After(p, n, m), n - m, num - 1, rest, bulk', res);
      }
    }
  }

  lemma OneStream(frames: seq<Frame>)
    requires AllValid(frames) && |frames| == 1
    ensures Stream(frames[1..]) == [] && frames[..|frames| - 1] == [] && Parsable(frames)
  {
    assert frames[1..] == [];
  }

  lemma ParsableRest(frames: seq<Frame>)
    requires |frames| > 1
    ensures Parsable(frames) <==> (|frames| == 2 ==> frames[1].payload != []) && Parsable(frames[1..])
    ensures |frames| == 2 ==> frames[1..][..|frames| - 2] == [] && Parsable(frames[1..])
    ensures frames[1..][0] == frames[1]
  {
  }

  /**
   Parsing the concatenation of the replies stores every one of them and succeeds,
   exactly when there is a single reply or the last one carries a payload; else
   all but the last are stored and the read is reported corrupt.
   */
  lemma ParseStream(p: seq<byte>, n: nat, frames: seq<Frame>, bulk: Store)
    requires |p| >= 260 && n < |p| && AllValid(frames) && frames != []
    requires p[..n] == Stream(frames)
    ensures Parse(p, n, |frames|, bulk, Success)
            == if Parsable(frames) then (AcceptAll(bulk, frames), Success)
               else (AcceptAll(bulk, frames[..|frames| - 1]), RxCorrupt)
  {
    ParseReplies(p, n, |frames|, frames, bulk, Success);
  }

  /** One round of the parse loop on a buffer that begins with a reply. */
  lemma ParseFirstFrame(p: seq<byte>, n: nat, num: int, f: Frame, bulk: Store, res: Outcome)
    requires f.Valid() && |p| >= 260 && |f.payload| + 6 <= n < |p| && p[..|f.payload| + 6] == f.Bytes()
    ensures num == 1 ==> Parse(p, n, num, bulk, res) == (Accept(bulk, f.id, f.error, f.payload), res)
    ensures num != 1 && n - (|f.payload| + 6) <= 6 ==>
              Parse(p, n, num, bulk, res) == (Accept(bulk, f.id, f.error, f.payload), RxCorrupt)
    ensures num != 1 && n - (|f.payload| + 6) > 6 ==>
              Parse(p, n, num, bulk, res)
              == Parse(After(p, n, |f.payload| + 6), n - (|f.payload| + 6), num - 1,
                       Accept(bulk, f.id, f.error, f.payload), res)
  {
    FrontIsFrame(p, n, f, bulk);
    ParseStep(p, n, num, bulk, res);
    hide Parse, After, AcceptFront, Taken, FrameMatches, Scan, Accept, Shifted;
  }

  lemma StreamSplit(p: seq<byte>, n: nat, frames: seq<Frame>)
    requires |p| >= 260 && n < |p| && AllValid(frames) && frames != [] && p[..n] == Stream(frames)
    ensures p[..n] == frames[0].Bytes() + Stream(frames[1..]) && n == |frames[0].payload| + 6 + |Stream(frames[1..])|
    ensures p[..|frames[0].payload| + 6] == frames[0].Bytes()
  {
    assert p[..|frames[0].payload| + 6] == p[..n][..|frames[0].payload| + 6];
  }

  lemma FrontIsFrame(p: seq<byte>, n: nat, f: Frame, bulk: Store)
    requires f.Valid() && |p| >= 260 && |f.payload| + 6 <= n < |p| && p[..|f.payload| + 6] == f.Bytes()
    ensures Scan(p, n) == 0 && FrameMatches(p) && Taken(p) == |f.payload| + 6
    ensures AcceptFront(bulk, p) == Accept(bulk, f.id, f.error, f.payload)
  {
    FrameInFront(p, n, f);
    hide Accept, Checksum, Scan;
  }

  lemma AcceptFirst(bulk: Store, frames: seq<Frame>)
    requires AllValid(frames) && frames != []
    ensures var bulk' := Accept(bulk, frames[0].id, frames[0].error, frames[0].payload);
            && AcceptAll(bulk, frames) == AcceptAll(bulk', frames[1..]) && AcceptAll(bulk', []) == bulk'
            && (|frames| > 1 ==>
                AcceptAll(bulk, frames[..|frames| - 1]) == AcceptAll(bulk', frames[1..][..|frames| - 2]))
  {
    if |frames| > 1 { assert frames[..|frames| - 1][1..] == frames[1..][..|frames| - 2]; }
  }

  // ---------- what the tables hold ----------

  lemma {:induction false} AcceptOthers(bulk: Store, frames: seq<Frame>, id: nat)
    requires AllValid(frames) && id < DEVICES
    requires forall f :: f in frames ==> f.id != id
    ensures AcceptAll(bulk, frames)[id] == bulk[id]
    decreases |frames|
  {
    if frames != [] {
      assert frames[0] in frames;
      AcceptOthers(Accept(bulk, frames[0].id, frames[0].error, frames[0].payload), frames[1..], id);
    }
  }

  ghost predicate DistinctIds(frames: seq<Frame>) {
    forall i, j :: 0 <= i < j < |frames| ==> frames[i].id != frames[j].id
  }

  /** Among distinct devices each keeps exactly its own reply. */
  lemma {:induction false} AcceptEach(bulk: Store, frames: seq<Frame>, k: nat)
    requires AllValid(frames) && DistinctIds(frames) && k < |frames|
    ensures AcceptAll(bulk, frames)[frames[k].id]
            == bulk[frames[k].id].(
                 table := Written(bulk[frames[k].id].table, bulk[frames[k].id].start, frames[k].payload),
                                   error := frames[k].error)
    decreases |frames|
  {
    assert frames[k] in frames && frames[0] in frames;
    var bulk' := Accept(bulk, frames[0].id, frames[0].error, frames[0].payload);
    if k == 0 {
      AcceptOthers(bulk', frames[1..], frames[0].id);
    } else {
      AcceptEach(bulk', frames[1..], k - 1);
    }
  }

  /** A device's record holds a reply from an address on, and the rest of its table as before. */
  ghost predicate Answered(after: BulkData, before: BulkData, at: nat, f: Frame) {
    && at + |f.payload| <= TABLE_SIZE
    && after.error == f.error
    && after.table[at..at + |f.payload|] == f.payload
    && forall a :: 0 <= a < TABLE_SIZE && !(at <= a < at + |f.payload|) ==> after.table[a] == before.table[a]
  }

  /**
   A bulk read whose stream is the replies of distinct devices, each inside its
   device's table, the last one not empty: success, every payload in place, every
   error byte stored, and every other cell of every table as it was.
   */
  lemma BulkReadCorrect(p: seq<byte>, n: nat, frames: seq<Frame>, bulk: Store, k: nat, id: nat)
    requires |p| >= 260 && n < |p| && AllValid(frames) && DistinctIds(frames) && Parsable(frames)
    requires p[..n] == Stream(frames) && k < |frames| && frames[k].id < DEVICES && id < DEVICES
    requires bulk[frames[k].id].start + |frames[k].payload| <= TABLE_SIZE
    ensures Parse(p, n, |frames|, bulk, Success).1 == Success
    ensures Answered(Parse(p, n, |frames|, bulk, Success).0[frames[k].id], bulk[frames[k].id],
              bulk[frames[k].id].start, frames[k])
    ensures (forall g :: g in frames ==> g.id != id) ==> Parse(p, n, |frames|, bulk, Success).0[id] == bulk[id]
  {
    hide Parse, Stream, Parsable, AcceptAll;
    ParseStream(p, n, frames, bulk);
    AcceptEach(bulk, frames, k);
    if forall g :: g in frames ==> g.id != id { AcceptOthers(bulk, frames, id); }
  }

  // ---------- the imperative parse ----------

  /** The inner copy of a matched frame into its table. */
  method StoreFrame(rx: array<byte>, bulk: array<BulkData>)
    requires rx.Length >= 260 && bulk.Length == DEVICES
    modifies bulk
    ensures bulk[..] == Accept(old(bulk[..]), rx[ID], rx[ERRBIT], rx[PARAMETER..PARAMETER + PayloadLength(rx[..])])
  {
    if rx[ID] >= DEVICES { return; }
    ghost var was := bulk[..];
    var id: nat := rx[ID];
    var d := bulk[id];
    ghost var payload := rx[PARAMETER..PARAMETER + PayloadLength(rx[..])];
    var table, j, length := d.table, 0, PayloadLength(rx[..]);
    while j < length
      invariant j <= length && bulk[..] == was
      invariant forall a :: 0 <= a < TABLE_SIZE ==>
                  table[a] == if d.start <= a < d.start + j then payload[a - d.start] else d.table[a]
    {
      if d.start + j < TABLE_SIZE { table := table[d.start + j := rx[PARAMETER + j]]; }
      j := j + 1;
    }
    assert table == Written(d.table, d.start, payload);
    bulk[id] := d.(table := table, error := rx[ERRBIT]);
    assert bulk[..] == was[id := bulk[id]];
  }

  /** The parse loop over the receive buffer; getLength bytes are in it. */
  method ParseLoop(rx: array<byte>, getLength: nat, num: nat, bulk: array<BulkData>, start: Outcome)
    returns (res: Outcome)
    requires rx.Length >= 260 && getLength < rx.Length && bulk.Length == DEVICES
    modifies rx, bulk
    ensures (bulk[..], res) == Parse(old(rx[..]), getLength, num, old(bulk[..]), start)
  {
    hide Parse, AcceptFront, Taken, After, FrameMatches, Shifted, Scan, Checksum;
    ghost var answer := Parse(rx[..], getLength, num, bulk[..], start);
    var n: nat := getLength;
    var left: int := num;
    res := start;
    while true
      invariant n < rx.Length
      invariant answer == Parse(rx[..], n, left, bulk[..], res)
      decreases n
    {
      ParseStep(rx[..], n, left, bulk[..], res);
      var i := FindHeader(rx, n);
      if i == 0 {
        var ok, taken := TakeFront(rx, n, bulk);
        if ok { left := left - 1; } else { res := RxCorrupt; }
        if left == 0 { return; }
        if n - taken <= 6 { return RxCorrupt; }
        n := n - taken;
      } else {
        ShiftDown(rx, i, n - i);
        n := n - i;
      }
    }
  }

  /** One round at a header: check, store, and move the rest of the buffer up. */
  method TakeFront(rx: array<byte>, n: nat, bulk: array<BulkData>) returns (ok: bool, taken: nat)
    requires rx.Length >= 260 && n < rx.Length && bulk.Length == DEVICES
    modifies rx, bulk
    ensures ok == FrameMatches(old(rx[..])) && taken == Taken(old(rx[..]))
    ensures bulk[..] == if ok then AcceptFront(old(bulk[..]), old(rx[..])) else old(bulk[..])
    ensures rx[..] == After(old(rx[..]), n, taken)
  {
    hide Checksum, Accept, Shifted;
    var checksum := CalculateChecksum(rx);
    ghost var p := rx[..];
    taken := rx[LENGTH];
    ok := rx[LENGTH + taken] == checksum;
    assert ok == FrameMatches(p);
    if ok {
      StoreFrame(rx, bulk);
      taken := taken + LENGTH + 1;
    } else {
      taken := 2;
    }
    if taken <= n { ShiftDown(rx, taken, n - taken + 1); }
  }
}
