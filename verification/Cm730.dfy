/**
 TxRxPacket: a packet is sealed and sent, then the reply, or the replies of a bulk
 read, are received. The semaphores around it are in PortArbitration.
 */
module Cm730 {
  import opened Basics
  import opened Cm730Frame
  import opened Cm730Receive
  import opened Cm730Bulk

  const ID_BROADCAST: byte := 254
  const INST_READ: byte := 2
  const INST_BULK_READ: byte := 146
  const INST_SYNC_WRITE: byte := 131
  const MAXNUM_TXPARAM: nat := 256

  // ---------- what a bulk-read packet asks for ----------

  /** Number of requests in a bulk-read packet. */
  function Requests(tx: seq<byte>): nat
    requires |tx| >= 266
  {
    if Follow(tx) < 3 then 0 else (Follow(tx) - 3) / 3
  }

  function RequestLength(tx: seq<byte>, x: nat): byte
    requires |tx| >= 266 && x < Requests(tx)
  {
    tx[PARAMETER + 3 * x + 1]
  }

  function RequestId(tx: seq<byte>, x: nat): byte
    requires |tx| >= 266 && x < Requests(tx)
  {
    tx[PARAMETER + 3 * x + 2]
  }

  function RequestStart(tx: seq<byte>, x: nat): byte
    requires |tx| >= 266 && x < Requests(tx)
  {
    tx[PARAMETER + 3 * x + 3]
  }

  /** Every request names a device that exists. */
  ghost predicate GoodRequests(tx: seq<byte>)
    requires |tx| >= 266
  {
    forall x :: 0 <= x < Requests(tx) ==> RequestId(tx, x) < DEVICES
  }

  /** Bytes the replies to the first x requests take. */
  function ReplyLength(tx: seq<byte>, x: nat): nat
    requires |tx| >= 266 && x <= Requests(tx)
  {
    if x == 0 then 0 else ReplyLength(tx, x - 1) + RequestLength(tx, x - 1) + 6
  }

  /** The store once the first x requests are noted: address and length set, no answer yet. */
  function Noted(tx: seq<byte>, bulk: Store, x: nat): Store
    requires |tx| >= 266 && x <= Requests(tx) && GoodRequests(tx)
  {
    if x == 0 then bulk
    else
      var b := Noted(tx, bulk, x - 1);
      b[RequestId(tx, x - 1) :=
          b[RequestId(tx, x - 1)].(length := RequestLength(tx, x - 1), start := RequestStart(tx, x - 1))]
  }

  function Unanswered(tx: seq<byte>, bulk: Store, x: nat): Store
    requires |tx| >= 266 && x <= Requests(tx) && GoodRequests(tx)
  {
    if x == 0 then bulk
    else
      var b := Unanswered(tx, bulk, x - 1);
      b[RequestId(tx, x - 1) := b[RequestId(tx, x - 1)].(error := -1)]
  }

  function Requested(tx: seq<byte>, bulk: Store): Store
    requires |tx| >= 266 && GoodRequests(tx)
  {
    Unanswered(tx, Noted(tx, bulk, Requests(tx)), Requests(tx))
  }

  /** Requests leave every table as it is. */
  lemma {:induction false} RequestedKeepsTables(tx: seq<byte>, bulk: Store, x: nat, id: nat)
    requires |tx| >= 266 && GoodRequests(tx) && x <= Requests(tx) && id < DEVICES
    ensures Noted(tx, bulk, x)[id].table == bulk[id].table
    ensures Unanswered(tx, bulk, x)[id].table == bulk[id].table && Unanswered(tx, bulk, x)[id].start == bulk[id].start
  {
    if x > 0 { RequestedKeepsTables(tx, bulk, x - 1, id); }
  }

  /** With distinct devices each ends up with the address its own request names. */
  lemma {:induction false} NotedStart(tx: seq<byte>, bulk: Store, x: nat, k: nat)
    requires |tx| >= 266 && GoodRequests(tx) && k < x <= Requests(tx)
    requires forall i, j :: 0 <= i < j < Requests(tx) ==> RequestId(tx, i) != RequestId(tx, j)
    ensures Noted(tx, bulk, x)[RequestId(tx, k)].start == RequestStart(tx, k)
    decreases x
  {
    if k < x - 1 {
      NotedStart(tx, bulk, x - 1, k);
      assert RequestId(tx, k) != RequestId(tx, x - 1);
    }
  }

  /** Frames that answer the requests in order. */
  ghost predicate Answers(tx: seq<byte>, frames: seq<Frame>)
    requires |tx| >= 266
  {
    |frames| == Requests(tx) &&
    forall x :: 0 <= x < |frames| ==>
      frames[x].Valid() && frames[x].id == RequestId(tx, x) && |frames[x].payload| == RequestLength(tx, x)
  }

  lemma StreamAppend(frames: seq<Frame>, f: Frame)
    requires AllValid(frames) && f.Valid()
    ensures AllValid(frames + [f]) && Stream(frames + [f]) == Stream(frames) + f.Bytes()
    decreases |frames|
  {
    if frames == [] {
      assert frames + [f] == [f] && [f][1..] == [];
      assert Stream([f]) == f.Bytes() + Stream([]);
    } else {
      assert (frames + [f])[1..] == frames[1..] + [f];
      StreamAppend(frames[1..], f);
    }
  }

  /** The replies take exactly the bytes the receiver waits for. */
  lemma {:induction false} AnswerLength(tx: seq<byte>, frames: seq<Frame>, x: nat)
    requires |tx| >= 266 && Answers(tx, frames) && x <= |frames|
    ensures AllValid(frames[..x]) && |Stream(frames[..x])| == ReplyLength(tx, x)
  {
    if x > 0 {
      AnswerLength(tx, frames, x - 1);
      assert frames[..x] == frames[..x - 1] + [frames[x - 1]];
      StreamAppend(frames[..x - 1], frames[x - 1]);
    }
  }

  /** Store and outcome of a bulk read that received `get` bytes. */
  function Exchanged(tx: seq<byte>, bulk: Store, rx: seq<byte>, get: nat): (Store, Outcome)
    requires |tx| >= 266 && GoodRequests(tx) && 260 <= |rx| && get < |rx|
  {
    Parse(rx, get, Requests(tx), Requested(tx, bulk), Received(get, ReplyLength(tx, Requests(tx))))
  }

  /** The outcome before parsing: whether all bytes came in time. */
  function Received(get: nat, toLength: nat): Outcome {
    if get == toLength then Success else if get == 0 then RxTimeout else RxCorrupt
  }

  /**
   A bulk read of distinct devices whose replies arrive complete and in time:
   success, every payload in its device's table at the requested address, every
   error byte stored, every other cell untouched. The last of several requests
   must not ask for zero bytes.
   */
  lemma BulkExchangeCorrect(tx: seq<byte>, bulk: Store, rx: seq<byte>, get: nat, frames: seq<Frame>, k: nat, id: nat)
    requires |tx| >= 266 && GoodRequests(tx) && Answers(tx, frames) && Parsable(frames)
    requires forall i, j :: 0 <= i < j < Requests(tx) ==> RequestId(tx, i) != RequestId(tx, j)
    requires get == ReplyLength(tx, Requests(tx)) && 260 <= |rx| && get < |rx| && rx[..get] == Stream(frames)
    requires k < Requests(tx) && id < DEVICES
    requires RequestStart(tx, k) as int + RequestLength(tx, k) <= TABLE_SIZE
    ensures Exchanged(tx, bulk, rx, get).1 == Success
    ensures Answered(Exchanged(tx, bulk, rx, get).0[RequestId(tx, k)], bulk[RequestId(tx, k)], RequestStart(tx, k),
              frames[k])
    ensures (forall g :: 0 <= g < Requests(tx) ==> RequestId(tx, g) != id) ==>
              Exchanged(tx, bulk, rx, get).0[id].table == bulk[id].table
  {
    var asked := Requested(tx, bulk);
    var f := frames[k];
    assert |frames| == Requests(tx) && f.id == RequestId(tx, k) && |f.payload| == RequestLength(tx, k);
    RequestedState(tx, bulk, k, f.id);
    RequestedState(tx, bulk, k, id);
    DistinctAnswers(tx, frames);
    assert Exchanged(tx, bulk, rx, get) == Parse(rx, get, |frames|, asked, Success);
    hide Exchanged, Requested, Answers, Parse, Stream, ReplyLength, Parsable, DistinctIds, RequestStart, RequestLength;
    BulkReadCorrect(rx, get, frames, asked, k, id);
    if forall g :: 0 <= g < Requests(tx) ==> RequestId(tx, g) != id { NotAsked(tx, frames, id); }
  }

  /** What the parser finds: every table as before, every requested device at its requested address. */
  lemma RequestedState(tx: seq<byte>, bulk: Store, k: nat, id: nat)
    requires |tx| >= 266 && GoodRequests(tx) && k < Requests(tx) && id < DEVICES
    requires forall i, j :: 0 <= i < j < Requests(tx) ==> RequestId(tx, i) != RequestId(tx, j)
    ensures Requested(tx, bulk)[id].table == bulk[id].table
    ensures Requested(tx, bulk)[RequestId(tx, k)].start == RequestStart(tx, k)
  {
    hide Noted, Unanswered, RequestStart, RequestId;
    var n := Requests(tx);
    var noted := Noted(tx, bulk, n);
    RequestedKeepsTables(tx, bulk, n, id);
    RequestedKeepsTables(tx, noted, n, id);
    RequestedKeepsTables(tx, noted, n, RequestId(tx, k));
    NotedStart(tx, bulk, n, k);
  }

  lemma DistinctAnswers(tx: seq<byte>, frames: seq<Frame>)
    requires |tx| >= 266 && Answers(tx, frames)
    requires forall i, j :: 0 <= i < j < Requests(tx) ==> RequestId(tx, i) != RequestId(tx, j)
    ensures AllValid(frames) && DistinctIds(frames)
  {
    forall i, j | 0 <= i < j < |frames| ensures frames[i].id != frames[j].id {
      assert RequestId(tx, i) != RequestId(tx, j);
    }
  }

  lemma NotAsked(tx: seq<byte>, frames: seq<Frame>, id: nat)
    requires |tx| >= 266 && Answers(tx, frames)
    requires forall g :: 0 <= g < Requests(tx) ==> RequestId(tx, g) != id
    ensures forall f :: f in frames ==> f.id != id
  {
    forall f | f in frames ensures f.id != id {
      var x :| 0 <= x < |frames| && frames[x] == f;
      assert RequestId(tx, x) != id;
    }
  }

  // ---------- the synchronous write ----------

  function SyncByte(startAddr: int, eachLength: int, params: seq<int>, length: byte, i: nat): byte {
    if i == ID then ID_BROADCAST
    else if i == LENGTH then length
    else if i == INSTRUCTION then INST_SYNC_WRITE
    else if i == PARAMETER then LowByte(startAddr)
    else if i == PARAMETER + 1 then LowByte(eachLength - 1)
    else if PARAMETER + 2 <= i < PARAMETER + 2 + |params| then LowByte(params[i - PARAMETER - 2])
    else 0
  }

  /** The packet of a synchronous write before it is sealed. */
  function SyncPacket(startAddr: int, eachLength: int, params: seq<int>): (p: seq<byte>)
    requires |params| + 4 < 256
    ensures |p| == 266
  {
    seq(266, i requires 0 <= i < 266 => SyncByte(startAddr, eachLength, params, |params| + 4, i))
  }

  // ---------- the exchange ----------

  lemma SyncFields(startAddr: int, eachLength: int, params: seq<int>)
    requires |params| + 4 < 256
    ensures var p := SyncPacket(startAddr, eachLength, params);
            p[2] == 254 && p[3] == |params| + 4 && p[4] == 131 && p[5] == startAddr % 256 &&
            p[6] == (eachLength - 1) % 256
    ensures forall i :: 0 <= i < |params| ==>
              SyncPacket(startAddr, eachLength, params)[PARAMETER + 2 + i] == LowByte(params[i])
  {
  }

  /** Sealing leaves the fields that steer the exchange alone. */
  lemma SealedKeeps(tx: seq<byte>)
    requires |tx| >= 266 && Follow(tx) >= 2
    ensures |Sealed(tx)| == |tx| && Sealed(tx)[ID] == tx[ID] && Sealed(tx)[INSTRUCTION] == tx[INSTRUCTION]
    ensures Follow(Sealed(tx)) == Follow(tx)
  {
  }

  /** What is sent: the bytes given, a header in front, and behind them what makes the sum 255 modulo 256. */
  lemma SealedSums(tx: seq<byte>)
    requires |tx| >= 266 && Follow(tx) >= 1
    ensures var n := Follow(tx) + 4; var p := Sealed(tx);
            Wired(p[..n], tx[2..n - 1]) && Follow(p) == Follow(tx)
  {
    SealedIsWellFormed(tx);
    var p := Sealed(tx)[..Follow(tx) + 4];
    WellFormedExactly(p);
    assert p[2..|p| - 1] == Sealed(tx)[2..|p| - 1];
  }

  /**
   A synchronous write on the wire: broadcast, length, instruction, first address, bytes
   for each servo less one, and the low byte of every parameter.
   */
  lemma SyncOnWire(startAddr: int, eachLength: int, params: seq<int>)
    requires |params| + 4 < 256
    ensures var body: seq<byte> := [254, |params| + 4, 131, startAddr % 256, (eachLength - 1) % 256]
                                   + seq(|params|, i requires 0 <= i < |params| => params[i] % 256);
            Wired(Sealed(SyncPacket(startAddr, eachLength, params))[..|params| + 8], body)
  {
    var tx := SyncPacket(startAddr, eachLength, params);
    SyncFields(startAddr, eachLength, params);
    SealedSums(tx);
    var body: seq<byte> := [254, |params| + 4, 131, startAddr % 256, (eachLength - 1) % 256]
                           + seq(|params|, i requires 0 <= i < |params| => params[i] % 256);
    hide Sealed, Wired;
    assert tx[2..|params| + 7] == body;
  }

  lemma AcceptedSums(rx: seq<byte>, get: nat, stream: seq<byte>, dropped: nat, incoming: seq<byte>)
    requires |rx| >= 260 && get >= 6 && Tracks(rx, get, stream, dropped, incoming)
    requires FirstHeader(stream, dropped) && rx[get - 1] == Checksum(rx)
    ensures Follow(rx) == get - 4 ==> Wired(rx[..get], rx[2..get - 1])
  {
    SuccessIsFrame(rx, get, stream, dropped, incoming);
    var w := stream[dropped..dropped + get];
    assert w == rx[..get];
    WellFormedExactly(w);
    assert w[2..get - 1] == rx[2..get - 1];
  }

  /** Header and checksum are filled in just before sending. */
  method Seal(tx: array<byte>)
    requires tx.Length >= 266
    modifies tx
    ensures tx[..] == Sealed(old(tx[..])) && tx[LENGTH] == old(tx[LENGTH])
    requires tx[LENGTH] >= 1
  {
    tx[0] := HEADER;
    tx[1] := HEADER;
    var length: nat := tx[LENGTH];
    tx[length + 3] := CalculateChecksum(tx);
  }

  class Controller {
    const port: Port
    const bulk: array<BulkData>

    ghost predicate Valid() {
      bulk.Length == DEVICES
    }

    constructor (port: Port)
      ensures Valid() && fresh(bulk) && this.port == port
      ensures forall i :: 0 <= i < DEVICES ==> bulk[i] == BulkData(0, 0, -1, seq(TABLE_SIZE, _ => 0))
    {
      this.port := port;
      bulk := new BulkData[DEVICES](_ => BulkData(0, 0, -1, seq(TABLE_SIZE, _ => 0)));
    }

    /** The two loops over the requests of a bulk-read packet. */
    method NoteRequests(tx: array<byte>) returns (toLength: nat)
      requires Valid() && tx.Length >= 266 && GoodRequests(tx[..])
      modifies bulk
      ensures toLength == ReplyLength(tx[..], Requests(tx[..]))
      ensures bulk[..] == Noted(tx[..], old(bulk[..]), Requests(tx[..]))
    {
      var num := Requests(tx[..]);
      toLength := 0;
      var x := 0;
      while x < num
        invariant x <= num && toLength == ReplyLength(tx[..], x)
        invariant bulk[..] == Noted(tx[..], old(bulk[..]), x)
      {
        assert RequestId(tx[..], x) < DEVICES;
        var id: nat := tx[PARAMETER + 3 * x + 2];
        var length: nat := tx[PARAMETER + 3 * x + 1];
        toLength := toLength + length + 6;
        bulk[id] := bulk[id].(length := length, start := tx[PARAMETER + 3 * x + 3]);
        x := x + 1;
      }
    }

    method ClearErrors(tx: array<byte>)
      requires Valid() && tx.Length >= 266 && GoodRequests(tx[..])
      modifies bulk
      ensures bulk[..] == Unanswered(tx[..], old(bulk[..]), Requests(tx[..]))
    {
      var num := Requests(tx[..]);
      var x := 0;
      while x < num
        invariant x <= num && bulk[..] == Unanswered(tx[..], old(bulk[..]), x)
      {
        assert RequestId(tx[..], x) < DEVICES;
        var id: nat := tx[PARAMETER + 3 * x + 2];
        bulk[id] := bulk[id].(error := -1);
        x := x + 1;
      }
    }

    /** The receive loop of a bulk read: all bytes, or what came before the deadline. */
    method ReceiveAll(rx: array<byte>, toLength: nat) returns (res: Outcome, get: nat)
      requires toLength < rx.Length
      modifies port`incoming, port`polls, rx
      ensures get <= toLength && get <= |old(port.incoming)| && rx[..get] == old(port.incoming)[..get]
      ensures res == Received(get, toLength) && (get < toLength ==> port.polls == [])
    {
      ghost var stream := port.incoming;
      get := 0;
      while true
        invariant get <= toLength && get <= |stream|
        invariant rx[..get] == stream[..get] && port.incoming == stream[get..]
        decreases |port.polls|, toLength - get
      {
        ghost var before := get;
        var length := port.ReadPort(rx, get, toLength - get);
        get := get + length;
        assert rx[..get] == rx[..before] + rx[before..get];
        if get == toLength { return Success, get; }
        if port.IsPacketTimeout() {
          return if get == 0 then RxTimeout else RxCorrupt, get;
        }
      }
    }

    /** The bulk-read branch: note the requests, receive, parse. */
    method BulkExchange(tx: array<byte>, rx: array<byte>) returns (res: Outcome, get: nat, ghost received: seq<byte>)
      requires Valid() && tx.Length >= 266 && rx.Length >= 1034 && tx != rx && GoodRequests(tx[..])
      requires ReplyLength(tx[..], Requests(tx[..])) < rx.Length
      modifies port`incoming, port`polls, rx, bulk
      ensures |received| == rx.Length && get <= ReplyLength(tx[..], Requests(tx[..])) && get <= |old(port.incoming)|
      ensures received[..get] == old(port.incoming)[..get]
      ensures get < ReplyLength(tx[..], Requests(tx[..])) ==> port.polls == []
      ensures (bulk[..], res) == Exchanged(tx[..], old(bulk[..]), received, get)
      ensures res in {Success, RxTimeout, RxCorrupt}
    {
      var toLength := NoteRequests(tx);
      var start;
      start, get := ReceiveAll(rx, toLength);
      ClearErrors(tx);
      received := rx[..];
      ParseOutcome(received, get, Requests(tx[..]), bulk[..], start);
      res := ParseLoop(rx, get, Requests(tx[..]), bulk, start);
    }

    /** SyncWrite: one broadcast packet carries the parameters of all servos; nothing answers. */
    method SyncWrite(startAddr: int, eachLength: int, number: nat, param: array<int>, accepted: nat)
      returns (res: Outcome)
      requires Valid() && 0 <= number * eachLength <= param.Length && number * eachLength + 4 < 256
      modifies port`incoming, port`polls, port`sent, bulk
      ensures var packet := Sealed(SyncPacket(startAddr, eachLength, param[..number * eachLength]));
              var n := number * eachLength + 8;
              port.sent == old(port.sent) + packet[..if accepted < n then accepted else n] &&
              res == if accepted < n then TxFail else Success
      ensures bulk[..] == old(bulk[..])
    {
      hide SyncPacket, Sealed, SyncByte;
      ghost var params := param[..number * eachLength];
      var tx := FillSync(startAddr, eachLength, number * eachLength, param);
      var rx := new byte[1034](_ => 0);
      SyncFields(startAddr, eachLength, params);
      SealedKeeps(SyncPacket(startAddr, eachLength, params));
      ghost var get, dropped, received;
      res, get, dropped, received := TxRxPacket(tx, rx, accepted);
    }

    method FillSync(startAddr: int, eachLength: int, total: nat, param: array<int>) returns (tx: array<byte>)
      requires total <= param.Length && total + 4 < 256
      ensures fresh(tx) && tx.Length == 266 && tx[..] == SyncPacket(startAddr, eachLength, param[..total])
    {
      tx := new byte[266](_ => 0);
      tx[ID] := ID_BROADCAST;
      tx[INSTRUCTION] := INST_SYNC_WRITE;
      tx[PARAMETER] := LowByte(startAddr);
      tx[PARAMETER + 1] := LowByte(eachLength - 1);
      assert forall i :: 0 <= i < 266 ==> tx[i] == SyncByte(startAddr, eachLength, [], 0, i);
      var n := 0;
      while n < total
        invariant 0 <= n <= total
        invariant forall i :: 0 <= i < 266 ==> tx[i] == SyncByte(startAddr, eachLength, param[..n], 0, i)
      {
        tx[PARAMETER + 2 + n] := LowByte(param[n]);
        n := n + 1;
      }
      tx[LENGTH] := n + 4;
      assert tx[..] == SyncPacket(startAddr, eachLength, param[..total]);
    }

    /**
     TxRxPacket behind the semaphores. The packet that leaves is sealed; a unicast
     packet gets one reply, a bulk read several, any other broadcast none.
     */
    method TxRxPacket(tx: array<byte>, rx: array<byte>, accepted: nat)
      returns (res: Outcome, ghost get: nat, ghost dropped: nat, ghost received: seq<byte>)
      requires Valid() && tx.Length >= 266 && rx.Length >= 1034 && tx != rx && tx[LENGTH] >= 2
      requires var t := Sealed(tx[..]);
               t[ID] == ID_BROADCAST && t[INSTRUCTION] == INST_BULK_READ ==>
                 GoodRequests(t) && ReplyLength(t, Requests(t)) < rx.Length
      modifies port`incoming, port`polls, port`sent, tx, rx, bulk
      ensures tx[..] == Sealed(old(tx[..]))
      ensures var n := Follow(tx[..]) + 4;
              port.sent == old(port.sent) + tx[..if accepted < n then accepted else n] &&
              (res == TxFail <==> accepted < n)
      ensures Wired(tx[..Follow(tx[..]) + 4], old(tx[2..Follow(tx[..]) + 3]))
      ensures res == TxFail ==> rx[..] == old(rx[..]) && bulk[..] == old(bulk[..])
      ensures res != TxCorrupt
      ensures tx[ID] != ID_BROADCAST && res == Success && Follow(rx[..]) == get - 4 ==>
                Wired(rx[..get], rx[2..get - 1])
      ensures tx[ID] == ID_BROADCAST && tx[INSTRUCTION] != INST_BULK_READ && res != TxFail ==>
                res == Success && rx[..] == old(rx[..]) && bulk[..] == old(bulk[..])
      ensures tx[ID] != ID_BROADCAST ==> bulk[..] == old(bulk[..])
      ensures tx[ID] != ID_BROADCAST && res != TxFail ==>
                Tracks(rx[..], get, old(port.incoming), dropped, port.incoming) &&
                get <= ReplySize(tx[..]) && (get < ReplySize(tx[..]) ==> port.polls == []) &&
                (get == ReplySize(tx[..]) ==> FirstHeader(old(port.incoming), dropped)) &&
                res == if get == ReplySize(tx[..]) then if rx[get - 1] == Checksum(rx[..]) then Success else RxCorrupt
                       else if get == 0 then RxTimeout else RxCorrupt
      ensures tx[ID] == ID_BROADCAST && tx[INSTRUCTION] == INST_BULK_READ && res != TxFail ==>
                |received| == rx.Length && get <= ReplyLength(tx[..], Requests(tx[..])) <= rx.Length &&
                get <= |old(port.incoming)| && received[..get] == old(port.incoming)[..get] &&
                GoodRequests(tx[..]) && get < |received| &&
                (bulk[..], res) == Exchanged(tx[..], old(bulk[..]), received, get)
    {
      hide Wired, Tracks, Sealed, FirstHeader, Checksum, Exchanged;
      get, dropped, received := 0, 0, [];
      ghost var asked := tx[..];
      Seal(tx);
      SealedSums(asked);
      var length: nat := tx[LENGTH];
      length := length + 4;
      if length >= MAXNUM_TXPARAM + 6 { return TxCorrupt, get, dropped, received; }
      var written := port.WritePort(tx, length, accepted);
      if written != length { return TxFail, get, dropped, received; }
      if tx[ID] != ID_BROADCAST {
        var toLength: nat := 6;
        if tx[INSTRUCTION] == INST_READ {
          toLength := tx[PARAMETER + 1];
          toLength := toLength + 6;
        }
        res, dropped, get := ReceiveOne(port, rx, toLength);
        if res == Success { AcceptedSums(rx[..], toLength, old(port.incoming), dropped, port.incoming); }
      } else if tx[INSTRUCTION] == INST_BULK_READ {
        var n;
        res, n, received := BulkExchange(tx, rx);
        get := n;
      } else {
        res := Success;
      }
    }
  }

  /** Length of the reply to a unicast packet. */
  function ReplySize(tx: seq<byte>): nat
    requires |tx| >= 266
  {
    if tx[INSTRUCTION] == INST_READ then (tx[PARAMETER + 1] as nat) + 6 else 6
  }
}
