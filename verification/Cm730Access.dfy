/**
 Reading and writing the registers of one device: the request on the wire, and what
 the caller gets when the device's reply comes back behind whatever noise.
 */
module Cm730Access {
  import opened Basics
  import opened Cm730Frame
  import opened Cm730Receive
  import opened Cm730Bulk
  import opened Cm730

  /** The reply is the first thing in the stream that looks like a frame. */
  ghost predicate Replies(stream: seq<byte>, noise: seq<byte>, reply: Frame, rest: seq<byte>) {
    && reply.Valid() && stream == noise + reply.Bytes() + rest
    && (forall k :: 0 <= k < |noise| - 1 ==> !(noise[k] == 255 && noise[k + 1] == 255))
    && (noise != [] ==> noise[|noise| - 1] != 255)
  }

  /** What the device puts on the wire: its id, its error byte and its registers. */
  lemma ReplyOnWire(reply: Frame)
    requires reply.Valid()
    ensures Wired(reply.Bytes(), [reply.id, |reply.payload| + 2, reply.error] + reply.payload)
  {
    FrameIsWellFormed(reply);
    WellFormedExactly(reply.Bytes());
    var b := reply.Bytes();
    assert b[2..|b| - 1] == [reply.id, |reply.payload| + 2, reply.error] + reply.payload;
  }

  /** A full window behind quiet noise is the reply. */
  lemma WindowIsReply(rx: seq<byte>, stream: seq<byte>, noise: seq<byte>, reply: Frame, rest: seq<byte>, dropped: nat,
                      incoming: seq<byte>)
    requires Replies(stream, noise, reply, rest) && |rx| >= 260
    requires Tracks(rx, |reply.payload| + 6, stream, dropped, incoming) && FirstHeader(stream, dropped)
    ensures rx[|reply.payload| + 5] == Checksum(rx)
    ensures rx[4] == reply.error && rx[5..5 + |reply.payload|] == reply.payload
  {
    QuietNoise(noise, reply, rest);
    hide Wired, Tracks, FirstHeader, Checksum, HeaderAt, WellFormed, Frame.Bytes;
    CleanReplyAccepted(rx, noise, reply.Bytes(), rest, dropped, incoming);
    PayloadBytes(rx, reply);
  }

  lemma QuietNoise(noise: seq<byte>, reply: Frame, rest: seq<byte>)
    requires reply.Valid() && Replies(noise + reply.Bytes() + rest, noise, reply, rest)
    ensures WellFormed(reply.Bytes()) && FirstHeader(noise + reply.Bytes() + rest, |noise|)
  {
    FrameIsWellFormed(reply);
    assert forall k :: 0 <= k < |noise| ==> !HeaderAt(noise, k);
    hide WellFormed, FirstHeader, Frame.Bytes;
    NoiseBeforeFrame(noise, reply.Bytes(), rest);
  }

  lemma PayloadBytes(rx: seq<byte>, reply: Frame)
    requires reply.Valid() && |reply.Bytes()| <= |rx| && rx[..|reply.Bytes()|] == reply.Bytes()
    ensures rx[4] == reply.error && rx[5..5 + |reply.payload|] == reply.payload
  {
    var b := reply.Bytes();
    assert rx[4] == b[4];
    assert rx[5..5 + |reply.payload|] == b[5..5 + |reply.payload|] == reply.payload;
  }

  /** One exchange with a device; `reply` is what it answers. */
  method Converse(c: Controller, tx: array<byte>, rx: array<byte>, accepted: nat, ghost noise: seq<byte>,
                  ghost reply: Frame, ghost rest: seq<byte>) returns (res: Outcome)
    requires c.Valid() && tx.Length == 266 && rx.Length == 1034 && tx != rx && tx[LENGTH] >= 2 && tx[ID] != 254
    requires tx[INSTRUCTION] == INST_READ ==> tx[LENGTH] >= 4
    modifies c.port`incoming, c.port`polls, c.port`sent, tx, rx, c.bulk
    ensures tx[2..Follow(tx[..]) + 3] == old(tx[2..Follow(tx[..]) + 3]) && Follow(tx[..]) == old(Follow(tx[..]))
    ensures Wired(tx[..Follow(tx[..]) + 4], old(tx[2..Follow(tx[..]) + 3]))
    ensures var n := Follow(tx[..]) + 4;
            c.port.sent == old(c.port.sent) + tx[..if accepted < n then accepted else n] &&
            (res == TxFail <==> accepted < n)
    ensures Replies(old(c.port.incoming), noise, reply, rest) && |reply.payload| + 6 == ReplySize(old(tx[..])) &&
            accepted >= Follow(tx[..]) + 4 && c.port.polls != [] ==>
              res == Success
    ensures Replies(old(c.port.incoming), noise, reply, rest) && |reply.payload| + 6 == ReplySize(old(tx[..])) &&
            res == Success ==>
              rx[4] == reply.error && rx[5..5 + |reply.payload|] == reply.payload
    ensures c.bulk[..] == old(c.bulk[..])
  {
    hide Sealed, Wired, Tracks, FirstHeader, Checksum, Replies, Exchanged;
    ghost var stream, asked := c.port.incoming, tx[..];
    SealedKeeps(asked);
    SealedIsWellFormed(asked);
    ghost var get, dropped, received;
    res, get, dropped, received := c.TxRxPacket(tx, rx, accepted);
    SameReplySize(asked, tx[..]);
    if res != TxFail && get == ReplySize(tx[..]) && |reply.payload| + 6 == get && Replies(stream, noise, reply, rest) {
      WindowIsReply(rx[..], stream, noise, reply, rest, dropped, c.port.incoming);
    }
  }

  lemma SameReplySize(tx: seq<byte>, s: seq<byte>)
    requires |tx| == |s| == 266 && Follow(tx) >= 2 && (tx[INSTRUCTION] == INST_READ ==> Follow(tx) >= 4)
    requires s == Sealed(tx)
    ensures ReplySize(s) == ReplySize(tx)
  {
  }

  // ---------- the calls ----------

  /** What the port took of a packet with this body. */
  ghost predicate Sent(before: seq<byte>, after: seq<byte>, body: seq<byte>, accepted: nat) {
    exists p :: Wired(p, body) && after == before + if accepted < |p| then p[..accepted] else p
  }

  lemma SentPacket(before: seq<byte>, after: seq<byte>, body: seq<byte>, accepted: nat, p: seq<byte>)
    requires Wired(p, body) && after == before + p[..if accepted < |p| then accepted else |p|]
    ensures Sent(before, after, body, accepted)
  {
    assert p[..|p|] == p;
  }

  /** The deadline passed, or the port did not take the packet. */
  ghost predicate Failed(c: Controller, accepted: nat, n: nat)
    reads c.port
  {
    c.port.polls == [] || accepted < n
  }

  /** Ping: whether the device answers, and its error byte. */
  method Ping(c: Controller, id: byte, accepted: nat, ghost noise: seq<byte>, ghost reply: Frame, ghost rest: seq<byte>)
    returns (res: Outcome, error: byte)
    requires c.Valid() && id < 254
    modifies c.port`incoming, c.port`polls, c.port`sent, c.bulk
    ensures Sent(old(c.port.sent), c.port.sent, [id, 2, 1], accepted) && c.bulk[..] == old(c.bulk[..])
    ensures Replies(old(c.port.incoming), noise, reply, rest) && reply.payload == [] ==>
              (res == Success && error == reply.error) || (res != Success && Failed(c, accepted, 6))
  {
    hide Wired, Replies;
    var tx := new byte[266](_ => 0);
    var rx := new byte[1034](_ => 0);
    tx[ID], tx[INSTRUCTION], tx[LENGTH] := id, 1, 2;
    assert tx[2..5] == [id, 2, 1];
    res := Converse(c, tx, rx, accepted, noise, reply, rest);
    SentPacket(old(c.port.sent), c.port.sent, [id, 2, 1], accepted, tx[..6]);
    error := if res == Success then rx[ERRBIT] else 0;
  }

  /** The exchange of both reading calls: so many registers from an address on. */
  method Read(c: Controller, id: byte, start: byte, length: byte, accepted: nat, ghost noise: seq<byte>,
              ghost reply: Frame, ghost rest: seq<byte>) returns (res: Outcome, rx: array<byte>)
    requires c.Valid() && id < 254
    modifies c.port`incoming, c.port`polls, c.port`sent, c.bulk
    ensures fresh(rx) && rx.Length == 1034 && c.bulk[..] == old(c.bulk[..])
    ensures Sent(old(c.port.sent), c.port.sent, [id, 4, 2, start, length], accepted)
    ensures Replies(old(c.port.incoming), noise, reply, rest) && |reply.payload| == length ==>
              if res == Success then rx[ERRBIT] == reply.error && rx[PARAMETER..PARAMETER + length] == reply.payload
              else Failed(c, accepted, 8)
  {
    hide Wired, Replies, Sent;
    var tx := new byte[266](_ => 0);
    rx := new byte[1034](_ => 0);
    tx[ID], tx[INSTRUCTION], tx[PARAMETER], tx[PARAMETER + 1], tx[LENGTH] := id, 2, start, length, 4;
    assert tx[2..7] == [id, 4, 2, start, length];
    res := Converse(c, tx, rx, accepted, noise, reply, rest);
    SentPacket(old(c.port.sent), c.port.sent, [id, 4, 2, start, length], accepted, tx[..8]);
  }

  method CopyRegisters(rx: array<byte>, table: array<byte>, start: nat, length: nat)
    requires rx != table && PARAMETER + length <= rx.Length && start + length <= table.Length
    modifies table
    ensures table[..start] == old(table[..start]) && table[start + length..] == old(table[start + length..])
    ensures table[start..start + length] == rx[PARAMETER..PARAMETER + length]
  {
    var i := 0;
    while i < length
      invariant 0 <= i <= length
      invariant table[..start] == old(table[..start]) && table[start + length..] == old(table[start + length..])
      invariant table[start..start + i] == rx[PARAMETER..PARAMETER + i]
    {
      table[start + i] := rx[PARAMETER + i];
      i := i + 1;
    }
  }

  /** ReadTable: the registers from one address to another. */
  method ReadTable(c: Controller, id: byte, start: nat, end: nat, table: array<byte>, accepted: nat,
                   ghost noise: seq<byte>, ghost reply: Frame, ghost rest: seq<byte>)
    returns (res: Outcome, error: byte)
    requires c.Valid() && id < 254 && start <= end < table.Length && end < 256 && end - start < 255
    modifies c.port`incoming, c.port`polls, c.port`sent, c.bulk, table
    ensures Sent(old(c.port.sent), c.port.sent, [id, 4, 2, start, end - start + 1], accepted)
    ensures table[..start] == old(table[..start]) && table[end + 1..] == old(table[end + 1..])
    ensures Replies(old(c.port.incoming), noise, reply, rest) && |reply.payload| == end - start + 1 ==>
              (res == Success && error == reply.error && table[start..end + 1] == reply.payload) ||
              (res != Success && Failed(c, accepted, 8) && table[..] == old(table[..]))
  {
    hide Replies, Sent;
    var rx;
    res, rx := Read(c, id, start, end - start + 1, accepted, noise, reply, rest);
    error := 0;
    if res == Success {
      error := rx[ERRBIT];
      CopyRegisters(rx, table, start, end - start + 1);
    }
  }

  /** ReadWord: two registers as one number, the low byte first. */
  method ReadWord(c: Controller, id: byte, address: byte, accepted: nat, ghost noise: seq<byte>, ghost reply: Frame,
                  ghost rest: seq<byte>) returns (res: Outcome, value: nat, error: byte)
    requires c.Valid() && id < 254
    modifies c.port`incoming, c.port`polls, c.port`sent, c.bulk
    ensures Sent(old(c.port.sent), c.port.sent, [id, 4, 2, address, 2], accepted) && c.bulk[..] == old(c.bulk[..])
    ensures Replies(old(c.port.incoming), noise, reply, rest) && |reply.payload| == 2 ==>
              (res == Success && error == reply.error &&
               value == reply.payload[0] + 256 * (reply.payload[1] as nat)) ||
              (res != Success && Failed(c, accepted, 8))
  {
    hide Replies, Sent;
    var rx;
    res, rx := Read(c, id, address, 2, accepted, noise, reply, rest);
    value, error := 0, 0;
    if res == Success {
      value, error := MakeWord(rx[PARAMETER], rx[PARAMETER + 1]), rx[ERRBIT];
      assert rx[5..7] == reply.payload ==> rx[5] == reply.payload[0] && rx[6] == reply.payload[1];
    }
  }

  /** WriteWord: the low byte goes to the address, the high byte to the next one. */
  method WriteWord(c: Controller, id: byte, address: byte, value: int, accepted: nat, ghost noise: seq<byte>,
                   ghost reply: Frame, ghost rest: seq<byte>) returns (res: Outcome, error: byte)
    requires c.Valid() && id < 254
    modifies c.port`incoming, c.port`polls, c.port`sent, c.bulk
    ensures exists low: byte, high: byte ::
              low + 256 * high == value % 65536 &&
              Sent(old(c.port.sent), c.port.sent, [id, 5, 3, address, low, high], accepted)
    ensures Replies(old(c.port.incoming), noise, reply, rest) && reply.payload == [] ==>
              (res == Success && error == reply.error) || (res != Success && Failed(c, accepted, 9))
    ensures c.bulk[..] == old(c.bulk[..])
  {
    hide Wired, Replies, Sent;
    var tx := new byte[266](_ => 0);
    var rx := new byte[1034](_ => 0);
    var (low, high) := (LowByte(value), HighByte(value));
    tx[ID], tx[INSTRUCTION], tx[PARAMETER], tx[PARAMETER + 1], tx[PARAMETER + 2] := id, 3, address, low, high;
    tx[LENGTH] := 5;
    assert tx[2..8] == [id, 5, 3, address, low, high];
    WordRoundTrip(value);
    res := Converse(c, tx, rx, accepted, noise, reply, rest);
    SentPacket(old(c.port.sent), c.port.sent, [id, 5, 3, address, low, high], accepted, tx[..9]);
    error := if res == Success then rx[ERRBIT] else 0;
  }

  /** A ping of device 1, byte for byte. */
  lemma PingOfOne(p: seq<byte>)
    ensures Wired(p, [1, 2, 1]) <==> p == [255, 255, 1, 2, 1, 251]
  {
    if |p| == 6 {
      assert p == [p[0], p[1], p[2], p[3], p[4], p[5]];
      var a, b, d: seq<byte> := [p[2]], [p[2], p[3]], [p[2], p[3], p[4]];
      assert [] + [p[2]] == a && a + [p[3]] == b && b + [p[4]] == d && d + [p[5]] == p[2..];
      SumExactly([], p[2]);
      SumExactly(a, p[3]);
      SumExactly(b, p[4]);
      SumExactly(d, p[5]);
      assert p[2..5] == [p[2], p[3], p[4]];
    }
  }
}
