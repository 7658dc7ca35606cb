/**
 What goes over the bus, byte by byte, and what a bulk read leaves behind when not
 everything goes well: devices that do not answer, replies damaged on the way, and
 deadlines that pass.
 */
module Cm730Meaning {
  import opened Basics
  import opened Cm730Frame
  import opened Cm730Receive
  import opened Cm730Bulk
  import opened Cm730

  // ---------- requests ----------

  /** What a bulk read asks of one device: so many bytes from an address on. */
  datatype Request = Request(length: byte, id: byte, start: byte)

  function RequestBytes(rs: seq<Request>): (b: seq<byte>)
    ensures |b| == 3 * |rs|
  {
    if rs == [] then [] else [rs[0].length, rs[0].id, rs[0].start] + RequestBytes(rs[1..])
  }

  lemma {:induction false} RequestBytesAt(rs: seq<Request>, k: nat)
    requires k < |rs|
    ensures var b := RequestBytes(rs);
            b[3 * k] == rs[k].length && b[3 * k + 1] == rs[k].id && b[3 * k + 2] == rs[k].start
  {
    if k > 0 { RequestBytesAt(rs[1..], k - 1); }
  }

  /** The instruction packet of a bulk read is a zero byte and three bytes for each device: length, id, address. */
  ghost predicate Asks(tx: seq<byte>, rs: seq<Request>) {
    && |tx| >= 266 && 3 * |rs| + 3 <= 255 && tx[2] == 254 && tx[3] == 3 * |rs| + 3 && tx[4] == 146 && tx[5] == 0
    && tx[6..6 + 3 * |rs|] == RequestBytes(rs)
  }

  /** The requests read out of such a packet are the ones put into it. */
  lemma RequestsAsSent(tx: seq<byte>, rs: seq<Request>, k: nat)
    requires Asks(tx, rs) && k < |rs|
    ensures tx[ID] == ID_BROADCAST && tx[INSTRUCTION] == INST_BULK_READ && Requests(tx) == |rs|
    ensures RequestLength(tx, k) == rs[k].length && RequestId(tx, k) == rs[k].id && RequestStart(tx, k) == rs[k].start
  {
    RequestBytesAt(rs, k);
    var b := tx[6..6 + 3 * |rs|];
    assert b[3 * k] == tx[6 + 3 * k] && b[3 * k + 1] == tx[7 + 3 * k] && b[3 * k + 2] == tx[8 + 3 * k];
  }

  /** MakeBulkReadPacket, given which of the three boards answered a ping. */
  method MakeBulkReadPacket(tx: array<byte>, cm: bool, left: bool, right: bool) returns (ghost rs: seq<Request>)
    requires tx.Length >= 266
    modifies tx
    ensures rs == (if cm then [Request(30, 200, 24)] else []) + (if left then [Request(10, 112, 26)] else [])
                  + (if right then [Request(10, 111, 26)] else [])
    ensures Asks(tx[..], rs)
  {
    tx[2], tx[4], tx[5] := 254, 146, 0;
    var n := 0;
    rs := [];
    n, rs := PutRequest(tx, n, rs, cm, 30, 200, 24);
    n, rs := PutRequest(tx, n, rs, left, 10, 112, 26);
    n, rs := PutRequest(tx, n, rs, right, 10, 111, 26);
    tx[3] := n * 3 + 3;
    assert tx[6..6 + 3 * n] == RequestBytes(rs);
  }

  method PutRequest(tx: array<byte>, n: nat, ghost rs: seq<Request>, answered: bool, length: byte, id: byte,
                    start: byte)
    returns (m: nat, ghost after: seq<Request>)
    requires tx.Length >= 266 && n == |rs| <= 2 && tx[6..6 + 3 * n] == RequestBytes(rs)
    modifies tx
    ensures after == rs + (if answered then [Request(length, id, start)] else []) && m == |after|
    ensures tx[6..6 + 3 * m] == RequestBytes(after) && tx[..6] == old(tx[..6])
  {
    m, after := n, rs;
    if answered {
      tx[6 + 3 * n], tx[7 + 3 * n], tx[8 + 3 * n] := length, id, start;
      m, after := n + 1, rs + [Request(length, id, start)];
      RequestAppended(rs, Request(length, id, start));
      assert tx[6..6 + 3 * n] == old(tx[6..6 + 3 * n]);
      assert tx[6..6 + 3 * m] == tx[6..6 + 3 * n] + [length, id, start];
    }
  }

  lemma {:induction false} RequestAppended(rs: seq<Request>, r: Request)
    ensures RequestBytes(rs + [r]) == RequestBytes(rs) + [r.length, r.id, r.start]
    decreases |rs|
  {
    if rs == [] {
      assert rs + [r] == [r] && [r][1..] == [];
    } else {
      assert (rs + [r])[1..] == rs[1..] + [r];
      RequestAppended(rs[1..], r);
    }
  }

  // ---------- the records before the answers ----------

  ghost predicate DistinctRequests(tx: seq<byte>)
    requires |tx| >= 266
  {
    forall i, j :: 0 <= i < j < Requests(tx) ==> RequestId(tx, i) != RequestId(tx, j)
  }

  lemma {:induction false} NotedRecord(tx: seq<byte>, bulk: Store, x: nat, id: nat)
    requires |tx| >= 266 && GoodRequests(tx) && x <= Requests(tx) && id < DEVICES && DistinctRequests(tx)
    ensures forall k :: 0 <= k < x && RequestId(tx, k) == id ==>
              Noted(tx, bulk, x)[id] == bulk[id].(length := RequestLength(tx, k), start := RequestStart(tx, k)) &&
              Unanswered(tx, bulk, x)[id] == bulk[id].(error := -1)
    ensures (forall k :: 0 <= k < x ==> RequestId(tx, k) != id) ==>
              Noted(tx, bulk, x)[id] == bulk[id] && Unanswered(tx, bulk, x)[id] == bulk[id]
    decreases x
  {
    if x > 0 {
      NotedRecord(tx, bulk, x - 1, id);
      if RequestId(tx, x - 1) == id {
        forall k | 0 <= k < x - 1 ensures RequestId(tx, k) != id {}
      }
    }
  }

  /** Before any answer a device that is asked has its request on record and no answer; the others are untouched. */
  lemma RequestedExactly(tx: seq<byte>, bulk: Store, id: nat)
    requires |tx| >= 266 && GoodRequests(tx) && id < DEVICES && DistinctRequests(tx)
    ensures forall k :: 0 <= k < Requests(tx) && RequestId(tx, k) == id ==>
              Requested(tx, bulk)[id]
              == bulk[id].(length := RequestLength(tx, k), start := RequestStart(tx, k), error := -1)
    ensures (forall k :: 0 <= k < Requests(tx) ==> RequestId(tx, k) != id) ==> Requested(tx, bulk)[id] == bulk[id]
  {
    NotedRecord(tx, bulk, Requests(tx), id);
    NotedRecord(tx, Noted(tx, bulk, Requests(tx)), Requests(tx), id);
    hide Noted, Unanswered;
  }

  // ---------- devices that do not answer ----------

  /**
   When fewer devices answer than were asked, the read is corrupt, and a device without
   a reply keeps the mark of no answer beside its request and its table as it was.
   */
  lemma SilentDevice(tx: seq<byte>, bulk: Store, rx: seq<byte>, get: nat, frames: seq<Frame>, k: nat)
    requires |tx| >= 266 && GoodRequests(tx) && DistinctRequests(tx) && k < Requests(tx)
    requires 260 <= |rx| && get < |rx| && AllValid(frames) && frames != [] && |frames| < Requests(tx)
    requires rx[..get] == Stream(frames) && forall f :: f in frames ==> f.id != RequestId(tx, k)
    ensures Exchanged(tx, bulk, rx, get).1 == RxCorrupt
    ensures var before := bulk[RequestId(tx, k)];
            Exchanged(tx, bulk, rx, get).0[RequestId(tx, k)]
            == before.(length := RequestLength(tx, k), start := RequestStart(tx, k), error := -1)
  {
    var (asked, id) := (Requested(tx, bulk), RequestId(tx, k));
    RequestedExactly(tx, bulk, id);
    hide Requested, Parse, Stream;
    ParseReplies(rx, get, Requests(tx), frames, asked, Received(get, ReplyLength(tx, Requests(tx))));
    var stored := if Parsable(frames) then frames else frames[..|frames| - 1];
    forall f | f in stored ensures f.id != id { assert f in frames; }
    AcceptOthers(asked, stored, id);
  }

  /**
   When bytes are missing at the deadline the read is corrupt. It is a timeout only if
   nothing came at all, one device was asked, and a frame left over in the buffer from
   an earlier exchange is taken for its reply.
   */
  lemma IncompleteRead(tx: seq<byte>, bulk: Store, rx: seq<byte>, get: nat)
    requires |tx| >= 266 && GoodRequests(tx) && 260 <= |rx| && get < |rx|
    requires Requests(tx) > 0 && get < ReplyLength(tx, Requests(tx))
    ensures Exchanged(tx, bulk, rx, get).1
            == if get == 0 && Requests(tx) == 1 && rx[3 + rx[3]] == Checksum(rx) then RxTimeout else RxCorrupt
  {
    var n := Requests(tx);
    hide Requested;
    if get == 0 {
      ParseStep(rx, 0, n, Requested(tx, bulk), RxTimeout);
      hide Parse, Checksum;
      assert Scan(rx, 0) == 0;
    } else {
      ParseOutcome(rx, get, n, Requested(tx, bulk), RxCorrupt);
    }
  }

  // ---------- damaged replies ----------

  /** Replies in front of further bytes are taken out one by one. */
  lemma {:induction false} ParsePrefix(p: seq<byte>, n: nat, num: int, frames: seq<Frame>, tail: seq<byte>, bulk: Store,
                                      res: Outcome) returns (q: seq<byte>)
    requires |p| >= 260 && n < |p| && AllValid(frames) && num > |frames| && |tail| > 6
    requires p[..n] == Stream(frames) + tail
    ensures |q| == |p| && |tail| < |q| && q[..|tail|] == tail
    ensures Parse(p, n, num, bulk, res) == Parse(q, |tail|, num - |frames|, AcceptAll(bulk, frames), res)
    decreases |frames|
  {
    if frames == [] {
      NoPrefix(bulk, tail);
      hide Stream, Parse, AcceptAll;
      assert p[..n] == tail;
      q := p;
    } else {
      hide Stream, Parse, After, Accept, AcceptAll, Frame.Bytes;
      var (f, rest) := (frames[0], Stream(frames[1..]) + tail);
      var m := |f.payload| + 6;
      PrefixSplit(frames, tail);
      assert p[..m] == p[..n][..m];
      ParseFirstFrame(p, n, num, f, bulk, res);
      AcceptFirst(bulk, frames);
      FrameTakenOut(p, n, f.Bytes(), rest);
      q := ParsePrefix(After(p, n, m), n - m, num - 1, frames[1..], tail,
                       Accept(bulk, f.id, f.error, f.payload), res);
    }
  }

  lemma NoPrefix(bulk: Store, tail: seq<byte>)
    ensures Stream([]) + tail == tail && AcceptAll(bulk, []) == bulk
  {
  }

  lemma PrefixSplit(frames: seq<Frame>, tail: seq<byte>)
    requires AllValid(frames) && frames != []
    ensures Stream(frames) + tail == frames[0].Bytes() + (Stream(frames[1..]) + tail)
    ensures |Stream(frames) + tail| == |frames[0].payload| + 6 + |Stream(frames[1..]) + tail|
    ensures (Stream(frames) + tail)[..|frames[0].payload| + 6] == frames[0].Bytes()
  {
    var (b, rest) := (frames[0].Bytes(), Stream(frames[1..]));
    assert Stream(frames) == b + rest;
    hide Stream, Frame.Bytes;
    Joined(b, rest, tail);
  }

  lemma Joined(a: seq<byte>, b: seq<byte>, c: seq<byte>)
    ensures (a + b) + c == a + (b + c) && ((a + b) + c)[..|a|] == a
  {
  }

  lemma {:induction false} ScanFinds(s: seq<byte>, n: nat, i: nat, k: nat)
    requires n <= |s| && i <= k && k + 1 < n && s[k] == HEADER && s[k + 1] == HEADER
    requires forall j :: i <= j < k ==> !(s[j] == HEADER && s[j + 1] == HEADER)
    ensures ScanFrom(s, n, i) == k
    decreases k - i
  {
    if i < k { ScanFinds(s, n, i + 1, k); }
  }

  /** The byte in the place that the length byte names is not the checksum. */
  predicate FailsTest(w: seq<byte>)
    requires |w| > 4
  {
    w[3] + 3 < |w| && w[3 + w[3]] != Checksum(w)
  }

  /**
   Bytes that begin with a header but fail the test, hold no second header and do not
   end in a byte that might begin one.
   */
  ghost predicate Damaged(bad: seq<byte>, rest: seq<byte>) {
    && |bad| >= 2 && bad[0] == HEADER && bad[1] == HEADER
    && |bad + rest| > 4 && FailsTest(bad + rest)
    && (forall j :: 2 <= j < |bad| - 1 ==> !(bad[j] == HEADER && bad[j + 1] == HEADER))
    && (|bad| > 2 ==> bad[|bad| - 1] != HEADER)
  }

  /** A damaged frame in front is dropped, whole or to its last byte, and nothing behind it. */
  lemma DamagedFront(p: seq<byte>, n: nat, num: int, bad: seq<byte>, rest: seq<byte>, bulk: Store, res: Outcome)
    returns (q: seq<byte>)
    requires |p| >= 260 && n < |p| && num > 0 && |rest| > 6 && p[..n] == bad + rest
    requires Damaged(bad, rest) && rest[0] == HEADER && rest[1] == HEADER
    ensures |q| == |p| && |rest| < |q| && q[..|rest|] == rest
    ensures Parse(p, n, num, bulk, res) == Parse(q, |rest|, num, bulk, RxCorrupt)
  {
    var w := bad + rest;
    DamagedStep(p, n, num, w, bulk, res);
    FrameTakenOut(p, n, [HEADER, HEADER], w[2..]) by { assert w == [HEADER, HEADER] + w[2..]; }
    var b, m := After(p, n, 2), n - 2;
    assert b[..m] == w[2..];
    hide Parse, After, FailsTest;
    if |bad| == 2 {
      assert w[2..] == rest;
      q := b;
    } else {
      q := RestMovedUp(b, m, num, bad, rest, bulk);
    }
  }

  /** The rest of a damaged frame is scanned over in one round. */
  lemma RestMovedUp(b: seq<byte>, m: nat, num: int, bad: seq<byte>, rest: seq<byte>, bulk: Store) returns (q: seq<byte>)
    requires |b| >= 260 && m < |b| && |bad| > 2 && |rest| > 6 && b[..m] == (bad + rest)[2..]
    requires rest[0] == HEADER && rest[1] == HEADER && bad[|bad| - 1] != HEADER
    requires forall j :: 2 <= j < |bad| - 1 ==> !(bad[j] == HEADER && bad[j + 1] == HEADER)
    ensures |q| == |b| && |rest| < |q| && q[..|rest|] == rest
    ensures Parse(b, m, num, bulk, RxCorrupt) == Parse(q, |rest|, num, bulk, RxCorrupt)
  {
    var k := |bad| - 2;
    ScanBehind(b, m, k, bad, rest);
    ParseStep(b, m, num, bulk, RxCorrupt);
    hide Parse, Scan;
    q := Shifted(b, k, m - k);
    assert q[..|rest|] == b[k..m];
    assert b[k..m] == b[..m][k..];
    assert (bad + rest)[2..][k..] == rest;
  }

  lemma DamagedStep(p: seq<byte>, n: nat, num: int, w: seq<byte>, bulk: Store, res: Outcome)
    requires |p| >= 260 && n < |p| && num > 0 && |w| > 8 && p[..n] == w && w[0] == HEADER && w[1] == HEADER
    requires FailsTest(w)
    ensures Parse(p, n, num, bulk, res) == Parse(After(p, n, 2), n - 2, num, bulk, RxCorrupt)
  {
    assert p[0] == w[0] && p[1] == w[1] && p[3] == w[3] && p[3 + p[3]] == w[3 + w[3]];
    assert HeaderAt(p[..n], 0);
    ScanAtHeader(p, n);
    var end: nat := p[3];
    SliceOfPrefix(p, 2, end + 3, n);
    assert Covered(p) == Covered(w);
    assert !FrameMatches(p);
    ParseStep(p, n, num, bulk, res);
    hide Parse, After, FrameMatches, Scan;
  }

  lemma ScanBehind(b: seq<byte>, m: nat, k: nat, bad: seq<byte>, rest: seq<byte>)
    requires m <= |b| && |bad| == k + 2 > 2 && |rest| >= 2 && b[..m] == (bad + rest)[2..]
    requires rest[0] == HEADER && rest[1] == HEADER && bad[|bad| - 1] != HEADER
    requires forall j :: 2 <= j < |bad| - 1 ==> !(bad[j] == HEADER && bad[j + 1] == HEADER)
    ensures Scan(b, m) == k && m == k + |rest|
  {
    assert forall j :: 0 <= j < m ==> b[j] == b[..m][j] == (bad + rest)[j + 2];
    forall j | 0 <= j < k ensures !(b[j] == HEADER && b[j + 1] == HEADER) {
      if j < k - 1 { assert !(bad[j + 2] == HEADER && bad[j + 3] == HEADER); }
    }
    ScanFinds(b, m, 0, k);
  }

  /**
   A reply damaged on the way costs only itself: the replies in front of it and behind it
   are stored all the same, and the read is reported corrupt.
   */
  lemma DamagedReplySkipped(p: seq<byte>, n: nat, num: nat, before: seq<Frame>, bad: seq<byte>, after: seq<Frame>,
                            bulk: Store, res: Outcome)
    requires |p| >= 260 && n < |p| && AllValid(before) && AllValid(after) && num > |before| + |after|
    requires Parsable(after) && |Stream(after)| > 6 && Damaged(bad, Stream(after))
    requires p[..n] == Stream(before) + (bad + Stream(after))
    ensures Parse(p, n, num, bulk, res) == (AcceptAll(AcceptAll(bulk, before), after), RxCorrupt)
  {
    StreamHead(after);
    DamagedBetween(p, n, num, before, bad, after, bad + Stream(after), bulk, res);
  }

  lemma DamagedBetween(p: seq<byte>, n: nat, num: nat, before: seq<Frame>, bad: seq<byte>, after: seq<Frame>,
                       tail: seq<byte>, bulk: Store, res: Outcome)
    requires |p| >= 260 && n < |p| && AllValid(before) && AllValid(after) && after != [] && num > |before| + |after|
    requires Parsable(after) && |Stream(after)| > 6 && Damaged(bad, Stream(after))
    requires tail == bad + Stream(after) && |tail| > 6 && p[..n] == Stream(before) + tail
    ensures Parse(p, n, num, bulk, res) == (AcceptAll(AcceptAll(bulk, before), after), RxCorrupt)
  {
    hide *;
    var q := ParsePrefix(p, n, num, before, tail, bulk, res);
    DamagedInFront(q, num - |before|, bad, after, AcceptAll(bulk, before), res);
  }

  lemma DamagedInFront(p: seq<byte>, num: nat, bad: seq<byte>, after: seq<Frame>, bulk: Store, res: Outcome)
    requires |p| >= 260 && AllValid(after) && after != [] && num > |after| && |bad| + |Stream(after)| < |p|
    requires Parsable(after) && |Stream(after)| > 6 && Damaged(bad, Stream(after))
    requires p[..|bad + Stream(after)|] == bad + Stream(after)
    ensures Parse(p, |bad + Stream(after)|, num, bulk, res) == (AcceptAll(bulk, after), RxCorrupt)
  {
    StreamHead(after);
    hide Stream, Parse, Parsable, AcceptAll, Damaged, FailsTest;
    var rest := Stream(after);
    var q := DamagedFront(p, |bad + rest|, num, bad, rest, bulk, res);
    ParseReplies(q, |rest|, num, after, bulk, RxCorrupt);
  }

  lemma StreamHead(frames: seq<Frame>)
    requires AllValid(frames) && Stream(frames) != []
    ensures frames != [] && Stream(frames)[0] == HEADER && Stream(frames)[1] == HEADER
  {
    assert frames[0].Valid();
  }
}
