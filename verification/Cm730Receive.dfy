/**
 The serial port as an oracle, and the receive loop for a single reply: bytes come
 in arbitrary chunks, and the buffer is moved up to the first header.
 */
module Cm730Receive {
  import opened Basics
  import opened Cm730Frame

  datatype Outcome = Success | TxCorrupt | TxFail | RxTimeout | RxCorrupt

  /**
   The platform port after it was cleared. Each poll says how many bytes are
   available at one ReadPort; the deadline has passed when the polls are used up.
   */
  class Port {
    var incoming: seq<byte>
    var polls: seq<nat>
    var sent: seq<byte>

    constructor (incoming: seq<byte>, polls: seq<nat>)
      ensures this.incoming == incoming && this.polls == polls && this.sent == []
    {
      this.incoming, this.polls, this.sent := incoming, polls, [];
    }

    /** ReadPort: at most n bytes, into the buffer from a position on. */
    method ReadPort(rx: array<byte>, at: nat, n: nat) returns (k: nat)
      requires at + n <= rx.Length
      modifies this`incoming, this`polls, rx
      ensures k <= n && k <= |old(incoming)| && (old(polls) == [] ==> k == 0)
      ensures incoming == old(incoming)[k..]
      ensures polls == if old(polls) == [] then [] else old(polls)[1..]
      ensures rx[..at] == old(rx[..at]) && rx[at..at + k] == old(incoming)[..k]
      ensures rx[at + k..] == old(rx[at + k..])
    {
      k := if polls == [] then 0 else polls[0];
      if k > n { k := n; }
      if k > |incoming| { k := |incoming|; }
      var j := 0;
      while j < k
        invariant incoming == old(incoming) && polls == old(polls)
        invariant j <= k
        invariant forall i :: 0 <= i < j ==> rx[at + i] == incoming[i]
        invariant rx[..at] == old(rx[..at]) && rx[at + k..] == old(rx[at + k..])
      {
        rx[at + j] := incoming[j];
        j := j + 1;
      }
      incoming := incoming[k..];
      if polls != [] { polls := polls[1..]; }
    }

    predicate IsPacketTimeout()
      reads this
    {
      polls == []
    }

    /** WritePort, which may accept fewer bytes than it is given. */
    method WritePort(packet: array<byte>, n: nat, accepted: nat) returns (k: nat)
      requires n <= packet.Length
      modifies this`sent
      ensures k == if accepted < n then accepted else n
      ensures sent == old(sent) + packet[..k]
    {
      k := if accepted < n then accepted else n;
      sent := sent + packet[..k];
    }
  }

  /** What the receive loop knows: the buffer holds the stream from a position on, no header was dropped. */
  ghost predicate Tracks(rx: seq<byte>, get: nat, stream: seq<byte>, dropped: nat, incoming: seq<byte>) {
    && get <= |rx| && dropped + get <= |stream|
    && rx[..get] == stream[dropped..dropped + get]
    && incoming == stream[dropped + get..]
    && forall k :: 0 <= k < dropped ==> !HeaderAt(stream, k)
  }

  lemma TracksInitially(rx: seq<byte>, stream: seq<byte>)
    ensures Tracks(rx, 0, stream, 0, stream)
  {
  }

  lemma TracksAfterRead(rx: seq<byte>, rx': seq<byte>, get: nat, k: nat, stream: seq<byte>, dropped: nat,
                        incoming: seq<byte>)
    requires Tracks(rx, get, stream, dropped, incoming) && k <= |incoming| && get + k <= |rx'|
    requires rx'[..get] == rx[..get] && rx'[get..get + k] == incoming[..k]
    ensures Tracks(rx', get + k, stream, dropped, incoming[k..])
  {
    assert rx'[..get + k] == rx'[..get] + rx'[get..get + k];
    assert stream[dropped..dropped + get + k] == stream[dropped..dropped + get] + incoming[..k];
  }

  lemma TracksAfterShift(rx: seq<byte>, get: nat, i: nat, stream: seq<byte>, dropped: nat, incoming: seq<byte>)
    requires Tracks(rx, get, stream, dropped, incoming) && i == Scan(rx, get) && 0 < i
    ensures i < get && Tracks(Shifted(rx, i, get - i), get - i, stream, dropped + i, incoming)
  {
    ScanSkipsNoHeader(rx, get, 0);
    var r := Shifted(rx, i, get - i);
    assert r[..get - i] == rx[..get][i..];
    assert rx[..get][i..] == stream[dropped + i..dropped + get];
    forall k | 0 <= k < dropped + i ensures !HeaderAt(stream, k) {
      if dropped <= k {
        assert !HeaderAt(rx[..get], k - dropped);
        assert rx[..get][k - dropped] == stream[k] && rx[..get][k - dropped + 1] == stream[k + 1];
      }
    }
  }

  /** The first header of a stream. */
  ghost predicate FirstHeader(stream: seq<byte>, p: nat) {
    HeaderAt(stream, p) && forall k :: 0 <= k < p ==> !HeaderAt(stream, k)
  }

  /** A full buffer that scans to zero is the window at the first header. */
  lemma FullWindow(rx: seq<byte>, get: nat, stream: seq<byte>, dropped: nat, incoming: seq<byte>)
    requires Tracks(rx, get, stream, dropped, incoming) && get >= 3 && Scan(rx, get) == 0
    ensures FirstHeader(stream, dropped)
  {
    ScanSkipsNoHeader(rx, get, 0);
    assert HeaderAt(rx[..get], 0);
    assert rx[..get][0] == stream[dropped] && rx[..get][1] == stream[dropped + 1];
  }

  /**
   The receive loop for one reply of a known length, for every chunking of the
   stream. It ends with a full window or at the deadline. A full window is the
   one at the first header of the stream; it is a success exactly when its last
   byte is the checksum of the buffer.
   */
  method ReceiveOne(port: Port, rx: array<byte>, toLength: nat)
    returns (res: Outcome, ghost dropped: nat, ghost get: nat)
    requires 6 <= toLength <= 261 && rx.Length >= 1034
    modifies port`incoming, port`polls, rx
    ensures Tracks(rx[..], get, old(port.incoming), dropped, port.incoming) && get <= toLength
    ensures get == toLength ==> FirstHeader(old(port.incoming), dropped)
    ensures res == if get == toLength then if rx[toLength - 1] == Checksum(rx[..]) then Success else RxCorrupt
                   else if get == 0 then RxTimeout else RxCorrupt
    ensures get < toLength ==> port.polls == []
  {
    hide Tracks, Scan, Shifted, HeaderAt, FirstHeader, Checksum;
    ghost var stream := port.incoming;
    TracksInitially(rx[..], stream);
    dropped, get := 0, 0;
    var getLength := 0;
    while true
      invariant getLength == get < toLength
      invariant Tracks(rx[..], get, stream, dropped, port.incoming)
      decreases |port.polls|
    {
      ghost var before, pending := rx[..], port.incoming;
      var length := port.ReadPort(rx, getLength, toLength - getLength);
      TracksAfterRead(before, rx[..], getLength, length, stream, dropped, pending);
      getLength := getLength + length;
      get := getLength;
      if getLength == toLength {
        var i := FindHeader(rx, getLength);
        if i == 0 {
          FullWindow(rx[..], getLength, stream, dropped, port.incoming);
          var checksum := CalculateChecksum(rx);
          res := if rx[getLength - 1] == checksum then Success else RxCorrupt;
          return;
        }
        TracksAfterShift(rx[..], getLength, i, stream, dropped, port.incoming);
        ShiftDown(rx, i, getLength - i);
        dropped, getLength := dropped + i, getLength - i;
        get := getLength;
      } else if port.IsPacketTimeout() {
        res := if getLength == 0 then RxTimeout else RxCorrupt;
        return;
      }
    }
  }

  /** Noise hides no header exactly when it holds none and does not end in a header byte. */
  lemma NoiseBeforeFrame(noise: seq<byte>, frame: seq<byte>, rest: seq<byte>)
    requires WellFormed(frame)
    ensures FirstHeader(noise + frame + rest, |noise|)
            <==> (forall k :: 0 <= k < |noise| ==> !HeaderAt(noise, k)) && (noise == [] || noise[|noise| - 1] != HEADER)
  {
    var s := noise + frame + rest;
    var n := |noise|;
    assert s[n] == frame[0] && s[n + 1] == frame[1];
    assert forall k :: 0 <= k < n - 1 ==> (HeaderAt(s, k) <==> HeaderAt(noise, k));
    assert n > 0 ==> (HeaderAt(s, n - 1) <==> noise[n - 1] == HEADER);
    assert n > 0 ==> !HeaderAt(noise, n - 1);
  }

  lemma SliceOfPrefix(s: seq<byte>, i: nat, j: nat, n: nat)
    requires i <= j <= n <= |s|
    ensures s[..n][i..j] == s[i..j]
  {
  }

  /** A well-formed reply behind such noise is what a full buffer holds, and it passes the test. */
  lemma CleanReplyAccepted(rx: seq<byte>, noise: seq<byte>, frame: seq<byte>, rest: seq<byte>, dropped: nat,
                           incoming: seq<byte>)
    requires WellFormed(frame) && |rx| >= 260 && FirstHeader(noise + frame + rest, |noise|)
    requires Tracks(rx, |frame|, noise + frame + rest, dropped, incoming)
    requires FirstHeader(noise + frame + rest, dropped)
    ensures rx[..|frame|] == frame && rx[|frame| - 1] == Checksum(rx)
  {
    var s := noise + frame + rest;
    assert HeaderAt(s, dropped) && HeaderAt(s, |noise|);
    assert dropped == |noise|;
    assert s[dropped..dropped + |frame|] == frame;
    assert rx[LENGTH] == rx[..|frame|][LENGTH];
    SliceOfPrefix(rx, 2, Follow(rx) + 3, |frame|);
    CoveredIgnores(rx, frame);
    assert rx[|frame| - 1] == rx[..|frame|][|frame| - 1];
  }

  /** A success whose length byte matches the requested length is a well-formed frame of the stream. */
  lemma SuccessIsFrame(rx: seq<byte>, toLength: nat, stream: seq<byte>, dropped: nat, incoming: seq<byte>)
    requires |rx| >= 260 && toLength >= 6 && Tracks(rx, toLength, stream, dropped, incoming)
    requires FirstHeader(stream, dropped) && rx[toLength - 1] == Checksum(rx)
    ensures WellFormed(stream[dropped..dropped + toLength]) <==> Follow(rx) == toLength - 4
  {
    var w := stream[dropped..dropped + toLength];
    assert w == rx[..toLength] && w[LENGTH] == rx[LENGTH];
    assert w[0] == stream[dropped] && w[1] == stream[dropped + 1];
    if Follow(rx) == toLength - 4 {
      SliceOfPrefix(rx, 2, Follow(rx) + 3, toLength);
      CoveredIgnores(rx, w);
    }
  }
}
