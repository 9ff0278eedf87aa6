/** The message framing of lib/smartcard/iso/jcop_remote_protocol.rb, the
    protocol of IBM's JCOP simulator: a four-octet header (type, node
    address, big-endian data length) followed by the data.

    The TCP socket becomes a byte stream whose peer delivers data in chunks
    of its own choosing: every `recv(n)` returns at most n octets of the
    current chunk, an empty string once the peer has closed, or raises on
    an abrupt hangup. */
module JcopRemoteProtocol {
  import opened Bytes

  datatype Message = Message(msgType: int, node: int, data: seq<byte>)

  /** `[type, node, data.length].pack('CCn') + data.pack('C*')`: `C` and
      `n` keep the low 8 and 16 bits. */
  function Frame(m: Message): (r: seq<byte>)
    ensures |r| == 4 + |m.data|
  {
    [m.msgType % 256, m.node % 256] + U16(|m.data|) + m.data
  }

  /** A message every field of which fits its slot of the header. */
  predicate Fits(m: Message)
  {
    0 <= m.msgType < 256 && 0 <= m.node < 256 && |m.data| < 65536
  }

  /** What the peer does next: send a chunk of octets (an empty chunk is an
      orderly close) or hang up abruptly. */
  datatype Event = Chunk(octets: seq<byte>) | Hangup

  datatype Received = Received(octets: seq<byte>) | Raised

  /** One `recv(n)`: at most n octets of the current chunk. With no event
      left the connection is closed and every read is empty. */
  function RecvStep(events: seq<Event>, n: nat): (r: (Received, seq<Event>))
    ensures r.0.Received? ==> |r.0.octets| <= n
  {
    if events == [] then (Received([]), [])
    else match events[0]
      case Hangup => (Raised, events)
      case Chunk(b) =>
        if n < |b| then (Received(b[..n]), [Chunk(b[n..])] + events[1..])
        else (Received(b), events[1..])
  }

  class Socket {
    var incoming: seq<Event>
    var sent: seq<byte>

    constructor (incoming: seq<Event>)
      ensures this.incoming == incoming && sent == []
    {
      this.incoming := incoming;
      sent := [];
    }

    /** `socket.recv n`. */
    method Recv(n: nat) returns (r: Received)
      modifies this
      ensures (r, incoming) == RecvStep(old(incoming), n) && sent == old(sent)
    {
      var step := RecvStep(incoming, n);
      r := step.0;
      incoming := step.1;
    }

    /** `socket.send bytes, 0`. */
    method Send(octets: seq<byte>)
      modifies this
      ensures sent == old(sent) + octets && incoming == old(incoming)
    {
      sent := sent + octets;
    }
  }

  /** send_message: the frame goes out in one send. */
  method SendMessage(socket: Socket, m: Message)
    modifies socket
    ensures socket.sent == old(socket.sent) + Frame(m) && socket.incoming == old(socket.incoming)
  {
    var raw := [m.msgType % 256, m.node % 256] + U16(|m.data|) + m.data;
    socket.Send(raw);
  }

  /** The frame carries each field in its slot. */
  lemma FrameLayout(m: Message)
    requires Fits(m)
    ensures Frame(m)[0] == m.msgType && Frame(m)[1] == m.node
    ensures Frame(m)[2] as int * 256 + Frame(m)[3] == |m.data|
    ensures Frame(m)[4..] == m.data
  {
    U16RoundTrip(|m.data|);
    assert U16(|m.data|)[1..][1..] == [];
  }

  // ---------------------------------------------------------------------
  // Receiving

  datatype Fill = Got(octets: seq<byte>) | Eof | Failed

  /** The loop `while buffer.length < want`: read the missing octets until
      there are `want` of them; an empty read ends with false, a raising
      one with nil. */
  function FillUp(events: seq<Event>, want: nat, acc: seq<byte>): (r: (Fill, seq<Event>))
    requires |acc| <= want
    ensures r.0.Got? ==> |r.0.octets| == want
    decreases want - |acc|
  {
    if |acc| == want then (Got(acc), events)
    else
      var (partial, rest) := RecvStep(events, want - |acc|);
      if partial.Raised? then (Failed, rest)
      else if partial.octets == [] then (Eof, rest)
      else FillUp(rest, want, acc + partial.octets)
  }

  /** What recv_message returns: a message, false, or nil. */
  datatype Outcome = Delivered(message: Message) | Closed | HungUp

  function RecvMessageSpec(events: seq<Event>): (Outcome, seq<Event>)
  {
    var header := FillUp(events, 4, []);
    if header.0.Failed? then (HungUp, header.1)
    else if header.0.Eof? then (Closed, header.1)
    else RecvBody(header.0.octets, header.1)
  }

  /** The rest of recv_message once the header `h` is in: read the data
      of the length it gives. */
  function RecvBody(h: seq<byte>, events: seq<Event>): (Outcome, seq<Event>)
    requires |h| == 4
  {
    var body := FillUp(events, h[2] as int * 256 + h[3], []);
    if body.0.Failed? then (HungUp, body.1)
    else if body.0.Eof? then (Closed, body.1)
    else (Delivered(Message(h[0], h[1], body.0.octets)), body.1)
  }

  /** One of the two loops of recv_message (the header loop with want 4,
      the data loop with want the header's length): read until `want`
      octets are buffered, stopping at an empty or a raising read. */
  method ReadFull(socket: Socket, want: nat) returns (r: Fill)
    modifies socket
    ensures r == FillUp(old(socket.incoming), want, []).0
    ensures socket.incoming == FillUp(old(socket.incoming), want, []).1
    ensures socket.sent == old(socket.sent)
  {
    var buffer: seq<byte> := [];
    while |buffer| < want
      invariant |buffer| <= want && socket.sent == old(socket.sent)
      invariant FillUp(old(socket.incoming), want, []) == FillUp(socket.incoming, want, buffer)
      decreases want - |buffer|
    {
      var partial := socket.Recv(want - |buffer|);
      if partial.Raised? {
        return Failed;
      }
      if partial.octets == [] {
        return Eof;
      }
      buffer := buffer + partial.octets;
    }
    return Got(buffer);
  }

  /** recv_message: the header loop, then the data loop; false when the
      peer closed, nil when a read raised. */
  method RecvMessage(socket: Socket) returns (r: Outcome)
    modifies socket
    ensures (r, socket.incoming) == RecvMessageSpec(old(socket.incoming))
    ensures socket.sent == old(socket.sent)
  {
    var header := ReadFull(socket, 4);
    if header.Failed? {
      return HungUp;
    }
    if header.Eof? {
      return Closed;
    }
    ghost var afterHeader := socket.incoming;
    var messageType, nodeAddress := header.octets[0], header.octets[1];
    var dataLength := header.octets[2] as int * 256 + header.octets[3];
    var rawData := ReadFull(socket, dataLength);
    assert (rawData, socket.incoming) == FillUp(afterHeader, dataLength, []);
    if rawData.Failed? {
      return HungUp;
    }
    if rawData.Eof? {
      return Closed;
    }
    return Delivered(Message(messageType, nodeAddress, rawData.octets));
  }

  /** recv_message when the header loop ends early. */
  lemma HeaderStopped(events: seq<Event>, f: Fill, rest: seq<Event>)
    requires !f.Got? && FillUp(events, 4, []) == (f, rest)
    ensures RecvMessageSpec(events) == (if f.Failed? then HungUp else Closed, rest)
  {
  }

  /** recv_message when the data loop ends early. */
  lemma BodyStopped(events: seq<Event>, h: seq<byte>, afterHeader: seq<Event>, f: Fill, rest: seq<Event>)
    requires |h| == 4 && FillUp(events, 4, []) == (Got(h), afterHeader)
    requires !f.Got? && FillUp(afterHeader, h[2] as int * 256 + h[3], []) == (f, rest)
    ensures RecvMessageSpec(events) == (if f.Failed? then HungUp else Closed, rest)
  {
  }

  // ---------------------------------------------------------------------
  // Properties of recv_message

  /** The octets a sequence of chunks carries. */
  function Flatten(events: seq<Event>): seq<byte>
  {
    if events == [] then []
    else (if events[0].Chunk? then events[0].octets else []) + Flatten(events[1..])
  }

  /** Non-empty chunks only: the peer keeps the connection open. */
  predicate Streaming(events: seq<Event>)
  {
    events == [] || (events[0].Chunk? && events[0].octets != [] && Streaming(events[1..]))
  }

  /** The chunks after the first n octets of a stream. */
  function Skip(events: seq<Event>, n: nat): seq<Event>
  {
    if n == 0 || events == [] then events
    else
      var b := if events[0].Chunk? then events[0].octets else [];
      if n < |b| then [Chunk(b[n..])] + events[1..] else Skip(events[1..], n - |b|)
  }

  /** Skipping octets of a stream leaves a stream with the rest of them. */
  lemma {:induction false} SkipStreaming(es: seq<Event>, n: nat)
    requires Streaming(es) && n <= |Flatten(es)|
    ensures Streaming(Skip(es, n)) && Flatten(Skip(es, n)) == Flatten(es)[n..]
  {
    if n != 0 && es != [] {
      var b := es[0].octets;
      assert Flatten(es) == b + Flatten(es[1..]);
      if n < |b| {
        var es' := [Chunk(b[n..])] + es[1..];
        assert es'[1..] == es[1..];
        assert Flatten(es') == b[n..] + Flatten(es[1..]);
      } else {
        SkipStreaming(es[1..], n - |b|);
      }
    }
  }

  /** One read on a streaming prefix takes the front of the current chunk,
      and the loop's further reads go on from there. */
  lemma RecvStreaming(es: seq<Event>, tail: seq<Event>, n: nat, x: nat)
    requires Streaming(es) && es != [] && n > 0 && n <= x
    ensures var k := if n < |es[0].octets| then n else |es[0].octets|;
      && 0 < k <= n && k <= |Flatten(es)|
      && RecvStep(es + tail, n) == (Received(Flatten(es)[..k]), Skip(es, k) + tail)
      && Streaming(Skip(es, k))
      && Skip(Skip(es, k), x - k) == Skip(es, x)
  {
    var b := es[0].octets;
    assert (es + tail)[0] == es[0] && (es + tail)[1..] == es[1..] + tail;
    assert Flatten(es) == b + Flatten(es[1..]);
    if n < |b| {
      assert Flatten(es)[..n] == b[..n];
      assert [Chunk(b[n..])] + es[1..] + tail == [Chunk(b[n..])] + (es[1..] + tail);
    } else {
      assert Flatten(es)[..|b|] == b;
      assert Skip(es[1..], 0) == es[1..];
    }
  }

  /** One turn of the read loop on a streaming prefix that holds the
      missing octets: it takes the first k of them. */
  lemma FillStep(es: seq<Event>, tail: seq<Event>, want: nat, acc: seq<byte>) returns (k: nat)
    requires |acc| < want && Streaming(es) && es != []
    ensures 0 < k <= want - |acc| && k <= |Flatten(es)| && Streaming(Skip(es, k))
    ensures FillUp(es + tail, want, acc) == FillUp(Skip(es, k) + tail, want, acc + Flatten(es)[..k])
    ensures Skip(Skip(es, k), want - |acc| - k) == Skip(es, want - |acc|)
  {
    var n := want - |acc|;
    RecvStreaming(es, tail, n, n);
    k := if n < |es[0].octets| then n else |es[0].octets|;
  }

  /** A prefix x of f, cut at k. */
  lemma PrefixSplit(f: seq<byte>, x: seq<byte>, k: nat)
    requires |x| <= |f| && f[..|x|] == x && k <= |x|
    ensures f[..k] == x[..k] && f[k..][..|x| - k] == x[k..]
  {
    assert f[..|x|][..k] == f[..k];
    assert f[..|x|][k..] == f[k..][..|x| - k];
  }

  /** The read loop on a peer that streams at least the missing octets
      takes exactly those and leaves the rest of the stream unread. */
  lemma {:induction false} FillStreaming(es: seq<Event>, tail: seq<Event>, want: nat, acc: seq<byte>, x: seq<byte>)
    requires |acc| + |x| == want && Streaming(es) && |x| <= |Flatten(es)| && Flatten(es)[..|x|] == x
    ensures FillUp(es + tail, want, acc) == (Got(acc + x), Skip(es, |x|) + tail)
    decreases want - |acc|
  {
    if |acc| == want {
      assert x == [] && acc + x == acc;
    } else {
      assert es != [];
      var k := FillStep(es, tail, want, acc);
      SkipStreaming(es, k);
      PrefixSplit(Flatten(es), x, k);
      FillStreaming(Skip(es, k), tail, want, acc + x[..k], x[k..]);
      assert acc + x[..k] + x[k..] == acc + x;
    }
  }

  /** recv_message when both loops fill up. */
  lemma RecvMessageGot(events: seq<Event>, h: seq<byte>, afterHeader: seq<Event>, d: seq<byte>, afterBody: seq<Event>)
    requires |h| == 4 && FillUp(events, 4, []) == (Got(h), afterHeader)
    requires FillUp(afterHeader, h[2] as int * 256 + h[3], []) == (Got(d), afterBody)
    ensures RecvMessageSpec(events) == (Delivered(Message(h[0], h[1], d)), afterBody)
  {
  }

  /** Round trip: on a stream that starts with the frame of m, however the
      peer splits it into chunks, recv_message returns m and leaves the
      octets after the frame unread. */
  lemma RecvRoundTrip(m: Message, es: seq<Event>, tail: seq<Event>, rest: seq<byte>)
    requires Fits(m) && Streaming(es) && Flatten(es) == Frame(m) + rest
    ensures var left := Skip(Skip(es, 4), |m.data|);
      && RecvMessageSpec(es + tail) == (Delivered(m), left + tail)
      && Streaming(left) && Flatten(left) == rest
  {
    FrameLayout(m);
    var header := Frame(m)[..4];
    assert Frame(m) == header + m.data;
    assert Flatten(es) == header + (m.data + rest);
    DataArrives(es, tail, header, m.data + rest);
    var es1 := Skip(es, 4);
    DataArrives(es1, tail, m.data, rest);
    RecvMessageGot(es + tail, header, es1 + tail, m.data, Skip(es1, |m.data|) + tail);
  }

  /** The read loop for |d| octets on a stream that starts with d. */
  lemma DataArrives(es: seq<Event>, tail: seq<Event>, d: seq<byte>, rest: seq<byte>)
    requires Streaming(es) && Flatten(es) == d + rest
    ensures FillUp(es + tail, |d|, []) == (Got(d), Skip(es, |d|) + tail)
    ensures Streaming(Skip(es, |d|)) && Flatten(Skip(es, |d|)) == rest
  {
    assert Flatten(es)[..|d|] == d;
    FillStreaming(es, tail, |d|, [], d);
    assert [] + d == d;
    SkipStreaming(es, |d|);
    assert Flatten(es)[|d|..] == rest;
  }

  /** A peer that stops early: an empty read before the frame is complete
      makes recv_message return false, a raising one nil. */
  lemma {:induction false} FillStops(es: seq<Event>, stop: Event, tail: seq<Event>, want: nat, acc: seq<byte>)
    requires |acc| + |Flatten(es)| < want && Streaming(es)
    requires stop == Hangup || stop == Chunk([])
    ensures FillUp(es + [stop] + tail, want, acc).0 == if stop == Hangup then Failed else Eof
    decreases want - |acc|
  {
    if es == [] {
      assert es + [stop] + tail == [stop] + tail;
    } else {
      var k := FillStep(es, [stop] + tail, want, acc);
      SkipStreaming(es, k);
      assert es + [stop] + tail == es + ([stop] + tail);
      assert Skip(es, k) + ([stop] + tail) == Skip(es, k) + [stop] + tail;
      FillStops(Skip(es, k), stop, tail, want, acc + Flatten(es)[..k]);
    }
  }

  /** A frame cut short by a close or a hangup yields false or nil. */
  lemma RecvTruncated(m: Message, es: seq<Event>, stop: Event, tail: seq<Event>, k: nat)
    requires Fits(m) && Streaming(es) && k < |Frame(m)| && Flatten(es) == Frame(m)[..k]
    requires stop == Hangup || stop == Chunk([])
    ensures RecvMessageSpec(es + [stop] + tail).0 == if stop == Hangup then HungUp else Closed
  {
    if k < 4 {
      FillStops(es, stop, tail, 4, []);
      var f := FillUp(es + [stop] + tail, 4, []);
      HeaderStopped(es + [stop] + tail, f.0, f.1);
    } else {
      TruncatedData(m, es, stop, tail, k);
    }
  }

  /** The header arrives, the data does not. */
  lemma TruncatedData(m: Message, es: seq<Event>, stop: Event, tail: seq<Event>, k: nat)
    requires Fits(m) && Streaming(es) && 4 <= k < |Frame(m)| && Flatten(es) == Frame(m)[..k]
    requires stop == Hangup || stop == Chunk([])
    ensures RecvMessageSpec(es + [stop] + tail).0 == if stop == Hangup then HungUp else Closed
  {
    var frame := Frame(m);
    FrameLayout(m);
    var events := es + [stop] + tail;
    var header := frame[..4];
    var es1 := Skip(es, 4);
    HeaderArrives(m, es, [stop] + tail, k);
    assert es + ([stop] + tail) == events;
    assert es1 + ([stop] + tail) == es1 + [stop] + tail;
    SkipStreaming(es, 4);
    assert |Flatten(es1)| == k - 4;
    FillStops(es1, stop, tail, |m.data|, []);
    var f := FillUp(es1 + [stop] + tail, |m.data|, []);
    BodyStopped(events, header, es1 + [stop] + tail, f.0, f.1);
  }

  /** The header loop over a stream holding at least the frame's header. */
  lemma HeaderArrives(m: Message, es: seq<Event>, tail: seq<Event>, k: nat)
    requires Fits(m) && Streaming(es) && 4 <= k <= |Frame(m)| && Flatten(es) == Frame(m)[..k]
    ensures FillUp(es + tail, 4, []) == (Got(Frame(m)[..4]), Skip(es, 4) + tail)
    ensures Frame(m)[..4][2] as int * 256 + Frame(m)[..4][3] == |m.data|
  {
    var header := Frame(m)[..4];
    FrameLayout(m);
    assert Flatten(es)[..4] == header;
    FillStreaming(es, tail, 4, [], header);
    assert [] + header == header;
  }

  /** A zero data length needs no read after the header. */
  lemma EmptyData(m: Message, events: seq<Event>)
    requires Fits(m) && m.data == [] && |events| > 0 && events[0] == Chunk(Frame(m))
    ensures RecvMessageSpec(events) == (Delivered(m), events[1..])
  {
    FrameLayout(m);
    assert Frame(m)[..4] == Frame(m);
    assert [] + Frame(m) == Frame(m);
  }
}
