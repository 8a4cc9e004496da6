// The stream transport: connected peers by socket, each with its buffer, and the events
// of the socket layer. The requests handled do not depend on how the bytes were split.

module StreamTransport {
  import opened Common
  import opened HttpFraming

  // ------------------------------------------------------ a single connection

  // What one connection went through: bytes received, bytes still buffered, requests handled.
  datatype Connection = Connection(received: string, buffer: string, handled: seq<Request>)

  // No byte is lost or used twice: handled requests and the frames of the buffer are the
  // frames of everything received, and the buffer is the end of it.
  ghost predicate Faithful(c: Connection, parse: Parser) {
    && c.handled + Frames(c.buffer, parse) == Frames(c.received, parse)
    && Remainder(c.buffer, parse) == Remainder(c.received, parse)
    && |c.buffer| <= |c.received| && c.received[|c.received| - |c.buffer|..] == c.buffer
    && |c.buffer| <= MAX_BUFFER
  }

  lemma NewIsFaithful(parse: Parser)
    ensures Faithful(Connection("", "", []), parse)
  {
    assert ""[0..] == "";
  }

  predicate Overflows(c: Connection, segment: string) {
    |c.buffer| + |segment| > MAX_BUFFER
  }

  // A data event that fits: append, frame, remove what was consumed.
  function Receive(c: Connection, segment: string, parse: Parser): Connection {
    var data := c.buffer + segment;
    var (handled, end) := Turns(data, 0, parse);
    Connection(c.received + segment, data[end..], c.handled + handled)
  }

  lemma SuffixKept(received: string, buffer: string, segment: string, end: nat)
    requires |buffer| <= |received| && received[|received| - |buffer|..] == buffer
    requires end <= |buffer + segment|
    ensures var left, all := (buffer + segment)[end..], received + segment;
            |left| <= |all| && all[|all| - |left|..] == left
  {
    var start := |received| - |buffer|;
    assert (received + segment)[start..] == buffer + segment;
    assert (received + segment)[start..][end..] == (received + segment)[start + end..];
  }

  lemma FramesAddUp(h: seq<Request>, fb: seq<Request>, x: seq<Request>, handled: seq<Request>, y: seq<Request>)
    requires fb + x == handled + y
    ensures (h + fb) + x == (h + handled) + y
  {
    assert (h + fb) + x == h + (fb + x);
    assert (h + handled) + y == h + (handled + y);
  }

  lemma ReceiveKeepsFrames(c: Connection, segment: string, data: string, handled: seq<Request>, left: string,
      parse: Parser)
    requires c.handled + Frames(c.buffer, parse) == Frames(c.received, parse)
    requires Remainder(c.buffer, parse) == Remainder(c.received, parse)
    requires data == c.buffer + segment
    requires Frames(data, parse) == handled + Frames(left, parse) && Remainder(data, parse) == Remainder(left, parse)
    ensures (c.handled + handled) + Frames(left, parse) == Frames(c.received + segment, parse)
    ensures Remainder(left, parse) == Remainder(c.received + segment, parse)
  {
    hide Frames, Remainder;
    FramesOfMore(c.received, segment, parse);
    FramesOfMore(c.buffer, segment, parse);
    FramesAddUp(c.handled, Frames(c.buffer, parse), Frames(Remainder(c.buffer, parse) + segment, parse),
                handled, Frames(left, parse));
  }

  lemma ReceiveKeepsFaith(c: Connection, segment: string, parse: Parser)
    requires Faithful(c, parse) && !Overflows(c, segment)
    ensures Faithful(Receive(c, segment, parse), parse)
  {
    hide Frames, Remainder, Turns;
    var data := c.buffer + segment;
    var (handled, end) := Turns(data, 0, parse);
    TurnsKeepFrames(data, 0, parse);
    DropTwice(data, 0, 0);
    SuffixKept(c.received, c.buffer, segment, end);
    ReceiveKeepsFrames(c, segment, data, handled, data[end..], parse);
  }

  // A run of data events, from a connection that has just been accepted.
  function Run(segments: seq<string>, parse: Parser): Connection {
    if segments == [] then Connection("", "", [])
    else Receive(Run(segments[..|segments| - 1], parse), segments[|segments| - 1], parse)
  }

  ghost predicate Fits(segments: seq<string>, parse: Parser) {
    segments != [] ==>
      && Fits(segments[..|segments| - 1], parse)
      && !Overflows(Run(segments[..|segments| - 1], parse), segments[|segments| - 1])
  }

  function Stream(segments: seq<string>): string {
    if segments == [] then "" else Stream(segments[..|segments| - 1]) + segments[|segments| - 1]
  }

  lemma {:induction false} RunIsFaithful(segments: seq<string>, parse: Parser)
    requires Fits(segments, parse)
    ensures Faithful(Run(segments, parse), parse) && Run(segments, parse).received == Stream(segments)
    decreases |segments|
  {
    if segments != [] {
      RunIsFaithful(segments[..|segments| - 1], parse);
      ReceiveKeepsFaith(Run(segments[..|segments| - 1], parse), segments[|segments| - 1], parse);
    }
  }

  // A stream of up to 65535 bytes fits however it is cut; a longer segment never does.
  lemma {:induction false} ShortStreamsFit(segments: seq<string>, parse: Parser)
    requires |Stream(segments)| <= 0xFFFF
    ensures Fits(segments, parse)
    decreases |segments|
  {
    hide Receive;
    if segments != [] {
      var before := segments[..|segments| - 1];
      ShortStreamsFit(before, parse);
      RunIsFaithful(before, parse);
      hide Run;
    }
  }

  lemma {:induction false} LongSegmentsDoNotFit(segments: seq<string>, parse: Parser, i: nat)
    requires i < |segments| && |segments[i]| > 0xFFFF
    ensures !Fits(segments, parse)
    decreases |segments|
  {
    hide Run;
    if i < |segments| - 1 { LongSegmentsDoNotFit(segments[..|segments| - 1], parse, i); }
  }

  // However a stream is cut into data events, the requests handled are the first frames of
  // the whole stream; two ways of cutting it differ at most in how far they have come.
  lemma SegmentationIndependence(a: seq<string>, b: seq<string>, parse: Parser)
    requires Fits(a, parse) && Fits(b, parse) && Stream(a) == Stream(b)
    ensures var x, y, all := Run(a, parse).handled, Run(b, parse).handled, Frames(Stream(a), parse);
            && x <= all && y <= all && (x <= y || y <= x)
            && (Frames(Run(a, parse).buffer, parse) == [] <==> x == all)
  {
    hide Run, Frames, Remainder, Fits, Stream;
    RunIsFaithful(a, parse);
    RunIsFaithful(b, parse);
    Prefixes(Run(a, parse).handled, Frames(Run(a, parse).buffer, parse),
             Run(b, parse).handled, Frames(Run(b, parse).buffer, parse));
  }

  lemma Prefixes<T>(x: seq<T>, s: seq<T>, y: seq<T>, t: seq<T>)
    requires x + s == y + t
    ensures x <= x + s && y <= x + s && (x <= y || y <= x) && (s == [] <==> x == x + s)
  {
    var all := x + s;
    assert x == all[..|x|] && y == (y + t)[..|y|] == all[..|y|];
    if |x| <= |y| { assert x == y[..|x|]; } else { assert y == x[..|y|]; }
  }

  // -------------------------------------------------------------- transport

  class NetPeerStream {
    const fd: int
    var connected: bool
    var buffer: string
    ghost var received: string
    ghost var handled: seq<Request>

    constructor (fd: int, connected: bool)
      ensures this.fd == fd && this.connected == connected
      ensures buffer == "" && received == "" && handled == []
    {
      this.fd := fd;
      this.connected := connected;
      buffer, received, handled := "", "", [];
    }

    ghost function History(): Connection
      reads this
    {
      Connection(received, buffer, handled)
    }
  }

  // What the socket layer reports. `allowed` is the verdict on the remote host when only
  // one host may connect.
  datatype Event =
    | Closed(fd: int)
    | Connected(fd: int, allowed: bool)
    | Data(fd: int, bytes: string)

  class NetTransport {
    var peers: map<int, NetPeerStream>
    const callback: C2CCallback

    constructor (callback: C2CCallback)
      ensures this.callback == callback && Valid() && peers == map[]
    {
      this.callback := callback;
      peers := map[];
    }

    // The peers in the map are the connected ones, under their own socket, and each has
    // handled the requests that its stream calls for.
    ghost predicate Valid()
      reads this, peers.Values
    {
      forall fd :: fd in peers ==>
        && peers[fd].fd == fd && peers[fd].connected
        && Faithful(peers[fd].History(), callback.parse)
    }

    function GetPeerByFd(fd: int): (r: Option<NetPeerStream>)
      reads this
      ensures r.Some? <==> fd in peers
    {
      if fd in peers then Some(peers[fd]) else None
    }

    method IsConnected(fd: int) returns (r: bool)
      requires Valid()
      ensures r <==> fd in peers
    {
      var peer := GetPeerByFd(fd);
      r := peer.Some? && peer.value.connected;
    }

    // A peer that is already there is not replaced.
    method InsertPeer(peer: NetPeerStream)
      modifies this
      ensures peers == if peer.fd in old(peers) then old(peers) else old(peers)[peer.fd := peer]
    {
      if peer.fd !in peers { peers := peers[peer.fd := peer]; }
    }

    method RemovePeer(fd: int)
      modifies this
      ensures peers == old(peers) - {fd}
    {
      peers := peers - {fd};
    }

    // A connection that ends leaves the map.
    method OnClosed(fd: int)
      requires Valid()
      modifies this, peers.Values
      ensures Valid() && peers == old(peers) - {fd}
      ensures forall p :: p in old(peers.Values) && p.fd != fd ==> unchanged(p)
      ensures fd in old(peers) ==> !old(peers)[fd].connected
    {
      var peer := GetPeerByFd(fd);
      if peer.Some? {
        peer.value.connected := false;
        RemovePeer(fd);
      }
    }

    // A connection that begins enters the map with an empty buffer, if its host may connect.
    method OnConnected(fd: int, allowed: bool)
      requires Valid()
      modifies this, peers.Values
      ensures Valid()
      ensures peers.Keys == old(peers.Keys) + if allowed then {fd} else {}
      ensures forall k :: k in old(peers) ==> peers[k] == old(peers)[k] && unchanged(peers[k])
      ensures allowed && fd !in old(peers) ==> fresh(peers[fd]) && peers[fd].History() == Connection("", "", [])
    {
      hide Faithful;
      if !allowed { return; }
      NewIsFaithful(callback.parse);
      var peer := GetPeerByFd(fd);
      if peer.Some? {
        peer.value.connected := true;
      } else {
        var p := new NetPeerStream(fd, true);
        InsertPeer(p);
      }
    }

    // Bytes for a peer go through its buffer to the callback; when the buffer would grow
    // too large it is emptied, and these bytes are dropped with it.
    method OnData(fd: int, bytes: string) returns (ok: bool)
      requires Valid()
      modifies this, peers.Values, callback
      ensures Valid() && peers == old(peers) && ok == (fd in peers)
      ensures forall k :: k in peers && k != fd ==> unchanged(peers[k])
      ensures !ok ==> callback.actions == old(callback.actions)
      ensures ok ==>
                var c := old(peers[fd].History());
                if Overflows(c, bytes) then
                  peers[fd].History() == Connection("", "", []) && callback.actions == old(callback.actions)
                else
                  && peers[fd].History() == Receive(c, bytes, callback.parse)
                  && callback.actions == old(callback.actions)
                     + ActionsForAll(Turns(c.buffer + bytes, 0, callback.parse).0)
    {
      hide Faithful, Receive, Turns, ActionsForAll, Overflows;
      var found := GetPeerByFd(fd);
      if found.None? { return false; }
      HandleData(found.value, bytes);
      ok := true;
    }

    method HandleData(peer: NetPeerStream, bytes: string)
      requires Faithful(peer.History(), callback.parse)
      modifies peer`buffer, peer`received, peer`handled, callback`actions
      ensures Faithful(peer.History(), callback.parse)
      ensures var c := old(peer.History());
              if Overflows(c, bytes) then
                peer.History() == Connection("", "", []) && callback.actions == old(callback.actions)
              else
                && peer.History() == Receive(c, bytes, callback.parse)
                && callback.actions == old(callback.actions)
                   + ActionsForAll(Turns(c.buffer + bytes, 0, callback.parse).0)
    {
      hide Turns, Frames, Remainder, ActionsForAll;
      ghost var c := peer.History();
      var nConsumedBytes := |peer.buffer|;
      if nConsumedBytes + |bytes| > MAX_BUFFER {
        peer.buffer := "";
        peer.received, peer.handled := "", [];
        NewIsFaithful(callback.parse);
      } else {
        ReceiveKeepsFaith(c, bytes, callback.parse);
        peer.buffer := peer.buffer + bytes;
        nConsumedBytes := nConsumedBytes + |bytes|;
        nConsumedBytes := callback.OnData(peer.buffer);
        DropTwice(peer.buffer, 0, 0);
        if nConsumedBytes > 0 {
          peer.buffer := peer.buffer[nConsumedBytes..];
        }
        peer.received := peer.received + bytes;
        peer.handled := peer.handled + Turns(c.buffer + bytes, 0, callback.parse).0;
      }
    }

    method OnEvent(e: Event) returns (ok: bool)
      requires Valid()
      modifies this, peers.Values, callback
      ensures Valid() && (ok <==> !e.Data? || e.fd in old(peers))
    {
      ok := true;
      match e {
        case Closed(fd) => OnClosed(fd);
        case Connected(fd, allowed) => OnConnected(fd, allowed);
        case Data(fd, bytes) => ok := OnData(fd, bytes);
      }
    }
  }
}
