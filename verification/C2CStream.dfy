// The click-to-call service as a whole: from the bytes that its peers send, in whatever
// pieces and however mixed, to the account tables and the mails.

module C2CStream {
  import opened Common
  import opened ActivationMail
  import A = AccountStore
  import C2CService
  import H = HttpFraming
  import JsonGrammar
  import JsonValue
  import T = StreamTransport

  // What the service is built on: the header parser, the conversions of the C library,
  // whether captchas are asked for, and what the outside contributes to the n-th content.
  datatype Setup = Setup(
    parse: H.Parser, scan: string -> Option<JsonValue.Double>, encode: string -> string, captcha: bool,
    env: nat -> A.Env)

  datatype Service = Service(tables: A.State, replies: seq<C2CService.Reply>, mails: seq<Letter>)

  // An exception that leaves the handler ends the program.
  predicate Up(x: Service) {
    x.replies == [] || x.replies[|x.replies| - 1] != C2CService.Thrown
  }

  function ServeOne(x: Service, content: string, setup: Setup): Service {
    if !Up(x) then x
    else
      var env := setup.env(|x.replies|);
      var (tables, reply) := C2CService.HandleContent(x.tables, content, setup.scan, setup.encode, setup.captcha, env);
      Service(
        tables, x.replies + [reply],
        x.mails + C2CService.ContentLetters(x.tables, content, setup.scan, setup.encode, setup.captcha, env))
  }

  // The reference: contents served one after the other.
  function ServeAll(x: Service, contents: seq<string>, setup: Setup): Service {
    if contents == [] then x
    else ServeOne(ServeAll(x, contents[..|contents| - 1], setup), contents[|contents| - 1], setup)
  }

  lemma {:induction false} ServeAllJoins(x: Service, a: seq<string>, b: seq<string>, setup: Setup)
    ensures ServeAll(x, a + b, setup) == ServeAll(ServeAll(x, a, setup), b, setup)
    decreases |b|
  {
    hide ServeOne;
    if b == [] {
      assert a + b == a;
    } else {
      assert (a + b)[..|a + b| - 1] == a + b[..|b| - 1];
      ServeAllJoins(x, a, b[..|b| - 1], setup);
    }
  }

  // What has been answered and mailed stays answered and mailed.
  predicate IsBehind(x: Service, y: Service) {
    x.replies <= y.replies && x.mails <= y.mails
  }

  lemma {:induction false} RepliesGrow(x: Service, contents: seq<string>, setup: Setup)
    ensures IsBehind(x, ServeAll(x, contents, setup))
    decreases |contents|
  {
    hide C2CService.HandleContent, C2CService.ContentLetters;
    if contents != [] { RepliesGrow(x, contents[..|contents| - 1], setup); }
  }

  // Each content has its reply, up to the first that ends in an exception: after that nothing
  // is served any more.
  lemma {:induction false} RepliesAre(db: A.Db, contents: seq<string>, setup: Setup)
    ensures var replies := ServeAll(Start(db).service, contents, setup).replies;
            && (forall i :: 0 <= i < |replies| - 1 ==> replies[i] != C2CService.Thrown)
            && |replies| <= |contents|
            && (|replies| < |contents| ==> replies != [] && replies[|replies| - 1] == C2CService.Thrown)
    decreases |contents|
  {
    hide C2CService.HandleContent, C2CService.ContentLetters;
    if contents != [] { RepliesAre(db, contents[..|contents| - 1], setup); }
  }

  lemma {:induction false} ServeAllIsSafe(x: Service, contents: seq<string>, setup: Setup)
    requires A.Ok(x.tables.db)
    ensures A.Safe(x.tables.db, ServeAll(x, contents, setup).tables.db)
    decreases |contents|
  {
    if contents == [] {
      A.SafeSame(x.tables.db);
    } else {
      ServeAllIsSafe(x, contents[..|contents| - 1], setup);
      OneIsSafe(x, ServeAll(x, contents[..|contents| - 1], setup), contents[|contents| - 1], setup);
    }
  }

  lemma OneIsSafe(x: Service, y: Service, content: string, setup: Setup)
    requires A.Safe(x.tables.db, y.tables.db)
    ensures A.Safe(x.tables.db, ServeOne(y, content, setup).tables.db)
  {
    var z := ServeOne(y, content, setup);
    var env := setup.env(|y.replies|);
    A.SafeSame(y.tables.db);
    var r := JsonGrammar.Source(content, JsonGrammar.Features(true, false), setup.scan).Parse(JsonValue.Null);
    C2CService.HandleIsSafe(y.tables, r.value, r.ok, setup.encode, setup.captcha, env);
    hide A.Safe, C2CService.Handle, C2CService.ContentLetters, A.Ok;
    A.SafeTwice(x.tables.db, y.tables.db, z.tables.db);
  }

  // ------------------------------------------------------------- many peers

  // The connections, the service behind them, and the contents handed on, each with the
  // socket that it came from.
  datatype World = World(connections: map<int, T.Connection>, service: Service, handed: seq<(int, string)>)

  function From(fd: int, contents: seq<string>): seq<(int, string)> {
    seq(|contents|, i requires 0 <= i < |contents| => (fd, contents[i]))
  }

  function All(handed: seq<(int, string)>): seq<string> {
    seq(|handed|, i requires 0 <= i < |handed| => handed[i].1)
  }

  function OfPeer(handed: seq<(int, string)>, fd: int): seq<string> {
    if handed == [] then []
    else
      OfPeer(handed[..|handed| - 1], fd) +
      if handed[|handed| - 1].0 == fd then [handed[|handed| - 1].1] else []
  }

  const FRESH := T.Connection("", "", [])

  // An event of the socket layer, down to the tables.
  function Step(w: World, e: T.Event, setup: Setup): World {
    match e
    case Connected(fd, allowed) =>
      if !allowed || fd in w.connections then w else w.(connections := w.connections[fd := FRESH])
    case Closed(fd) => w.(connections := w.connections - {fd})
    case Data(fd, bytes) =>
      if fd !in w.connections then w
      else if T.Overflows(w.connections[fd], bytes) then w.(connections := w.connections[fd := FRESH])
      else
        var c := w.connections[fd];
        var contents := H.Handed(H.ActionsForAll(H.Turns(c.buffer + bytes, 0, setup.parse).0));
        World(
          w.connections[fd := T.Receive(c, bytes, setup.parse)],
          ServeAll(w.service, contents, setup), w.handed + From(fd, contents))
  }

  function Start(db: A.Db): World { World(map[], Service(A.State(db, 0), [], []), []) }

  function Run(db: A.Db, events: seq<T.Event>, setup: Setup): World {
    if events == [] then Start(db)
    else Step(Run(db, events[..|events| - 1], setup), events[|events| - 1], setup)
  }

  ghost predicate EndsWith<X>(s: seq<X>, end: seq<X>) {
    |end| <= |s| && s[|s| - |end|..] == end
  }

  // Every connection has handled what its stream calls for, and the JSON posts in that are
  // the last contents that it handed on, in their order.
  ghost predicate Served(c: T.Connection, fd: int, handed: seq<(int, string)>, parse: H.Parser) {
    && T.Faithful(c, parse)
    && EndsWith(OfPeer(handed, fd), H.JsonContents(c.handled))
  }

  // The tables, replies and mails are those of the contents served in the order handed on.
  ghost predicate InOrder(db: A.Db, w: World, setup: Setup) {
    && w.service == ServeAll(Start(db).service, All(w.handed), setup)
    && forall fd :: fd in w.connections ==> Served(w.connections[fd], fd, w.handed, setup.parse)
  }

  lemma {:induction false} OfPeerMore(handed: seq<(int, string)>, fd: int, contents: seq<string>, peer: int)
    ensures OfPeer(handed + From(fd, contents), peer) == OfPeer(handed, peer) + if peer == fd then contents else []
    decreases |contents|
  {
    if contents == [] {
      assert handed + From(fd, contents) == handed;
    } else {
      var last := |contents| - 1;
      var more := handed + From(fd, contents);
      assert more[..|more| - 1] == handed + From(fd, contents[..last]);
      assert more[|more| - 1] == (fd, contents[last]);
      OfPeerMore(handed, fd, contents[..last], peer);
      assert contents == contents[..last] + [contents[last]];
    }
  }

  lemma AllMore(handed: seq<(int, string)>, fd: int, contents: seq<string>)
    ensures All(handed + From(fd, contents)) == All(handed) + contents
  {
  }

  lemma EndsWithMore<X>(s: seq<X>, end: seq<X>, more: seq<X>)
    requires EndsWith(s, end)
    ensures EndsWith(s + more, end + more)
  {
    assert (s + more)[|s| - |end|..] == s[|s| - |end|..] + more;
  }

  lemma FreshIsServed(fd: int, handed: seq<(int, string)>, parse: H.Parser)
    ensures Served(FRESH, fd, handed, parse)
  {
    assert ""[0..] == "";
    var s := OfPeer(handed, fd);
    assert s[|s|..] == [];
  }

  // What a data event that fits does to its own connection and to the others.
  lemma DataServed(w: World, fd: int, bytes: string, setup: Setup)
    requires fd in w.connections && !T.Overflows(w.connections[fd], bytes)
    requires Served(w.connections[fd], fd, w.handed, setup.parse)
    ensures var c := w.connections[fd];
            var contents := H.Handed(H.ActionsForAll(H.Turns(c.buffer + bytes, 0, setup.parse).0));
            && Served(T.Receive(c, bytes, setup.parse), fd, w.handed + From(fd, contents), setup.parse)
            && H.JsonContents(T.Receive(c, bytes, setup.parse).handled) == H.JsonContents(c.handled) + contents
  {
    hide T.Faithful, H.Turns, H.ActionsForAll, H.Handed, H.JsonContents, OfPeer, From, EndsWith;
    var c := w.connections[fd];
    var handled := H.Turns(c.buffer + bytes, 0, setup.parse).0;
    var contents := H.Handed(H.ActionsForAll(handled));
    T.ReceiveKeepsFaith(c, bytes, setup.parse);
    H.OnlyJsonPostsAreHanded(handled);
    H.JsonContentsJoin(c.handled, handled);
    OfPeerMore(w.handed, fd, contents, fd);
    EndsWithMore(OfPeer(w.handed, fd), H.JsonContents(c.handled), contents);
  }

  lemma StepKeepsOrder(db: A.Db, w: World, e: T.Event, setup: Setup)
    requires InOrder(db, w, setup)
    ensures InOrder(db, Step(w, e, setup), setup)
  {
    hide Served, T.Overflows, ServeAll, H.Turns, H.ActionsForAll, H.Handed, T.Receive, OfPeer;
    FreshIsServed(e.fd, w.handed, setup.parse);
    if e.Data? && e.fd in w.connections && !T.Overflows(w.connections[e.fd], e.bytes) {
      var c := w.connections[e.fd];
      var contents := H.Handed(H.ActionsForAll(H.Turns(c.buffer + e.bytes, 0, setup.parse).0));
      DataServed(w, e.fd, e.bytes, setup);
      AllMore(w.handed, e.fd, contents);
      ServeAllJoins(Start(db).service, All(w.handed), contents, setup);
      forall fd | fd in w.connections && fd != e.fd
        ensures Served(w.connections[fd], fd, w.handed + From(e.fd, contents), setup.parse)
      {
        OthersServed(w, fd, e.fd, contents, setup.parse);
      }
    }
  }

  lemma OthersServed(w: World, fd: int, from: int, contents: seq<string>, parse: H.Parser)
    requires fd in w.connections && fd != from && Served(w.connections[fd], fd, w.handed, parse)
    ensures Served(w.connections[fd], fd, w.handed + From(from, contents), parse)
  {
    hide T.Faithful, EndsWith, H.JsonContents;
    OfPeerMore(w.handed, from, contents, fd);
    assert OfPeer(w.handed, fd) + [] == OfPeer(w.handed, fd);
  }

  // Over every run of the socket layer, with any number of peers, whatever they send and
  // however their segments are cut and mixed.
  lemma {:induction false} ServedInOrder(db: A.Db, events: seq<T.Event>, setup: Setup)
    ensures InOrder(db, Run(db, events, setup), setup)
    decreases |events|
  {
    hide Step, InOrder;
    if events == [] {
      StartInOrder(db, setup);
    } else {
      ServedInOrder(db, events[..|events| - 1], setup);
      StepKeepsOrder(db, Run(db, events[..|events| - 1], setup), events[|events| - 1], setup);
    }
  }

  lemma StartInOrder(db: A.Db, setup: Setup)
    ensures InOrder(db, Start(db), setup)
  {
  }

  // No bytes whatever endanger an activated account, or leave a SIP address without one.
  lemma AnyBytesAreSafe(db: A.Db, events: seq<T.Event>, setup: Setup)
    requires A.Ok(db)
    ensures A.Safe(db, Run(db, events, setup).service.tables.db)
  {
    hide Run, ServeAll, Served, A.Safe, A.Ok;
    ServedInOrder(db, events, setup);
    ServeAllIsSafe(Start(db).service, All(Run(db, events, setup).handed), setup);
  }

  // ---------------------------------------------------------------- one peer

  // A peer that connects and sends a stream in these segments.
  function Deliver(fd: int, segments: seq<string>): seq<T.Event> {
    if segments == [] then [T.Connected(fd, true)]
    else Deliver(fd, segments[..|segments| - 1]) + [T.Data(fd, segments[|segments| - 1])]
  }

  lemma {:induction false} DeliveryIsServed(db: A.Db, fd: int, segments: seq<string>, setup: Setup)
    requires T.Fits(segments, setup.parse)
    ensures var c := T.Run(segments, setup.parse);
            var w := Run(db, Deliver(fd, segments), setup);
            && w.connections == map[fd := c]
            && w.service == ServeAll(Start(db).service, H.JsonContents(c.handled), setup)
    decreases |segments|
  {
    hide ServeAll, T.Receive, T.Overflows, H.Turns, Served;
    var events := Deliver(fd, segments);
    if segments == [] {
      assert events[..0] == [];
      NoneServed(db, setup);
    } else {
      var before := segments[..|segments| - 1];
      var w := Run(db, Deliver(fd, before), setup);
      DeliveryIsServed(db, fd, before, setup);
      ServedInOrder(db, Deliver(fd, before), setup);
      assert events[..|events| - 1] == Deliver(fd, before);
      LastIsServed(db, w, fd, segments[|segments| - 1], setup);
    }
  }

  lemma NoneServed(db: A.Db, setup: Setup)
    ensures ServeAll(Start(db).service, H.JsonContents([]), setup) == Start(db).service
  {
  }

  lemma LastIsServed(db: A.Db, w: World, fd: int, bytes: string, setup: Setup)
    requires fd in w.connections && w.connections == map[fd := w.connections[fd]]
    requires Served(w.connections[fd], fd, w.handed, setup.parse) && !T.Overflows(w.connections[fd], bytes)
    requires w.service == ServeAll(Start(db).service, H.JsonContents(w.connections[fd].handled), setup)
    ensures var c := T.Receive(w.connections[fd], bytes, setup.parse);
            var after := Step(w, T.Data(fd, bytes), setup);
            && after.connections == map[fd := c]
            && after.service == ServeAll(Start(db).service, H.JsonContents(c.handled), setup)
  {
    hide ServeAll, T.Receive, T.Overflows, H.Turns, Served, H.Handed, H.ActionsForAll, H.JsonContents;
    var c := w.connections[fd];
    DataServed(w, fd, bytes, setup);
    ServeAllJoins(
      Start(db).service, H.JsonContents(c.handled),
      H.Handed(H.ActionsForAll(H.Turns(c.buffer + bytes, 0, setup.parse).0)), setup);
  }

  // However a peer cuts its stream: what the service comes to, tables, replies and mails,
  // is what the frames of the whole stream call for, one after the other, once none of them
  // waits in the buffer; before that, one cut can only be behind the other.
  lemma CutsAgree(db: A.Db, fd: int, a: seq<string>, b: seq<string>, setup: Setup)
    requires T.Fits(a, setup.parse) && T.Fits(b, setup.parse) && T.Stream(a) == T.Stream(b)
    ensures var x, y := Run(db, Deliver(fd, a), setup).service, Run(db, Deliver(fd, b), setup).service;
            && (IsBehind(x, y) || IsBehind(y, x))
            && (H.Frames(T.Run(a, setup.parse).buffer, setup.parse) == [] ==>
                  x == ServeAll(Start(db).service, H.JsonContents(H.Frames(T.Stream(a), setup.parse)), setup))
  {
    hide Run, Deliver, ServeAll, T.Run, H.Frames, T.Fits, T.Stream, H.JsonContents;
    T.SegmentationIndependence(a, b, setup.parse);
    DeliveryIsServed(db, fd, a, setup);
    DeliveryIsServed(db, fd, b, setup);
    var x, y := T.Run(a, setup.parse).handled, T.Run(b, setup.parse).handled;
    if x <= y { OneBehind(db, x, y, setup); } else { OneBehind(db, y, x, setup); }
  }

  lemma OneBehind(db: A.Db, x: seq<H.Request>, y: seq<H.Request>, setup: Setup)
    requires x <= y
    ensures var s := Start(db).service;
            var p, q := ServeAll(s, H.JsonContents(x), setup), ServeAll(s, H.JsonContents(y), setup);
            IsBehind(p, q)
  {
    hide ServeAll, H.JsonContents;
    var rest := y[|x|..];
    assert y == x + rest;
    H.JsonContentsJoin(x, rest);
    ServeAllJoins(Start(db).service, H.JsonContents(x), H.JsonContents(rest), setup);
    RepliesGrow(ServeAll(Start(db).service, H.JsonContents(x), setup), H.JsonContents(rest), setup);
  }

  // A peer that sends messages, cut as they may be: the service comes to what the JSON
  // posts among them call for, in their order, once none of them waits in the buffer.
  lemma MessagesAreServed(db: A.Db, fd: int, segments: seq<string>, ms: seq<H.Message>, setup: Setup)
    requires T.Fits(segments, setup.parse) && T.Stream(segments) == H.Bytes(ms)
    requires forall m :: m in ms ==> H.IsMessage(m, setup.parse)
    ensures H.Frames(T.Run(segments, setup.parse).buffer, setup.parse) == [] ==>
              Run(db, Deliver(fd, segments), setup).service ==
              ServeAll(Start(db).service, H.JsonContents(H.Requests(ms, setup.parse)), setup)
  {
    hide Run, Deliver, ServeAll, T.Run, T.Fits, T.Stream, H.JsonContents, H.IsMessage, H.Bytes, H.Requests;
    CutsAgree(db, fd, segments, segments, setup);
    H.MessagesAreFramed(ms, "", setup.parse);
    H.NothingYet(setup.parse);
    assert H.Bytes(ms) + "" == H.Bytes(ms);
    assert H.Requests(ms, setup.parse) + [] == H.Requests(ms, setup.parse);
    hide H.Frames;
  }

  // ------------------------------------------------------------ connections

  // The peer was let in, and was not closed after that.
  predicate IsOpen(events: seq<T.Event>, i: nat, fd: int) {
    i < |events| && events[i] == T.Connected(fd, true) && forall j :: i < j < |events| ==> events[j] != T.Closed(fd)
  }

  lemma {:induction false} OpenIff(db: A.Db, events: seq<T.Event>, setup: Setup, fd: int)
    ensures fd in Run(db, events, setup).connections <==> exists i :: IsOpen(events, i, fd)
    decreases |events|
  {
    if events != [] {
      var before, e, last := events[..|events| - 1], events[|events| - 1], |events| - 1;
      OpenIff(db, before, setup, fd);
      StepOpens(Run(db, before, setup), e, setup, fd);
      hide Run, Step;
      if e == T.Connected(fd, true) {
        assert IsOpen(events, last, fd);
      } else if e == T.Closed(fd) {
        forall i: nat ensures !IsOpen(events, i, fd) {}
      } else {
        forall i: nat | IsOpen(before, i, fd) ensures IsOpen(events, i, fd) {}
        forall i: nat | IsOpen(events, i, fd) ensures IsOpen(before, i, fd) { OpenBefore(events, i, fd); }
      }
    }
  }

  lemma OpenBefore(events: seq<T.Event>, i: nat, fd: int)
    requires IsOpen(events, i, fd) && events[|events| - 1] != T.Connected(fd, true)
    ensures IsOpen(events[..|events| - 1], i, fd)
  {
  }

  lemma StepOpens(w: World, e: T.Event, setup: Setup, fd: int)
    ensures fd in Step(w, e, setup).connections <==>
            e == T.Connected(fd, true) || (fd in w.connections && e != T.Closed(fd))
  {
    hide ServeAll, H.Turns, H.ActionsForAll, H.Handed, From;
  }

  // Where a buffer would grow beyond 65535 bytes it starts anew, empty, and nothing is served.
  lemma OverflowForgets(w: World, fd: int, bytes: string, setup: Setup)
    requires fd in w.connections && |w.connections[fd].buffer| + |bytes| > 65535
    ensures var t := Step(w, T.Data(fd, bytes), setup);
            && t.service == w.service && t.handed == w.handed && t.connections.Keys == w.connections.Keys
            && t.connections[fd].buffer == "" && t.connections[fd].handled == []
            && forall other :: other in w.connections && other != fd ==> t.connections[other] == w.connections[other]
  {
  }

  // A connection that is new starts with nothing; one that is there already stays as it is.
  lemma ConnectsAfresh(w: World, fd: int, setup: Setup)
    ensures var t := Step(w, T.Connected(fd, true), setup);
            && fd in t.connections && t.service == w.service
            && (fd !in w.connections ==> t.connections[fd] == T.Connection("", "", []))
            && forall other :: other in w.connections ==>
                 other in t.connections && t.connections[other] == w.connections[other]
  {
  }
}
