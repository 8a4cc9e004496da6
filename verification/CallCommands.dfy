// What the bridge does at each event, told by the calls before and after it: which commands
// it gives, and what changes in the legs of a call.

module CallCommands {
  import opened Common
  import opened CallBridge

  predicate Hosts(p: Peer, session: nat) {
    p.left.id == session || p.right.id == session
  }

  // A leg of a call, whichever side it is on.
  datatype Leg = Leg(session: Session, state: LegState, last: nat)

  function LegOf(p: Peer, session: nat): Leg
    requires Hosts(p, session)
  {
    if p.left.id == session then Leg(p.left, p.leftState, p.lastLeft) else Leg(p.right, p.rightState, p.lastRight)
  }

  predicate BothConnected(p: Peer) { p.leftState.Connected? && p.rightState.Connected? }

  // The call, if any, that hosts the session of a dialog event.
  predicate IsCallOf(s: State, id: nat, session: nat) {
    id in s.peers && Hosts(s.peers[id], session)
  }

  // ---------------------------------------------------------------- commands

  // The media of a call is attached by a leg that connects, when both its legs are up then.
  ghost predicate AttachesRight(s: State, e: Event, t: State, cs: seq<Command>) {
    forall id: nat :: Attach(id) in cs <==>
      e.LegConnected? && IsCallOf(s, id, e.session) && id in t.peers && BothConnected(t.peers[id])
  }

  // A left leg is accepted when its right leg connects, unless it is up already.
  ghost predicate AcceptsRight(s: State, e: Event, cs: seq<Command>) {
    forall x: nat :: Accept(x) in cs <==>
      e.LegConnected? && exists id :: id in s.peers && AnswersFor(s.peers[id], e.session, x)
  }

  predicate AnswersFor(p: Peer, session: nat, x: nat) {
    p.right.id == session && p.left.id == x && !p.leftState.Connected?
  }

  // A leg that is active is hung up when the other leg of its call terminates, with the
  // code that came with it.
  ghost predicate HangsUpRight(s: State, e: Event, cs: seq<Command>) {
    forall x: nat, c: nat :: Hangup(x, c) in cs <==>
      e.LegTerminated? && c == e.code && exists id :: id in s.peers && OtherIsUp(s.peers[id], e.session, x)
  }

  predicate OtherIsUp(p: Peer, session: nat, x: nat) {
    Hosts(p, session) && Hosts(p, x) && x != session && Active(LegOf(p, x).state)
  }

  // A new call is answered with its code if it is refused, and otherwise called out to its
  // destination with its media, if it has both.
  ghost predicate NewCallsRight(e: Event, cs: seq<Command>) {
    && (forall x: nat, c: nat :: Reject(x, c) in cs <==> e.NewCall? && x == e.left && e.refused == Some(c))
    && (forall x: nat, dst, audio, video :: CallOut(x, dst, audio, video) in cs <==>
          && e.NewCall? && e.refused.None? && x == e.right && e.dst == Some(dst)
          && audio == e.audio && video == e.video && (audio || video))
    && (forall x: nat, c: nat :: RejectThroughNull(x, c) in cs <==> GoesNowhere(e) && x == e.left && c == 500)
  }

  ghost predicate CommandsRight(s: State, e: Event, t: State, cs: seq<Command>) {
    && AttachesRight(s, e, t, cs) && AcceptsRight(s, e, cs) && HangsUpRight(s, e, cs) && NewCallsRight(e, cs)
    && forall i, j :: 0 <= i < j < |cs| ==> cs[i] != cs[j]
  }

  // Where a session is found, and that it is nowhere else.
  lemma Found(s: State, session: nat)
    requires TableOk(s)
    ensures var side := Side(s, session);
            && (side.None? ==> forall id :: !IsCallOf(s, id, session))
            && (side.Some? ==>
                  var (id, isLeft) := side.value;
                  && session == (if isLeft then s.peers[id].left.id else s.peers[id].right.id)
                  && forall k :: IsCallOf(s, k, session) <==> k == id)
  {
    hide Find;
    forall k | IsCallOf(s, k, session) ensures Side(s, session).Some? {
      SideIsOwner(s, session, k, s.peers[k].left.id == session);
    }
    var side := Side(s, session);
    if side.Some? {
      var id := side.value.0;
      forall k | IsCallOf(s, k, session) ensures k == id {
        SideIsOwner(s, session, k, s.peers[k].left.id == session);
      }
    }
  }

  lemma NoCommands(s: State, e: Event, bypass: bool, cs: seq<Command>)
    requires Step(s, e, bypass).log == s.log + cs
    ensures CommandsOf(s, e, bypass) == cs
  {
    hide Step;
  }

  lemma NewCallCommands(s: State, e: Event, bypass: bool)
    requires e.NewCall?
    ensures CommandsRight(s, e, Step(s, e, bypass), CommandsOf(s, e, bypass))
  {
    hide FreshPeer;
    var c := if e.refused.Some? then Reject(e.left, e.refused.value)
             else if GoesNowhere(e) then RejectThroughNull(e.left, 500)
             else CallOut(e.right, e.dst.value, e.audio, e.video);
    NoCommands(s, e, bypass, [c]);
  }

  lemma ConnectedCommands(s: State, e: Event, bypass: bool)
    requires TableOk(s) && e.LegConnected?
    ensures CommandsRight(s, e, Step(s, e, bypass), CommandsOf(s, e, bypass))
  {
    Found(s, e.session);
    hide Find, Side, TableOk;
    var side := Side(s, e.session);
    if side.None? {
      assert s.log + [] == s.log;
      NoCommands(s, e, bypass, []);
      assert forall id :: id in s.peers ==> !IsCallOf(s, id, e.session);
    } else {
      var (id, isLeft) := side.value;
      assert IsCallOf(s, id, e.session);
      NoCommands(s, e, bypass, ConnectCommands(s.peers[id], isLeft));
      ConnectedRight(s, e, bypass, id, isLeft);
    }
  }

  lemma ConnectedRight(s: State, e: Event, bypass: bool, id: nat, isLeft: bool)
    requires TableOk(s) && e.LegConnected? && Side(s, e.session) == Some((id, isLeft))
    requires e.session == if isLeft then s.peers[id].left.id else s.peers[id].right.id
    requires forall k :: IsCallOf(s, k, e.session) <==> k == id
    ensures CommandsRight(s, e, Step(s, e, bypass), ConnectCommands(s.peers[id], isLeft))
  {
    hide Find, Side, Step, IsCallOf, AttachesRight, AcceptsRight, TableOk;
    ConnectedAttaches(s, e, bypass, id, isLeft);
    ConnectedAccepts(s, e, id, isLeft);
  }

  lemma ConnectedAttaches(s: State, e: Event, bypass: bool, id: nat, isLeft: bool)
    requires TableOk(s) && e.LegConnected? && Side(s, e.session) == Some((id, isLeft))
    requires forall k :: IsCallOf(s, k, e.session) <==> k == id
    ensures AttachesRight(s, e, Step(s, e, bypass), ConnectCommands(s.peers[id], isLeft))
  {
    assert s.peers[id].id == id;
    hide Find, Side, TableOk, IsCallOf;
  }

  lemma ConnectedAccepts(s: State, e: Event, id: nat, isLeft: bool)
    requires TableOk(s) && e.LegConnected? && id in s.peers
    requires e.session == if isLeft then s.peers[id].left.id else s.peers[id].right.id
    requires forall k :: IsCallOf(s, k, e.session) <==> k == id
    ensures AcceptsRight(s, e, ConnectCommands(s.peers[id], isLeft))
  {
    var p := s.peers[id];
    assert p.left.id != p.right.id;
    hide TableOk;
    forall k, x | k in s.peers && AnswersFor(s.peers[k], e.session, x) ensures k == id {
      assert IsCallOf(s, k, e.session);
    }
  }

  lemma TerminatedCommands(s: State, e: Event, bypass: bool)
    requires TableOk(s) && e.LegTerminated?
    ensures CommandsRight(s, e, Step(s, e, bypass), CommandsOf(s, e, bypass))
  {
    Found(s, e.session);
    hide Find, Side, TableOk;
    var side := Side(s, e.session);
    if side.None? {
      assert s.log + [] == s.log;
      NoCommands(s, e, bypass, []);
      assert forall id :: id in s.peers ==> !IsCallOf(s, id, e.session);
    } else {
      var (id, isLeft) := side.value;
      assert IsCallOf(s, id, e.session);
      NoCommands(s, e, bypass, HangupCommands(TerminatePeer(s.peers[id], isLeft, e.code), e.code));
      TerminatedRight(s, e, bypass, id, isLeft);
    }
  }

  lemma TerminatedRight(s: State, e: Event, bypass: bool, id: nat, isLeft: bool)
    requires TableOk(s) && e.LegTerminated? && id in s.peers
    requires e.session == if isLeft then s.peers[id].left.id else s.peers[id].right.id
    requires forall k :: IsCallOf(s, k, e.session) <==> k == id
    ensures CommandsRight(s, e, Step(s, e, bypass),
                          HangupCommands(TerminatePeer(s.peers[id], isLeft, e.code), e.code))
  {
    var p := s.peers[id];
    assert p.left.id != p.right.id;
    hide Find, Side, TableOk, Step;
    forall k, x | k in s.peers && OtherIsUp(s.peers[k], e.session, x) ensures k == id {
      assert IsCallOf(s, k, e.session);
    }
  }

  // Over every run the commands of an event are exactly these, each once.
  lemma CommandsIff(events: seq<Event>, e: Event, bypass: bool)
    requires Promised(events, bypass)
    ensures var s := Run(events, bypass);
            CommandsRight(s, e, Step(s, e, bypass), CommandsOf(s, e, bypass))
  {
    BridgeInvariant(events, bypass);
    var s := Run(events, bypass);
    hide Run, CommandsRight, Step, LegsOk, AnswerOk;
    match e {
      case NewCall(_, _, _, _, _, _, _) => NewCallCommands(s, e, bypass);
      case LegConnected(_, _) => ConnectedCommands(s, e, bypass);
      case LegTerminated(_, _) => TerminatedCommands(s, e, bypass);
    }
  }

  // -------------------------------------------------------------------- legs

  // What a dialog event makes of the leg it names, and of no other.
  function LegAfter(leg: Leg, e: Event): Leg {
    match e
    case NewCall(_, _, _, _, _, _, _) => leg
    case LegConnected(session, negotiated) =>
      if leg.session.id != session then leg
      else leg.(state := Connected, session := leg.session.(state := Connected, negotiated := negotiated))
    case LegTerminated(session, code) =>
      if leg.session.id != session then leg
      else leg.(state := Terminated, last := code, session := leg.session.(state := Terminated, opposite := None))
  }

  // The codecs that a session may use change only for a left leg that is being accepted.
  predicate SameButSupported(a: Leg, b: Leg) {
    a.(session := a.session.(supported := None)) == b.(session := b.session.(supported := None))
  }

  ghost predicate LegsRight(s: State, e: Event, t: State, bypass: bool, id: nat)
    requires id in s.peers && id in t.peers
  {
    var p, q := s.peers[id], t.peers[id];
    && q.id == p.id && q.left.id == p.left.id && q.right.id == p.right.id
    && (forall x :: Hosts(p, x) ==> SameButSupported(LegOf(q, x), LegAfter(LegOf(p, x), e)))
    && q.right.supported == p.right.supported
    && q.left.supported ==
       if bypass && e.LegConnected? && AnswersFor(p, e.session, p.left.id) then Some(e.negotiated)
       else p.left.supported
  }

  // An event changes the leg it names and no other, and no other call.
  lemma LegsChange(s: State, e: Event, bypass: bool, id: nat)
    requires TableOk(s) && id in s.peers && id in Step(s, e, bypass).peers
    ensures LegsRight(s, e, Step(s, e, bypass), bypass, id)
  {
    assert s.peers[id].left.id != s.peers[id].right.id && id < s.nextId;
    if e.NewCall? {
      hide Find;
    } else {
      Found(s, e.session);
      hide Find, Side, TableOk;
      var side := Side(s, e.session);
      if side.None? || side.value.0 != id { assert !IsCallOf(s, id, e.session); }
    }
  }

  // A call that is let in comes with both legs connecting, each the other's opposite, under
  // a number of its own; every other call stays.
  lemma NewCallEnters(s: State, e: Event, bypass: bool)
    requires TableOk(s) && e.NewCall?
    ensures var t := Step(s, e, bypass);
            if e.refused.Some? || GoesNowhere(e) then t.peers == s.peers && t.nextId == s.nextId
            else
              && s.nextId !in s.peers && t.nextId == s.nextId + 1 && t.peers.Keys == s.peers.Keys + {s.nextId}
              && (forall id :: id in s.peers ==> t.peers[id] == s.peers[id])
              && var p := t.peers[s.nextId];
                 && p.id == s.nextId && p.left.id == e.left && p.right.id == e.right
                 && LegOf(p, e.left).state == p.rightState == p.left.state == p.right.state == Connecting
                 && p.left.opposite == Some(p.right.id) && p.right.opposite == Some(p.left.id)
                 && p.left.negotiated == e.negotiated && p.right.negotiated == {} && p.left.supported == None
                 && p.right.supported == (if bypass then Some(e.negotiated) else None)
                 && p.lastLeft == p.lastRight == 0
  {
  }
}
