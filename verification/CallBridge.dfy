// The two-leg call bridge: each call is a peer with a left and a right session, driven by
// new calls and by dialogs that connect and terminate. This module has the steps on values
// and what holds over every run; CallEngine has the objects.

module CallBridge {
  import opened Common

  type Codecs = set<nat>

  // MPPeerState_t, which MPPeerState_getSessionState maps to the like state of a session.
  datatype LegState = Idle | Connecting | Connected | Terminated

  predicate Active(s: LegState) { s.Connecting? || s.Connected? }

  // A session with its opposite, the codecs it may use, if restricted, and those that the
  // SIP stack has negotiated for it.
  datatype Session = Session(
    id: nat, state: LegState, opposite: Option<nat>, supported: Option<Codecs>, negotiated: Codecs)

  datatype Peer = Peer(
    id: nat,
    left: Session,
    right: Session,
    leftState: LegState,
    rightState: LegState,
    lastLeft: nat,
    lastRight: nat)

  // What the bridge asks of the SIP stack and of the media plugins.
  datatype Command =
    | CallOut(session: nat, dst: string, audio: bool, video: bool)
    | Accept(session: nat)
    | Hangup(session: nat, code: nat)
    | Reject(session: nat, code: nat)
    // a reject meant for this session, called through a pointer that is null by then
    | RejectThroughNull(session: nat, code: nat)
    | Attach(peer: nat)

  datatype Event =
    | NewCall(
        left: nat, right: nat, refused: Option<nat>, dst: Option<string>,
        audio: bool, video: bool, negotiated: Codecs)
    | LegConnected(session: nat, negotiated: Codecs)
    | LegTerminated(session: nat, code: nat)

  // The peer table, the next peer id, the commands so far, and the order in which legs
  // connected.
  datatype State = State(peers: map<nat, Peer>, nextId: nat, log: seq<Command>, connects: seq<nat>, used: set<nat>)

  function Initial(): State { State(map[], 1, [], [], {}) }

  // ------------------------------------------------------------------ steps

  function WithLeftState(p: Peer, s: LegState): Peer {
    p.(leftState := s, left := InState(p.left, s))
  }

  function WithRightState(p: Peer, s: LegState): Peer {
    p.(rightState := s, right := InState(p.right, s))
  }

  // MPSipSessionAV::setState: a terminated session lets go of its opposite.
  function InState(x: Session, s: LegState): Session {
    if s.Terminated? then x.(state := s, opposite := None) else x.(state := s)
  }

  // getPeerBySessionId: the first peer, in the order of ids, with this session on this side.
  function Find(peers: map<nat, Peer>, session: nat, isLeft: bool, from: nat, bound: nat): (r: Option<nat>)
    ensures r.Some? ==>
              && r.value in peers
              && session == if isLeft then peers[r.value].left.id else peers[r.value].right.id
    decreases bound - from
  {
    if from >= bound then None
    else if from in peers && session == (if isLeft then peers[from].left.id else peers[from].right.id) then Some(from)
    else Find(peers, session, isLeft, from + 1, bound)
  }

  function FindPeer(s: State, session: nat, isLeft: bool): (r: Option<nat>)
    ensures r.Some? ==> r.value in s.peers
    ensures r.Some? ==> session == if isLeft then s.peers[r.value].left.id else s.peers[r.value].right.id
  {
    Find(s.peers, session, isLeft, 0, s.nextId)
  }

  // The two sessions refer to each other; without a media coder the right one is offered
  // what was negotiated on the left.
  function FreshPeer(id: nat, e: Event, bypass: bool): Peer
    requires e.NewCall?
  {
    var left := Session(e.left, Connecting, Some(e.right), None, e.negotiated);
    var right := Session(e.right, Connecting, Some(e.left), if bypass then Some(e.negotiated) else None, {});
    Peer(id, left, right, Connecting, Connecting, 0, 0)
  }

  // OnInviteEvent on a new call. `bypass` says that the media coder is off.
  function OnNewCall(s: State, e: Event, bypass: bool): State
    requires e.NewCall?
  {
    if e.refused.Some? then s.(log := s.log + [Reject(e.left, e.refused.value)], used := s.used + {e.left})
    else if e.dst.Some? && (e.audio || e.video) then
      s.(peers := s.peers[s.nextId := FreshPeer(s.nextId, e, bypass)],
         nextId := s.nextId + 1,
         log := s.log + [CallOut(e.right, e.dst.value, e.audio, e.video)],
         used := s.used + {e.left, e.right})
    else s.(log := s.log + [RejectThroughNull(e.left, 500)], used := s.used + {e.left})
  }

  // A new call that is not refused, but has no destination or asks for no media.
  predicate GoesNowhere(e: Event) {
    e.NewCall? && e.refused.None? && (e.dst.None? || (!e.audio && !e.video))
  }

  // What accepting the right leg does for a left leg that is not connected.
  function AcceptLeft(p: Peer, bypass: bool): Peer {
    if bypass then p.(left := p.left.(supported := Some(p.right.negotiated))) else p
  }

  function ConnectPeer(p: Peer, isLeft: bool, negotiated: Codecs, bypass: bool): Peer {
    if isLeft then WithLeftState(p.(left := p.left.(negotiated := negotiated)), Connected)
    else
      var q := WithRightState(p.(right := p.right.(negotiated := negotiated)), Connected);
      if q.leftState.Connected? then q else AcceptLeft(q, bypass)
  }

  function ConnectCommands(p: Peer, isLeft: bool): seq<Command> {
    var leftConnected, rightConnected := isLeft || p.leftState.Connected?, !isLeft || p.rightState.Connected?;
    (if !isLeft && !leftConnected then [Accept(p.left.id)] else [])
    + (if leftConnected && rightConnected then [Attach(p.id)] else [])
  }

  function OnConnected(s: State, session: nat, negotiated: Codecs, bypass: bool): State {
    match Side(s, session)
    case None => s
    case Some((id, isLeft)) =>
      var p := s.peers[id];
      s.(peers := s.peers[id := ConnectPeer(p, isLeft, negotiated, bypass)],
         log := s.log + ConnectCommands(p, isLeft),
         connects := s.connects + [session])
  }

  // The peer that hosts a session: it is looked for on the left first.
  function Side(s: State, session: nat): (r: Option<(nat, bool)>)
    ensures r.Some? ==> r.value.0 in s.peers
  {
    match FindPeer(s, session, true)
    case Some(id) => Some((id, true))
    case None =>
      match FindPeer(s, session, false)
      case Some(id) => Some((id, false))
      case None => None
  }

  function TerminatePeer(p: Peer, isLeft: bool, code: nat): Peer {
    if isLeft then WithLeftState(p, Terminated).(lastLeft := code)
    else WithRightState(p, Terminated).(lastRight := code)
  }

  // The leg that is still active is hung up with the same response code.
  function HangupCommands(p: Peer, code: nat): seq<Command> {
    (if Active(p.leftState) then [Hangup(p.left.id, code)] else [])
    + (if Active(p.rightState) then [Hangup(p.right.id, code)] else [])
  }

  predicate Over(p: Peer) { !Active(p.leftState) && !Active(p.rightState) }

  function OnTerminated(s: State, session: nat, code: nat): State {
    match Side(s, session)
    case None => s
    case Some((id, isLeft)) =>
      var p := TerminatePeer(s.peers[id], isLeft, code);
      s.(peers := if Over(p) then s.peers - {id} else s.peers[id := p],
         log := s.log + HangupCommands(p, code))
  }

  function Step(s: State, e: Event, bypass: bool): State {
    match e
    case NewCall(_, _, _, _, _, _, _) => OnNewCall(s, e, bypass)
    case LegConnected(session, negotiated) => OnConnected(s, session, negotiated, bypass)
    case LegTerminated(session, code) => OnTerminated(s, session, code)
  }

  // The handlers in smaller steps: first the table, then what is recorded.
  function Recorded(s: State, commands: seq<Command>, ids: nat, connected: seq<nat>, taken: set<nat>): State {
    s.(log := s.log + commands, nextId := s.nextId + ids, connects := s.connects + connected, used := s.used + taken)
  }

  lemma TerminatedSteps(s: State, session: nat, code: nat)
    ensures var side := Side(s, session);
            OnTerminated(s, session, code) ==
            if side.None? then s
            else
              var id := side.value.0;
              var p := TerminatePeer(s.peers[id], side.value.1, code);
              var t := Recorded(s.(peers := s.peers[id := p]), HangupCommands(p, code), 0, [], {});
              if Over(p) then t.(peers := t.peers - {id}) else t
  {
    hide Find, TerminatePeer, HangupCommands;
    var side := Side(s, session);
    if side.Some? {
      var id := side.value.0;
      var p := TerminatePeer(s.peers[id], side.value.1, code);
      assert s.peers[id := p] - {id} == s.peers - {id};
      assert s.connects + [] == s.connects && s.used + {} == s.used;
    }
  }

  lemma ConnectedSteps(s: State, session: nat, negotiated: Codecs, bypass: bool)
    ensures var side := Side(s, session);
            OnConnected(s, session, negotiated, bypass) ==
            if side.None? then s
            else
              var (id, isLeft) := side.value;
              var p := ConnectPeer(s.peers[id], isLeft, negotiated, bypass);
              Recorded(s.(peers := s.peers[id := p]), ConnectCommands(s.peers[id], isLeft), 0, [session], {})
  {
    hide Find, ConnectPeer, ConnectCommands;
    assert s.used + {} == s.used;
  }

  lemma NewCallSteps(s: State, e: Event, bypass: bool)
    requires e.NewCall?
    ensures OnNewCall(s, e, bypass) ==
            if e.refused.Some? then Recorded(s, [Reject(e.left, e.refused.value)], 0, [], {e.left})
            else if e.dst.Some? && (e.audio || e.video) then
              Recorded(s.(peers := s.peers[s.nextId := FreshPeer(s.nextId, e, bypass)]),
                       [CallOut(e.right, e.dst.value, e.audio, e.video)], 1, [], {e.left, e.right})
            else Recorded(s, [RejectThroughNull(e.left, 500)], 0, [], {e.left})
  {
    hide FreshPeer;
    assert s.connects + [] == s.connects && s.log + [] == s.log;
  }

  // ------------------------------------------------------------- invariants

  predicate HungUp(log: seq<Command>, session: nat) {
    exists i :: 0 <= i < |log| && log[i].Hangup? && log[i].session == session
  }

  predicate Accepted(log: seq<Command>, session: nat) {
    exists i :: 0 <= i < |log| && log[i] == Accept(session)
  }

  // A call that is in the table.
  ghost predicate LegsOk(p: Peer, log: seq<Command>) {
    && (Active(p.leftState) || Active(p.rightState))
    && (Active(p.leftState) || p.leftState.Terminated?) && (Active(p.rightState) || p.rightState.Terminated?)
    && p.left.state == p.leftState && p.right.state == p.rightState
    && (p.leftState.Terminated? ==> HungUp(log, p.right.id) && p.left.opposite.None?)
    && (p.rightState.Terminated? ==> HungUp(log, p.left.id) && p.right.opposite.None?)
    && (p.left.opposite.Some? ==> p.left.opposite.value == p.right.id)
    && (p.right.opposite.Some? ==> p.right.opposite.value == p.left.id)
  }

  // Each peer is keyed by its own id, below the next one, and has its own two sessions.
  ghost predicate TableOk(s: State) {
    && (forall id :: id in s.peers ==> s.peers[id].id == id && 0 < id < s.nextId)
    && (forall id :: id in s.peers ==> s.peers[id].left.id != s.peers[id].right.id)
    && (forall id :: id in s.peers ==> s.peers[id].left.id in s.used && s.peers[id].right.id in s.used)
    && (forall a, b :: a in s.peers && b in s.peers && a != b ==> Apart(s.peers[a], s.peers[b]))
    && s.nextId > 0
  }

  predicate Apart(p: Peer, q: Peer) {
    p.left.id != q.left.id && p.left.id != q.right.id && p.right.id != q.left.id && p.right.id != q.right.id
  }

  // Some position before j.
  predicate Before(connects: seq<nat>, session: nat, j: nat) {
    exists i :: 0 <= i < j && i < |connects| && connects[i] == session
  }

  // A left leg connects only after its right leg, and is accepted only then; with the
  // media coder off, what it may use is part of what the right leg may use.
  ghost predicate AnswerOk(p: Peer, s: State, bypass: bool) {
    && (Accepted(s.log, p.left.id) ==> Before(s.connects, p.right.id, |s.connects|))
    && (forall j :: 0 <= j < |s.connects| && s.connects[j] == p.left.id ==> Before(s.connects, p.right.id, j))
    && (p.leftState.Connected? ==> Before(s.connects, p.left.id, |s.connects|))
    && (bypass ==> p.right.supported.Some?)
    && (bypass && p.left.supported.Some? ==> p.left.supported.value <= p.right.supported.value)
    && (bypass && Accepted(s.log, p.left.id) ==> p.left.supported.Some?)
  }

  // Ids that were never used have left no trace.
  ghost predicate TraceOk(s: State) {
    && (forall i :: 0 <= i < |s.log| && !s.log[i].Attach? ==> s.log[i].session in s.used)
    && (forall i :: 0 <= i < |s.connects| ==> s.connects[i] in s.used)
  }

  ghost predicate RunOk(s: State, bypass: bool) {
    && TableOk(s) && TraceOk(s)
    && (forall id :: id in s.peers ==> LegsOk(s.peers[id], s.log))
    && (forall id :: id in s.peers ==> AnswerOk(s.peers[id], s, bypass))
  }

  // What the SIP stack promises: sessions of a new call are new; a left leg connects only
  // after it was accepted; what a right leg negotiates is among what it may use.
  ghost predicate StackKeepsPromise(s: State, e: Event) {
    match e
    case NewCall(left, right, _, _, _, _, _) => left !in s.used && right !in s.used && left != right
    case LegConnected(session, negotiated) =>
      var side := Side(s, session);
      side.Some? ==>
        var (id, isLeft) := side.value;
        if isLeft then Accepted(s.log, session)
        else s.peers[id].right.supported.Some? ==> negotiated <= s.peers[id].right.supported.value
    case LegTerminated(_, _) => true
  }

  function Run(events: seq<Event>, bypass: bool): State {
    if events == [] then Initial()
    else Step(Run(events[..|events| - 1], bypass), events[|events| - 1], bypass)
  }

  ghost predicate Promised(events: seq<Event>, bypass: bool) {
    events != [] ==>
      && Promised(events[..|events| - 1], bypass)
      && StackKeepsPromise(Run(events[..|events| - 1], bypass), events[|events| - 1])
  }

  // ----------------------------------------------------------------- proofs

  lemma {:induction false} FindAll(peers: map<nat, Peer>, session: nat, isLeft: bool, from: nat, bound: nat)
    ensures Find(peers, session, isLeft, from, bound).None? ==>
              forall id :: from <= id < bound && id in peers ==>
                session != if isLeft then peers[id].left.id else peers[id].right.id
    decreases bound - from
  {
    if from < bound { FindAll(peers, session, isLeft, from + 1, bound); }
  }

  // A session belongs to at most one leg, and the lookup finds it.
  lemma SideIsOwner(s: State, session: nat, id: nat, isLeft: bool)
    requires TableOk(s) && id in s.peers && session == if isLeft then s.peers[id].left.id else s.peers[id].right.id
    ensures Side(s, session) == Some((id, isLeft))
  {
    FindAll(s.peers, session, true, 0, s.nextId);
    FindAll(s.peers, session, false, 0, s.nextId);
    hide Find;
    assert forall k :: k in s.peers && k != id ==> Apart(s.peers[k], s.peers[id]);
  }

  // More commands and more connects only add.
  lemma LegsOkGrows(p: Peer, log: seq<Command>, more: seq<Command>)
    requires LegsOk(p, log)
    ensures LegsOk(p, log + more)
  {
    HungUpGrows(log, more, p.left.id);
    HungUpGrows(log, more, p.right.id);
    hide HungUp;
  }

  lemma HungUpGrows(log: seq<Command>, more: seq<Command>, session: nat)
    ensures HungUp(log + more, session) <==> HungUp(log, session) || HungUp(more, session)
  {
    var both := log + more;
    if HungUp(log, session) {
      var i :| 0 <= i < |log| && log[i].Hangup? && log[i].session == session;
      assert both[i] == log[i];
    }
    if HungUp(more, session) {
      var i :| 0 <= i < |more| && more[i].Hangup? && more[i].session == session;
      assert both[|log| + i] == more[i];
    }
  }

  lemma AcceptedGrows(log: seq<Command>, more: seq<Command>, session: nat)
    ensures Accepted(log + more, session) <==> Accepted(log, session) || Accepted(more, session)
  {
    var both := log + more;
    if Accepted(log, session) {
      var i :| 0 <= i < |log| && log[i] == Accept(session);
      assert both[i] == log[i];
    }
    if Accepted(more, session) {
      var i :| 0 <= i < |more| && more[i] == Accept(session);
      assert both[|log| + i] == more[i];
    }
  }

  lemma BeforeGrows(connects: seq<nat>, more: seq<nat>, session: nat, j: nat)
    requires j <= |connects|
    ensures Before(connects + more, session, j) <==> Before(connects, session, j)
  {
    var both := connects + more;
    if Before(connects, session, j) {
      var i :| 0 <= i < j && i < |connects| && connects[i] == session;
      assert both[i] == session;
    }
  }

  lemma BeforeLater(connects: seq<nat>, session: nat, j: nat, k: nat)
    requires Before(connects, session, j) && j <= k
    ensures Before(connects, session, k)
  {
  }

  // A call is not affected by commands and connects of other sessions.
  lemma AnswerGrows(p: Peer, s: State, t: State, log: seq<Command>, connects: seq<nat>, bypass: bool)
    requires AnswerOk(p, s, bypass) && t.log == s.log + log && t.connects == s.connects + connects
    requires !Accepted(log, p.left.id) && p.left.id !in connects
    ensures AnswerOk(p, t, bypass)
  {
    AcceptedGrows(s.log, log, p.left.id);
    ConnectsGrow(p, s.connects, connects);
    hide Accepted, Before;
  }

  lemma ConnectsGrow(p: Peer, old_: seq<nat>, more: seq<nat>)
    ensures forall j :: 0 <= j <= |old_| ==> (Before(old_ + more, p.right.id, j) <==> Before(old_, p.right.id, j))
    ensures Before(old_, p.right.id, |old_|) ==> Before(old_ + more, p.right.id, |old_ + more|)
    ensures Before(old_, p.left.id, |old_|) ==> Before(old_ + more, p.left.id, |old_ + more|)
    ensures p.left.id !in more ==>
              forall j :: 0 <= j < |old_ + more| && (old_ + more)[j] == p.left.id ==>
                            j < |old_| && old_[j] == p.left.id
  {
    forall j | 0 <= j <= |old_|
      ensures Before(old_ + more, p.right.id, j) <==> Before(old_, p.right.id, j)
    {
      BeforeGrows(old_, more, p.right.id, j);
    }
    BeforeGrows(old_, more, p.left.id, |old_|);
    if Before(old_, p.right.id, |old_|) { BeforeLater(old_ + more, p.right.id, |old_|, |old_ + more|); }
    if Before(old_, p.left.id, |old_|) { BeforeLater(old_ + more, p.left.id, |old_|, |old_ + more|); }
  }

  lemma ConnectLegs(p: Peer, log: seq<Command>, isLeft: bool, negotiated: Codecs, bypass: bool)
    requires LegsOk(p, log)
    ensures LegsOk(ConnectPeer(p, isLeft, negotiated, bypass), log + ConnectCommands(p, isLeft))
  {
    hide HungUp;
    LegsOkGrows(p, log, ConnectCommands(p, isLeft));
  }

  lemma TerminateLegs(p: Peer, log: seq<Command>, isLeft: bool, code: nat)
    requires LegsOk(p, log)
    ensures var q := TerminatePeer(p, isLeft, code);
            !Over(q) ==> LegsOk(q, log + HangupCommands(q, code))
  {
    var q := TerminatePeer(p, isLeft, code);
    var more := HangupCommands(q, code);
    HungUpGrows(log, more, p.left.id);
    HungUpGrows(log, more, p.right.id);
    if Active(q.leftState) { assert more[0] == Hangup(p.left.id, code) && HungUp(more, p.left.id); }
    if Active(q.rightState) { assert more[|more| - 1] == Hangup(p.right.id, code) && HungUp(more, p.right.id); }
    hide HungUp;
  }

  lemma ConnectAnswers(p: Peer, s: State, t: State, isLeft: bool, negotiated: Codecs, bypass: bool)
    requires AnswerOk(p, s, bypass) && p.left.id != p.right.id
    requires t.log == s.log + ConnectCommands(p, isLeft)
    requires t.connects == s.connects + [if isLeft then p.left.id else p.right.id]
    requires if isLeft then Accepted(s.log, p.left.id)
             else p.right.supported.Some? ==> negotiated <= p.right.supported.value
    ensures AnswerOk(ConnectPeer(p, isLeft, negotiated, bypass), t, bypass)
  {
    var more, one := ConnectCommands(p, isLeft), [if isLeft then p.left.id else p.right.id];
    AcceptedGrows(s.log, more, p.left.id);
    ConnectsGrow(p, s.connects, one);
    Latest(s.connects, one[0]);
    assert isLeft ==> !Accepted(more, p.left.id);
    assert !isLeft && Accepted(more, p.left.id) ==> !p.leftState.Connected?;
    hide Accepted, Before;
  }

  lemma Latest(connects: seq<nat>, session: nat)
    ensures Before(connects + [session], session, |connects| + 1)
  {
    assert (connects + [session])[|connects|] == session;
  }

  lemma NoAcceptElsewhere(p: Peer, q: Peer, isLeft: bool, code: nat)
    requires Apart(p, q)
    ensures !Accepted(ConnectCommands(p, isLeft), q.left.id)
    ensures !Accepted(HangupCommands(p, code), q.left.id)
  {
  }

  // One step for the legs' states.
  lemma StepLegs(s: State, e: Event, bypass: bool, id: nat)
    requires TableOk(s) && id in Step(s, e, bypass).peers
    requires forall k :: k in s.peers ==> LegsOk(s.peers[k], s.log)
    ensures LegsOk(Step(s, e, bypass).peers[id], Step(s, e, bypass).log)
  {
    hide HungUp, Find;
    match e {
      case NewCall(_, _, _, _, _, _, _) =>
        if id in s.peers {
          if e.refused.Some? { LegsOkGrows(s.peers[id], s.log, [Reject(e.left, e.refused.value)]); }
          else if GoesNowhere(e) { LegsOkGrows(s.peers[id], s.log, [RejectThroughNull(e.left, 500)]); }
          else { LegsOkGrows(s.peers[id], s.log, [CallOut(e.right, e.dst.value, e.audio, e.video)]); }
        }
      case LegConnected(session, negotiated) =>
        var side := Side(s, session);
        if side.Some? {
          var p := s.peers[side.value.0];
          if id == side.value.0 {
            ConnectLegs(p, s.log, side.value.1, negotiated, bypass);
          } else {
            LegsOkGrows(s.peers[id], s.log, ConnectCommands(p, side.value.1));
          }
        }
      case LegTerminated(session, code) =>
        var side := Side(s, session);
        if side.Some? {
          var p := s.peers[side.value.0];
          if id == side.value.0 {
            TerminateLegs(p, s.log, side.value.1, code);
          } else {
            LegsOkGrows(s.peers[id], s.log, HangupCommands(TerminatePeer(p, side.value.1, code), code));
          }
        }
    }
  }

  // One step for the order of answers and the codecs.
  lemma StepAnswers(s: State, e: Event, bypass: bool, id: nat)
    requires RunOk(s, bypass) && StackKeepsPromise(s, e) && id in Step(s, e, bypass).peers
    ensures AnswerOk(Step(s, e, bypass).peers[id], Step(s, e, bypass), bypass)
  {
    hide Accepted, Before, LegsOk, Find;
    var t := Step(s, e, bypass);
    match e {
      case NewCall(_, _, _, _, _, _, _) =>
        NewCallAnswers(s, e, bypass, id);
      case LegConnected(session, negotiated) =>
        var side := Side(s, session);
        if side.Some? {
          var p := s.peers[side.value.0];
          if id == side.value.0 {
            ConnectAnswers(p, s, t, side.value.1, negotiated, bypass);
          } else {
            NoAcceptElsewhere(p, s.peers[id], side.value.1, 0);
            AnswerGrows(s.peers[id], s, t, ConnectCommands(p, side.value.1), [session], bypass);
          }
        }
      case LegTerminated(session, code) =>
        var side := Side(s, session);
        if side.Some? {
          var p := s.peers[side.value.0];
          var q := TerminatePeer(p, side.value.1, code);
          assert s.connects + [] == s.connects;
          if id == side.value.0 {
            assert !Accepted(HangupCommands(q, code), q.left.id) by { NoAccept(q, code); }
            AnswerGrows(p, s, t, HangupCommands(q, code), [], bypass);
          } else {
            NoAcceptElsewhere(q, s.peers[id], side.value.1, code);
            AnswerGrows(s.peers[id], s, t, HangupCommands(q, code), [], bypass);
          }
        }
    }
  }

  lemma NoAccept(p: Peer, code: nat)
    ensures !Accepted(HangupCommands(p, code), p.left.id)
  {
  }

  lemma NewCallAnswers(s: State, e: Event, bypass: bool, id: nat)
    requires RunOk(s, bypass) && e.NewCall? && StackKeepsPromise(s, e) && id in OnNewCall(s, e, bypass).peers
    ensures var t := OnNewCall(s, e, bypass); AnswerOk(t.peers[id], t, bypass)
  {
    var t := OnNewCall(s, e, bypass);
    var more := t.log[|s.log|..];
    assert t.log == s.log + more && !Accepted(more, t.peers[id].left.id);
    assert s.connects + [] == s.connects;
    if id in s.peers {
      AnswerGrows(s.peers[id], s, t, more, [], bypass);
    } else {
      AcceptedGrows(s.log, more, e.left);
      assert !Accepted(s.log, e.left);
    }
  }

  // Changing a call but not its ids, or dropping it, keeps the table in order.
  lemma UpdateTable(s: State, t: State, id: nat, p: Peer)
    requires TableOk(s) && id in s.peers && t.nextId == s.nextId && t.used == s.used
    requires p.id == id && p.left.id == s.peers[id].left.id && p.right.id == s.peers[id].right.id
    requires t.peers == s.peers[id := p] || t.peers == s.peers - {id}
    ensures TableOk(t)
  {
  }

  lemma AddToTable(s: State, t: State, p: Peer)
    requires TableOk(s) && t.nextId == s.nextId + 1 && t.peers == s.peers[s.nextId := p] && p.id == s.nextId
    requires p.left.id !in s.used && p.right.id !in s.used && p.left.id != p.right.id
    requires t.used == s.used + {p.left.id, p.right.id}
    ensures TableOk(t)
  {
  }

  lemma CommandsUsed(p: Peer, used: set<nat>, isLeft: bool, code: nat)
    requires p.left.id in used && p.right.id in used
    ensures forall c :: c in ConnectCommands(p, isLeft) && !c.Attach? ==> c.session in used
    ensures forall c :: c in HangupCommands(p, code) && !c.Attach? ==> c.session in used
  {
  }

  lemma TraceGrows(s: State, t: State, log: seq<Command>, connects: seq<nat>)
    requires TraceOk(s) && t.log == s.log + log && t.connects == s.connects + connects && s.used <= t.used
    requires forall c :: c in log && !c.Attach? ==> c.session in t.used
    requires forall x :: x in connects ==> x in t.used
    ensures TraceOk(t)
  {
    forall i | 0 <= i < |t.log| && !t.log[i].Attach? ensures t.log[i].session in t.used {
      if i >= |s.log| { assert t.log[i] == log[i - |s.log|]; }
    }
  }

  lemma NewCallTable(s: State, e: Event, bypass: bool)
    requires TableOk(s) && TraceOk(s) && e.NewCall? && StackKeepsPromise(s, e)
    ensures TableOk(OnNewCall(s, e, bypass)) && TraceOk(OnNewCall(s, e, bypass))
  {
    hide Accepted, Find, TraceOk;
    var t := OnNewCall(s, e, bypass);
    assert s.connects + [] == s.connects && s.log + [] == s.log;
    if e.refused.None? && e.dst.Some? && (e.audio || e.video) {
      AddToTable(s, t, t.peers[s.nextId]);
      TraceGrows(s, t, [CallOut(e.right, e.dst.value, e.audio, e.video)], []);
    } else {
      var reject := if e.refused.Some? then Reject(e.left, e.refused.value) else RejectThroughNull(e.left, 500);
      TraceGrows(s, t, [reject], []);
    }
  }

  lemma ConnectedTable(s: State, session: nat, negotiated: Codecs, bypass: bool)
    requires TableOk(s) && TraceOk(s) && StackKeepsPromise(s, LegConnected(session, negotiated))
    ensures var t := OnConnected(s, session, negotiated, bypass); TableOk(t) && TraceOk(t)
  {
    hide Accepted, Find, TraceOk;
    var t, side := OnConnected(s, session, negotiated, bypass), Side(s, session);
    assert s.connects + [] == s.connects && s.log + [] == s.log;
    if side.Some? {
      var (id, isLeft) := side.value;
      CommandsUsed(s.peers[id], s.used, isLeft, 0);
      UpdateTable(s, t, id, ConnectPeer(s.peers[id], isLeft, negotiated, bypass));
      TraceGrows(s, t, ConnectCommands(s.peers[id], isLeft), [session]);
    }
  }

  lemma TerminatedTable(s: State, session: nat, code: nat)
    requires TableOk(s) && TraceOk(s)
    ensures var t := OnTerminated(s, session, code); TableOk(t) && TraceOk(t)
  {
    hide Accepted, Find, TraceOk;
    var t, side := OnTerminated(s, session, code), Side(s, session);
    assert s.connects + [] == s.connects && s.log + [] == s.log;
    if side.Some? {
      var (id, isLeft) := side.value;
      var p := TerminatePeer(s.peers[id], isLeft, code);
      CommandsUsed(p, s.used, isLeft, code);
      UpdateTable(s, t, id, p);
      TraceGrows(s, t, HangupCommands(p, code), []);
    }
  }

  lemma StepTable(s: State, e: Event, bypass: bool)
    requires TableOk(s) && TraceOk(s) && StackKeepsPromise(s, e)
    ensures TableOk(Step(s, e, bypass)) && TraceOk(Step(s, e, bypass))
  {
    hide TableOk, TraceOk, OnNewCall, OnConnected, OnTerminated;
    match e {
      case NewCall(_, _, _, _, _, _, _) => NewCallTable(s, e, bypass);
      case LegConnected(session, negotiated) => ConnectedTable(s, session, negotiated, bypass);
      case LegTerminated(session, code) => TerminatedTable(s, session, code);
    }
  }

  // --------------------------------------------------- calls that go nowhere

  // The commands of one event.
  function CommandsOf(s: State, e: Event, bypass: bool): seq<Command>
    requires |Step(s, e, bypass).log| >= |s.log|
  {
    Step(s, e, bypass).log[|s.log|..]
  }

  lemma NullRejectOfStep(s: State, e: Event, bypass: bool)
    ensures s.log <= Step(s, e, bypass).log
    ensures forall c :: c in CommandsOf(s, e, bypass) && c.RejectThroughNull? <==>
                          GoesNowhere(e) && c == RejectThroughNull(e.left, 500)
    ensures GoesNowhere(e) ==> Step(s, e, bypass).peers == s.peers
  {
    hide Find, FreshPeer, ConnectPeer, TerminatePeer, Over;
  }

  // Over every run: the code calls reject through a null pointer exactly for the new calls
  // that go nowhere, once for each as it comes; these callers get no answer from it.
  lemma {:induction false} NullRejectIff(events: seq<Event>, bypass: bool, session: nat, code: nat)
    ensures RejectThroughNull(session, code) in Run(events, bypass).log <==>
            code == 500 && exists i :: 0 <= i < |events| && GoesNowhere(events[i]) && events[i].left == session
    decreases |events|
  {
    hide Step, GoesNowhere;
    if events == [] {
    } else {
      var before, e := events[..|events| - 1], events[|events| - 1];
      NullRejectIff(before, bypass, session, code);
      var s, t := Run(before, bypass), Run(events, bypass);
      NullRejectOfStep(s, e, bypass);
      assert t.log == s.log + CommandsOf(s, e, bypass);
      assert forall i :: 0 <= i < |before| ==> events[i] == before[i];
      assert GoesNowhere(e) ==> events[|before|] == e;
      var c := RejectThroughNull(session, code);
      assert c in t.log <==> c in s.log || c in CommandsOf(s, e, bypass);
    }
  }

  // Every event keeps everything that is claimed of the calls in the table.
  lemma StepKeeps(s: State, e: Event, bypass: bool)
    requires RunOk(s, bypass) && StackKeepsPromise(s, e)
    ensures RunOk(Step(s, e, bypass), bypass)
  {
    StepTable(s, e, bypass);
    var t := Step(s, e, bypass);
    forall id | id in t.peers ensures LegsOk(t.peers[id], t.log) && AnswerOk(t.peers[id], t, bypass) {
      StepLegs(s, e, bypass, id);
      StepAnswers(s, e, bypass, id);
    }
    hide LegsOk, AnswerOk, Step;
  }

  // Over every run: each stored call has an active leg, a leg whose opposite has terminated
  // was hung up, legs connect right before left, and codecs narrow from left to right to left.
  lemma {:induction false} BridgeInvariant(events: seq<Event>, bypass: bool)
    requires Promised(events, bypass)
    ensures RunOk(Run(events, bypass), bypass)
    decreases |events|
  {
    if events != [] {
      BridgeInvariant(events[..|events| - 1], bypass);
      StepKeeps(Run(events[..|events| - 1], bypass), events[|events| - 1], bypass);
    } else {
      assert !Accepted([], 0);
    }
  }

  // A call leaves the table exactly at the event that terminates its last active leg.
  lemma RemovedIff(s: State, e: Event, bypass: bool, id: nat)
    requires RunOk(s, bypass) && StackKeepsPromise(s, e) && id in s.peers
    ensures
      var p := s.peers[id];
      id !in Step(s, e, bypass).peers <==>
      && e.LegTerminated?
      && ((e.session == p.left.id && !Active(p.rightState)) || (e.session == p.right.id && !Active(p.leftState)))
  {
    var p := s.peers[id];
    if e.LegTerminated? {
      hide HungUp, Accepted, Before, Find;
      if e.session == p.left.id { SideIsOwner(s, e.session, id, true); }
      else if e.session == p.right.id { SideIsOwner(s, e.session, id, false); }
    }
  }

  // A call that is gone never comes back, since ids are not used again.
  lemma {:induction false} GoneForever(before: seq<Event>, after: seq<Event>, bypass: bool, id: nat)
    requires id < Run(before, bypass).nextId && id !in Run(before, bypass).peers
    ensures id !in Run(before + after, bypass).peers && id < Run(before + after, bypass).nextId
    decreases |after|
  {
    if after == [] {
      assert before + after == before;
    } else {
      var last := |after| - 1;
      GoneForever(before, after[..last], bypass, id);
      assert (before + after)[..|before + after| - 1] == before + after[..last];
      assert (before + after)[|before + after| - 1] == after[last];
    }
  }

  // When a call leaves the table both its sessions have let go of each other.
  lemma NothingHeldWhenRemoved(s: State, session: nat, code: nat, bypass: bool)
    requires RunOk(s, bypass)
    ensures
      var side := Side(s, session);
      side.Some? && Over(TerminatePeer(s.peers[side.value.0], side.value.1, code)) ==>
        var p := TerminatePeer(s.peers[side.value.0], side.value.1, code);
        p.left.opposite.None? && p.right.opposite.None? && p.left.state.Terminated? && p.right.state.Terminated?
  {
    hide HungUp, Accepted, Before, Find;
    var side := Side(s, session);
    if side.Some? { assert LegsOk(s.peers[side.value.0], s.log); }
  }

  // ----------------------------------------------------------------- codecs

  predicate LetIn(e: Event) { e.NewCall? && e.refused.None? && e.dst.Some? && (e.audio || e.video) }

  // What the stack negotiated with the caller when this call was let in.
  function FirstNegotiated(events: seq<Event>, bypass: bool, id: nat): Option<Codecs> {
    if events == [] then None
    else
      var before, e := events[..|events| - 1], events[|events| - 1];
      if LetIn(e) && Run(before, bypass).nextId == id then Some(e.negotiated) else FirstNegotiated(before, bypass, id)
  }

  // With the media coder off, over every run: the right leg of a stored call may use just
  // what was first negotiated on its left.
  lemma {:induction false} RightIsOfferedLeftCodecs(events: seq<Event>, id: nat)
    requires id in Run(events, true).peers
    ensures FirstNegotiated(events, true, id).Some?
    ensures Run(events, true).peers[id].right.supported == FirstNegotiated(events, true, id)
    decreases |events|
  {
    var before, e := events[..|events| - 1], events[|events| - 1];
    hide Find;
    if !(LetIn(e) && Run(before, true).nextId == id) {
      RightOfferStays(Run(before, true), e, id);
      RightIsOfferedLeftCodecs(before, id);
    }
  }

  lemma RightOfferStays(s: State, e: Event, id: nat)
    requires id in Step(s, e, true).peers && !(LetIn(e) && s.nextId == id)
    ensures id in s.peers && Step(s, e, true).peers[id].right.supported == s.peers[id].right.supported
  {
    hide Find;
  }

  // And whatever the left leg is offered later is part of it.
  lemma CodecsNarrow(events: seq<Event>, id: nat)
    requires Promised(events, true) && id in Run(events, true).peers
    ensures var p, first := Run(events, true).peers[id], FirstNegotiated(events, true, id);
            && first.Some? && (p.left.supported.Some? ==> p.left.supported.value <= first.value)
            && (Accepted(Run(events, true).log, p.left.id) ==> p.left.supported.Some?)
  {
    BridgeInvariant(events, true);
    RightIsOfferedLeftCodecs(events, id);
    hide Run, TableOk, TraceOk, LegsOk, Accepted, Before, FirstNegotiated;
  }

  // When the right leg answers and the left is not up yet, the left is accepted with just
  // the codecs that the right has negotiated, part of those first negotiated on the left.
  lemma AnswerOffersRightCodecs(events: seq<Event>, session: nat, negotiated: Codecs, id: nat)
    requires id in Run(events, true).peers
    requires var p := Run(events, true).peers[id]; session == p.right.id && !p.leftState.Connected?
    requires Promised(events + [LegConnected(session, negotiated)], true)
    ensures
      var t := Run(events + [LegConnected(session, negotiated)], true);
      && id in t.peers && t.peers[id].left.supported == Some(negotiated)
      && FirstNegotiated(events, true, id).Some? && negotiated <= FirstNegotiated(events, true, id).value
      && Accepted(t.log, t.peers[id].left.id)
  {
    var e := LegConnected(session, negotiated);
    assert (events + [e])[..|events|] == events;
    BridgeInvariant(events, true);
    RightIsOfferedLeftCodecs(events, id);
    var s := Run(events, true);
    assert Run(events + [e], true) == Step(s, e, true);
    hide Run, FirstNegotiated;
    AnswerStep(s, session, negotiated, id);
  }

  lemma AnswerStep(s: State, session: nat, negotiated: Codecs, id: nat)
    requires RunOk(s, true) && id in s.peers && session == s.peers[id].right.id && !s.peers[id].leftState.Connected?
    requires StackKeepsPromise(s, LegConnected(session, negotiated))
    ensures
      var t := Step(s, LegConnected(session, negotiated), true);
      && id in t.peers && t.peers[id].left.supported == Some(negotiated)
      && s.peers[id].right.supported.Some? && negotiated <= s.peers[id].right.supported.value
      && Accepted(t.log, t.peers[id].left.id)
  {
    SideIsOwner(s, session, id, false);
    hide HungUp, Before, Find;
    var p := s.peers[id];
    var more := ConnectCommands(p, false);
    assert AnswerOk(p, s, true);
    assert more[0] == Accept(p.left.id);
    AcceptedGrows(s.log, more, p.left.id);
  }
}
