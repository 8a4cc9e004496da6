// The bridge as objects: sessions, peers and the engine with its peer table, changed in
// place by the handlers of SIP events, each tied to the steps of CallBridge.

module CallEngine {
  import opened Common
  import opened CallBridge

  class SipSessionAV {
    const id: nat
    const bypass: bool
    var state: LegState
    var opposite: SipSessionAV?
    var supported: Option<Codecs>
    var negotiated: Codecs
    var hasRtcpCallback: bool

    constructor (id: nat, negotiated: Codecs, bypass: bool)
      ensures View() == Session(id, Idle, None, None, negotiated) && !hasRtcpCallback && this.bypass == bypass
    {
      this.id := id;
      this.bypass := bypass;
      this.negotiated := negotiated;
      state, opposite, supported, hasRtcpCallback := Idle, null, None, false;
    }

    function View(): Session
      reads this
    {
      Session(id, state, if opposite == null then None else Some(opposite.id), supported, negotiated)
    }

    method SetSessionOpposite(x: SipSessionAV?)
      modifies `opposite
      ensures opposite == x
    {
      opposite := x;
    }

    // A session that connects with the media coder off installs its callback for RTCP, once.
    method SetState(s: LegState)
      modifies `state, `opposite, `hasRtcpCallback
      ensures View() == InState(old(View()), s)
      ensures hasRtcpCallback == (old(hasRtcpCallback) || (s.Connected? && bypass))
    {
      state := s;
      match s {
        case Connected => if !hasRtcpCallback && bypass { hasRtcpCallback := true; }
        case Terminated => SetSessionOpposite(null);
        case _ =>
      }
    }
  }

  class MPPeer {
    const id: nat
    const left: SipSessionAV
    var right: SipSessionAV?
    var leftState: LegState
    var rightState: LegState
    var lastLeft: nat
    var lastRight: nat

    constructor (id: nat, left: SipSessionAV)
      ensures this.id == id && this.left == left && right == null
      ensures leftState == rightState == Idle && lastLeft == lastRight == 0
    {
      this.id := id;
      this.left := left;
      right, leftState, rightState, lastLeft, lastRight := null, Idle, Idle, 0, 0;
    }

    function View(): Peer
      requires right != null
      reads this, left, right
    {
      Peer(id, left.View(), right.View(), leftState, rightState, lastLeft, lastRight)
    }

    predicate IsSessionLeftActive() reads `leftState { Active(leftState) }

    predicate IsSessionRightActive() reads `rightState { Active(rightState) }

    // The part of the handlers that changes a leg; a leg that is still active is hung up.
    method Terminate(isLeft: bool, code: nat) returns (commands: seq<Command>, over: bool)
      requires right != null && left != right
      modifies this, left, right
      ensures right == old(right) && View() == TerminatePeer(old(View()), isLeft, code)
      ensures commands == HangupCommands(View(), code) && over == Over(View())
    {
      if isLeft {
        SetSessionLeftState(Terminated);
        lastLeft := code;
      } else {
        SetSessionRightState(Terminated);
        lastRight := code;
      }
      commands := [];
      if IsSessionLeftActive() {
        commands := commands + [Hangup(left.id, code)];
      }
      if IsSessionRightActive() {
        commands := commands + [Hangup(right.id, code)];
      }
      over := !IsSessionLeftActive() && !IsSessionRightActive();
    }

    // `negotiated` is what the SIP stack has settled on for the leg that connects.
    method Connect(isLeft: bool, negotiated: Codecs, bypass: bool) returns (commands: seq<Command>)
      requires right != null && left != right
      modifies this, left, right
      ensures right == old(right) && View() == ConnectPeer(old(View()), isLeft, negotiated, bypass)
      ensures commands == ConnectCommands(old(View()), isLeft)
    {
      commands := [];
      if isLeft {
        left.negotiated := negotiated;
        SetSessionLeftState(Connected);
      } else {
        right.negotiated := negotiated;
        SetSessionRightState(Connected);
        if !leftState.Connected? {
          if bypass {
            left.supported := Some(right.negotiated);
          }
          commands := commands + [Accept(left.id)];
        }
      }
      if leftState.Connected? && rightState.Connected? {
        commands := commands + [Attach(id)];
      }
    }

    method SetSessionLeftState(s: LegState)
      modifies `leftState, left`state, left`opposite, left`hasRtcpCallback
      ensures leftState == s && left.View() == InState(old(left.View()), s)
      ensures left.hasRtcpCallback == (old(left.hasRtcpCallback) || (s.Connected? && left.bypass))
    {
      leftState := s;
      left.SetState(s);
    }

    method SetSessionRightState(s: LegState)
      requires right != null
      modifies `rightState, right`state, right`opposite, right`hasRtcpCallback
      ensures rightState == s && right.View() == InState(old(right.View()), s)
      ensures right.hasRtcpCallback == (old(right.hasRtcpCallback) || (s.Connected? && right.bypass))
    {
      rightState := s;
      right.SetState(s);
    }
  }

  // The peer of a new call, with its two sessions holding each other.
  method MakePeer(id: nat, e: Event, bypass: bool) returns (peer: MPPeer)
    requires e.NewCall?
    ensures fresh(peer) && fresh(peer.left) && peer.right != null && fresh(peer.right) && peer.left != peer.right
    ensures peer.id == id && peer.View() == FreshPeer(id, e, bypass)
  {
    var left := new SipSessionAV(e.left, e.negotiated, bypass);
    peer := new MPPeer(id, left);
    peer.SetSessionLeftState(Connecting);
    var right := new SipSessionAV(e.right, {}, bypass);
    right.SetSessionOpposite(left);
    left.SetSessionOpposite(right);
    if bypass {
      right.supported := Some(left.negotiated);
    }
    peer.right := right;
    peer.SetSessionRightState(Connecting);
  }

  class Engine {
    const bypass: bool
    var peers: map<nat, MPPeer>
    var nextId: nat
    var log: seq<Command>
    ghost var connects: seq<nat>
    ghost var used: set<nat>

    constructor (bypass: bool)
      ensures this.bypass == bypass && Valid() && View() == Initial()
    {
      this.bypass := bypass;
      peers, nextId, log, connects, used := map[], 1, [], [], {};
    }

    ghost function Objects(): (r: set<object>)
      reads `peers, peers.Values
      ensures this !in r
    {
      peers.Values + (set id | id in peers :: peers[id].left)
      + (set id | id in peers && peers[id].right != null :: peers[id].right)
    }

    // Every peer has two sessions of its own, and no object serves two calls.
    ghost predicate Valid()
      reads `peers, peers.Values
    {
      && (forall id :: id in peers ==> peers[id].right != null && peers[id].left != peers[id].right)
      && (forall a, b :: a in peers && b in peers && a != b ==> Disjoint(peers[a], peers[b]))
    }

    ghost predicate Disjoint(p: MPPeer, q: MPPeer)
      reads p, q
    {
      p != q && p.left != q.left && p.left != q.right && p.right != q.left && p.right != q.right
    }

    // The table as a value; it does not depend on the other fields of the engine.
    ghost function Peers(): (m: map<nat, Peer>)
      requires Valid()
      reads `peers, peers.Values, Objects()
      ensures m.Keys == peers.Keys
    {
      map id | id in peers :: peers[id].View()
    }

    ghost function View(): State
      requires Valid()
      reads this, peers.Values, Objects()
    {
      State(Peers(), nextId, log, connects, used)
    }

    // std::find_if over the map, which is ordered by id.
    method GetPeerBySessionId(session: nat, isLeft: bool, ghost table: map<nat, Peer>) returns (r: Option<nat>)
      requires Valid() && table == Peers()
      ensures Valid() && table == Peers()
      ensures r == Find(table, session, isLeft, 0, nextId) && (r.Some? ==> r.value in peers)
    {
      var id := 0;
      while id < nextId
        invariant 0 <= id && Find(table, session, isLeft, 0, nextId) == Find(table, session, isLeft, id, nextId)
      {
        if id in peers && session == (if isLeft then peers[id].left.id else peers[id].right.id) { return Some(id); }
        id := id + 1;
      }
      r := None;
    }

    method GetSide(session: nat, ghost s: State) returns (r: Option<(nat, bool)>)
      requires Valid() && s == View()
      ensures Valid() && s == View()
      ensures r == Side(s, session) && (r.Some? ==> r.value.0 in peers)
    {
      var id := GetPeerBySessionId(session, true, s.peers);
      var isLeft := id.Some?;
      if !isLeft {
        id := GetPeerBySessionId(session, false, s.peers);
      }
      r := if id.Some? then Some((id.value, isLeft)) else None;
    }

    // Only the call `id` was touched.
    twostate lemma OneChanged(id: nat)
      requires old(Valid()) && Valid() && peers == old(peers) && id in peers
      requires forall k :: k in peers && k != id ==>
                 unchanged(peers[k]) && unchanged(peers[k].left) && unchanged(peers[k].right)
      ensures Peers() == old(Peers())[id := peers[id].View()]
    {
      forall k | k in peers && k != id ensures peers[k].View() == old(peers[k].View()) { }
    }

    method TerminateLeg(id: nat, isLeft: bool, code: nat) returns (commands: seq<Command>, over: bool)
      requires Valid() && id in peers
      modifies peers[id], peers[id].left, peers[id].right
      ensures Valid() && Peers() == old(Peers())[id := TerminatePeer(old(Peers())[id], isLeft, code)]
      ensures commands == HangupCommands(Peers()[id], code) && over == Over(Peers()[id])
      ensures var s := old(View());
              View() == s.(peers := s.peers[id := TerminatePeer(s.peers[id], isLeft, code)])
      ensures commands == HangupCommands(View().peers[id], code) && over == Over(View().peers[id])
    {
      hide TerminatePeer;
      commands, over := peers[id].Terminate(isLeft, code);
      OneChanged(id);
    }

    method ConnectLeg(id: nat, isLeft: bool, negotiated: Codecs) returns (commands: seq<Command>)
      requires Valid() && id in peers
      modifies peers[id], peers[id].left, peers[id].right
      ensures Valid() && Peers() == old(Peers())[id := ConnectPeer(old(Peers())[id], isLeft, negotiated, bypass)]
      ensures commands == ConnectCommands(old(Peers())[id], isLeft)
    {
      hide ConnectPeer, ConnectCommands;
      commands := peers[id].Connect(isLeft, negotiated, bypass);
      OneChanged(id);
    }

    method RemovePeer(id: nat)
      requires Valid()
      modifies `peers
      ensures Valid() && Peers() == old(Peers()) - {id}
      ensures View() == old(View()).(peers := old(View()).peers - {id})
    {
      peers := peers - {id};
    }

    // insert leaves an entry that is already there alone.
    method InsertPeer(peer: MPPeer)
      requires Valid() && peer.id !in peers && peer.right != null && peer.left != peer.right
      requires forall k :: k in peers ==> Disjoint(peers[k], peer)
      modifies `peers
      ensures Valid() && Peers() == old(Peers())[peer.id := old(peer.View())]
    {
      if peer.id !in peers { peers := peers[peer.id := peer]; }
    }

    // Commands to the SIP stack and ids that were handed out, with the history beside them.
    method Record(commands: seq<Command>, ids: nat, ghost connected: seq<nat>, ghost taken: set<nat>)
      requires Valid()
      modifies `log, `nextId, `connects, `used
      ensures Valid() && Peers() == old(Peers())
      ensures log == old(log) + commands && nextId == old(nextId) + ids
      ensures connects == old(connects) + connected && used == old(used) + taken
      ensures View() == Recorded(old(View()), commands, ids, connected, taken)
    {
      log := log + commands;
      nextId := nextId + ids;
      connects := connects + connected;
      used := used + taken;
      assert forall k :: k in peers ==> peers[k].View() == old(peers[k].View());
    }

    // A dialog that terminates, or is about to: the leg's state changes, a leg that is
    // still active is hung up, and a call with no active leg leaves the table.
    method OnDialogTerminated(session: nat, code: nat)
      requires Valid()
      modifies this, Objects()
      ensures Valid() && View() == OnTerminated(old(View()), session, code)
    {
      hide TerminatePeer, HangupCommands, Over, Find, Side, Peers, Valid, View, OnTerminated;
      TerminatedSteps(View(), session, code);
      var side := GetSide(session, View());
      if side.Some? {
        var (id, isLeft) := side.value;
        var commands, over := TerminateLeg(id, isLeft, code);
        Record(commands, 0, [], {});
        if over {
          RemovePeer(id);
        }
      }
    }

    method OnDialogConnected(session: nat, negotiated: Codecs)
      requires Valid()
      modifies this, Objects()
      ensures Valid() && View() == OnConnected(old(View()), session, negotiated, bypass)
    {
      hide ConnectPeer, ConnectCommands, Find, Side, Peers, Valid, OnConnected;
      ConnectedSteps(View(), session, negotiated, bypass);
      var side := GetSide(session, View());
      if side.Some? {
        var (id, isLeft) := side.value;
        var commands := ConnectLeg(id, isLeft, negotiated);
        Record(commands, 0, [session], {});
      }
    }

    method NewPeer(e: Event) returns (peer: MPPeer)
      requires Valid() && e.NewCall?
      ensures Valid() && Peers() == old(Peers())
      ensures fresh(peer) && fresh(peer.left) && peer.right != null && fresh(peer.right) && peer.left != peer.right
      ensures peer.id == nextId && peer.View() == FreshPeer(nextId, e, bypass)
    {
      hide FreshPeer;
      peer := MakePeer(nextId, e, bypass);
      assert forall k :: k in peers ==> peers[k].View() == old(peers[k].View());
    }

    // An incoming call: unless it is refused it gets a peer, and a call goes out to the
    // right. `negotiated` is what the SIP stack has settled on with the caller.
    method OnInvite(e: Event)
      requires Valid() && e.NewCall? && nextId !in peers
      modifies this
      ensures Valid() && View() == OnNewCall(old(View()), e, bypass)
    {
      hide Peers, FreshPeer, OnNewCall;
      NewCallSteps(View(), e, bypass);
      if e.refused.Some? {
        Record([Reject(e.left, e.refused.value)], 0, [], {e.left});
      } else if e.dst.Some? && (e.audio || e.video) {
        var peer := NewPeer(e);
        InsertPeer(peer);
        Record([CallOut(e.right, e.dst.value, e.audio, e.video)], 1, [], {e.left, e.right});
      } else {
        // the session has been handed over to its wrapper, and the pointer is null
        Record([RejectThroughNull(e.left, 500)], 0, [], {e.left});
      }
    }
  }
}
