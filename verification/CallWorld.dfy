// The bridge's runs on reference-counted objects: each event of CallBridge is run as the
// statements of its handler, and the live objects are at every moment those of the calls
// in the table.

module CallWorld {
  import opened Common
  import opened RefCount
  import opened CallSessions
  import opened CallHeap
  import CallBridge

  // ------------------------------------------------------------- whose is what

  // Memory, the objects of each stored call, the call that each object belongs to, and the
  // next object that was never used.
  datatype World = World(heap: Heap, at: map<nat, Trio>, owner: map<Obj, nat>, next: Obj)

  // A wrapper of this call, of a handler, or of an object that no call owns.
  predicate OfCall(owner: map<Obj, nat>, id: nat, t: Slot) {
    match t
    case Global(g) => g < 4 || g == id + 4
    case Member(o, _) => o !in owner || owner[o] == id
  }

  // The entry of a call holds its peer, and its fields hold its own objects.
  predicate Placed(owner: map<Obj, nat>, id: nat, t: Slot, y: Option<Obj>) {
    && (t.Global? ==> t == Entry(id) && y.Some?)
    && (t.Member? ==> t.owner in owner && owner[t.owner] == id)
    && (y.Some? ==> y.value in owner && owner[y.value] == id)
  }

  function CallOf(owner: map<Obj, nat>, t: Slot): nat {
    match t
    case Global(g) => if g >= 4 then g - 4 else 0
    case Member(o, _) => if o in owner then owner[o] else 0
  }

  ghost predicate Owned(h: Heap, owner: map<Obj, nat>) {
    forall t :: t in h.target ==> Placed(owner, CallOf(owner, t), t, h.target[t])
  }

  // Nothing of any other call has changed, and what is there of this one is well placed.
  ghost predicate OnlyTouches(h: Heap, r: Heap, owner: map<Obj, nat>, owner': map<Obj, nat>, id: nat) {
    && (forall t :: t in r.target && !OfCall(owner, id, t) ==> t in h.target)
    && (forall t :: t in h.target && !OfCall(owner, id, t) ==> t in r.target && r.target[t] == h.target[t])
    && (forall t :: t in r.target && OfCall(owner, id, t) ==> Placed(owner', id, t, r.target[t]))
    && (forall o :: o in owner && owner[o] != id ==>
          o in h.cells && o in r.cells && r.cells[o].arity == h.cells[o].arity && o in owner' && owner'[o] == owner[o])
    && (forall o :: o in owner' && owner'[o] != id ==> o in owner && owner[o] == owner'[o])
  }

  lemma OwnedKeeps(h: Heap, r: Heap, owner: map<Obj, nat>, owner': map<Obj, nat>, id: nat)
    requires Owned(h, owner) && OnlyTouches(h, r, owner, owner', id)
    ensures Owned(r, owner')
  {
    forall t | t in r.target ensures Placed(owner', CallOf(owner', t), t, r.target[t]) {
      if !OfCall(owner, id, t) {
        assert Placed(owner, CallOf(owner, t), t, h.target[t]);
      }
    }
  }

  ghost function Callback(h: Heap, session: Obj): set<Obj> {
    var s := Member(session, RTCP);
    if s in h.target && h.target[s].Some? then {h.target[s].value} else {}
  }

  ghost function Objects(h: Heap, c: Trio): set<Obj> {
    {c.peer, c.left, c.right} + Callback(h, c.left) + Callback(h, c.right)
  }

  // A call of the table: its objects are wired, and they are all that belongs to it.
  ghost predicate Hosted(h: Heap, owner: map<Obj, nat>, id: nat, c: Trio, leftHolds: bool, rightHolds: bool) {
    && Call(h, {Entry(id)}, c, leftHolds, rightHolds) && OwnCallback(h, c.left) && OwnCallback(h, c.right)
    && forall o :: o in owner && owner[o] == id <==> o in Objects(h, c)
  }

  // The wrappers on an object of another call, and the fields of one, are as they were.
  lemma HoldersKeep(h: Heap, r: Heap, owner: map<Obj, nat>, owner': map<Obj, nat>, id: nat, o: Obj)
    requires Owned(h, owner) && OnlyTouches(h, r, owner, owner', id) && o in owner && owner[o] != id
    ensures Holders(r, o) == Holders(h, o)
    ensures forall f :: Member(o, f) in r.target <==> Member(o, f) in h.target
    ensures forall f :: Member(o, f) in h.target ==> r.target[Member(o, f)] == h.target[Member(o, f)]
  {
    forall t | t in r.target && r.target[t] == Some(o) ensures t in h.target && h.target[t] == Some(o) {
      assert OfCall(owner, id, t) ==> Placed(owner', id, t, r.target[t]);
    }
    forall t | t in h.target && h.target[t] == Some(o) ensures t in r.target && r.target[t] == Some(o) {
      assert Placed(owner, CallOf(owner, t), t, h.target[t]);
    }
    forall f ensures !OfCall(owner, id, Member(o, f)) {}
  }

  lemma OthersKeep(h: Heap, r: Heap, owner: map<Obj, nat>, owner': map<Obj, nat>, id: nat,
                   k: nat, c: Trio, leftHolds: bool, rightHolds: bool)
    requires Owned(h, owner) && OnlyTouches(h, r, owner, owner', id) && Live(r) && k != id
    requires Hosted(h, owner, k, c, leftHolds, rightHolds)
    ensures Hosted(r, owner', k, c, leftHolds, rightHolds)
  {
    var all := Objects(h, c);
    forall o | o in all
      ensures Holders(r, o) == Holders(h, o) && o in r.cells && r.cells[o].arity == h.cells[o].arity
      ensures forall f :: Member(o, f) in r.target <==> Member(o, f) in h.target
      ensures forall f :: Member(o, f) in h.target ==> r.target[Member(o, f)] == h.target[Member(o, f)]
    {
      HoldersKeep(h, r, owner, owner', id, o);
    }
    SameOwner(h, r, owner, owner', id, k);
    hide Holders, OnlyTouches, Owned, Inv;
    SameCall(h, r, k, c, leftHolds, rightHolds);
  }

  lemma SameOwner(h: Heap, r: Heap, owner: map<Obj, nat>, owner': map<Obj, nat>, id: nat, k: nat)
    requires OnlyTouches(h, r, owner, owner', id) && k != id
    ensures forall o :: o in owner' && owner'[o] == k <==> o in owner && owner[o] == k
  {
  }

  // The objects of a call with the same wrappers on them and in them.
  lemma SameCall(h: Heap, r: Heap, k: nat, c: Trio, leftHolds: bool, rightHolds: bool)
    requires Live(r) && Call(h, {Entry(k)}, c, leftHolds, rightHolds) && OwnCallback(h, c.left)
             && OwnCallback(h, c.right)
    requires forall o :: o in Objects(h, c) ==>
               Holders(r, o) == Holders(h, o) && o in r.cells && r.cells[o].arity == h.cells[o].arity
    requires forall o, f :: o in Objects(h, c) ==> (Member(o, f) in r.target <==> Member(o, f) in h.target)
    requires forall o, f :: o in Objects(h, c) && Member(o, f) in h.target ==>
                              r.target[Member(o, f)] == h.target[Member(o, f)]
    ensures Call(r, {Entry(k)}, c, leftHolds, rightHolds) && OwnCallback(r, c.left) && OwnCallback(r, c.right)
    ensures Objects(r, c) == Objects(h, c)
  {
    hide Holders, Inv;
    assert c.peer in Objects(h, c) && c.left in Objects(h, c) && c.right in Objects(h, c);
    LiveIs(r);
    hide Live;
  }

  // ------------------------------------------------------- one call's events

  // The handler's wrapper on the peer, a copy of its entry in the table.
  lemma EntryCopied(h: Heap, id: nat, c: Trio, leftHolds: bool, rightHolds: bool) returns (r: Heap)
    requires Call(h, {Entry(id)}, c, leftHolds, rightHolds) && Global(P) !in h.target
    ensures Exec(h, [Copy(P, Entry(id))]) == Some(r) && Quiet(h, r, h.target[Global(P) := Some(c.peer)])
    ensures Call(r, {Entry(id), Global(P)}, c, leftHolds, rightHolds)
  {
    hide Call, Live, Holders, Exec;
    CallIsLive(h, {Entry(id)}, c, leftHolds, rightHolds);
    EntryHolds(h, {Entry(id)}, c, leftHolds, rightHolds, Entry(id));
    r := CopyRuns(h, P, Entry(id));
    PeerHolders(h, {Entry(id)}, c, leftHolds, rightHolds);
    HolderAdded(h, r, Global(P), c.peer);
    assert {Entry(id)} + {Global(P)} == {Entry(id), Global(P)};
    OtherEntries(h, r, {Entry(id)}, {Entry(id), Global(P)}, c, leftHolds, rightHolds);
  }

  lemma PeerHolders(h: Heap, entries: set<Slot>, c: Trio, leftHolds: bool, rightHolds: bool)
    requires Call(h, entries, c, leftHolds, rightHolds)
    ensures Holders(h, c.peer) == entries && c.peer != c.left && c.peer != c.right
  {
    hide Inv, Holders;
  }

  lemma HolderAdded(h: Heap, r: Heap, s: Slot, o: Obj)
    requires s !in h.target && r.target == h.target[s := Some(o)]
    ensures forall x :: Holders(r, x) == if x == o then Holders(h, x) + {s} else Holders(h, x)
  {
    forall x ensures Holders(r, x) == if x == o then Holders(h, x) + {s} else Holders(h, x) {}
  }

  lemma HolderEnded(h: Heap, r: Heap, s: Slot, o: Obj)
    requires Holds(h, s, Some(o)) && r.target == h.target - {s}
    ensures forall x :: Holders(r, x) == if x == o then Holders(h, x) - {s} else Holders(h, x)
  {
    forall x ensures Holders(r, x) == if x == o then Holders(h, x) - {s} else Holders(h, x) {}
  }

  ghost predicate SameLinks(h: Heap, r: Heap, c: Trio) {
    var fields := {Member(c.peer, LEFT), Member(c.peer, RIGHT), Member(c.left, OPPOSITE), Member(c.right, OPPOSITE)};
    forall s :: s in h.target && s in fields
      ==> s in r.target && r.target[s] == h.target[s]
  }

  // Only the wrappers on the peer are others.
  lemma OtherEntries(h: Heap, r: Heap, entries: set<Slot>, entries': set<Slot>, c: Trio, leftHolds: bool,
      rightHolds: bool)
    requires Call(h, entries, c, leftHolds, rightHolds) && Live(r) && SameLinks(h, r, c)
    requires forall o :: o in h.cells ==> o in r.cells && r.cells[o].arity == h.cells[o].arity
    requires entries' != {} && forall e :: e in entries' ==> e.Global?
    requires Holders(r, c.peer) == entries'
    requires Holders(r, c.left) == Holders(h, c.left) && Holders(r, c.right) == Holders(h, c.right)
    ensures Call(r, entries', c, leftHolds, rightHolds)
  {
    hide Inv, Holders, HeldBy;
  }

  lemma EntryHolds(h: Heap, entries: set<Slot>, c: Trio, leftHolds: bool, rightHolds: bool, entry: Slot)
    requires Call(h, entries, c, leftHolds, rightHolds) && entry in entries
    ensures Holds(h, entry, Some(c.peer))
  {
    assert entry in Holders(h, c.peer);
  }

  // One of several wrappers on the peer ends.
  lemma EntryEnds(h: Heap, g: nat, t: Slot, c: Trio, leftHolds: bool, rightHolds: bool) returns (r: Heap)
    requires Call(h, {Global(g), t}, c, leftHolds, rightHolds) && t != Global(g)
    ensures Exec(h, [Destroy(g)]) == Some(r) && Quiet(h, r, h.target - {Global(g)})
    ensures Call(r, {t}, c, leftHolds, rightHolds)
  {
    hide Call, Live, Holders, Exec;
    CallIsLive(h, {Global(g), t}, c, leftHolds, rightHolds);
    EntryHolds(h, {Global(g), t}, c, leftHolds, rightHolds, Global(g));
    EntryHolds(h, {Global(g), t}, c, leftHolds, rightHolds, t);
    EntriesGlobal(h, {Global(g), t}, c, leftHolds, rightHolds);
    r := DestroyRuns(h, g, t);
    PeerHolders(h, {Global(g), t}, c, leftHolds, rightHolds);
    HolderEnded(h, r, Global(g), c.peer);
    assert {Global(g), t} - {Global(g)} == {t};
    OtherEntries(h, r, {Global(g), t}, {t}, c, leftHolds, rightHolds);
  }

  lemma EntriesGlobal(h: Heap, entries: set<Slot>, c: Trio, leftHolds: bool, rightHolds: bool)
    requires Call(h, entries, c, leftHolds, rightHolds)
    ensures forall e :: e in entries ==> e.Global?
  {
    hide Inv, Holders;
  }

  // A session lets go of its opposite.
  lemma LetGoRuns(h: Heap, entries: set<Slot>, c: Trio, leftHolds: bool, rightHolds: bool, isLeft: bool)
    returns (r: Heap)
    requires Call(h, entries, c, leftHolds, rightHolds)
    ensures var s := Member(if isLeft then c.left else c.right, OPPOSITE);
            && Exec(h, [AssignRaw(s, None)]) == Some(r) && Quiet(h, r, h.target[s := None])
            && Call(r, entries, c, leftHolds && !isLeft, rightHolds && isLeft)
  {
    var session := if isLeft then c.left else c.right;
    hide Call, Exec, Terminate, Live, SameCells;
    CallIsLive(h, entries, c, leftHolds, rightHolds);
    Linked(h, entries, c, leftHolds, rightHolds);
    TerminateRuns(h, session);
    r := Terminate(h, session);
    if isLeft {
      LeftTerminates(h, entries, c, leftHolds, rightHolds);
    } else {
      RightTerminates(h, entries, c, leftHolds, rightHolds);
    }
    CallIsLive(r, entries, c, leftHolds && !isLeft, rightHolds && isLeft);
  }

  lemma TerminateRuns(h: Heap, session: Obj)
    requires Live(h) && Member(session, OPPOSITE) in h.target
    requires var y := h.target[Member(session, OPPOSITE)];
             y.Some? ==> y.value in h.cells && h.cells[y.value].count > 1
    ensures Exec(h, [AssignRaw(Member(session, OPPOSITE), None)]) == Some(Terminate(h, session))
  {
    var s := Member(session, OPPOSITE);
    NothingDoomed(h, s);
    ApplyIff(h, AssignRaw(s, None));
    ExecOne(h, AssignRaw(s, None));
    hide Exec, Apply, Doomed, Inv;
  }

  lemma CallIsLive(h: Heap, entries: set<Slot>, c: Trio, leftHolds: bool, rightHolds: bool)
    requires Call(h, entries, c, leftHolds, rightHolds)
    ensures Live(h)
  {
    hide Inv;
  }

  function ReportOps(id: nat, session: Obj): seq<Op> {
    [Copy(P, Entry(id))] + [AssignRaw(Member(session, OPPOSITE), None)]
  }

  // A leg is reported terminated.
  lemma ReportRuns(h: Heap, id: nat, c: Trio, leftHolds: bool, rightHolds: bool, isLeft: bool) returns (r: Heap)
    requires Call(h, {Entry(id)}, c, leftHolds, rightHolds) && Global(P) !in h.target
    ensures var session := if isLeft then c.left else c.right;
            && Exec(h, ReportOps(id, session)) == Some(r)
            && Quiet(h, r, h.target[Global(P) := Some(c.peer)][Member(session, OPPOSITE) := None])
            && Call(r, {Entry(id), Global(P)}, c, leftHolds && !isLeft, rightHolds && isLeft)
  {
    var session := if isLeft then c.left else c.right;
    hide Call, Exec, Live, SameCells;
    var r1 := EntryCopied(h, id, c, leftHolds, rightHolds);
    r := LetGoRuns(r1, {Entry(id), Global(P)}, c, leftHolds, rightHolds, isLeft);
    ExecJoins(h, [Copy(P, Entry(id))], r1, [AssignRaw(Member(session, OPPOSITE), None)]);
    SameTwice(h, r1, r);
  }

  // The call goes on: the handler's wrapper ends.
  lemma StaysRuns(h: Heap, id: nat, c: Trio, leftHolds: bool, rightHolds: bool, isLeft: bool) returns (r: Heap)
    requires Call(h, {Entry(id)}, c, leftHolds, rightHolds) && Global(P) !in h.target
    ensures var session := if isLeft then c.left else c.right;
            && Exec(h, ReportOps(id, session) + [Destroy(P)]) == Some(r)
            && Quiet(h, r, h.target[Member(session, OPPOSITE) := None])
            && Call(r, {Entry(id)}, c, leftHolds && !isLeft, rightHolds && isLeft)
  {
    var session := if isLeft then c.left else c.right;
    var s := Member(session, OPPOSITE);
    hide Call, Exec, Live, SameCells, ReportOps;
    var r1 := ReportRuns(h, id, c, leftHolds, rightHolds, isLeft);
    assert {Entry(id), Global(P)} == {Global(P), Entry(id)};
    r := EntryEnds(r1, P, Entry(id), c, leftHolds && !isLeft, rightHolds && isLeft);
    ExecJoins(h, ReportOps(id, session), r1, [Destroy(P)]);
    SameTwice(h, r1, r);
    InAndOut(h.target, Global(P), Some(c.peer), s);
  }

  lemma InAndOut(m: map<Slot, Option<Obj>>, g: Slot, y: Option<Obj>, s: Slot)
    requires g !in m && g != s
    ensures m[g := y][s := None] - {g} == m[s := None]
  {
  }

  // The call is over: its entry goes first, and the handler's wrapper is the last.
  function OverOps(id: nat, session: Obj): seq<Op> {
    ReportOps(id, session) + [Destroy(id + 4)] + [Destroy(P)]
  }

  lemma OverRuns(h: Heap, id: nat, c: Trio, leftHolds: bool, rightHolds: bool, isLeft: bool) returns (r3: Heap, r: Heap)
    requires Call(h, {Entry(id)}, c, leftHolds, rightHolds) && Global(P) !in h.target
    ensures var session := if isLeft then c.left else c.right;
            && Exec(h, OverOps(id, session)) == Some(r) && r == RemovePeer(r3, Global(P))
            && Quiet(h, r3, h.target[Global(P) := Some(c.peer)][Member(session, OPPOSITE) := None] - {Entry(id)})
            && Call(r3, {Global(P)}, c, leftHolds && !isLeft, rightHolds && isLeft)
  {
    var session := if isLeft then c.left else c.right;
    var ops := ReportOps(id, session);
    hide Call, Live, SameCells, ReportOps;
    var r1 := ReportRuns(h, id, c, leftHolds, rightHolds, isLeft);
    r3 := EntryEnds(r1, id + 4, Global(P), c, leftHolds && !isLeft, rightHolds && isLeft);
    hide Exec;
    ExecJoins(h, ops, r1, [Destroy(id + 4)]);
    SameTwice(h, r1, r3);
    r := RemovePeer(r3, Global(P));
    LastEntryEnds(r3, c, leftHolds && !isLeft, rightHolds && isLeft);
    ExecJoins(h, ops + [Destroy(id + 4)], r3, [Destroy(P)]);
  }

  lemma LastEntryEnds(h: Heap, c: Trio, leftHolds: bool, rightHolds: bool)
    requires Call(h, {Global(P)}, c, leftHolds, rightHolds)
    ensures Exec(h, [Destroy(P)]) == Some(RemovePeer(h, Global(P)))
  {
    EntryHolds(h, {Global(P)}, c, leftHolds, rightHolds, Global(P));
    ExecOne(h, Destroy(P));
    hide DestroySlot;
  }

  // -------------------------------------------------- what the others notice

  // A field of this call gets an object of this call, or nothing.
  lemma FieldTouched(h: Heap, r: Heap, owner: map<Obj, nat>, owner': map<Obj, nat>, id: nat, s: Slot, y: Option<Obj>)
    requires Owned(h, owner) && s.Member? && s in h.target && r.target == h.target[s := y]
    requires s.owner in owner && owner[s.owner] == id && (y.Some? ==> y.value in owner' && owner'[y.value] == id)
    requires owner.Keys == h.cells.Keys <= r.cells.Keys
    requires forall o :: o in h.cells ==> r.cells[o].arity == h.cells[o].arity
    requires forall o :: o in owner ==> o in owner' && owner'[o] == owner[o]
    requires forall o :: o in owner' && o !in owner ==> owner'[o] == id
    ensures OnlyTouches(h, r, owner, owner', id)
  {
    forall t | t in r.target && OfCall(owner, id, t) ensures Placed(owner', id, t, r.target[t]) {
      assert Placed(owner, CallOf(owner, t), t, h.target[t]);
    }
  }

  // The callback object of a session, when only other wrappers change.
  lemma CallbackKept(h: Heap, r: Heap, session: Obj)
    requires OwnCallback(h, session) && h.cells.Keys <= r.cells.Keys
    requires forall o :: o in h.cells ==> r.cells[o].arity == h.cells[o].arity
    requires var s := Member(session, RTCP); s in r.target && r.target[s] == h.target[s]
    requires forall t :: t in r.target && r.target[t].Some? && r.target[t].value in Callback(h, session)
               ==> t in h.target && h.target[t] == r.target[t]
    ensures OwnCallback(r, session) && Callback(r, session) == Callback(h, session)
  {
    var s := Member(session, RTCP);
    if h.target[s].Some? {
      assert forall t :: t in Holders(h, h.target[s].value) ==> t == s;
    }
  }

  // A session's callback object is not one of the three.
  lemma NoCallback(h: Heap, entries: set<Slot>, c: Trio, leftHolds: bool, rightHolds: bool, session: Obj)
    requires Call(h, entries, c, leftHolds, rightHolds) && OwnCallback(h, session)
    ensures c.peer !in Callback(h, session)
  {
    PeerHolders(h, entries, c, leftHolds, rightHolds);
    EntriesGlobal(h, entries, c, leftHolds, rightHolds);
    var s := Member(session, RTCP);
    assert h.target[s].Some? ==> s in Holders(h, h.target[s].value);
    hide Call, Holders;
  }

  lemma StaysHosted(h: Heap, owner: map<Obj, nat>, id: nat, c: Trio, leftHolds: bool, rightHolds: bool, isLeft: bool,
      r: Heap)
    requires Hosted(h, owner, id, c, leftHolds, rightHolds)
    requires var session := if isLeft then c.left else c.right;
             Quiet(h, r, h.target[Member(session, OPPOSITE) := None])
    requires Call(r, {Entry(id)}, c, leftHolds && !isLeft, rightHolds && isLeft)
    ensures Hosted(r, owner, id, c, leftHolds && !isLeft, rightHolds && isLeft)
  {
    hide Call, OwnCallback, Live, Callback, Objects;
    HasCallbackField(h, c.left);
    HasCallbackField(h, c.right);
    CallbackKept(h, r, c.left);
    CallbackKept(h, r, c.right);
    SameObjects(h, r, c);
  }

  lemma SameObjects(h: Heap, r: Heap, c: Trio)
    requires Callback(r, c.left) == Callback(h, c.left) && Callback(r, c.right) == Callback(h, c.right)
    ensures Objects(r, c) == Objects(h, c)
  {
    hide Callback;
  }

  lemma HasCallbackField(h: Heap, session: Obj)
    requires OwnCallback(h, session)
    ensures Member(session, RTCP) in h.target
  {
  }

  // ------------------------------------------------------------ a call is over

  function Belongings(owner: map<Obj, nat>, id: nat): set<Obj> {
    set o | o in owner && owner[o] == id
  }

  // The handler's wrapper is the last on the peer.
  ghost predicate LastEntry(h: Heap, id: nat, c: Trio, session: Obj, r3: Heap) {
    Quiet(h, r3, h.target[Global(P) := Some(c.peer)][Member(session, OPPOSITE) := None] - {Entry(id)})
  }

  // What the peer leads to belongs to its call.
  lemma NothingElseGoes(h: Heap, owner: map<Obj, nat>, id: nat, c: Trio, session: Obj, r3: Heap)
    requires Owned(h, owner) && c.peer in owner && owner[c.peer] == id && session in owner && owner[session] == id
    requires LastEntry(h, id, c, session, r3)
    ensures Closed(r3, Global(P), Belongings(owner, id))
  {
    hide Live;
    forall x | x in r3.cells && Holders(r3, x) != {} && x !in Belongings(owner, id)
      ensures exists t :: t in Holders(r3, x) && !Goes(Global(P), Belongings(owner, id), t)
    {
      var t :| t in Holders(r3, x);
      assert t.Member? ==> t in h.target && h.target[t] == Some(x) && Placed(owner, CallOf(owner, t), t, h.target[t]);
    }
  }

  // Just before the peer goes, the callbacks are as they were.
  lemma CallbacksBefore(h: Heap, owner: map<Obj, nat>, id: nat, c: Trio, leftHolds: bool, rightHolds: bool,
      session: Obj, r3: Heap)
    requires Hosted(h, owner, id, c, leftHolds, rightHolds) && LastEntry(h, id, c, session, r3)
    ensures OwnCallback(r3, c.left) && OwnCallback(r3, c.right) && Objects(r3, c) == Objects(h, c)
  {
    hide Call, OwnCallback, Live, Callback, Objects;
    NoCallback(h, {Entry(id)}, c, leftHolds, rightHolds, c.left);
    NoCallback(h, {Entry(id)}, c, leftHolds, rightHolds, c.right);
    HasCallbackField(h, c.left);
    HasCallbackField(h, c.right);
    CallbackKept(h, r3, c.left);
    CallbackKept(h, r3, c.right);
    SameObjects(h, r3, c);
  }

  ghost predicate Cleared(h: Heap, owner: map<Obj, nat>, id: nat, r3: Heap, r: Heap) {
    && r.cells.Keys == h.cells.Keys - Belongings(owner, id) && r.freed == h.freed + Belongings(owner, id)
    && Live(r) && Keeps(r3, r, {Global(P)}) && Global(P) !in r.target
    && forall o :: o in r.cells ==> r.cells[o].arity == h.cells[o].arity
  }

  // Everything that belongs to the call is freed, and nothing else.
  lemma AllGoes(h: Heap, owner: map<Obj, nat>, id: nat, c: Trio, leftHolds: bool, rightHolds: bool, isLeft: bool,
      r3: Heap)
    requires Hosted(h, owner, id, c, leftHolds, rightHolds) && Owned(h, owner)
    requires LastEntry(h, id, c, if isLeft then c.left else c.right, r3)
    requires Call(r3, {Global(P)}, c, leftHolds && !isLeft, rightHolds && isLeft)
    ensures Cleared(h, owner, id, r3, RemovePeer(r3, Global(P)))
  {
    var a, b, session := leftHolds && !isLeft, rightHolds && isLeft, if isLeft then c.left else c.right;
    var r := RemovePeer(r3, Global(P));
    var all := Belongings(owner, id);
    hide Hosted, Call, OwnCallback, Live, Owned, Closed, Keeps, RemovePeer, LastEntry, Objects, Belongings;
    BelongingsAre(h, owner, id, c, leftHolds, rightHolds);
    SameObjectsBefore(h, id, c, session, r3);
    CallbacksBefore(h, owner, id, c, leftHolds, rightHolds, session, r3);
    NothingElseGoes(h, owner, id, c, session, r3);
    OwnObjectsGo(r3, c, a, b);
    RemovedKeeps(r3, c, a, b);
    DoomedWithin(r3, c, a, b, all);
    ExactlyThese(r3.cells.Keys, r3.freed, r.cells.Keys, r.freed, all);
  }

  lemma ExactlyThese(before: set<Obj>, freed: set<Obj>, after: set<Obj>, freed': set<Obj>, all: set<Obj>)
    requires after <= before && freed' == freed + (before - after) && after !! freed'
    requires all <= before && all <= freed' && before - after <= all
    ensures after == before - all && freed' == freed + all
  {
  }

  lemma SameObjectsBefore(h: Heap, id: nat, c: Trio, session: Obj, r3: Heap)
    requires LastEntry(h, id, c, session, r3)
    ensures r3.cells.Keys == h.cells.Keys && r3.freed == h.freed
    ensures forall o :: o in h.cells ==> r3.cells[o].arity == h.cells[o].arity
  {
    hide Live;
  }

  lemma OwnObjectsGo(h: Heap, c: Trio, leftHolds: bool, rightHolds: bool)
    requires Call(h, {Global(P)}, c, leftHolds, rightHolds) && !(leftHolds && rightHolds)
    requires OwnCallback(h, c.left) && OwnCallback(h, c.right)
    ensures forall o :: o in Objects(h, c) ==> o in RemovePeer(h, Global(P)).freed
  {
    FreedIffLinkBroken(h, Global(P), c, leftHolds, rightHolds);
    CallbackFreed(h, Global(P), c, leftHolds, rightHolds, c.left);
    CallbackFreed(h, Global(P), c, leftHolds, rightHolds, c.right);
    hide Call, OwnCallback, RemovePeer;
  }

  lemma BelongingsAre(h: Heap, owner: map<Obj, nat>, id: nat, c: Trio, leftHolds: bool, rightHolds: bool)
    requires Hosted(h, owner, id, c, leftHolds, rightHolds)
    ensures Belongings(owner, id) == Objects(h, c) <= h.cells.Keys
    ensures c.peer in owner && owner[c.peer] == id && c.left in owner && owner[c.left] == id
    ensures c.right in owner && owner[c.right] == id
  {
    hide Inv, Holders;
    assert c.peer in Objects(h, c) && c.left in Objects(h, c) && c.right in Objects(h, c);
  }

  lemma RemovedKeeps(h: Heap, c: Trio, leftHolds: bool, rightHolds: bool)
    requires Call(h, {Global(P)}, c, leftHolds, rightHolds)
    ensures var r := RemovePeer(h, Global(P));
            && Live(r) && Keeps(h, r, {Global(P)}) && Global(P) !in r.target && r.cells.Keys !! r.freed
            && r.cells.Keys <= h.cells.Keys && r.freed == h.freed + (h.cells.Keys - r.cells.Keys)
            && forall o :: o in r.cells ==> r.cells[o].arity == h.cells[o].arity
  {
    DestroySlotKeeps(h, Global(P));
    hide DestroySlot;
  }

  lemma DoomedWithin(h: Heap, c: Trio, leftHolds: bool, rightHolds: bool, all: set<Obj>)
    requires Call(h, {Global(P)}, c, leftHolds, rightHolds) && Closed(h, Global(P), all)
    ensures h.cells.Keys - RemovePeer(h, Global(P)).cells.Keys <= all
  {
    EntryHolds(h, {Global(P)}, c, leftHolds, rightHolds, Global(P));
    CallIsLive(h, {Global(P)}, c, leftHolds, rightHolds);
    ReleaseFrees(h, Global(P));
    hide Call, Closed, DestroySlot;
  }

  // The other calls do not notice.
  lemma GoesUnnoticed(h: Heap, owner: map<Obj, nat>, id: nat, c: Trio, session: Obj, r3: Heap, r: Heap)
    requires Owned(h, owner) && owner.Keys == h.cells.Keys && LastEntry(h, id, c, session, r3)
    requires session in owner && owner[session] == id
    requires Cleared(h, owner, id, r3, r)
    ensures OnlyTouches(h, r, owner, owner - Belongings(owner, id), id)
  {
    hide Owned, LastEntry, Live;
    LastWrappers(h, owner, id, c, session, r3);
    NothingLeft(owner, id, r3, r);
    forall t | t in h.target && !OfCall(owner, id, t) ensures t in r.target && r.target[t] == h.target[t] {
      OwnedAt(h, owner, t);
      assert t != Global(P) && (t.Member? ==> t.owner in r.cells);
    }
    hide Keeps;
  }

  lemma OwnedAt(h: Heap, owner: map<Obj, nat>, t: Slot)
    requires Owned(h, owner) && t in h.target
    ensures t.Member? ==> t.owner in owner
  {
    assert Placed(owner, CallOf(owner, t), t, h.target[t]);
  }

  // No wrapper of the call is left.
  lemma NothingLeft(owner: map<Obj, nat>, id: nat, r3: Heap, r: Heap)
    requires forall t :: t in r3.target && t != Global(P) && t.Global? ==> t != Entry(id) && t.id >= 4
    requires Keeps(r3, r, {Global(P)}) && Global(P) !in r.target && Live(r)
    requires r.cells.Keys == owner.Keys - Belongings(owner, id)
    ensures forall t :: t in r.target ==> !OfCall(owner, id, t)
  {
    forall t | t in r.target ensures !OfCall(owner, id, t) {
      assert t in r3.target;
      assert t.Member? ==> t.owner in r.cells;
    }
  }

  lemma LastWrappers(h: Heap, owner: map<Obj, nat>, id: nat, c: Trio, session: Obj, r3: Heap)
    requires Owned(h, owner) && LastEntry(h, id, c, session, r3) && session in owner && owner[session] == id
    ensures forall t :: t in r3.target && t != Global(P) && t.Global? ==> t in h.target && t != Entry(id) && t.id >= 4
    ensures forall t :: t in h.target && !OfCall(owner, id, t) ==> t in r3.target && r3.target[t] == h.target[t]
    ensures forall t :: t in r3.target && !OfCall(owner, id, t) ==> t in h.target
  {
    hide Live;
    forall t | t in r3.target && t != Global(P) && t.Global? ensures t in h.target && t != Entry(id) && t.id >= 4 {
      assert Placed(owner, CallOf(owner, t), t, h.target[t]);
    }
  }

  // ----------------------------------------------------------- a leg connects

  function NoteOps(id: nat): seq<Op> {
    [Copy(P, Entry(id))] + [Destroy(P)]
  }

  lemma NoteRuns(h: Heap, id: nat, c: Trio, leftHolds: bool, rightHolds: bool) returns (r: Heap)
    requires Call(h, {Entry(id)}, c, leftHolds, rightHolds) && Global(P) !in h.target
    ensures Exec(h, NoteOps(id)) == Some(r) && Quiet(h, r, h.target) && Call(r, {Entry(id)}, c, leftHolds, rightHolds)
  {
    hide Call, Exec, Live, SameCells;
    var r1 := EntryCopied(h, id, c, leftHolds, rightHolds);
    assert {Entry(id), Global(P)} == {Global(P), Entry(id)};
    r := EntryEnds(r1, P, Entry(id), c, leftHolds, rightHolds);
    ExecJoins(h, [Copy(P, Entry(id))], r1, [Destroy(P)]);
    SameTwice(h, r1, r);
    assert h.target[Global(P) := Some(c.peer)] - {Global(P)} == h.target;
  }

  // With the media coder off, a session that connects for the first time gets a callback.
  function InstallOps(id: nat, session: Obj, callback: Obj): seq<Op> {
    [New(callback, 0)] + [AssignRaw(Member(session, RTCP), Some(callback))] + NoteOps(id)
  }

  ghost predicate Installed(h: Heap, session: Obj, callback: Obj, r: Heap) {
    && Live(r) && r.target == h.target[Member(session, RTCP) := Some(callback)] && r.freed == h.freed
    && r.cells.Keys == h.cells.Keys + {callback} && r.cells[callback].arity == 0
    && forall o :: o in h.cells ==> r.cells[o].arity == h.cells[o].arity
  }

  lemma InstallRuns(h: Heap, id: nat, c: Trio, leftHolds: bool, rightHolds: bool, session: Obj, callback: Obj)
    returns (r: Heap)
    requires Call(h, {Entry(id)}, c, leftHolds, rightHolds) && Global(P) !in h.target
    requires Holds(h, Member(session, RTCP), None) && callback !in h.cells && callback !in h.freed
    requires session == c.left || session == c.right
    ensures Exec(h, InstallOps(id, session, callback)) == Some(r) && Installed(h, session, callback, r)
    ensures Call(r, {Entry(id)}, c, leftHolds, rightHolds)
  {
    var s := Member(session, RTCP);
    hide Call, Exec, Live, NoteOps;
    CallIsLive(h, {Entry(id)}, c, leftHolds, rightHolds);
    var r2 := CallbackRuns(h, session, callback);
    InstalledIsCall(h, id, c, leftHolds, rightHolds, session, callback, r2);
    hide Installed;
    FieldIsNoEntry(h, session, callback, r2);
    r := NoteRuns(r2, id, c, leftHolds, rightHolds);
    StillInstalled(h, session, callback, r2, r);
    ExecJoins(h, [New(callback, 0)] + [AssignRaw(s, Some(callback))], r2, NoteOps(id));
  }

  lemma FieldIsNoEntry(h: Heap, session: Obj, callback: Obj, r: Heap)
    requires Installed(h, session, callback, r)
    ensures Global(P) !in h.target ==> Global(P) !in r.target
  {
    hide Live;
  }

  lemma StillInstalled(h: Heap, session: Obj, callback: Obj, r: Heap, q: Heap)
    requires Installed(h, session, callback, r) && Quiet(r, q, r.target)
    ensures Installed(h, session, callback, q)
  {
    hide Live;
  }

  lemma CallbackRuns(h: Heap, session: Obj, callback: Obj) returns (r: Heap)
    requires Live(h) && Holds(h, Member(session, RTCP), None) && callback !in h.cells && callback !in h.freed
    ensures Exec(h, [New(callback, 0)] + [AssignRaw(Member(session, RTCP), Some(callback))]) == Some(r)
    ensures Installed(h, session, callback, r)
  {
    var s := Member(session, RTCP);
    hide Exec, Live, NewFields;
    var r1 := NewRuns(h, callback, 0);
    TwoFields(h, callback);
    r := AssignRawRuns(r1, s, Some(callback));
    assert r1.cells.Keys == h.cells.Keys + {callback};
    ExecJoins(h, [New(callback, 0)], r1, [AssignRaw(s, Some(callback))]);
  }

  lemma InstalledIsCall(h: Heap, id: nat, c: Trio, leftHolds: bool, rightHolds: bool, session: Obj, callback: Obj,
      r: Heap)
    requires Call(h, {Entry(id)}, c, leftHolds, rightHolds) && Installed(h, session, callback, r)
    requires Holds(h, Member(session, RTCP), None) && callback !in h.cells && (session == c.left || session == c.right)
    ensures Call(r, {Entry(id)}, c, leftHolds, rightHolds)
  {
    hide Call, Holders, Live;
    Sessions(h, {Entry(id)}, c, leftHolds, rightHolds);
    CallIsLive(h, {Entry(id)}, c, leftHolds, rightHolds);
    PeerHolders(h, {Entry(id)}, c, leftHolds, rightHolds);
    TrioIsLive(h, {Entry(id)}, c, leftHolds, rightHolds);
    InstalledHolders(h, session, callback, r, c.peer);
    InstalledHolders(h, session, callback, r, c.left);
    InstalledHolders(h, session, callback, r, c.right);
    OtherEntries(h, r, {Entry(id)}, {Entry(id)}, c, leftHolds, rightHolds);
  }

  lemma TrioIsLive(h: Heap, entries: set<Slot>, c: Trio, leftHolds: bool, rightHolds: bool)
    requires Call(h, entries, c, leftHolds, rightHolds)
    ensures c.peer in h.cells && c.left in h.cells && c.right in h.cells
  {
    hide Inv, Holders;
  }

  lemma InstalledHolders(h: Heap, session: Obj, callback: Obj, r: Heap, o: Obj)
    requires Installed(h, session, callback, r) && Holds(h, Member(session, RTCP), None) && callback !in h.cells
             && o in h.cells
    ensures Holders(r, o) == Holders(h, o)
  {
    hide Live;
  }

  lemma InstalledHosted(h: Heap, owner: map<Obj, nat>, id: nat, c: Trio, leftHolds: bool, rightHolds: bool,
                        session: Obj, callback: Obj, r: Heap)
    requires Hosted(h, owner, id, c, leftHolds, rightHolds) && owner.Keys == h.cells.Keys
    requires Installed(h, session, callback, r) && Call(r, {Entry(id)}, c, leftHolds, rightHolds)
    requires (session == c.left || session == c.right) && Holds(h, Member(session, RTCP), None) && callback !in h.cells
    ensures Hosted(r, owner[callback := id], id, c, leftHolds, rightHolds)
  {
    var other := if session == c.left then c.right else c.left;
    hide Call, Live, OwnCallback, Callback, Belongings;
    BelongingsAre(h, owner, id, c, leftHolds, rightHolds);
    CallIsLive(h, {Entry(id)}, c, leftHolds, rightHolds);
    Sessions(h, {Entry(id)}, c, leftHolds, rightHolds);
    NewCallback(h, session, callback, r);
    HasCallbackField(h, other);
    CallbackUnmoved(h, session, callback, r, other);
    NoneYet(h, session);
    assert Objects(r, c) == Objects(h, c) + {callback};
    hide Installed, Objects;
  }

  lemma NoneYet(h: Heap, session: Obj)
    requires Holds(h, Member(session, RTCP), None)
    ensures Callback(h, session) == {}
  {
  }

  lemma CallbackUnmoved(h: Heap, session: Obj, callback: Obj, r: Heap, other: Obj)
    requires Live(h) && OwnCallback(h, other) && other != session && Installed(h, session, callback, r)
             && callback !in h.cells
    ensures OwnCallback(r, other) && Callback(r, other) == Callback(h, other)
  {
    assert callback !in Callback(h, other);
    hide Live;
    HasCallbackField(h, other);
    CallbackKept(h, r, other);
  }

  lemma Sessions(h: Heap, entries: set<Slot>, c: Trio, leftHolds: bool, rightHolds: bool)
    requires Call(h, entries, c, leftHolds, rightHolds)
    ensures c.left != c.right && c.peer != c.left && c.peer != c.right
  {
    hide Inv, Holders;
  }

  lemma NewCallback(h: Heap, session: Obj, callback: Obj, r: Heap)
    requires Live(h) && Installed(h, session, callback, r) && callback !in h.cells
    ensures OwnCallback(r, session) && Callback(r, session) == {callback}
  {
    assert forall t :: t in h.target ==> h.target[t] != Some(callback);
    hide Inv;
    assert Holders(r, callback) == {Member(session, RTCP)};
  }

  // ------------------------------------------- a call that cannot be routed

  // The session that wraps an incoming call ends with the handler's wrapper.
  function StrayOps(left: Obj): seq<Op> {
    LeftOps(Trio(left + 1, left, left + 2)) + [Destroy(L)]
  }

  lemma StrayRuns(h: Heap, id: nat, left: Obj) returns (r: Heap)
    requires Live(h) && Unused(h, id, Trio(left + 1, left, left + 2))
    ensures Exec(h, StrayOps(left)) == Some(r) && Live(r) && r.target == h.target
    ensures r.cells.Keys == h.cells.Keys && r.freed == h.freed + {left}
    ensures forall o :: o in h.cells ==> r.cells[o].arity == h.cells[o].arity
  {
    var c := Trio(left + 1, left, left + 2);
    hide Exec, LeftOps, Live, Grown, DestroySlot, AfterLeft;
    var r1 := LeftRuns(h, id, c);
    r := DestroySlot(r1, Global(L));
    StrayEnds(h, r1, left, c);
    ExecJoins(h, LeftOps(c), r1, [Destroy(L)]);
    StrayGoes(h, r1, left, c);
    StrayLeavesNothing(h, r1, left, c, r);
  }

  lemma StrayEnds(h: Heap, r1: Heap, left: Obj, c: Trio)
    requires Grown(h, r1, AfterLeft(c), {left}) && c.left == left
    ensures Exec(r1, [Destroy(L)]) == Some(DestroySlot(r1, Global(L)))
  {
    hide DestroySlot, Live;
    assert Global(L) in r1.target;
    ExecOne(r1, Destroy(L));
  }

  lemma StrayGoes(h: Heap, r1: Heap, left: Obj, c: Trio)
    requires Live(h) && Grown(h, r1, AfterLeft(c), {left}) && c.left == left && left !in h.cells
    ensures r1.cells.Keys - DestroySlot(r1, Global(L)).cells.Keys == {left}
  {
    hide DestroySlot, Inv, Closed, Doomed, AfterLeft;
    OnlyStrayGoes(h, r1, left, c);
    StrayIsHeldOnce(h, r1, left, c);
    assert Global(L) in Holders(r1, left);
    ReleaseFrees(r1, Global(L));
    Least(r1, Global(L), left);
  }

  // What every closed set contains goes, and nothing outside of one does.
  lemma Least(h: Heap, s: Slot, o: Obj)
    requires o in h.cells && Holders(h, o) == {s} && Closed(h, s, {o})
    ensures Doomed(h, s) == {o}
  {
  }

  lemma StrayIsHeldOnce(h: Heap, r1: Heap, left: Obj, c: Trio)
    requires Live(h) && Grown(h, r1, AfterLeft(c), {left}) && c.left == left && left !in h.cells
    ensures Holders(r1, left) == {Global(L)}
  {
    HoldersOfNew(h, r1, AfterLeft(c), left);
    hide Holders, Live;
  }

  lemma OnlyStrayGoes(h: Heap, r1: Heap, left: Obj, c: Trio)
    requires Live(h) && Grown(h, r1, AfterLeft(c), {left}) && c.left == left && left !in h.cells
    ensures Closed(r1, Global(L), {left})
  {
    forall x, t | x in r1.cells && x != left && t in Holders(r1, x) ensures !Goes(Global(L), {left}, t) {
      StrayLeads(h, r1, left, c, t);
    }
    hide Grown, Live, Holders, Goes;
    forall x | x in r1.cells && Holders(r1, x) != {} && x !in {left}
      ensures exists t :: t in Holders(r1, x) && !Goes(Global(L), {left}, t)
    {
      var t :| t in Holders(r1, x);
    }
  }

  // The stray session and its wrapper lead to nothing else.
  lemma StrayLeads(h: Heap, r1: Heap, left: Obj, c: Trio, t: Slot)
    requires Live(h) && Grown(h, r1, AfterLeft(c), {left}) && c.left == left && left !in h.cells
    requires t in r1.target && r1.target[t].Some? && r1.target[t] != Some(left)
    ensures !Goes(Global(L), {left}, t)
  {
    assert t in h.target;
    HousedAt(h, t);
    hide Live;
  }

  lemma StrayLeavesNothing(h: Heap, r1: Heap, left: Obj, c: Trio, r: Heap)
    requires Live(h) && Grown(h, r1, AfterLeft(c), {left}) && c.left == left && left !in h.cells && left !in h.freed
    requires Global(L) !in h.target && r == DestroySlot(r1, Global(L)) && r1.cells.Keys - r.cells.Keys == {left}
    ensures Live(r) && r.target == h.target && r.cells.Keys == h.cells.Keys && r.freed == h.freed + {left}
    ensures forall o :: o in h.cells ==> r.cells[o].arity == h.cells[o].arity
  {
    hide DestroySlot, AfterLeft, Inv, Keeps;
    DestroySlotKeeps(r1, Global(L));
    StraysWrappers(h, r1, left, c, r);
  }

  lemma StraysWrappers(h: Heap, r1: Heap, left: Obj, c: Trio, r: Heap)
    requires Live(h) && Grown(h, r1, AfterLeft(c), {left}) && c.left == left && left !in h.cells && Live(r)
    requires Global(L) !in h.target && Keeps(r1, r, {Global(L)}) && Global(L) !in r.target
    requires r.cells.Keys == h.cells.Keys
    ensures r.target == h.target
  {
    hide Live;
    forall t | t in r.target ensures t in h.target && r.target[t] == h.target[t] {
      HousedAt(r, t);
    }
    forall t | t in h.target ensures t in r.target {
      HousedAt(h, t);
    }
  }

  lemma HousedAt(h: Heap, t: Slot)
    requires Live(h) && t in h.target
    ensures t.Member? ==> t.owner in h.cells
  {
  }

  // -------------------------------------------------------------------- runs

  // Memory beside the peer table: the objects of each stored call are live and wired, and
  // every live object belongs to a stored call.
  ghost predicate Tracks(w: World, peers: map<nat, CallBridge.Peer>, nextId: nat) {
    && Live(w.heap) && w.at.Keys == peers.Keys && w.owner.Keys == w.heap.cells.Keys && Owned(w.heap, w.owner)
    && (forall o :: o in w.owner ==> w.owner[o] in w.at)
    && (forall id :: id in w.at ==> id < nextId && HostedAs(w, id, peers))
    && (forall o :: o in w.heap.cells || o in w.heap.freed ==> o < w.next)
  }

  ghost predicate HostedAs(w: World, id: nat, peers: map<nat, CallBridge.Peer>) {
    id in w.at && id in peers
    && Hosted(w.heap, w.owner, id, w.at[id], peers[id].left.opposite.Some?, peers[id].right.opposite.Some?)
  }

  // An event of call `id` that leaves memory in order there and alone elsewhere.
  ghost predicate Local(
      w: World, w': World, id: nat, peers: map<nat, CallBridge.Peer>, peers': map<nat, CallBridge.Peer>)
  {
    && Live(w'.heap) && OnlyTouches(w.heap, w'.heap, w.owner, w'.owner, id) && w'.owner.Keys == w'.heap.cells.Keys
    && w'.at.Keys == peers'.Keys
    && (forall k :: k in w.at && k != id ==>
          k in w'.at && w'.at[k] == w.at[k] && k in peers && k in peers' && peers'[k] == peers[k])
    && (forall k :: k in w'.at && k != id ==> k in w.at)
    && (id in w'.at ==> HostedAs(w', id, peers'))
    && (forall o :: o in w'.owner && w'.owner[o] == id ==> id in w'.at)
    && (forall o :: o in w'.heap.cells || o in w'.heap.freed ==> o < w'.next)
  }

  lemma LocalTracks(w: World, w': World, id: nat, peers: map<nat, CallBridge.Peer>, peers': map<nat, CallBridge.Peer>,
                    nextId: nat, nextId': nat)
    requires Tracks(w, peers, nextId) && Local(w, w', id, peers, peers')
    requires nextId <= nextId' && (id in w'.at ==> id < nextId')
    ensures Tracks(w', peers', nextId')
  {
    hide Live, Hosted;
    OwnedKeeps(w.heap, w'.heap, w.owner, w'.owner, id);
    forall k | k in w'.at ensures k < nextId' && HostedAs(w', k, peers') {
      if k != id {
        assert HostedAs(w, k, peers);
        OthersKeep(w.heap, w'.heap, w.owner, w'.owner, id, k, w.at[k],
                   peers[k].left.opposite.Some?, peers[k].right.opposite.Some?);
      }
    }
    hide Owned;
    forall o | o in w'.owner ensures w'.owner[o] in w'.at {}
  }

  // No wrapper belongs to a call that is not stored, and the handlers' names are free.
  lemma NamesFree(w: World, peers: map<nat, CallBridge.Peer>, nextId: nat, id: nat)
    requires Tracks(w, peers, nextId)
    ensures id !in w.at ==> forall t :: t in w.heap.target ==> !OfCall(w.owner, id, t)
    ensures forall g :: Global(g) in w.heap.target ==> g >= 4
  {
    hide Live, HostedAs;
    forall t | t in w.heap.target
      ensures id !in w.at ==> !OfCall(w.owner, id, t)
      ensures t.Global? ==> t.id >= 4
    {
      assert Placed(w.owner, CallOf(w.owner, t), t, w.heap.target[t]);
    }
  }

  // --------------------------------------------------------- the three events

  function NewTrio(next: Obj): Trio { Trio(next + 1, next, next + 2) }

  function Admit(w: World, id: nat): Option<World> {
    var c := NewTrio(w.next);
    match Exec(w.heap, AdmitOps(id, c))
    case None => None
    case Some(r) =>
      Some(World(r, w.at[id := c], w.owner[c.peer := id][c.left := id][c.right := id], w.next + 3))
  }

  lemma AdmitTracks(w: World, peers: map<nat, CallBridge.Peer>, id: nat, p: CallBridge.Peer)
    requires Tracks(w, peers, id) && p.left.opposite.Some? && p.right.opposite.Some?
    ensures Arrives(Admit(w, id), peers[id := p], id + 1)
  {
    var c := NewTrio(w.next);
    hide Exec, AdmitOps, Live, Grown, Unused, Call, OwnCallback, HostedAs, Local, OnlyTouches;
    NewNames(w, peers, id, c);
    AdmitMakesCall(w.heap, id, c);
    var w' := Admit(w, id).value;
    AdmitTouches(w, w', peers, id, c);
    AdmitHosted(w, w', peers, id, c, p);
    AdmitLocal(w, w', peers, id, c, p);
    hide Tracks, Admit;
    LocalTracks(w, w', id, peers, peers[id := p], id, id + 1);
  }

  lemma NewNames(w: World, peers: map<nat, CallBridge.Peer>, id: nat, c: Trio)
    requires Tracks(w, peers, id) && w.next <= c.peer && w.next <= c.left && w.next <= c.right
    requires c.peer != c.left && c.peer != c.right && c.left != c.right
    ensures Unused(w.heap, id, c) && id !in w.at
  {
    hide Live, Owned, HostedAs;
    NamesFree(w, peers, id, id);
    assert OfCall(w.owner, id, Entry(id));
  }

  // The world after a new call, on the heap that its statements leave.
  ghost predicate Admitted(w: World, w': World, id: nat, c: Trio) {
    && Grown(w.heap, w'.heap, CallWrappers(id, c), {c.left, c.peer, c.right}) && c == NewTrio(w.next)
    && w'.at == w.at[id := c] && w'.owner == w.owner[c.peer := id][c.left := id][c.right := id] && w'.next == w.next + 3
  }

  lemma AdmitTouches(w: World, w': World, peers: map<nat, CallBridge.Peer>, id: nat, c: Trio)
    requires Tracks(w, peers, id) && Admitted(w, w', id, c)
    ensures OnlyTouches(w.heap, w'.heap, w.owner, w'.owner, id)
    ensures w'.owner.Keys == w'.heap.cells.Keys
  {
    hide Live, Owned, HostedAs, CallWrappers, OfCall, Placed;
    NamesFree(w, peers, id, id);
    NewOwners(w, w', id, c);
    forall t | t in w'.heap.target && t !in w.heap.target
      ensures OfCall(w.owner, id, t) && Placed(w'.owner, id, t, w'.heap.target[t])
    {
      NewPlaces(w.owner, w'.owner, id, c, t);
    }
    forall t | t in CallWrappers(id, c) ensures t !in w.heap.target {
      NewPlaces(w.owner, w'.owner, id, c, t);
    }
  }

  lemma NewOwners(w: World, w': World, id: nat, c: Trio)
    requires Admitted(w, w', id, c) && w.owner.Keys == w.heap.cells.Keys
    requires forall o :: o in w.heap.cells ==> o < w.next
    ensures c.peer !in w.owner && c.left !in w.owner && c.right !in w.owner
    ensures w'.owner.Keys == w'.heap.cells.Keys
    ensures forall o :: o in w.owner ==> o in w'.owner && w'.owner[o] == w.owner[o]
    ensures forall o :: o in w'.owner && o !in w.owner ==> w'.owner[o] == id
    ensures forall o :: o in w'.owner && o !in w.owner <==> o in {c.peer, c.left, c.right}
  {
    hide Live, CallWrappers;
  }

  lemma NewPlaces(owner: map<Obj, nat>, owner': map<Obj, nat>, id: nat, c: Trio, t: Slot)
    requires t in CallWrappers(id, c) && c.peer !in owner && c.left !in owner && c.right !in owner
    requires owner' == owner[c.peer := id][c.left := id][c.right := id]
    ensures OfCall(owner, id, t) && Placed(owner', id, t, CallWrappers(id, c)[t])
  {
  }

  lemma AdmitHosted(w: World, w': World, peers: map<nat, CallBridge.Peer>, id: nat, c: Trio, p: CallBridge.Peer)
    requires Tracks(w, peers, id) && Admitted(w, w', id, c) && Unused(w.heap, id, c)
    requires p.left.opposite.Some? && p.right.opposite.Some?
    requires Call(w'.heap, {Entry(id)}, c, true, true) && OwnCallback(w'.heap, c.left) && OwnCallback(w'.heap, c.right)
    ensures HostedAs(w', id, peers[id := p])
  {
    hide Live, Owned, HostedAs, CallWrappers, Call, OwnCallback, Unused, Callback;
    NewFieldsHold(w.heap, w'.heap, id, c);
    NewOwners(w, w', id, c);
    NoneYet(w'.heap, c.left);
    NoneYet(w'.heap, c.right);
    assert Objects(w'.heap, c) == {c.peer, c.left, c.right};
    assert Hosted(w'.heap, w'.owner, id, c, true, true) by { hide Objects; }
    hide Hosted;
    HostedThen(w', id, peers[id := p], true, true);
  }

  lemma HostedThen(w: World, id: nat, peers: map<nat, CallBridge.Peer>, leftHolds: bool, rightHolds: bool)
    requires id in w.at && Hosted(w.heap, w.owner, id, w.at[id], leftHolds, rightHolds)
    requires id in peers && peers[id].left.opposite.Some? == leftHolds && peers[id].right.opposite.Some? == rightHolds
    ensures HostedAs(w, id, peers)
  {
    hide Hosted;
  }

  lemma AdmitLocal(w: World, w': World, peers: map<nat, CallBridge.Peer>, id: nat, c: Trio, p: CallBridge.Peer)
    requires Tracks(w, peers, id) && Admitted(w, w', id, c) && HostedAs(w', id, peers[id := p])
    requires OnlyTouches(w.heap, w'.heap, w.owner, w'.owner, id) && w'.owner.Keys == w'.heap.cells.Keys
    ensures Local(w, w', id, peers, peers[id := p])
  {
    hide Live, Owned, HostedAs, OnlyTouches, CallWrappers;
  }

  function Stray(w: World): Option<World> {
    match Exec(w.heap, StrayOps(w.next))
    case None => None
    case Some(r) => Some(World(r, w.at, w.owner, w.next + 1))
  }

  lemma StrayTracks(w: World, peers: map<nat, CallBridge.Peer>, id: nat)
    requires Tracks(w, peers, id)
    ensures Arrives(Stray(w), peers, id)
  {
    hide Exec, StrayOps, Live, Owned, HostedAs, Unused, OfCall, Local;
    NewNames(w, peers, id, NewTrio(w.next));
    NamesFree(w, peers, id, id);
    var r := StrayRuns(w.heap, id, w.next);
    StrayLocal(w, Stray(w).value, peers, id);
    hide Tracks, Stray;
    LocalTracks(w, Stray(w).value, id, peers, peers, id, id);
  }

  lemma StrayLocal(w: World, w': World, peers: map<nat, CallBridge.Peer>, id: nat)
    requires Tracks(w, peers, id) && Live(w'.heap) && w'.heap.target == w.heap.target
             && w'.heap.cells.Keys == w.heap.cells.Keys
    requires forall o :: o in w.heap.cells ==> w'.heap.cells[o].arity == w.heap.cells[o].arity
    requires w'.heap.freed == w.heap.freed + {w.next} && w'.at == w.at && w'.owner == w.owner && w'.next == w.next + 1
    ensures Local(w, w', id, peers, peers)
  {
    hide Live, Owned, HostedAs, OfCall;
    NamesFree(w, peers, id, id);
    assert id !in w.at;
  }

  predicate Empty(h: Heap, s: Slot) { s in h.target && h.target[s].None? }

  function Session(c: Trio, isLeft: bool): Obj { if isLeft then c.left else c.right }

  // The events come through, with memory in order.
  ghost predicate Arrives(w: Option<World>, peers: map<nat, CallBridge.Peer>, nextId: nat) {
    w.Some? && Tracks(w.value, peers, nextId)
  }

  // The peer as far as memory is concerned.
  ghost predicate SameHold(peers: map<nat, CallBridge.Peer>, id: nat, p: CallBridge.Peer) {
    && id in peers
    && p.left.opposite.Some? == peers[id].left.opposite.Some?
    && p.right.opposite.Some? == peers[id].right.opposite.Some?
  }

  function Install(w: World, id: nat, session: Obj): Option<World> {
    match Exec(w.heap, InstallOps(id, session, w.next))
    case None => None
    case Some(r) => Some(World(r, w.at, w.owner[w.next := id], w.next + 1))
  }

  function Note(w: World, id: nat): Option<World> {
    match Exec(w.heap, NoteOps(id))
    case None => None
    case Some(r) => Some(w.(heap := r))
  }

  function Connect(w: World, id: nat, isLeft: bool, bypass: bool): Option<World>
    requires id in w.at
  {
    var session := Session(w.at[id], isLeft);
    if bypass && Empty(w.heap, Member(session, RTCP)) then Install(w, id, session) else Note(w, id)
  }

  lemma ConnectTracks(w: World, peers: map<nat, CallBridge.Peer>, nextId: nat, id: nat, isLeft: bool, bypass: bool,
      p: CallBridge.Peer)
    requires Tracks(w, peers, nextId) && id in w.at && SameHold(peers, id, p)
    ensures Arrives(Connect(w, id, isLeft, bypass), peers[id := p], nextId)
  {
    var session := Session(w.at[id], isLeft);
    hide Tracks, Arrives, SameHold, Install, Note;
    if bypass && Empty(w.heap, Member(session, RTCP)) {
      InstallTracks(w, peers, nextId, id, session, p);
    } else {
      NoteTracks(w, peers, nextId, id, p);
    }
  }

  lemma InstallTracks(w: World, peers: map<nat, CallBridge.Peer>, nextId: nat, id: nat, session: Obj,
      p: CallBridge.Peer)
    requires Tracks(w, peers, nextId) && id in w.at && (session == w.at[id].left || session == w.at[id].right)
    requires SameHold(peers, id, p) && Holds(w.heap, Member(session, RTCP), None)
    ensures Arrives(Install(w, id, session), peers[id := p], nextId)
  {
    hide Tracks, Owned, HostedAs, Exec, InstallOps, Hosted, Local, Installed;
    Stored(w, peers, nextId, id);
    var r := InstallHosted(w.heap, w.owner, id, w.at[id], peers[id].left.opposite.Some?,
        peers[id].right.opposite.Some?, session, w.next);
    var w' := World(r, w.at, w.owner[w.next := id], w.next + 1);
    HostedThen(w', id, peers[id := p], p.left.opposite.Some?, p.right.opposite.Some?);
    InstallLocal(w, w', peers, nextId, id, session, p);
    LocalTracks(w, w', id, peers, peers[id := p], nextId, nextId);
  }

  lemma InstallHosted(h: Heap, owner: map<Obj, nat>, id: nat, c: Trio, leftHolds: bool, rightHolds: bool,
      session: Obj, callback: Obj)
    returns (r: Heap)
    requires Hosted(h, owner, id, c, leftHolds, rightHolds) && owner.Keys == h.cells.Keys && Global(P) !in h.target
    requires (session == c.left || session == c.right) && Holds(h, Member(session, RTCP), None)
    requires callback !in h.cells && callback !in h.freed
    ensures Exec(h, InstallOps(id, session, callback)) == Some(r) && Installed(h, session, callback, r)
    ensures Hosted(r, owner[callback := id], id, c, leftHolds, rightHolds)
    ensures session in owner && owner[session] == id
  {
    hide Call, OwnCallback, Exec, InstallOps, Installed;
    r := InstallRuns(h, id, c, leftHolds, rightHolds, session, callback);
    BelongingsAre(h, owner, id, c, leftHolds, rightHolds);
    hide Hosted;
    InstalledHosted(h, owner, id, c, leftHolds, rightHolds, session, callback, r);
  }

  // What is known of a stored call.
  lemma Stored(w: World, peers: map<nat, CallBridge.Peer>, nextId: nat, id: nat)
    requires Tracks(w, peers, nextId) && id in w.at
    ensures id in peers && id < nextId
    ensures Hosted(w.heap, w.owner, id, w.at[id], peers[id].left.opposite.Some?, peers[id].right.opposite.Some?)
    ensures Owned(w.heap, w.owner) && w.owner.Keys == w.heap.cells.Keys && Global(P) !in w.heap.target
    ensures w.next !in w.heap.cells && w.next !in w.heap.freed
  {
    hide Live, Owned, HostedAs, Hosted;
    NamesFree(w, peers, nextId, id);
    HostedIs(w, peers, id);
  }

  lemma HostedIs(w: World, peers: map<nat, CallBridge.Peer>, id: nat)
    requires HostedAs(w, id, peers)
    ensures Hosted(w.heap, w.owner, id, w.at[id], peers[id].left.opposite.Some?, peers[id].right.opposite.Some?)
  {
    hide Hosted;
  }

  lemma InstallLocal(w: World, w': World, peers: map<nat, CallBridge.Peer>, nextId: nat, id: nat, session: Obj,
      p: CallBridge.Peer)
    requires Tracks(w, peers, nextId) && id in w.at && session in w.owner && w.owner[session] == id
    requires Holds(w.heap, Member(session, RTCP), None) && Installed(w.heap, session, w.next, w'.heap)
    requires w'.at == w.at && w'.owner == w.owner[w.next := id] && w'.next == w.next + 1
             && HostedAs(w', id, peers[id := p])
    ensures Local(w, w', id, peers, peers[id := p])
  {
    hide Live, Owned, HostedAs, OnlyTouches;
    FieldTouched(w.heap, w'.heap, w.owner, w'.owner, id, Member(session, RTCP), Some(w.next));
  }

  lemma NoteTracks(w: World, peers: map<nat, CallBridge.Peer>, nextId: nat, id: nat, p: CallBridge.Peer)
    requires Tracks(w, peers, nextId) && id in w.at && SameHold(peers, id, p)
    ensures Arrives(Note(w, id), peers[id := p], nextId)
  {
    hide Live, Owned, HostedAs, Exec, NoteOps, Hosted, Local, SameCells;
    NamesFree(w, peers, nextId, id);
    HostedIs(w, peers, id);
    var r := NoteHosted(w.heap, w.owner, id, w.at[id], peers[id].left.opposite.Some?, peers[id].right.opposite.Some?);
    var w' := w.(heap := r);
    HostedThen(w', id, peers[id := p], p.left.opposite.Some?, p.right.opposite.Some?);
    var s := Member(w.at[id].left, RTCP);
    FieldLocal(w, w', peers, nextId, id, s, w.heap.target[s], p);
    hide Tracks;
    LocalTracks(w, w', id, peers, peers[id := p], nextId, nextId);
  }

  lemma NoteHosted(h: Heap, owner: map<Obj, nat>, id: nat, c: Trio, leftHolds: bool, rightHolds: bool) returns (r: Heap)
    requires Hosted(h, owner, id, c, leftHolds, rightHolds) && Global(P) !in h.target
    ensures Exec(h, NoteOps(id)) == Some(r) && Hosted(r, owner, id, c, leftHolds, rightHolds) && Live(r)
            && SameCells(h, r)
    ensures c.left in owner && owner[c.left] == id
    ensures var s := Member(c.left, RTCP); s in h.target && r.target == h.target[s := h.target[s]]
  {
    hide Call, OwnCallback, Live, Exec, NoteOps, SameCells;
    r := NoteRuns(h, id, c, leftHolds, rightHolds);
    UnmovedHosted(h, owner, id, c, leftHolds, rightHolds, r);
    BelongingsAre(h, owner, id, c, leftHolds, rightHolds);
    HasCallbackField(h, c.left);
  }

  lemma UnmovedHosted(h: Heap, owner: map<Obj, nat>, id: nat, c: Trio, leftHolds: bool, rightHolds: bool, r: Heap)
    requires Hosted(h, owner, id, c, leftHolds, rightHolds) && Quiet(h, r, h.target)
             && Call(r, {Entry(id)}, c, leftHolds, rightHolds)
    ensures Hosted(r, owner, id, c, leftHolds, rightHolds)
  {
    hide Call, OwnCallback, Live, Callback, Objects;
    HasCallbackField(h, c.left);
    HasCallbackField(h, c.right);
    CallbackKept(h, r, c.left);
    CallbackKept(h, r, c.right);
    SameObjects(h, r, c);
  }

  // A field of the call holds something else of the call, or nothing, or what it held.
  lemma FieldLocal(w: World, w': World, peers: map<nat, CallBridge.Peer>, nextId: nat, id: nat, s: Slot,
      y: Option<Obj>, p: CallBridge.Peer)
    requires Tracks(w, peers, nextId) && id in w.at && s.Member? && s in w.heap.target
    requires s.owner in w.owner && w.owner[s.owner] == id && (y == w.heap.target[s] || y.None?)
    requires Live(w'.heap) && SameCells(w.heap, w'.heap) && w'.heap.target == w.heap.target[s := y]
    requires w'.at == w.at && w'.owner == w.owner && w'.next == w.next && HostedAs(w', id, peers[id := p])
    ensures Local(w, w', id, peers, peers[id := p])
  {
    hide Live, HostedAs, OnlyTouches;
    assert Placed(w.owner, CallOf(w.owner, s), s, w.heap.target[s]);
    hide Owned;
    FieldTouched(w.heap, w'.heap, w.owner, w'.owner, id, s, y);
  }

  function Report(w: World, id: nat, isLeft: bool): Option<World>
    requires id in w.at
  {
    match Exec(w.heap, ReportOps(id, Session(w.at[id], isLeft)) + [Destroy(P)])
    case None => None
    case Some(r) => Some(w.(heap := r))
  }

  lemma ReportTracks(w: World, peers: map<nat, CallBridge.Peer>, nextId: nat, id: nat, isLeft: bool, p: CallBridge.Peer)
    requires Tracks(w, peers, nextId) && id in w.at && LetsGoOf(peers, id, isLeft, p)
    ensures Arrives(Report(w, id, isLeft), peers[id := p], nextId)
  {
    hide Live, Owned, HostedAs, Exec, ReportOps, Hosted, Local, SameCells;
    NamesFree(w, peers, nextId, id);
    HostedIs(w, peers, id);
    var r := ReportHosted(w.heap, w.owner, id, w.at[id], peers[id].left.opposite.Some?,
        peers[id].right.opposite.Some?, isLeft);
    var w' := w.(heap := r);
    HostedThen(w', id, peers[id := p], p.left.opposite.Some?, p.right.opposite.Some?);
    FieldLocal(w, w', peers, nextId, id, Member(Session(w.at[id], isLeft), OPPOSITE), None, p);
    hide Tracks;
    LocalTracks(w, w', id, peers, peers[id := p], nextId, nextId);
  }

  // One session has let go, the other is as it was.
  ghost predicate LetsGoOf(peers: map<nat, CallBridge.Peer>, id: nat, isLeft: bool, p: CallBridge.Peer) {
    && id in peers && p.left.opposite.Some? == (peers[id].left.opposite.Some? && !isLeft)
    && p.right.opposite.Some? == (peers[id].right.opposite.Some? && isLeft)
  }

  lemma ReportHosted(h: Heap, owner: map<Obj, nat>, id: nat, c: Trio, leftHolds: bool, rightHolds: bool, isLeft: bool)
    returns (r: Heap)
    requires Hosted(h, owner, id, c, leftHolds, rightHolds) && Global(P) !in h.target
    ensures Exec(h, ReportOps(id, Session(c, isLeft)) + [Destroy(P)]) == Some(r)
    ensures Hosted(r, owner, id, c, leftHolds && !isLeft, rightHolds && isLeft) && Live(r) && SameCells(h, r)
    ensures Session(c, isLeft) in owner && owner[Session(c, isLeft)] == id
    ensures var s := Member(Session(c, isLeft), OPPOSITE); s in h.target && r.target == h.target[s := None]
  {
    hide Call, OwnCallback, Live, Exec, ReportOps, SameCells;
    Linked(h, {Entry(id)}, c, leftHolds, rightHolds);
    BelongingsAre(h, owner, id, c, leftHolds, rightHolds);
    r := StaysRuns(h, id, c, leftHolds, rightHolds, isLeft);
    StaysHosted(h, owner, id, c, leftHolds, rightHolds, isLeft, r);
  }

  function Remove(w: World, id: nat, isLeft: bool): Option<World>
    requires id in w.at
  {
    match Exec(w.heap, OverOps(id, Session(w.at[id], isLeft)))
    case None => None
    case Some(r) => Some(World(r, w.at - {id}, w.owner - Belongings(w.owner, id), w.next))
  }

  lemma RemoveTracks(w: World, peers: map<nat, CallBridge.Peer>, nextId: nat, id: nat, isLeft: bool)
    requires Tracks(w, peers, nextId) && id in w.at
    ensures Arrives(Remove(w, id, isLeft), peers - {id}, nextId)
  {
    hide Tracks, Owned, Exec, OverOps, Hosted, Local, Cleared, OnlyTouches, LastEntry, Belongings;
    var session := Session(w.at[id], isLeft);
    Stored(w, peers, nextId, id);
    var r3, r := RemoveClears(w.heap, w.owner, id, w.at[id], peers[id].left.opposite.Some?,
        peers[id].right.opposite.Some?, isLeft);
    var w' := Remove(w, id, isLeft).value;
    GoesUnnoticed(w.heap, w.owner, id, w.at[id], session, r3, r);
    RemoveLocal(w, w', peers, nextId, id, r3);
    LocalTracks(w, w', id, peers, peers - {id}, nextId, nextId);
  }

  lemma RemoveClears(h: Heap, owner: map<Obj, nat>, id: nat, c: Trio, leftHolds: bool, rightHolds: bool, isLeft: bool)
    returns (r3: Heap, r: Heap)
    requires Hosted(h, owner, id, c, leftHolds, rightHolds) && Owned(h, owner) && Global(P) !in h.target
    ensures Exec(h, OverOps(id, Session(c, isLeft))) == Some(r)
    ensures LastEntry(h, id, c, Session(c, isLeft), r3) && Cleared(h, owner, id, r3, r)
    ensures Session(c, isLeft) in owner && owner[Session(c, isLeft)] == id
  {
    hide Call, OwnCallback, Live, Exec, OverOps, Owned, Quiet;
    BelongingsAre(h, owner, id, c, leftHolds, rightHolds);
    r3, r := OverRuns(h, id, c, leftHolds, rightHolds, isLeft);
    hide Hosted, Cleared;
    AllGoes(h, owner, id, c, leftHolds, rightHolds, isLeft, r3);
  }

  lemma RemoveLocal(w: World, w': World, peers: map<nat, CallBridge.Peer>, nextId: nat, id: nat, r3: Heap)
    requires Tracks(w, peers, nextId) && id in w.at && Cleared(w.heap, w.owner, id, r3, w'.heap)
    requires OnlyTouches(w.heap, w'.heap, w.owner, w'.owner, id)
    requires w'.at == w.at - {id} && w'.owner == w.owner - Belongings(w.owner, id) && w'.next == w.next
    ensures Local(w, w', id, peers, peers - {id})
  {
    hide Live, Owned, HostedAs, OnlyTouches, Keeps;
  }

  // ------------------------------------------------------------- whole runs

  function Step(w: World, s: CallBridge.State, e: CallBridge.Event, bypass: bool): Option<World> {
    match e
    case NewCall(_, _, _, _, _, _, _) =>
      if e.refused.Some? then Some(w)
      else if e.dst.Some? && (e.audio || e.video) then Admit(w, s.nextId)
      else Stray(w)
    case LegConnected(session, _) =>
      match CallBridge.Side(s, session) {
        case None => Some(w)
        case Some((id, isLeft)) => if id in w.at then Connect(w, id, isLeft, bypass) else None
      }
    case LegTerminated(session, code) =>
      match CallBridge.Side(s, session) {
        case None => Some(w)
        case Some((id, isLeft)) =>
          if id !in w.at then None
          else if CallBridge.Over(CallBridge.TerminatePeer(s.peers[id], isLeft, code)) then Remove(w, id, isLeft)
          else Report(w, id, isLeft)
      }
  }

  function Start(): World { World(Heap(map[], map[], {}, {}), map[], map[], 0) }

  function Run(events: seq<CallBridge.Event>, bypass: bool): Option<World> {
    if events == [] then Some(Start())
    else
      match Run(events[..|events| - 1], bypass)
      case None => None
      case Some(w) => Step(w, CallBridge.Run(events[..|events| - 1], bypass), events[|events| - 1], bypass)
  }

  lemma StepTracks(w: World, s: CallBridge.State, e: CallBridge.Event, bypass: bool)
    requires Tracks(w, s.peers, s.nextId)
    ensures var t := CallBridge.Step(s, e, bypass); Arrives(Step(w, s, e, bypass), t.peers, t.nextId)
  {
    hide Tracks, Arrives, Step, CallBridge.Step;
    match e {
      case NewCall(_, _, _, _, _, _, _) => NewCallTracks(w, s, e, bypass);
      case LegConnected(_, _) => ConnectedTracks(w, s, e, bypass);
      case LegTerminated(_, _) => TerminatedTracks(w, s, e, bypass);
    }
  }

  lemma NewCallTracks(w: World, s: CallBridge.State, e: CallBridge.Event, bypass: bool)
    requires Tracks(w, s.peers, s.nextId) && e.NewCall?
    ensures var t := CallBridge.Step(s, e, bypass); Arrives(Step(w, s, e, bypass), t.peers, t.nextId)
  {
    hide Tracks, Admit, Stray;
    if e.refused.None? {
      if e.dst.Some? && (e.audio || e.video) {
        AdmitTracks(w, s.peers, s.nextId, CallBridge.FreshPeer(s.nextId, e, bypass));
        hide CallBridge.FreshPeer;
      } else {
        StrayTracks(w, s.peers, s.nextId);
      }
    }
  }

  lemma ConnectedTracks(w: World, s: CallBridge.State, e: CallBridge.Event, bypass: bool)
    requires Tracks(w, s.peers, s.nextId) && e.LegConnected?
    ensures var t := CallBridge.Step(s, e, bypass); Arrives(Step(w, s, e, bypass), t.peers, t.nextId)
  {
    StoredIds(w, s.peers, s.nextId);
    hide Tracks, Connect, CallBridge.Side, CallBridge.ConnectCommands, CallBridge.ConnectPeer, SameHold;
    var side := CallBridge.Side(s, e.session);
    if side.Some? {
      var (id, isLeft) := side.value;
      var p := CallBridge.ConnectPeer(s.peers[id], isLeft, e.negotiated, bypass);
      assert SameHold(s.peers, id, p) by { ConnectHolds(s.peers, id, isLeft, e.negotiated, bypass); }
      ConnectTracks(w, s.peers, s.nextId, id, isLeft, bypass, p);
    }
  }

  lemma ConnectHolds(peers: map<nat, CallBridge.Peer>, id: nat, isLeft: bool, negotiated: CallBridge.Codecs,
      bypass: bool)
    requires id in peers
    ensures SameHold(peers, id, CallBridge.ConnectPeer(peers[id], isLeft, negotiated, bypass))
  {
  }

  lemma TerminatedTracks(w: World, s: CallBridge.State, e: CallBridge.Event, bypass: bool)
    requires Tracks(w, s.peers, s.nextId) && e.LegTerminated?
    ensures var t := CallBridge.Step(s, e, bypass); Arrives(Step(w, s, e, bypass), t.peers, t.nextId)
  {
    StoredIds(w, s.peers, s.nextId);
    hide Tracks, Remove, Report, CallBridge.Side, CallBridge.HangupCommands, CallBridge.TerminatePeer;
    hide CallBridge.Over, LetsGoOf;
    var side := CallBridge.Side(s, e.session);
    if side.Some? {
      var (id, isLeft) := side.value;
      var p := CallBridge.TerminatePeer(s.peers[id], isLeft, e.code);
      if CallBridge.Over(p) {
        RemoveTracks(w, s.peers, s.nextId, id, isLeft);
      } else {
        TerminateLetsGo(s.peers, id, isLeft, e.code);
        ReportTracks(w, s.peers, s.nextId, id, isLeft, p);
      }
    }
  }

  lemma TerminateLetsGo(peers: map<nat, CallBridge.Peer>, id: nat, isLeft: bool, code: nat)
    requires id in peers
    ensures LetsGoOf(peers, id, isLeft, CallBridge.TerminatePeer(peers[id], isLeft, code))
  {
  }

  lemma StoredIds(w: World, peers: map<nat, CallBridge.Peer>, nextId: nat)
    requires Tracks(w, peers, nextId)
    ensures w.at.Keys == peers.Keys
  {
    hide Live, Owned, HostedAs;
  }

  // Every run's statements come through, with memory in order.
  lemma {:induction false} RunTracks(events: seq<CallBridge.Event>, bypass: bool)
    ensures var s := CallBridge.Run(events, bypass); Arrives(Run(events, bypass), s.peers, s.nextId)
    decreases |events|
  {
    if events == [] {
      assert Live(Start().heap) && Owned(Start().heap, map[]);
    } else {
      var before, e := events[..|events| - 1], events[|events| - 1];
      RunTracks(before, bypass);
      hide Tracks, Step, CallBridge.Step;
      StepTracks(Run(before, bypass).value, CallBridge.Run(before, bypass), e, bypass);
    }
  }

  // Over every run of events: an object is live exactly when it is the peer, a session or a
  // callback of a call in the table, and none of these has been freed.
  lemma LiveIffStored(events: seq<CallBridge.Event>, bypass: bool)
    ensures Run(events, bypass).Some?
    ensures var w, peers := Run(events, bypass).value, CallBridge.Run(events, bypass).peers;
            && w.at.Keys == peers.Keys && w.heap.freed !! w.heap.cells.Keys
            && (forall o :: o in w.heap.cells <==> exists id :: id in peers && o in Objects(w.heap, w.at[id]))
  {
    RunTracks(events, bypass);
    var w, s := Run(events, bypass).value, CallBridge.Run(events, bypass);
    hide Run, CallBridge.Run;
    NothingFreedIsLive(w.heap) by { hide Owned, HostedAs; }
    hide Live, Owned, HostedAs;
    forall id | id in s.peers
      ensures forall o :: o in Objects(w.heap, w.at[id]) <==> o in w.owner && w.owner[o] == id
    {
      assert HostedAs(w, id, s.peers);
      HostedIs(w, s.peers, id);
      BelongingsAre(w.heap, w.owner, id, w.at[id], s.peers[id].left.opposite.Some?, s.peers[id].right.opposite.Some?);
    }
  }

  lemma NothingFreedIsLive(h: Heap)
    requires Live(h)
    ensures h.freed !! h.cells.Keys
  {
  }

  // ------------------------------------------------------------- freed once

  lemma {:induction false} ExecKeeps(h: Heap, ops: seq<Op>)
    requires Live(h) && Exec(h, ops).Some?
    ensures Live(Exec(h, ops).value) && h.freed <= Exec(h, ops).value.freed
    decreases |ops|
  {
    if ops != [] {
      LiveIs(h);
      ApplyIff(h, ops[0]);
      StatementKeeps(h, ops[0]);
      var r := Apply(h, ops[0]).value;
      LiveIs(r);
      hide Live, Inv, Apply, Enabled, Safe;
      ExecKeeps(r, ops[1..]);
    }
  }

  lemma FreedGrows(h: Heap, ops: seq<Op>)
    requires Live(h)
    ensures Exec(h, ops).Some? ==> h.freed <= Exec(h, ops).value.freed
  {
    hide Exec, Live;
    if Exec(h, ops).Some? { ExecKeeps(h, ops); }
  }

  lemma StepFreesForGood(w: World, s: CallBridge.State, e: CallBridge.Event, bypass: bool)
    requires Live(w.heap)
    ensures Step(w, s, e, bypass).Some? ==> w.heap.freed <= Step(w, s, e, bypass).value.heap.freed
  {
    hide Exec, Live, AdmitOps, StrayOps, InstallOps, NoteOps, OverOps, ReportOps, CallBridge.Side;
    forall ops ensures Exec(w.heap, ops).Some? ==> w.heap.freed <= Exec(w.heap, ops).value.freed {
      FreedGrows(w.heap, ops);
    }
    hide CallBridge.Over, CallBridge.TerminatePeer, Belongings;
  }

  // What one run from `before` keeps: freed objects stay freed.
  lemma StepAfter(events: seq<CallBridge.Event>, e: CallBridge.Event, bypass: bool)
    ensures Run(events, bypass).Some? && Run(events + [e], bypass).Some?
    ensures Run(events, bypass).value.heap.freed <= Run(events + [e], bypass).value.heap.freed
  {
    hide Tracks, Step, CallBridge.Step, Live, Owned, HostedAs;
    RunTracks(events, bypass);
    RunTracks(events + [e], bypass);
    assert (events + [e])[..|events|] == events;
    var w, s := Run(events, bypass).value, CallBridge.Run(events, bypass);
    TrackedIsLive(w, s);
    StepFreesForGood(w, s, e, bypass);
  }

  lemma TrackedIsLive(w: World, s: CallBridge.State)
    requires Tracks(w, s.peers, s.nextId)
    ensures Live(w.heap)
  {
  }

  // What a run has freed stays freed in every continuation, and is never live again.
  lemma {:induction false} FreedForGood(before: seq<CallBridge.Event>, after: seq<CallBridge.Event>, bypass: bool)
    ensures Run(before, bypass).Some? && Run(before + after, bypass).Some?
    ensures var w, w' := Run(before, bypass).value, Run(before + after, bypass).value;
            w.heap.freed <= w'.heap.freed && w.heap.freed !! w'.heap.cells.Keys
    decreases |after|
  {
    hide Run, CallBridge.Run, Objects;
    LiveIffStored(before, bypass);
    LiveIffStored(before + after, bypass);
    if after == [] {
      assert before + after == before;
    } else {
      var last := |after| - 1;
      FreedForGood(before, after[..last], bypass);
      assert (before + after[..last]) + [after[last]] == before + after;
      StepAfter(before + after[..last], after[last], bypass);
    }
  }
}
