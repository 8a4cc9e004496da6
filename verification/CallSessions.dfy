// The objects of one call: the peer, which the engine's map holds, and the two sessions,
// which the peer holds and which hold each other while the call lives.

module CallSessions {
  import opened Common
  import opened RefCount

  // Fields of a peer and of a session, in the order in which they are destroyed.
  const RIGHT := 0
  const LEFT := 1
  const OPPOSITE := 0
  const RTCP := 1

  datatype Trio = Trio(peer: Obj, left: Obj, right: Obj)

  // What the fields of a call's objects hold; the flags tell which session still holds its
  // opposite.
  ghost predicate Wired(h: Heap, c: Trio, leftHolds: bool, rightHolds: bool) {
    && c.peer != c.left && c.peer != c.right && c.left != c.right
    && {c.peer, c.left, c.right} <= h.cells.Keys
    && h.cells[c.peer].arity == 2 && h.cells[c.left].arity == 2 && h.cells[c.right].arity == 2
    && Holds(h, Member(c.peer, LEFT), Some(c.left)) && Holds(h, Member(c.peer, RIGHT), Some(c.right))
    && Holds(h, Member(c.left, OPPOSITE), if leftHolds then Some(c.right) else None)
    && Holds(h, Member(c.right, OPPOSITE), if rightHolds then Some(c.left) else None)
  }

  // Nothing outside the call holds its sessions, and only these wrappers the peer.
  ghost predicate Enclosed(h: Heap, entries: set<Slot>, c: Trio, leftHolds: bool, rightHolds: bool) {
    && Holders(h, c.peer) == entries
    && Holders(h, c.left) == HeldBy(Member(c.peer, LEFT), Member(c.right, OPPOSITE), rightHolds)
    && Holders(h, c.right) == HeldBy(Member(c.peer, RIGHT), Member(c.left, OPPOSITE), leftHolds)
  }

  function HeldBy(a: Slot, b: Slot, alsoB: bool): set<Slot> {
    if alsoB then {a, b} else {a}
  }

  ghost predicate Call(h: Heap, entries: set<Slot>, c: Trio, leftHolds: bool, rightHolds: bool) {
    && Inv(h, None) && h.dying == {} && entries != {} && (forall e :: e in entries ==> e.Global?)
    && Wired(h, c, leftHolds, rightHolds) && Enclosed(h, entries, c, leftHolds, rightHolds)
  }

  // MPSipSessionAV::setState(Terminated): the session lets go of its opposite.
  function Terminate(h: Heap, session: Obj): Heap
    requires Member(session, OPPOSITE) in h.target
  {
    match Apply(h, AssignRaw(Member(session, OPPOSITE), None))
    case Some(r) => r
    case None => h
  }

  // MPEngine::removePeer, once the handler's own wrapper is gone as well.
  function RemovePeer(h: Heap, entry: Slot): Heap {
    DestroySlot(h, entry)
  }

  lemma Counts(h: Heap, entries: set<Slot>, c: Trio, leftHolds: bool, rightHolds: bool)
    requires Call(h, entries, c, leftHolds, rightHolds)
    ensures h.cells[c.peer].count == |entries| && h.cells[c.peer].wrapped
    ensures h.cells[c.left].count == (if rightHolds then 2 else 1) && h.cells[c.left].wrapped
    ensures h.cells[c.right].count == (if leftHolds then 2 else 1) && h.cells[c.right].wrapped
  {
    hide Holders;
    assert entries != {} ==> |entries| > 0;
  }

  // The same objects with the same fields, none freed.
  ghost predicate SameCells(h: Heap, r: Heap) {
    && r.cells.Keys == h.cells.Keys && r.freed == h.freed && r.dying == h.dying
    && forall o :: o in h.cells ==> r.cells[o].arity == h.cells[o].arity
  }

  // Letting go of an opposite that is held elsewhere too clears the field and nothing else.
  lemma LetsGo(h: Heap, session: Obj, other: Obj)
    requires Inv(h, None) && h.dying == {} && session in h.cells && other in h.cells && h.cells[other].count > 1
    requires Holds(h, Member(session, OPPOSITE), Some(other))
    ensures var s, t := Member(session, OPPOSITE), Terminate(h, session);
            && Inv(t, None) && t.dying == {} && t.target == h.target[s := None] && t.freed == h.freed
            && SameCells(h, t)
  {
    var s := Member(session, OPPOSITE);
    ReleaseKeeps(h, s);
    var r := SetCount(Null(h, s), other, h.cells[other].count - 1);
    assert Release(h, s) == r;
    hide DropRef;
    LinkKeeps(r, s, None);
    hide Inv;
    assert h.target[s := None][s := None] == h.target[s := None];
    assert r.cells.Keys == h.cells.Keys;
  }

  lemma HoldersAfter(h: Heap, t: Heap, s: Slot, other: Obj, o: Obj)
    requires t.target == h.target[s := None] && Holds(h, s, Some(other))
    ensures Holders(t, o) == if o == other then Holders(h, o) - {s} else Holders(h, o)
  {
  }

  lemma OneLess(a: Slot, b: Slot)
    requires a != b
    ensures HeldBy(a, b, true) - {b} == HeldBy(a, b, false)
  {
  }

  // A session that has let go already has nothing to let go of.
  lemma LetGoBefore(h: Heap, session: Obj)
    requires Holds(h, Member(session, OPPOSITE), None)
    ensures Terminate(h, session) == h && h.target[Member(session, OPPOSITE) := None] == h.target && SameCells(h, h)
  {
    assert h.target[Member(session, OPPOSITE) := None] == h.target;
  }

  lemma Linked(h: Heap, entries: set<Slot>, c: Trio, leftHolds: bool, rightHolds: bool)
    requires Call(h, entries, c, leftHolds, rightHolds)
    ensures c.peer != c.left && c.peer != c.right && c.left != c.right
    ensures c.left in h.cells && c.right in h.cells
    ensures rightHolds ==> h.cells[c.left].count > 1
    ensures leftHolds ==> h.cells[c.right].count > 1
    ensures Holds(h, Member(c.left, OPPOSITE), if leftHolds then Some(c.right) else None)
    ensures Holds(h, Member(c.right, OPPOSITE), if rightHolds then Some(c.left) else None)
  {
    Counts(h, entries, c, leftHolds, rightHolds);
    hide Inv, Enclosed;
  }

  lemma LeftWired(h: Heap, t: Heap, c: Trio, rightHolds: bool)
    requires Wired(h, c, true, rightHolds) && SameCells(h, t) && t.target == h.target[Member(c.left, OPPOSITE) := None]
    ensures Wired(t, c, false, rightHolds)
  {
  }

  lemma RightWired(h: Heap, t: Heap, c: Trio, leftHolds: bool)
    requires Wired(h, c, leftHolds, true) && SameCells(h, t) && t.target == h.target[Member(c.right, OPPOSITE) := None]
    ensures Wired(t, c, leftHolds, false)
  {
  }

  // Letting go of the opposite frees nothing while the peer still holds both sessions, and
  // letting go again changes nothing.
  lemma LeftTerminates(h: Heap, entries: set<Slot>, c: Trio, leftHolds: bool, rightHolds: bool)
    requires Call(h, entries, c, leftHolds, rightHolds)
    ensures Call(Terminate(h, c.left), entries, c, false, rightHolds)
    ensures Terminate(h, c.left).target == h.target[Member(c.left, OPPOSITE) := None]
    ensures SameCells(h, Terminate(h, c.left))
  {
    hide Inv, Holders, Terminate, HeldBy, Enclosed, Wired, SameCells;
    Linked(h, entries, c, leftHolds, rightHolds);
    if leftHolds {
      var t := Terminate(h, c.left);
      LetsGo(h, c.left, c.right);
      LeftWired(h, t, c, rightHolds);
      LeftEnclosed(h, t, entries, c, rightHolds);
    } else {
      LetGoBefore(h, c.left);
    }
  }

  lemma LeftEnclosed(h: Heap, t: Heap, entries: set<Slot>, c: Trio, rightHolds: bool)
    requires Enclosed(h, entries, c, true, rightHolds) && c.peer != c.right && c.left != c.right && c.peer != c.left
    requires Holds(h, Member(c.left, OPPOSITE), Some(c.right)) && t.target == h.target[Member(c.left, OPPOSITE) := None]
    ensures Enclosed(t, entries, c, false, rightHolds)
  {
    hide Holders, HeldBy;
    var s := Member(c.left, OPPOSITE);
    HoldersAfter(h, t, s, c.right, c.left);
    HoldersAfter(h, t, s, c.right, c.right);
    HoldersAfter(h, t, s, c.right, c.peer);
    OneLess(Member(c.peer, RIGHT), s);
  }

  lemma RightTerminates(h: Heap, entries: set<Slot>, c: Trio, leftHolds: bool, rightHolds: bool)
    requires Call(h, entries, c, leftHolds, rightHolds)
    ensures Call(Terminate(h, c.right), entries, c, leftHolds, false)
    ensures Terminate(h, c.right).target == h.target[Member(c.right, OPPOSITE) := None]
    ensures SameCells(h, Terminate(h, c.right))
  {
    hide Inv, Holders, Terminate, HeldBy, Enclosed, Wired, SameCells;
    Linked(h, entries, c, leftHolds, rightHolds);
    if rightHolds {
      var t := Terminate(h, c.right);
      LetsGo(h, c.right, c.left);
      RightWired(h, t, c, leftHolds);
      RightEnclosed(h, t, entries, c, leftHolds);
    } else {
      LetGoBefore(h, c.right);
    }
  }

  lemma RightEnclosed(h: Heap, t: Heap, entries: set<Slot>, c: Trio, leftHolds: bool)
    requires Enclosed(h, entries, c, leftHolds, true) && c.peer != c.right && c.left != c.right && c.peer != c.left
    requires Holds(h, Member(c.right, OPPOSITE), Some(c.left))
             && t.target == h.target[Member(c.right, OPPOSITE) := None]
    ensures Enclosed(t, entries, c, leftHolds, false)
  {
    hide Holders, HeldBy;
    var s := Member(c.right, OPPOSITE);
    HoldersAfter(h, t, s, c.left, c.left);
    HoldersAfter(h, t, s, c.left, c.right);
    HoldersAfter(h, t, s, c.left, c.peer);
    OneLess(Member(c.peer, LEFT), s);
  }

  // A wrapper that is still there.
  ghost predicate Present(r: Heap, s: Slot) {
    s in r.target && (s.Member? ==> s.owner in r.cells)
  }

  // What is live and was ever wrapped is held, by a wrapper that held it before.
  lemma Holder(h: Heap, r: Heap, gone: set<Slot>, o: Obj, a: Slot, b: Slot)
    requires Inv(r, None) && r.dying == {} && Leaves(h, r) && Keeps(h, r, gone)
    requires o in h.cells && h.cells[o].wrapped && Holders(h, o) <= {a, b}
    ensures o in r.cells ==> Present(r, a) || Present(r, b)
  {
    if o in r.cells {
      assert |Holders(r, o)| > 0;
      assert Holders(r, o) != {};
      var s :| s in Holders(r, o);
      assert s in Holders(h, o);
    }
  }

  // A session outlives its peer only through the other session, and that one likewise.
  lemma OnlyACycleSurvives(h: Heap, entry: Slot, c: Trio, leftHolds: bool, rightHolds: bool)
    requires Call(h, {entry}, c, leftHolds, rightHolds)
    ensures var r := RemovePeer(h, entry);
            && c.peer !in r.cells
            && (c.left in r.cells ==> rightHolds && c.right in r.cells)
            && (c.right in r.cells ==> leftHolds && c.left in r.cells)
            && r.freed == h.freed + (h.cells.Keys - r.cells.Keys) && r.cells.Keys !! r.freed
  {
    Counts(h, {entry}, c, leftHolds, rightHolds);
    DestroySlotKeeps(h, entry);
    var r := RemovePeer(h, entry);
    hide DestroySlot, Holders, Keeps, RemovePeer;
    Holder(h, r, {entry}, c.peer, entry, entry);
    var a, b := Member(c.peer, LEFT), Member(c.peer, RIGHT);
    Holder(h, r, {entry}, c.left, a, if rightHolds then Member(c.right, OPPOSITE) else a);
    Holder(h, r, {entry}, c.right, b, if leftHolds then Member(c.left, OPPOSITE) else b);
  }

  // When the peer is removed, all three objects are freed exactly when at least one session
  // had let go of the other; if neither had, both sessions leak.
  lemma FreedIffLinkBroken(h: Heap, entry: Slot, c: Trio, leftHolds: bool, rightHolds: bool)
    requires Call(h, {entry}, c, leftHolds, rightHolds)
    ensures var r, all := RemovePeer(h, entry), {c.peer, c.left, c.right};
            && (leftHolds && rightHolds ==> {c.left, c.right} <= r.cells.Keys)
            && (!(leftHolds && rightHolds) ==> all <= r.freed && all !! h.freed && all !! r.cells.Keys)
  {
    OnlyACycleSurvives(h, entry, c, leftHolds, rightHolds);
    if leftHolds && rightHolds { Leak(h, entry, c); }
    hide RemovePeer, Inv;
  }

  // A callback object is the session's own when nothing else holds it.
  ghost predicate OwnCallback(h: Heap, session: Obj) {
    var s := Member(session, RTCP);
    && s in h.target
    && (h.target[s].Some? ==>
          h.target[s].value in h.cells && h.cells[h.target[s].value].arity == 0 && Holders(h, h.target[s].value) == {s})
  }

  // The callback object that a session has installed goes with the session.
  lemma CallbackFreed(h: Heap, entry: Slot, c: Trio, leftHolds: bool, rightHolds: bool, session: Obj)
    requires Call(h, {entry}, c, leftHolds, rightHolds) && !(leftHolds && rightHolds)
    requires (session == c.left || session == c.right) && OwnCallback(h, session)
    ensures var callback := h.target[Member(session, RTCP)];
            callback.Some? ==> callback.value in RemovePeer(h, entry).freed
  {
    var s := Member(session, RTCP);
    if h.target[s].Some? {
      FreedIffLinkBroken(h, entry, c, leftHolds, rightHolds);
      OnlyACycleSurvives(h, entry, c, leftHolds, rightHolds);
      DestroySlotKeeps(h, entry);
      assert h.cells[h.target[s].value].wrapped;
      hide DestroySlot, Holders, Keeps;
      Holder(h, RemovePeer(h, entry), {entry}, h.target[s].value, s, s);
    }
  }

  lemma Leak(h: Heap, entry: Slot, c: Trio)
    requires Call(h, {entry}, c, true, true)
    ensures var r := RemovePeer(h, entry);
            c.left in r.cells && c.right in r.cells && r.cells[c.left].count == r.cells[c.right].count == 1
  {
    Counts(h, {entry}, c, true, true);
    hide Inv, Holders;
    var h1 := Dying(Unlink(h, entry), c.peer);
    LastPeer(h, entry, c.peer, 2);
    FieldStep(h1, c.peer, 0, c.right);
    var h2 := SetCount(Unlink(h1, Member(c.peer, RIGHT)), c.right, 1);
    FieldStep(h2, c.peer, 1, c.left);
    hide DestroySlot;
    var h3 := SetCount(Unlink(h2, Member(c.peer, LEFT)), c.left, 1);
    assert DestroyFields(h3, c.peer, 2, 2) == h3;
    hide DestroyFields;
  }

  // Dropping the entry of the map deletes the peer.
  lemma LastPeer(h: Heap, entry: Slot, peer: Obj, n: nat)
    requires Holds(h, entry, Some(peer)) && peer in h.cells && h.cells[peer].count == 1 && h.cells[peer].arity == n
    ensures RemovePeer(h, entry) == Freed(DestroyFields(Dying(Unlink(h, entry), peer), peer, 0, n), peer)
  {
    var h0 := Unlink(h, entry);
    assert DestroySlot(h, entry) == DropRef(h0, peer);
  }

  // Destroying a field whose object is held elsewhere too.
  lemma FieldStep(h: Heap, o: Obj, i: nat, x: Obj)
    requires i < 2 && Holds(h, Member(o, i), Some(x)) && x in h.cells && h.cells[x].count == 2
    ensures DestroyFields(h, o, i, 2) == DestroyFields(SetCount(Unlink(h, Member(o, i)), x, 1), o, i + 1, 2)
  {
    assert DestroySlot(h, Member(o, i)) == SetCount(Unlink(h, Member(o, i)), x, 1);
  }

  // The legs' reports, each as often as it comes, in any order.
  function Reported(h: Heap, c: Trio, reports: seq<bool>): Option<Heap> {
    if reports == [] then Some(h)
    else
      match Reported(h, c, reports[..|reports| - 1])
      case None => None
      case Some(r) =>
        var session := if reports[|reports| - 1] then c.left else c.right;
        if Member(session, OPPOSITE) in r.target then Some(Terminate(r, session)) else None
  }

  lemma {:induction false} ReportsKeep(h: Heap, entries: set<Slot>, c: Trio, reports: seq<bool>)
    requires Call(h, entries, c, true, true)
    ensures Reported(h, c, reports).Some?
    ensures Call(Reported(h, c, reports).value, entries, c, true !in reports, false !in reports)
    decreases |reports|
  {
    hide Call, Terminate;
    if reports == [] {
      assert Reported(h, c, reports) == Some(h);
    } else {
      var before, isLeft := reports[..|reports| - 1], reports[|reports| - 1];
      hide Reported;
      ReportsKeep(h, entries, c, before);
      OneMoreReport(before, isLeft);
      assert reports == before + [isLeft];
      ReportNext(h, entries, c, reports, true !in before, false !in before);
    }
  }

  lemma OneMoreReport(before: seq<bool>, isLeft: bool)
    ensures true in before + [isLeft] <==> true in before || isLeft
    ensures false in before + [isLeft] <==> false in before || !isLeft
  {
  }

  lemma ReportNext(h: Heap, entries: set<Slot>, c: Trio, reports: seq<bool>, leftHolds: bool, rightHolds: bool)
    requires reports != [] && Reported(h, c, reports[..|reports| - 1]).Some?
    requires Call(Reported(h, c, reports[..|reports| - 1]).value, entries, c, leftHolds, rightHolds)
    ensures Reported(h, c, reports).Some?
    ensures var isLeft := reports[|reports| - 1];
            Call(Reported(h, c, reports).value, entries, c, leftHolds && !isLeft, rightHolds && isLeft)
  {
    var r := Reported(h, c, reports[..|reports| - 1]).value;
    HasOpposites(r, entries, c, leftHolds, rightHolds);
    hide Call, Terminate;
    if reports[|reports| - 1] {
      LeftTerminates(r, entries, c, leftHolds, rightHolds);
    } else {
      RightTerminates(r, entries, c, leftHolds, rightHolds);
    }
  }

  lemma HasOpposites(h: Heap, entries: set<Slot>, c: Trio, leftHolds: bool, rightHolds: bool)
    requires Call(h, entries, c, leftHolds, rightHolds)
    ensures Member(c.left, OPPOSITE) in h.target && Member(c.right, OPPOSITE) in h.target
  {
  }

  // From a live call, in whatever order and however often the legs are reported: once one
  // leg has been, everything is freed when the peer goes, each object once.
  lemma NoLeak(h: Heap, entry: Slot, c: Trio, reports: seq<bool>)
    requires Call(h, {entry}, c, true, true) && reports != []
    ensures Reported(h, c, reports).Some?
    ensures var t := Reported(h, c, reports).value;
            var r, all := RemovePeer(t, entry), {c.peer, c.left, c.right};
            all <= r.freed && all !! r.cells.Keys && all !! t.freed
  {
    ReportsKeep(h, {entry}, c, reports);
    assert reports[0] in reports;
    FreedIffLinkBroken(Reported(h, c, reports).value, entry, c, true !in reports, false !in reports);
    hide RemovePeer, Call;
  }
}
