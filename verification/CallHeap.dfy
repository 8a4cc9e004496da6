// The calls of CallBridge as objects in memory: the statements that the event handlers make
// on reference-counted wrappers, run beside the bridge, and the proof that over every run
// the live objects are those of the calls in the table.

module CallHeap {
  import opened Common
  import opened RefCount
  import opened CallSessions

  // -------------------------------------------------------------- statements

  function Exec(h: Heap, ops: seq<Op>): Option<Heap>
    decreases |ops|
  {
    if ops == [] then Some(h)
    else if !Enabled(h, ops[0]) then None
    else
      match Apply(h, ops[0])
      case None => None
      case Some(r) => Exec(r, ops[1..])
  }

  lemma {:induction false} ExecJoins(h: Heap, a: seq<Op>, r: Heap, b: seq<Op>)
    requires Exec(h, a) == Some(r)
    ensures Exec(h, a + b) == Exec(r, b)
    decreases |a|
  {
    if a == [] {
      assert a + b == b;
    } else {
      assert (a + b)[1..] == a[1..] + b;
      ExecJoins(Apply(h, a[0]).value, a[1..], r, b);
    }
  }

  lemma ExecOne(h: Heap, op: Op)
    requires Enabled(h, op)
    ensures Exec(h, [op]) == Apply(h, op)
  {
    assert [op][1..] == [];
  }

  ghost predicate Live(h: Heap) { Inv(h, None) && h.dying == {} }

  // Nothing is made or freed, and these are the wrappers now.
  ghost predicate Quiet(h: Heap, r: Heap, target: map<Slot, Option<Obj>>) {
    Live(r) && SameCells(h, r) && r.target == target
  }

  lemma ConstructRuns(h: Heap, g: nat, y: Option<Obj>) returns (r: Heap)
    requires Live(h) && Global(g) !in h.target && (y.Some? ==> y.value in h.cells)
    ensures Exec(h, [Construct(g, y)]) == Some(r) && Quiet(h, r, h.target[Global(g) := y])
  {
    ExecOne(h, Construct(g, y));
    r := Link(h, Global(g), y);
    LinkKeeps(h, Global(g), y);
    hide Inv, Exec;
    assert r.cells.Keys == h.cells.Keys;
  }

  lemma CopyRuns(h: Heap, g: nat, t: Slot) returns (r: Heap)
    requires Live(h) && Global(g) !in h.target && t in h.target
    ensures Exec(h, [Copy(g, t)]) == Some(r) && Quiet(h, r, h.target[Global(g) := h.target[t]])
  {
    ExecOne(h, Copy(g, t));
    assert h.target[t].Some? ==> h.target[t].value in h.cells;
    r := Link(h, Global(g), h.target[t]);
    LinkKeeps(h, Global(g), h.target[t]);
    hide Inv, Exec;
    assert r.cells.Keys == h.cells.Keys;
  }

  // Assignments to a wrapper that holds nothing.
  lemma AssignRuns(h: Heap, s: Slot, t: Slot) returns (r: Heap)
    requires Live(h) && Holds(h, s, None) && t in h.target && s != t
    ensures Exec(h, [Assign(s, t)]) == Some(r) && Quiet(h, r, h.target[s := h.target[t]])
  {
    assert h.target[t].Some? ==> h.target[t].value in h.cells;
    ExecOne(h, Assign(s, t));
    r := Link(h, s, h.target[t]);
    NothingReleased(h, s);
    LinkKeeps(h, s, h.target[t]);
    hide Inv, Exec, Release;
    assert r.cells.Keys == h.cells.Keys;
  }

  lemma AssignRawRuns(h: Heap, s: Slot, y: Option<Obj>) returns (r: Heap)
    requires Live(h) && Holds(h, s, None) && (y.Some? ==> y.value in h.cells)
    ensures Exec(h, [AssignRaw(s, y)]) == Some(r) && Quiet(h, r, h.target[s := y])
  {
    ExecOne(h, AssignRaw(s, y));
    r := Link(h, s, y);
    NothingReleased(h, s);
    LinkKeeps(h, s, y);
    hide Inv, Exec, Release;
    assert r.cells.Keys == h.cells.Keys;
  }

  lemma NothingReleased(h: Heap, s: Slot)
    requires Holds(h, s, None)
    ensures Release(h, s) == h
  {
  }

  // The end of a wrapper whose object has another one.
  lemma DestroyRuns(h: Heap, g: nat, t: Slot) returns (r: Heap)
    requires Live(h) && Global(g) in h.target && t in h.target && t != Global(g) && h.target[t] == h.target[Global(g)]
    ensures Exec(h, [Destroy(g)]) == Some(r) && Quiet(h, r, h.target - {Global(g)})
  {
    ExecOne(h, Destroy(g));
    r := DestroySlot(h, Global(g));
    DestroySlotKeeps(h, Global(g));
    if h.target[Global(g)].Some? { TwoHolders(h, Global(g), t); }
    hide Inv, Exec;
    assert r.cells.Keys == h.cells.Keys;
  }

  lemma TwoHolders(h: Heap, s: Slot, t: Slot)
    requires Live(h) && s in h.target && t in h.target && s != t && h.target[s] == h.target[t] && h.target[s].Some?
    ensures h.target[s].value in h.cells && h.cells[h.target[s].value].count > 1
  {
    var o := h.target[s].value;
    assert {s, t} <= Holders(h, o);
    SubSlots({s, t}, Holders(h, o));
  }

  lemma {:induction false} SubSlots(a: set<Slot>, b: set<Slot>)
    requires a <= b
    ensures |a| <= |b|
    decreases a
  {
    if x :| x in a { SubSlots(a - {x}, b - {x}); }
  }

  lemma NewRuns(h: Heap, o: Obj, n: nat) returns (r: Heap)
    requires Live(h) && o !in h.cells && o !in h.freed
    ensures Exec(h, [New(o, n)]) == Some(r) && Live(r)
    ensures r.target == NewFields(h, o, n) && r.cells == h.cells[o := Cell(0, n, false)] && r.freed == h.freed
  {
    ExecOne(h, New(o, n));
    NewKeeps(h, o, n);
    r := Apply(h, New(o, n)).value;
  }

  lemma TwoFields(h: Heap, o: Obj)
    ensures NewFields(h, o, 2) == h.target[Member(o, 0) := None][Member(o, 1) := None]
    ensures NewFields(h, o, 0) == h.target
  {
  }

  // ---------------------------------------------------------------- wrappers

  // The handler's own wrappers, a parameter's, and the entries of the peer table.
  const L := 0
  const P := 1
  const R := 2
  const TMP := 3

  function Entry(id: nat): Slot { Global(id + 4) }

  // A wrapper passed by value, which the callee assigns to one of its fields.
  function PassOps(s: Slot, t: Slot): seq<Op> {
    [Copy(TMP, t)] + ([Assign(s, Global(TMP))] + [Destroy(TMP)])
  }

  lemma PassRuns(h: Heap, s: Slot, t: Slot) returns (r: Heap)
    requires Live(h) && Holds(h, s, None) && t in h.target && s != t && Global(TMP) !in h.target
    ensures Exec(h, PassOps(s, t)) == Some(r) && Quiet(h, r, h.target[s := h.target[t]])
  {
    hide Live, SameCells, Exec;
    var r1 := CopyRuns(h, TMP, t);
    var r2 := AssignRuns(r1, s, Global(TMP));
    r := DestroyRuns(r2, TMP, s);
    ExecJoins(r1, [Assign(s, Global(TMP))], r2, [Destroy(TMP)]);
    ExecJoins(h, [Copy(TMP, t)], r1, [Assign(s, Global(TMP))] + [Destroy(TMP)]);
    SameTwice(h, r1, r2);
    SameTwice(h, r2, r);
    assert h.target[Global(TMP) := h.target[t]][s := h.target[t]] - {Global(TMP)} == h.target[s := h.target[t]];
  }

  // A wrapper passed by value, which the callee copies into the table.
  function EnterOps(g: nat, t: Slot): seq<Op> {
    [Copy(TMP, t)] + ([Copy(g, Global(TMP))] + [Destroy(TMP)])
  }

  lemma EnterRuns(h: Heap, g: nat, t: Slot) returns (r: Heap)
    requires Live(h) && Global(g) !in h.target && t in h.target && g != TMP && Global(TMP) !in h.target
    ensures Exec(h, EnterOps(g, t)) == Some(r) && Quiet(h, r, h.target[Global(g) := h.target[t]])
  {
    hide Live, SameCells, Exec;
    var r1 := CopyRuns(h, TMP, t);
    var r2 := CopyRuns(r1, g, Global(TMP));
    r := DestroyRuns(r2, TMP, Global(g));
    ExecJoins(r1, [Copy(g, Global(TMP))], r2, [Destroy(TMP)]);
    ExecJoins(h, [Copy(TMP, t)], r1, [Copy(g, Global(TMP))] + [Destroy(TMP)]);
    SameTwice(h, r1, r2);
    SameTwice(h, r2, r);
    assert h.target[Global(TMP) := h.target[t]][Global(g) := h.target[t]] - {Global(TMP)}
           == h.target[Global(g) := h.target[t]];
  }

  lemma SameTwice(h: Heap, r1: Heap, r2: Heap)
    requires SameCells(h, r1) && SameCells(r1, r2)
    ensures SameCells(h, r2)
  {
  }

  // ---------------------------------------------------------------- new call

  // A call that is let in: the left session, the peer with its entry in the table, the
  // right session and the links; then the handler's own wrappers end.
  function LeftOps(c: Trio): seq<Op> {
    [] + [Construct(L, None)] + [New(c.left, 2)] + [AssignRaw(Global(L), Some(c.left))]
  }

  function PeerOps(id: nat, c: Trio): seq<Op> {
    LeftOps(c) + [Construct(P, None)] + [New(c.peer, 2)] + PassOps(Member(c.peer, LEFT), Global(L))
    + [AssignRaw(Global(P), Some(c.peer))] + EnterOps(id + 4, Global(P))
  }

  function RightOps(id: nat, c: Trio): seq<Op> {
    PeerOps(id, c) + [New(c.right, 2)] + [Construct(R, Some(c.right))]
    + PassOps(Member(c.right, OPPOSITE), Global(L)) + PassOps(Member(c.left, OPPOSITE), Global(R))
    + PassOps(Member(c.peer, RIGHT), Global(R))
  }

  function AdmitOps(id: nat, c: Trio): seq<Op> {
    RightOps(id, c) + [Destroy(R)] + [Destroy(P)] + [Destroy(L)]
  }

  // New objects, and these wrappers beside the old ones.
  ghost predicate Grown(h: Heap, r: Heap, more: map<Slot, Option<Obj>>, objects: set<Obj>) {
    && Live(r) && r.freed == h.freed && r.target == h.target + more && r.cells.Keys == h.cells.Keys + objects
    && (forall o :: o in h.cells ==> r.cells[o].arity == h.cells[o].arity)
    && forall o :: o in objects ==> r.cells[o].arity == 2
  }

  ghost predicate Reaches(h: Heap, ops: seq<Op>, r: Heap, more: map<Slot, Option<Obj>>, objects: set<Obj>) {
    Exec(h, ops) == Some(r) && Grown(h, r, more, objects)
  }

  lemma GrownSet(h: Heap, r: Heap, more: map<Slot, Option<Obj>>, objects: set<Obj>, q: Heap, s: Slot, y: Option<Obj>)
    requires Grown(h, r, more, objects) && Quiet(r, q, r.target[s := y])
    ensures Grown(h, q, more[s := y], objects)
  {
    hide Live;
    assert (h.target + more)[s := y] == h.target + more[s := y];
  }

  lemma GrownEnd(h: Heap, r: Heap, more: map<Slot, Option<Obj>>, objects: set<Obj>, q: Heap, s: Slot)
    requires Grown(h, r, more, objects) && Quiet(r, q, r.target - {s}) && s !in h.target
    ensures Grown(h, q, more - {s}, objects)
  {
    hide Live;
    assert (h.target + more) - {s} == h.target + (more - {s});
  }

  lemma GrownNew(h: Heap, r: Heap, more: map<Slot, Option<Obj>>, objects: set<Obj>, q: Heap, o: Obj)
    requires Grown(h, r, more, objects) && Live(q) && o !in r.cells
    requires q.target == r.target[Member(o, 0) := None][Member(o, 1) := None]
    requires q.cells == r.cells[o := Cell(0, 2, false)] && q.freed == r.freed
    ensures Grown(h, q, more[Member(o, 0) := None][Member(o, 1) := None], objects + {o})
  {
    hide Live;
    var a, b := Member(o, 0), Member(o, 1);
    assert (h.target + more)[a := None][b := None] == h.target + more[a := None][b := None];
    assert r.cells[o := Cell(0, 2, false)].Keys == r.cells.Keys + {o};
  }

  // Facts about one wrapper on a grown heap.
  lemma GrownAt(h: Heap, ops: seq<Op>, r: Heap, more: map<Slot, Option<Obj>>, objects: set<Obj>, s: Slot)
    requires Reaches(h, ops, r, more, objects)
    ensures Exec(h, ops) == Some(r) && Live(r) && r.freed == h.freed
    ensures s in more ==> Holds(r, s, more[s])
    ensures s !in more && s !in h.target ==> s !in r.target
    ensures forall o :: o in r.cells <==> o in h.cells || o in objects
  {
    hide Live, Exec;
  }

  // One statement more, by its kind.
  lemma Constructed(
      h: Heap, ops: seq<Op>, r: Heap, more: map<Slot, Option<Obj>>, objects: set<Obj>, g: nat, y: Option<Obj>)
    returns (q: Heap)
    requires Reaches(h, ops, r, more, objects) && Global(g) !in h.target && Global(g) !in more
    requires y.Some? ==> y.value in objects
    ensures Reaches(h, ops + [Construct(g, y)], q, more[Global(g) := y], objects)
  {
    GrownAt(h, ops, r, more, objects, Global(g));
    hide Live, Exec, Grown, Quiet;
    q := ConstructRuns(r, g, y);
    GrownSet(h, r, more, objects, q, Global(g), y);
    ExecJoins(h, ops, r, [Construct(g, y)]);
  }

  lemma AssignedRaw(
      h: Heap, ops: seq<Op>, r: Heap, more: map<Slot, Option<Obj>>, objects: set<Obj>, s: Slot, y: Option<Obj>)
    returns (q: Heap)
    requires Reaches(h, ops, r, more, objects) && s in more && more[s].None? && (y.Some? ==> y.value in objects)
    ensures Reaches(h, ops + [AssignRaw(s, y)], q, more[s := y], objects)
  {
    GrownAt(h, ops, r, more, objects, s);
    hide Live, Exec, Grown, Quiet;
    q := AssignRawRuns(r, s, y);
    GrownSet(h, r, more, objects, q, s, y);
    ExecJoins(h, ops, r, [AssignRaw(s, y)]);
  }

  lemma Created(h: Heap, ops: seq<Op>, r: Heap, more: map<Slot, Option<Obj>>, objects: set<Obj>, o: Obj)
    returns (q: Heap)
    requires Reaches(h, ops, r, more, objects) && o !in h.cells && o !in objects && o !in h.freed
    ensures Reaches(h, ops + [New(o, 2)], q, more[Member(o, 0) := None][Member(o, 1) := None], objects + {o})
  {
    GrownAt(h, ops, r, more, objects, Global(0));
    hide Live, Exec, Grown, Quiet, NewFields;
    q := NewRuns(r, o, 2);
    TwoFields(r, o);
    GrownNew(h, r, more, objects, q, o);
    ExecJoins(h, ops, r, [New(o, 2)]);
  }

  lemma Passed(h: Heap, ops: seq<Op>, r: Heap, more: map<Slot, Option<Obj>>, objects: set<Obj>, s: Slot, t: Slot)
    returns (q: Heap)
    requires Reaches(h, ops, r, more, objects) && s in more && more[s].None? && t in more && s != t
    requires Global(TMP) !in h.target && Global(TMP) !in more
    ensures Reaches(h, ops + PassOps(s, t), q, more[s := more[t]], objects)
  {
    GrownAt(h, ops, r, more, objects, s);
    GrownAt(h, ops, r, more, objects, t);
    GrownAt(h, ops, r, more, objects, Global(TMP));
    hide Live, Exec, Grown, Quiet, PassOps;
    q := PassRuns(r, s, t);
    GrownSet(h, r, more, objects, q, s, more[t]);
    ExecJoins(h, ops, r, PassOps(s, t));
  }

  lemma Entered(h: Heap, ops: seq<Op>, r: Heap, more: map<Slot, Option<Obj>>, objects: set<Obj>, g: nat, t: Slot)
    returns (q: Heap)
    requires Reaches(h, ops, r, more, objects) && Global(g) !in h.target && Global(g) !in more && t in more
    requires Global(TMP) !in h.target && Global(TMP) !in more && g != TMP
    ensures Reaches(h, ops + EnterOps(g, t), q, more[Global(g) := more[t]], objects)
  {
    GrownAt(h, ops, r, more, objects, Global(g));
    GrownAt(h, ops, r, more, objects, t);
    GrownAt(h, ops, r, more, objects, Global(TMP));
    hide Live, Exec, Grown, Quiet, EnterOps;
    q := EnterRuns(r, g, t);
    GrownSet(h, r, more, objects, q, Global(g), more[t]);
    ExecJoins(h, ops, r, EnterOps(g, t));
  }

  lemma Ended(h: Heap, ops: seq<Op>, r: Heap, more: map<Slot, Option<Obj>>, objects: set<Obj>, g: nat, t: Slot)
    returns (q: Heap)
    requires Reaches(h, ops, r, more, objects) && Global(g) in more && Global(g) !in h.target
    requires t in more && t != Global(g) && more[t] == more[Global(g)]
    ensures Reaches(h, ops + [Destroy(g)], q, more - {Global(g)}, objects)
  {
    GrownAt(h, ops, r, more, objects, Global(g));
    GrownAt(h, ops, r, more, objects, t);
    hide Live, Exec, Grown, Quiet;
    q := DestroyRuns(r, g, t);
    GrownEnd(h, r, more, objects, q, Global(g));
    ExecJoins(h, ops, r, [Destroy(g)]);
  }

  // None of the names that a new call uses is taken.
  ghost predicate Unused(h: Heap, id: nat, c: Trio) {
    && Global(L) !in h.target && Global(P) !in h.target && Global(R) !in h.target && Global(TMP) !in h.target
    && Entry(id) !in h.target
    && c.peer != c.left && c.peer != c.right && c.left != c.right
    && {c.peer, c.left, c.right} !! h.cells.Keys && {c.peer, c.left, c.right} !! h.freed
  }

  function AfterLeft(c: Trio): map<Slot, Option<Obj>> {
    map[][Global(L) := None][Member(c.left, 0) := None][Member(c.left, 1) := None][Global(L) := Some(c.left)]
  }

  lemma LeftRuns(h: Heap, id: nat, c: Trio) returns (r: Heap)
    requires Live(h) && Unused(h, id, c)
    ensures Reaches(h, LeftOps(c), r, AfterLeft(c), {c.left})
  {
    assert Reaches(h, [], h, map[], {}) by { hide Live; }
    hide Live, Reaches;
    var r1 := Constructed(h, [], h, map[], {}, L, None);
    var m1 := map[][Global(L) := None];
    var r2 := Created(h, [] + [Construct(L, None)], r1, m1, {}, c.left);
    assert {} + {c.left} == {c.left};
    var m2 := m1[Member(c.left, 0) := None][Member(c.left, 1) := None];
    r := AssignedRaw(h, [] + [Construct(L, None)] + [New(c.left, 2)], r2, m2, {c.left}, Global(L), Some(c.left));
  }

  function AfterPeer(id: nat, c: Trio): map<Slot, Option<Obj>> {
    AfterLeft(c)[Global(P) := None][Member(c.peer, 0) := None][Member(c.peer, 1) := None]
      [Member(c.peer, LEFT) := Some(c.left)][Global(P) := Some(c.peer)][Entry(id) := Some(c.peer)]
  }

  lemma PeerRuns(h: Heap, id: nat, c: Trio) returns (r: Heap)
    requires Live(h) && Unused(h, id, c)
    ensures Reaches(h, PeerOps(id, c), r, AfterPeer(id, c), {c.left, c.peer})
  {
    hide Live, Reaches, PassOps, EnterOps, LeftOps;
    var r0 := LeftRuns(h, id, c);
    var m0, ops0 := AfterLeft(c), LeftOps(c);
    var r1 := Constructed(h, ops0, r0, m0, {c.left}, P, None);
    var m1, ops1 := m0[Global(P) := None], ops0 + [Construct(P, None)];
    var r2 := Created(h, ops1, r1, m1, {c.left}, c.peer);
    assert {c.left} + {c.peer} == {c.left, c.peer};
    var m2, ops2 := m1[Member(c.peer, 0) := None][Member(c.peer, 1) := None], ops1 + [New(c.peer, 2)];
    var r3 := Passed(h, ops2, r2, m2, {c.left, c.peer}, Member(c.peer, LEFT), Global(L));
    var m3, ops3 := m2[Member(c.peer, LEFT) := Some(c.left)], ops2 + PassOps(Member(c.peer, LEFT), Global(L));
    var r4 := AssignedRaw(h, ops3, r3, m3, {c.left, c.peer}, Global(P), Some(c.peer));
    var m4, ops4 := m3[Global(P) := Some(c.peer)], ops3 + [AssignRaw(Global(P), Some(c.peer))];
    r := Entered(h, ops4, r4, m4, {c.left, c.peer}, id + 4, Global(P));
  }

  function AfterRight(id: nat, c: Trio): map<Slot, Option<Obj>> {
    AfterPeer(id, c)[Member(c.right, 0) := None][Member(c.right, 1) := None][Global(R) := Some(c.right)]
      [Member(c.right, OPPOSITE) := Some(c.left)][Member(c.left, OPPOSITE) := Some(c.right)]
      [Member(c.peer, RIGHT) := Some(c.right)]
  }

  lemma RightRuns(h: Heap, id: nat, c: Trio) returns (r: Heap)
    requires Live(h) && Unused(h, id, c)
    ensures Reaches(h, RightOps(id, c), r, AfterRight(id, c), {c.left, c.peer, c.right})
  {
    hide Live, Reaches, PassOps, PeerOps;
    var r0 := PeerRuns(h, id, c);
    var m0, ops0, all := AfterPeer(id, c), PeerOps(id, c), {c.left, c.peer, c.right};
    var r1 := Created(h, ops0, r0, m0, {c.left, c.peer}, c.right);
    assert {c.left, c.peer} + {c.right} == all;
    var m1, ops1 := m0[Member(c.right, 0) := None][Member(c.right, 1) := None], ops0 + [New(c.right, 2)];
    var r2 := Constructed(h, ops1, r1, m1, all, R, Some(c.right));
    var m2, ops2 := m1[Global(R) := Some(c.right)], ops1 + [Construct(R, Some(c.right))];
    var r3 := Passed(h, ops2, r2, m2, all, Member(c.right, OPPOSITE), Global(L));
    var m3, ops3 := m2[Member(c.right, OPPOSITE) := Some(c.left)], ops2 + PassOps(Member(c.right, OPPOSITE), Global(L));
    var r4 := Passed(h, ops3, r3, m3, all, Member(c.left, OPPOSITE), Global(R));
    var m4, ops4 := m3[Member(c.left, OPPOSITE) := Some(c.right)], ops3 + PassOps(Member(c.left, OPPOSITE), Global(R));
    r := Passed(h, ops4, r4, m4, all, Member(c.peer, RIGHT), Global(R));
  }

  // The wrappers of a call that has just been let in.
  function CallWrappers(id: nat, c: Trio): map<Slot, Option<Obj>> {
    map[Entry(id) := Some(c.peer), Member(c.peer, LEFT) := Some(c.left), Member(c.peer, RIGHT) := Some(c.right),
        Member(c.left, OPPOSITE) := Some(c.right), Member(c.right, OPPOSITE) := Some(c.left),
        Member(c.left, RTCP) := None, Member(c.right, RTCP) := None]
  }

  lemma AdmitRuns(h: Heap, id: nat, c: Trio) returns (r: Heap)
    requires Live(h) && Unused(h, id, c)
    ensures Reaches(h, AdmitOps(id, c), r, CallWrappers(id, c), {c.left, c.peer, c.right})
  {
    hide Live, Reaches, RightOps;
    var r0 := RightRuns(h, id, c);
    var m0, ops0, all := AfterRight(id, c), RightOps(id, c), {c.left, c.peer, c.right};
    var r1 := Ended(h, ops0, r0, m0, all, R, Member(c.peer, RIGHT));
    var r2 := Ended(h, ops0 + [Destroy(R)], r1, m0 - {Global(R)}, all, P, Entry(id));
    r := Ended(h, ops0 + [Destroy(R)] + [Destroy(P)], r2, m0 - {Global(R)} - {Global(P)}, all, L, Member(c.peer, LEFT));
    hide AfterRight, CallWrappers, Entry;
    LocalsGone(id, c);
  }

  lemma LocalsGone(id: nat, c: Trio)
    requires c.peer != c.left && c.peer != c.right && c.left != c.right
    ensures AfterRight(id, c) - {Global(R)} - {Global(P)} - {Global(L)} == CallWrappers(id, c)
  {
  }

  // What a new call leaves behind is a live call, with both links in place.
  lemma AdmitMakesCall(h: Heap, id: nat, c: Trio)
    requires Live(h) && Unused(h, id, c)
    ensures Exec(h, AdmitOps(id, c)).Some?
    ensures var r := Exec(h, AdmitOps(id, c)).value;
            && Grown(h, r, CallWrappers(id, c), {c.left, c.peer, c.right})
            && Call(r, {Entry(id)}, c, true, true) && OwnCallback(r, c.left) && OwnCallback(r, c.right)
  {
    hide AdmitOps, Exec, Live, Unused, Grown, Call, OwnCallback;
    var r := AdmitRuns(h, id, c);
    GrownIsCall(h, r, id, c);
  }

  lemma GrownIsCall(h: Heap, r: Heap, id: nat, c: Trio)
    requires Live(h) && Unused(h, id, c) && Grown(h, r, CallWrappers(id, c), {c.left, c.peer, c.right})
    ensures Call(r, {Entry(id)}, c, true, true) && OwnCallback(r, c.left) && OwnCallback(r, c.right)
  {
    hide Holders, Inv, Live, CallWrappers;
    NewHolders(h, r, id, c);
    NewFieldsHold(h, r, id, c);
    LiveIs(r);
  }

  lemma LiveIs(h: Heap)
    ensures Live(h) == (Inv(h, None) && h.dying == {})
  {
    hide Inv;
  }

  lemma NewFieldsHold(h: Heap, r: Heap, id: nat, c: Trio)
    requires Unused(h, id, c) && r.target == h.target + CallWrappers(id, c)
    ensures Holds(r, Member(c.peer, LEFT), Some(c.left)) && Holds(r, Member(c.peer, RIGHT), Some(c.right))
    ensures Holds(r, Member(c.left, OPPOSITE), Some(c.right)) && Holds(r, Member(c.right, OPPOSITE), Some(c.left))
    ensures Holds(r, Member(c.left, RTCP), None) && Holds(r, Member(c.right, RTCP), None)
  {
  }

  lemma NewHolders(h: Heap, r: Heap, id: nat, c: Trio)
    requires Live(h) && Unused(h, id, c) && r.target == h.target + CallWrappers(id, c)
    ensures Holders(r, c.peer) == {Entry(id)}
    ensures Holders(r, c.left) == {Member(c.peer, LEFT), Member(c.right, OPPOSITE)}
    ensures Holders(r, c.right) == {Member(c.peer, RIGHT), Member(c.left, OPPOSITE)}
  {
    HoldersOfNew(h, r, CallWrappers(id, c), c.peer);
    HoldersOfNew(h, r, CallWrappers(id, c), c.left);
    HoldersOfNew(h, r, CallWrappers(id, c), c.right);
    PeerWrapper(id, c);
    SessionWrappers(id, c);
    hide Holders, Live, CallWrappers;
  }

  lemma PeerWrapper(id: nat, c: Trio)
    requires c.peer != c.left && c.peer != c.right && c.left != c.right
    ensures (set s | s in CallWrappers(id, c) && CallWrappers(id, c)[s] == Some(c.peer)) == {Entry(id)}
  {
  }

  lemma SessionWrappers(id: nat, c: Trio)
    requires c.peer != c.left && c.peer != c.right && c.left != c.right
    ensures (set s | s in CallWrappers(id, c) && CallWrappers(id, c)[s] == Some(c.left))
            == {Member(c.peer, LEFT), Member(c.right, OPPOSITE)}
    ensures (set s | s in CallWrappers(id, c) && CallWrappers(id, c)[s] == Some(c.right))
            == {Member(c.peer, RIGHT), Member(c.left, OPPOSITE)}
  {
  }

  // Only a new wrapper holds a new object.
  lemma HoldersOfNew(h: Heap, r: Heap, more: map<Slot, Option<Obj>>, o: Obj)
    requires Live(h) && o !in h.cells && r.target == h.target + more
    ensures Holders(r, o) == set s | s in more && more[s] == Some(o)
  {
    assert forall s :: s in h.target ==> h.target[s] != Some(o);
  }
}
