// Reference-counted objects and their wrappers: MPObject and MPObjectWrapper. Wrappers live
// on their own or as fields of objects, and deleting an object destroys its fields.

module RefCount {
  import opened Common

  type Obj = nat

  datatype Slot = Global(id: nat) | Member(owner: Obj, field: nat)

  // An object with its count, its number of wrapper fields, and whether a wrapper ever held it.
  datatype Cell = Cell(count: nat, arity: nat, wrapped: bool)

  // Live objects, live wrappers with what they hold, objects being destroyed, objects freed.
  datatype Heap = Heap(
    cells: map<Obj, Cell>,
    target: map<Slot, Option<Obj>>,
    dying: set<Obj>,
    freed: set<Obj>)

  ghost function Holders(h: Heap, o: Obj): set<Slot> {
    set s | s in h.target && h.target[s] == Some(o)
  }

  ghost predicate Holds(h: Heap, s: Slot, y: Option<Obj>) {
    s in h.target && h.target[s] == y
  }

  // A reference that its wrapper has given up but that is not yet subtracted.
  function InFlight(x: Option<Obj>, o: Obj): nat {
    if x == Some(o) then 1 else 0
  }

  // Every count is the number of wrappers that hold the object.
  ghost predicate Counted(h: Heap, x: Option<Obj>) {
    && (forall o :: o in h.cells ==> h.cells[o].count == |Holders(h, o)| + InFlight(x, o))
    && (x.Some? ==> x.value in h.cells)
  }

  // An object that was ever wrapped is gone as soon as its count is zero.
  ghost predicate Prompt(h: Heap) {
    forall o :: o in h.cells ==> (h.cells[o].wrapped <==> h.cells[o].count > 0)
  }

  // No wrapper holds an object that is gone.
  ghost predicate NoDangling(h: Heap) {
    forall s :: s in h.target && h.target[s].Some? ==> h.target[s].value in h.cells
  }

  // No wrapper outlives the object that it is a field of.
  ghost predicate Housed(h: Heap) {
    forall s :: s in h.target && s.Member? ==>
      if s.owner in h.cells then s.field < h.cells[s.owner].arity else s.owner in h.dying
  }

  // What is freed stays freed.
  ghost predicate Apart(h: Heap) {
    h.cells.Keys !! h.freed && h.cells.Keys !! h.dying && h.dying !! h.freed
  }

  ghost predicate Inv(h: Heap, x: Option<Obj>) {
    Counted(h, x) && Prompt(h) && NoDangling(h) && Housed(h) && Apart(h)
  }

  // ------------------------------------------------------------- operations

  function Unlink(h: Heap, s: Slot): Heap {
    h.(target := h.target - {s})
  }

  function Null(h: Heap, s: Slot): Heap {
    h.(target := h.target[s := None])
  }

  function SetCount(h: Heap, o: Obj, n: nat): Heap
    requires o in h.cells
  {
    h.(cells := h.cells[o := h.cells[o].(count := n)])
  }

  // WrapMPObject and takeRef
  function Link(h: Heap, s: Slot, y: Option<Obj>): Heap
    requires y.Some? ==> y.value in h.cells
  {
    match y
    case None => Null(h, s)
    case Some(o) =>
      h.(target := h.target[s := y],
         cells := h.cells[o := h.cells[o].(count := h.cells[o].count + 1, wrapped := true)])
  }

  // releaseRef, with the deletion at zero.
  function DropRef(h: Heap, o: Obj): (r: Heap)
    ensures r.cells.Keys <= h.cells.Keys
    decreases |h.cells|, 0
  {
    if o !in h.cells || h.cells[o].count == 0 then h
    else if h.cells[o].count > 1 then SetCount(h, o, h.cells[o].count - 1)
    else
      var arity := h.cells[o].arity;
      assert |Dying(h, o).cells| < |h.cells| by { SmallerMap(h.cells, o); }
      Freed(DestroyFields(Dying(h, o), o, 0, arity), o)
  }

  // The destructors of the fields from i on.
  function DestroyFields(h: Heap, o: Obj, i: nat, n: nat): (r: Heap)
    requires i <= n
    ensures r.cells.Keys <= h.cells.Keys
    decreases |h.cells|, n - i + 2
  {
    if i == n then h
    else
      var h1 := DestroySlot(h, Member(o, i));
      assert |h1.cells| <= |h.cells| by { SubMap(h1.cells, h.cells); }
      DestroyFields(h1, o, i + 1, n)
  }

  // The destructor of one wrapper.
  function DestroySlot(h: Heap, s: Slot): (r: Heap)
    ensures r.cells.Keys <= h.cells.Keys
    decreases |h.cells|, 1
  {
    if s !in h.target then h
    else
      match h.target[s]
      case None => Unlink(h, s)
      case Some(o) => DropRef(Unlink(h, s), o)
  }

  lemma SmallerMap<T>(m: map<Obj, T>, o: Obj)
    requires o in m
    ensures |m - {o}| < |m|
  {
    assert (m - {o}).Keys == m.Keys - {o};
  }

  lemma SubMap<T>(a: map<Obj, T>, b: map<Obj, T>)
    requires a.Keys <= b.Keys
    ensures |a| <= |b|
  {
    SubSet(a.Keys, b.Keys);
  }

  lemma {:induction false} SubSet(a: set<Obj>, b: set<Obj>)
    requires a <= b
    ensures |a| <= |b|
    decreases a
  {
    if x :| x in a { SubSet(a - {x}, b - {x}); }
  }

  // ----------------------------------------------------------- conservation

  // Taking a wrapper away, or what it holds, changes the holders of one object by one.
  lemma FewerHolders(h: Heap, h': Heap, s: Slot, o: Obj)
    requires s in h.target && (h' == Unlink(h, s) || h' == Null(h, s))
    ensures |Holders(h', o)| + InFlight(h.target[s], o) == |Holders(h, o)|
  {
    assert Holders(h', o) == if h.target[s] == Some(o) then Holders(h, o) - {s} else Holders(h, o);
  }

  lemma UnlinkKeeps(h: Heap, s: Slot)
    requires Inv(h, None) && s in h.target
    ensures Inv(Unlink(h, s), h.target[s]) && Inv(Null(h, s), h.target[s])
  {
    hide Holders;
    forall o | o in h.cells
      ensures |Holders(Unlink(h, s), o)| + InFlight(h.target[s], o) == |Holders(h, o)|
      ensures |Holders(Null(h, s), o)| + InFlight(h.target[s], o) == |Holders(h, o)|
    {
      FewerHolders(h, Unlink(h, s), s, o);
      FewerHolders(h, Null(h, s), s, o);
    }
  }

  lemma OneHolderMore(h: Heap, h': Heap, s: Slot, y: Option<Obj>, o: Obj)
    requires h'.target == h.target[s := y] && (s in h.target ==> h.target[s].None?)
    ensures |Holders(h', o)| == |Holders(h, o)| + InFlight(y, o)
  {
    assert Holders(h', o) == if y == Some(o) then Holders(h, o) + {s} else Holders(h, o);
  }

  lemma LinkKeeps(h: Heap, s: Slot, y: Option<Obj>)
    requires Inv(h, None) && (y.Some? ==> y.value in h.cells)
    requires if s in h.target then h.target[s].None? else s.Global?
    ensures Inv(Link(h, s, y), None)
  {
    hide Holders;
    var h' := Link(h, s, y);
    forall o | o in h.cells { OneHolderMore(h, h', s, y, o); }
    assert h'.cells.Keys == h.cells.Keys;
  }

  // What happens while references are dropped: objects leave only to be freed, wrappers
  // are not redirected, and only those in `gone` disappear without their owner.
  ghost predicate Leaves(h: Heap, r: Heap) {
    && r.dying == h.dying && r.cells.Keys <= h.cells.Keys && r.freed == h.freed + (h.cells.Keys - r.cells.Keys)
    && forall o :: o in r.cells ==> r.cells[o].arity == h.cells[o].arity && r.cells[o].wrapped == h.cells[o].wrapped
  }

  ghost predicate Keeps(h: Heap, r: Heap, gone: set<Slot>) {
    && (forall s :: s in r.target ==> s in h.target && r.target[s] == h.target[s])
    && forall s :: s in h.target && s !in gone && (s.Member? ==> s.owner in r.cells || s.owner in h.dying) ==>
                     s in r.target
  }

  lemma LeavesTwice(h: Heap, h1: Heap, r: Heap)
    requires Leaves(h, h1) && Leaves(h1, r)
    ensures Leaves(h, r)
  {
  }

  lemma KeepsTwice(h: Heap, h1: Heap, r: Heap, gone1: set<Slot>, gone2: set<Slot>)
    requires Keeps(h, h1, gone1) && Keeps(h1, r, gone2)
    requires r.cells.Keys <= h1.cells.Keys && h1.dying == h.dying
    ensures Keeps(h, r, gone1 + gone2)
  {
  }

  ghost function FieldsFrom(o: Obj, i: nat, n: nat): set<Slot> {
    set f | i <= f < n :: Member(o, f)
  }

  // The fields of o that are still there are those from i on.
  ghost predicate LeftFrom(h: Heap, o: Obj, i: nat, n: nat) {
    forall s :: s in h.target && s.Member? && s.owner == o ==> i <= s.field < n
  }

  lemma {:induction false} DropRefKeeps(h: Heap, o: Obj)
    requires Inv(h, Some(o))
    ensures var r := DropRef(h, o); Inv(r, None) && Leaves(h, r) && Keeps(h, r, {})
    ensures o in DropRef(h, o).cells <==> h.cells[o].count > 1
    decreases |h.cells|, 0
  {
    if h.cells[o].count > 1 {
      StillHeld(h, o);
    } else {
      hide DestroyFields;
      var h1 := Dying(h, o);
      var n := h.cells[o].arity;
      var h2 := DestroyFields(h1, o, 0, n);
      SmallerMap(h.cells, o);
      LastReference(h, o);
      DestroyFieldsKeeps(h1, o, 0, n);
      Buried(h2, o);
      BuriedKeeps(h, o, h2, n);
    }
  }

  lemma StillHeld(h: Heap, o: Obj)
    requires Inv(h, Some(o)) && h.cells[o].count > 1
    ensures var r := SetCount(h, o, h.cells[o].count - 1); Inv(r, None) && Leaves(h, r) && Keeps(h, r, {})
  {
    var r := SetCount(h, o, h.cells[o].count - 1);
    forall p | p in h.cells ensures Holders(r, p) == Holders(h, p) { }
    hide Holders;
    assert r.cells.Keys == h.cells.Keys;
  }

  // An object whose last reference is dropped moves to the dying ones.
  function Dying(h: Heap, o: Obj): Heap {
    h.(cells := h.cells - {o}, dying := h.dying + {o})
  }

  lemma LastReference(h: Heap, o: Obj)
    requires Inv(h, Some(o)) && h.cells[o].count == 1
    ensures Inv(Dying(h, o), None) && LeftFrom(Dying(h, o), o, 0, h.cells[o].arity)
  {
    var r := Dying(h, o);
    assert Holders(h, o) == {};
    forall s | s in h.target ensures h.target[s] != Some(o) { assert s !in Holders(h, o); }
    forall p | p in h.cells ensures Holders(r, p) == Holders(h, p) { }
    hide Holders;
  }

  function Freed(h: Heap, o: Obj): Heap {
    h.(dying := h.dying - {o}, freed := h.freed + {o})
  }

  // The object is freed once its fields are destroyed.
  lemma Buried(h: Heap, o: Obj)
    requires Inv(h, None) && o in h.dying && LeftFrom(h, o, 0, 0)
    ensures Inv(Freed(h, o), None)
  {
    var r := Freed(h, o);
    forall p | p in h.cells ensures Holders(r, p) == Holders(h, p) { }
    hide Holders;
  }

  lemma BuriedKeeps(h: Heap, o: Obj, h2: Heap, n: nat)
    requires o in h.cells && o !in h.dying
    requires Leaves(Dying(h, o), h2) && Keeps(Dying(h, o), h2, FieldsFrom(o, 0, n))
    ensures Leaves(h, Freed(h2, o)) && Keeps(h, Freed(h2, o), {})
  {
    assert forall s :: s in FieldsFrom(o, 0, n) ==> s.owner == o;
    hide FieldsFrom;
  }

  lemma NextField(o: Obj, i: nat, n: nat)
    requires i < n
    ensures FieldsFrom(o, i, n) == {Member(o, i)} + FieldsFrom(o, i + 1, n)
  {
  }

  lemma LeftAfter(h: Heap, h1: Heap, o: Obj, i: nat, n: nat)
    requires LeftFrom(h, o, i, n) && Keeps(h, h1, {Member(o, i)}) && Member(o, i) !in h1.target
    ensures LeftFrom(h1, o, i + 1, n)
  {
  }

  lemma {:induction false} DestroyFieldsKeeps(h: Heap, o: Obj, i: nat, n: nat)
    requires Inv(h, None) && o in h.dying && i <= n && LeftFrom(h, o, i, n)
    ensures var r := DestroyFields(h, o, i, n);
            Inv(r, None) && Leaves(h, r) && Keeps(h, r, FieldsFrom(o, i, n)) && LeftFrom(r, o, n, n)
    decreases |h.cells|, n - i + 2
  {
    if i < n {
      hide Inv, LeftFrom, Keeps, DestroySlot, FieldsFrom;
      var s := Member(o, i);
      var h1 := DestroySlot(h, s);
      DestroySlotKeeps(h, s);
      SubMap(h1.cells, h.cells);
      LeftAfter(h, h1, o, i, n);
      DestroyFieldsKeeps(h1, o, i + 1, n);
      var r := DestroyFields(h1, o, i + 1, n);
      NextField(o, i, n);
      LeavesTwice(h, h1, r);
      KeepsTwice(h, h1, r, {s}, FieldsFrom(o, i + 1, n));
    }
  }

  lemma UnlinkLeaves(h: Heap, s: Slot)
    ensures Leaves(h, Unlink(h, s)) && Keeps(h, Unlink(h, s), {s})
    ensures Leaves(h, h) && Keeps(h, h, {s})
  {
  }

  lemma {:induction false} DestroySlotKeeps(h: Heap, s: Slot)
    requires Inv(h, None)
    ensures var r := DestroySlot(h, s); Inv(r, None) && Leaves(h, r) && Keeps(h, r, {s}) && s !in r.target
    decreases |h.cells|, 1
  {
    UnlinkLeaves(h, s);
    if s in h.target {
      var h1 := Unlink(h, s);
      UnlinkKeeps(h, s);
      if h.target[s].Some? {
        var o := h.target[s].value;
        DropRefKeeps(h1, o);
        var r := DropRef(h1, o);
        assert s !in r.target;
        hide Inv, DropRef, Keeps;
        LeavesTwice(h, h1, r);
        KeepsTwice(h, h1, r, {s}, {});
        assert {s} + {} == {s};
      }
    }
  }

  // ------------------------------------------------------------- statements

  // What a program can do with objects and wrappers. A wrapper is destroyed by itself only
  // when it is not a field.
  datatype Op =
    | New(o: Obj, arity: nat)
    | Construct(g: nat, y: Option<Obj>)
    | Copy(g: nat, t: Slot)
    | Assign(s: Slot, t: Slot)
    | AssignRaw(s: Slot, y: Option<Obj>)
    | Destroy(g: nat)

  // Every name that is used denotes something that exists, and what is made is new.
  predicate Enabled(h: Heap, op: Op) {
    match op
    case New(o, _) => o !in h.cells && o !in h.freed
    case Construct(s, y) => Global(s) !in h.target && (y.Some? ==> y.value in h.cells)
    case Copy(s, t) => Global(s) !in h.target && t in h.target
    case Assign(s, t) => s in h.target && t in h.target
    case AssignRaw(s, y) => s in h.target && (y.Some? ==> y.value in h.cells)
    case Destroy(s) => Global(s) in h.target
  }

  function NewFields(h: Heap, o: Obj, arity: nat): map<Slot, Option<Obj>> {
    h.target + (map f: nat | f < arity :: Member(o, f) := None)
  }

  // releaseRef on a wrapper that is about to be given something else.
  function Release(h: Heap, s: Slot): Heap
    requires s in h.target
  {
    match h.target[s]
    case None => h
    case Some(o) => DropRef(Null(h, s), o)
  }

  // Both assignments release first and read their operand afterwards; nothing means that a
  // wrapper or an object is used that the release has destroyed.
  function Apply(h: Heap, op: Op): Option<Heap>
    requires Enabled(h, op)
  {
    match op
    case New(o, arity) => Some(h.(cells := h.cells[o := Cell(0, arity, false)], target := NewFields(h, o, arity)))
    case Construct(s, y) => Some(Link(h, Global(s), y))
    case Copy(s, t) =>
      var y := h.target[t];
      if y.Some? && y.value !in h.cells then None else Some(Link(h, Global(s), y))
    case Assign(s, t) =>
      var h1 := Release(h, s);
      if s !in h1.target || t !in h1.target then None
      else
        var y := if t != s then h1.target[t]
                 else if h.target[s].Some? && h.target[s].value in h1.cells then h.target[s]
                 else None;
        if y.Some? && y.value !in h1.cells then None else Some(Link(h1, s, y))
    case AssignRaw(s, y) =>
      var h1 := Release(h, s);
      if s !in h1.target || (y.Some? && y.value !in h1.cells) then None else Some(Link(h1, s, y))
    case Destroy(s) => Some(DestroySlot(h, Global(s)))
  }

  lemma ReleaseKeeps(h: Heap, s: Slot)
    requires Inv(h, None) && s in h.target
    ensures var r := Release(h, s);
            && Inv(r, None) && (s in r.target ==> r.target[s].None?) && r.freed >= h.freed
            && (forall t :: t in r.target && t != s ==> t in h.target && r.target[t] == h.target[t])
            && (forall t :: t in h.target && (t.Member? ==> t.owner in r.cells || t.owner in h.dying) ==> t in r.target)
            && r.cells.Keys <= h.cells.Keys && r.freed == h.freed + (h.cells.Keys - r.cells.Keys) && r.dying == h.dying
            && (h.target[s].Some? ==> (h.target[s].value in r.cells <==> h.cells[h.target[s].value].count > 1))
            && (forall o :: o in r.cells ==>
                  r.cells[o].arity == h.cells[o].arity && r.cells[o].wrapped == h.cells[o].wrapped)
  {
    UnlinkKeeps(h, s);
    if h.target[s].Some? {
      DropRefKeeps(Null(h, s), h.target[s].value);
      hide DropRef, Inv;
    }
  }

  lemma NewKeeps(h: Heap, o: Obj, arity: nat)
    requires Inv(h, None) && h.dying == {} && Enabled(h, New(o, arity))
    ensures Inv(Apply(h, New(o, arity)).value, None)
  {
    var r := Apply(h, New(o, arity)).value;
    forall p | p in r.cells ensures Holders(r, p) == Holders(h, p) {
      assert forall f: nat :: f < arity ==> Member(o, f) !in h.target;
    }
    assert Holders(h, o) == {};
    hide Holders;
  }

  // ------------------------------------------------- what a release frees

  // The wrappers that let go when s does and the objects in d are deleted.
  predicate Goes(s: Slot, d: set<Obj>, t: Slot) { t == s || (t.Member? && t.owner in d) }

  // No object outside d loses all its wrappers.
  ghost predicate Closed(h: Heap, s: Slot, d: set<Obj>) {
    forall x :: x in h.cells && Holders(h, x) != {} && (forall t :: t in Holders(h, x) ==> Goes(s, d, t)) ==> x in d
  }

  // The least such set: what goes when s lets go, told from the heap before.
  ghost function Doomed(h: Heap, s: Slot): set<Obj> {
    set x | x in h.cells && forall d: set<Obj> :: Closed(h, s, d) ==> x in d
  }

  // Nothing goes as long as another wrapper holds the object.
  lemma NothingDoomed(h: Heap, s: Slot)
    requires Inv(h, None) && s in h.target
    requires h.target[s].Some? ==> h.cells[h.target[s].value].count > 1
    ensures Doomed(h, s) == {}
  {
    forall x | x in h.cells && Holders(h, x) != {} ensures exists t :: t in Holders(h, x) && !Goes(s, {}, t) {
      if Holders(h, x) <= {s} {
        OnlyHolder(h, x, s);
        assert false;
      }
      var t :| t in Holders(h, x) && t !in {s};
      assert !Goes(s, {}, t);
    }
    assert Closed(h, s, {});
  }

  lemma OnlyHolder(h: Heap, x: Obj, s: Slot)
    requires Inv(h, None) && x in h.cells && Holders(h, x) != {} && Holders(h, x) <= {s}
    ensures s in h.target && h.target[s] == Some(x) && h.cells[x].count == 1
  {
    var t :| t in Holders(h, x);
    assert t == s && Holders(h, x) == {s};
  }

  // Whatever is gone so far goes with d, and every other wrapper is as it was.
  ghost predicate Within(h0: Heap, s: Slot, d: set<Obj>, h: Heap) {
    && (forall t :: t in h0.target && !Goes(s, d, t) ==> t in h.target && h.target[t] == h0.target[t])
    && (forall t :: t in h.target && h.target[t].Some? ==> t in h0.target && h.target[t] == h0.target[t])
    && h.cells.Keys <= h0.cells.Keys && h0.cells.Keys - h.cells.Keys <= d
  }

  lemma {:induction false} DropRefWithin(h0: Heap, s: Slot, d: set<Obj>, h: Heap, o: Obj)
    requires Closed(h0, s, d) && Within(h0, s, d, h) && Inv(h, Some(o)) && Holders(h0, o) != {}
    ensures Within(h0, s, d, DropRef(h, o))
    decreases |h.cells|, 0
  {
    hide Inv, Closed, Within, LeftFrom, DestroyFields;
    Referenced(h, o);
    if h.cells[o].count > 1 {
      LessWithin(h0, s, d, h, o);
    } else {
      var n := h.cells[o].arity;
      SmallerMap(h.cells, o);
      LastReference(h, o);
      LastWrapperGoes(h0, s, d, h, o);
      DyingWithin(h0, s, d, h, o);
      DestroyFieldsWithin(h0, s, d, Dying(h, o), o, 0, n);
      FreedWithin(h0, s, d, DestroyFields(Dying(h, o), o, 0, n), o);
    }
  }

  lemma Referenced(h: Heap, o: Obj)
    requires Inv(h, Some(o))
    ensures o in h.cells && h.cells[o].count > 0
  {
  }

  lemma LessWithin(h0: Heap, s: Slot, d: set<Obj>, h: Heap, o: Obj)
    requires Within(h0, s, d, h) && o in h.cells && h.cells[o].count > 1
    ensures Within(h0, s, d, SetCount(h, o, h.cells[o].count - 1))
  {
    hide Goes;
    assert SetCount(h, o, h.cells[o].count - 1).cells.Keys == h.cells.Keys;
  }

  lemma DyingWithin(h0: Heap, s: Slot, d: set<Obj>, h: Heap, o: Obj)
    requires Within(h0, s, d, h) && o in d
    ensures Within(h0, s, d, Dying(h, o))
  {
    hide Goes;
  }

  lemma GoneWithin(h0: Heap, s: Slot, d: set<Obj>, h: Heap, t: Slot)
    requires Within(h0, s, d, h) && Goes(s, d, t)
    ensures Within(h0, s, d, Unlink(h, t)) && Within(h0, s, d, Null(h, t))
    ensures t in h.target && h.target[t].Some? ==> t in Holders(h0, h.target[t].value)
  {
  }

  lemma FreedWithin(h0: Heap, s: Slot, d: set<Obj>, h: Heap, o: Obj)
    requires Within(h0, s, d, h)
    ensures Within(h0, s, d, Freed(h, o))
  {
    hide Goes;
  }

  // All wrappers of an object with no other reference have gone.
  lemma LastWrapperGoes(h0: Heap, s: Slot, d: set<Obj>, h: Heap, o: Obj)
    requires Closed(h0, s, d) && Within(h0, s, d, h) && Inv(h, Some(o)) && Holders(h0, o) != {} && h.cells[o].count == 1
    ensures o in d
  {
    assert Holders(h, o) == {};
    forall t | t in Holders(h0, o) ensures Goes(s, d, t) {
      assert t !in Holders(h, o);
    }
  }

  lemma {:induction false} DestroyFieldsWithin(h0: Heap, s: Slot, d: set<Obj>, h: Heap, o: Obj, i: nat, n: nat)
    requires Closed(h0, s, d) && Within(h0, s, d, h) && Inv(h, None)
    requires o in h.dying && o in d && i <= n && LeftFrom(h, o, i, n)
    ensures Within(h0, s, d, DestroyFields(h, o, i, n))
    decreases |h.cells|, n - i + 2
  {
    if i < n {
      hide Inv, Closed, Within, LeftFrom, Keeps, DestroySlot;
      var h1 := DestroySlot(h, Member(o, i));
      DestroySlotKeeps(h, Member(o, i));
      SubMap(h1.cells, h.cells);
      DestroySlotWithin(h0, s, d, h, Member(o, i));
      LeftAfter(h, h1, o, i, n);
      DestroyFieldsWithin(h0, s, d, h1, o, i + 1, n);
    }
  }

  lemma {:induction false} DestroySlotWithin(h0: Heap, s: Slot, d: set<Obj>, h: Heap, t: Slot)
    requires Closed(h0, s, d) && Within(h0, s, d, h) && Inv(h, None) && Goes(s, d, t)
    ensures Within(h0, s, d, DestroySlot(h, t))
    decreases |h.cells|, 1
  {
    hide Inv, Closed, Within, Goes, DropRef;
    if t in h.target {
      GoneWithin(h0, s, d, h, t);
      UnlinkKeeps(h, t);
      if h.target[t].Some? {
        DropRefWithin(h0, s, d, Unlink(h, t), h.target[t].value);
      }
    }
  }

  // What a release leaves behind has a wrapper that does not go.
  lemma FreedIsClosed(h: Heap, s: Slot, r: Heap)
    requires s in h.target && Inv(r, None) && r.dying == {} && (s in r.target ==> r.target[s].None?)
    requires Inv(h, None) && r.cells.Keys <= h.cells.Keys
    requires forall o :: o in r.cells ==> r.cells[o].wrapped == h.cells[o].wrapped
    requires forall t :: t in r.target && t != s ==> t in h.target && r.target[t] == h.target[t]
    ensures Closed(h, s, h.cells.Keys - r.cells.Keys)
  {
    var d := h.cells.Keys - r.cells.Keys;
    forall x | x in h.cells && Holders(h, x) != {} && x !in d ensures exists t :: t in Holders(h, x) && !Goes(s, d, t) {
      var t0 :| t0 in Holders(h, x);
      assert h.cells[x].wrapped;
      assert |Holders(r, x)| > 0;
      assert Holders(r, x) != {};
      var t :| t in Holders(r, x);
      assert t in Holders(h, x);
    }
  }

  // A wrapper that lets go, to hold something else or for good, frees exactly these objects.
  lemma ReleaseFrees(h: Heap, s: Slot)
    requires Inv(h, None) && h.dying == {} && s in h.target
    ensures h.cells.Keys - Release(h, s).cells.Keys == Doomed(h, s)
    ensures h.cells.Keys - DestroySlot(h, s).cells.Keys == Doomed(h, s)
  {
    var r, q := Release(h, s), DestroySlot(h, s);
    hide Inv, Closed, Holders, Release, DestroySlot;
    ReleaseClosed(h, s);
    DestroyClosed(h, s);
    forall d: set<Obj> | Closed(h, s, d)
      ensures h.cells.Keys - r.cells.Keys <= d && h.cells.Keys - q.cells.Keys <= d
    {
      ReleaseWithin(h, s, d);
    }
  }

  lemma ReleaseClosed(h: Heap, s: Slot)
    requires Inv(h, None) && h.dying == {} && s in h.target
    ensures Closed(h, s, h.cells.Keys - Release(h, s).cells.Keys)
  {
    ReleaseKeeps(h, s);
    hide Closed, Release;
    FreedIsClosed(h, s, Release(h, s));
  }

  lemma DestroyClosed(h: Heap, s: Slot)
    requires Inv(h, None) && h.dying == {} && s in h.target
    ensures Closed(h, s, h.cells.Keys - DestroySlot(h, s).cells.Keys)
  {
    DestroySlotKeeps(h, s);
    hide Closed, DestroySlot;
    FreedIsClosed(h, s, DestroySlot(h, s));
  }

  lemma ReleaseWithin(h: Heap, s: Slot, d: set<Obj>)
    requires Inv(h, None) && s in h.target && Closed(h, s, d)
    ensures Within(h, s, d, Release(h, s)) && Within(h, s, d, DestroySlot(h, s))
  {
    hide Inv, Closed, Within, DropRef, DestroySlot;
    NothingYet(h, s, d);
    UnlinkKeeps(h, s);
    GoneWithin(h, s, d, h, s);
    DestroySlotWithin(h, s, d, h, s);
    if h.target[s].Some? {
      DropRefWithin(h, s, d, Null(h, s), h.target[s].value);
    }
  }

  lemma NothingYet(h: Heap, s: Slot, d: set<Obj>)
    ensures Within(h, s, d, h)
  {
  }

  // ------------------------------------------------------------ conservation

  // A wrapper that is still there once s has let go.
  ghost predicate Outlives(h: Heap, s: Slot, t: Slot) {
    t.Member? ==> t.owner !in Doomed(h, s)
  }

  // A statement that uses nothing which it destroys: an assignment whose release leaves the
  // wrappers on both sides, or the object on the right, in place.
  ghost predicate Safe(h: Heap, op: Op) {
    match op
    case Assign(s, t) => Outlives(h, s, s) && Outlives(h, s, t)
    case AssignRaw(s, y) => Outlives(h, s, s) && (y.Some? ==> y.value !in Doomed(h, s))
    case _ => true
  }

  lemma ApplyIff(h: Heap, op: Op)
    requires Inv(h, None) && h.dying == {} && Enabled(h, op)
    ensures Apply(h, op).Some? <==> Safe(h, op)
  {
    match op {
      case Assign(s, t) => StillThere(h, s, s); StillThere(h, s, t); ReleaseKeeps(h, s); hide Release, Doomed;
      case AssignRaw(s, y) => StillThere(h, s, s); ReleaseFrees(h, s); ReleaseKeeps(h, s); hide Release, Doomed;
      case _ =>
    }
  }

  lemma StillThere(h: Heap, s: Slot, t: Slot)
    requires Inv(h, None) && h.dying == {} && s in h.target && t in h.target
    ensures t in Release(h, s).target <==> Outlives(h, s, t)
  {
    ReleaseFrees(h, s);
    ReleaseKeeps(h, s);
    hide Release, Doomed;
  }

  // Conservation: after every such statement each count is the number of wrappers on the
  // object, an object that was wrapped lives exactly as long as that is not zero, and no
  // wrapper holds or belongs to a freed object.
  lemma StatementKeeps(h: Heap, op: Op)
    requires Inv(h, None) && h.dying == {} && Enabled(h, op) && Safe(h, op)
    ensures Apply(h, op).Some?
    ensures var r := Apply(h, op).value;
            Inv(r, None) && r.dying == {} && h.freed <= r.freed && r.freed !! r.cells.Keys
  {
    ApplyIff(h, op);
    match op {
      case New(o, arity) => NewKeeps(h, o, arity);
      case Construct(s, y) => LinkKeeps(h, Global(s), y);
      case Copy(s, t) => LinkKeeps(h, Global(s), h.target[t]);
      case Assign(s, t) => AssignKeeps(h, s, t);
      case AssignRaw(s, y) =>
        ReleaseKeeps(h, s);
        LinkKeeps(Release(h, s), s, y);
      case Destroy(s) => DestroySlotKeeps(h, Global(s));
    }
  }

  lemma AssignKeeps(h: Heap, s: Slot, t: Slot)
    requires Inv(h, None) && s in h.target && t in h.target && Apply(h, Assign(s, t)).Some?
    ensures var r := Apply(h, Assign(s, t)).value;
            Inv(r, None) && r.dying == h.dying && h.freed <= r.freed
  {
    ReleaseKeeps(h, s);
    var h1 := Release(h, s);
    var y := if t != s then h1.target[t]
             else if h.target[s].Some? && h.target[s].value in h1.cells then h.target[s]
             else None;
    hide Inv, Release;
    LinkKeeps(h1, s, y);
  }

  // A whole run from nothing: None as soon as a statement uses what it has destroyed.
  function Run(ops: seq<Op>): Option<Heap> {
    if ops == [] then Some(Heap(map[], map[], {}, {}))
    else
      match Run(ops[..|ops| - 1])
      case None => None
      case Some(h) => if Enabled(h, ops[|ops| - 1]) then Apply(h, ops[|ops| - 1]) else None
  }

  // Each statement names only what exists and is safe on the heap that it finds.
  ghost predicate Careful(ops: seq<Op>) {
    ops != [] ==>
      && Careful(ops[..|ops| - 1])
      && var before := Run(ops[..|ops| - 1]);
         before.Some? ==> Enabled(before.value, ops[|ops| - 1]) && Safe(before.value, ops[|ops| - 1])
  }

  // Over every careful run: counts are exact, nothing dangles, and what was freed is never
  // live again, so it is freed once only.
  lemma {:induction false} RunKeeps(ops: seq<Op>)
    requires Careful(ops)
    ensures Run(ops).Some?
    ensures var h := Run(ops).value; Inv(h, None) && h.dying == {}
    ensures ops != [] ==> Run(ops[..|ops| - 1]).Some? && Run(ops[..|ops| - 1]).value.freed <= Run(ops).value.freed
    decreases |ops|
  {
    if ops != [] {
      RunKeeps(ops[..|ops| - 1]);
      StatementKeeps(Run(ops[..|ops| - 1]).value, ops[|ops| - 1]);
    }
  }

  // And no other run gets through.
  lemma {:induction false} RunIffCareful(ops: seq<Op>)
    ensures Run(ops).Some? <==> Careful(ops)
    decreases |ops|
  {
    if ops != [] {
      RunIffCareful(ops[..|ops| - 1]);
      if Careful(ops[..|ops| - 1]) {
        RunKeeps(ops[..|ops| - 1]);
        var h := Run(ops[..|ops| - 1]).value;
        if Enabled(h, ops[|ops| - 1]) { ApplyIff(h, ops[|ops| - 1]); }
        hide Apply, Safe, Inv;
      }
    }
  }

  // An assignment between wrappers, fields or not, does what it should (both are there
  // afterwards and hold what the right one held) exactly when the release deletes the owner
  // of neither and it is not a self-assignment of the last wrapper.
  lemma AssignIff(h: Heap, s: Slot, t: Slot)
    requires Inv(h, None) && h.dying == {} && s in h.target && t in h.target
    ensures var r := Apply(h, Assign(s, t));
            (r.Some? && Holds(r.value, s, h.target[t]) && Holds(r.value, t, h.target[t])) <==>
            && Outlives(h, s, s) && Outlives(h, s, t)
            && !(s == t && h.target[s].Some? && h.cells[h.target[s].value].count == 1)
  {
    hide Inv, Release, Doomed, Outlives;
    if h.target[s].Some? { Held(h, s); }
    StillThere(h, s, s);
    StillThere(h, s, t);
    ReleaseKeeps(h, s);
    ApplyIff(h, Assign(s, t));
  }

  lemma Held(h: Heap, s: Slot)
    requires Inv(h, None) && s in h.target && h.target[s].Some?
    ensures h.target[s].value in h.cells && h.cells[h.target[s].value].count > 0
  {
    assert s in Holders(h, h.target[s].value);
  }

  // Giving the last wrapper of an object that very object again, as a raw pointer, deletes
  // it and would leave the wrapper on it.
  lemma RawSelfDangles(h: Heap, s: Slot)
    requires Inv(h, None) && h.dying == {} && s in h.target && h.target[s].Some?
             && h.cells[h.target[s].value].count == 1
    ensures Enabled(h, AssignRaw(s, h.target[s])) && Apply(h, AssignRaw(s, h.target[s])).None?
  {
    ReleaseKeeps(h, s);
    hide Release;
  }

  // ----------------------------------------------------------------- memory

  class Memory {
    var cells: map<Obj, Cell>
    var target: map<Slot, Option<Obj>>
    ghost var dying: set<Obj>
    ghost var freed: set<Obj>

    constructor ()
      ensures View() == Heap(map[], map[], {}, {})
    {
      cells, target, dying, freed := map[], map[], {}, {};
    }

    ghost function View(): Heap
      reads this
    {
      Heap(cells, target, dying, freed)
    }

    // MPObject::takeRef through a wrapper
    method TakeRef(s: Slot, y: Option<Obj>)
      requires y.Some? ==> y.value in cells
      modifies this
      ensures View() == Link(old(View()), s, y)
    {
      target := target[s := y];
      if y.Some? {
        cells := cells[y.value := cells[y.value].(count := cells[y.value].count + 1, wrapped := true)];
      }
    }

    // releaseRef and, when it returns zero, delete
    method ReleaseRef(o: Obj)
      modifies this
      ensures View() == DropRef(old(View()), o)
      decreases |cells|, 1
    {
      if o in cells && cells[o].count > 0 {
        assert cells[o := cells[o].(count := cells[o].count - 1)].Keys == cells.Keys;
        assert cells[o := cells[o].(count := cells[o].count - 1)] - {o} == cells - {o};
        cells := cells[o := cells[o].(count := cells[o].count - 1)];
        if cells[o].count == 0 {
          Delete(o);
        }
      }
    }

    // delete: the wrappers that are fields are destroyed one after the other.
    method Delete(o: Obj)
      requires o in cells && cells[o].count == 0
      modifies this
      ensures View() == Freed(DestroyFields(Dying(old(View()), o), o, 0, old(cells[o].arity)), o)
      decreases |cells|, 0
    {
      var arity := cells[o].arity;
      ghost var start, before := Dying(View(), o), |cells|;
      SmallerMap(cells, o);
      cells := cells - {o};
      dying := dying + {o};
      var field := 0;
      while field < arity
        invariant 0 <= field <= arity && |cells| < before
        invariant DestroyFields(View(), o, field, arity) == DestroyFields(start, o, 0, arity)
      {
        ghost var h := View();
        DestroyWrapper(Member(o, field));
        SubMap(cells, h.cells);
        field := field + 1;
      }
      dying := dying - {o};
      freed := freed + {o};
    }

    // The destructor of a wrapper
    method DestroyWrapper(s: Slot)
      modifies this
      ensures View() == DestroySlot(old(View()), s)
      decreases |cells|, 2
    {
      if s in target {
        var y := target[s];
        target := target - {s};
        if y.Some? { ReleaseRef(y.value); }
      }
    }

    // An object is made with count 0 and with null wrappers as its fields.
    method NewObject(o: Obj, arity: nat)
      requires Enabled(View(), New(o, arity))
      modifies this
      ensures View() == Apply(old(View()), New(o, arity)).value
    {
      var fields := map f: nat | f < arity :: Member(o, f) := None;
      cells := cells[o := Cell(0, arity, false)];
      target := target + fields;
    }

    // The constructor from an object
    method ConstructWrapper(g: nat, y: Option<Obj>)
      requires Enabled(View(), Construct(g, y))
      modifies this
      ensures View() == Apply(old(View()), Construct(g, y)).value
    {
      TakeRef(Global(g), y);
    }

    // The copy constructor, from a wrapper on an object that is not being deleted
    method CopyWrapper(g: nat, t: Slot)
      requires Enabled(View(), Copy(g, t)) && Apply(View(), Copy(g, t)).Some?
      modifies this
      ensures View() == Apply(old(View()), Copy(g, t)).value
    {
      TakeRef(Global(g), target[t]);
    }

    // operator=, from an object; not ok when the release deletes the wrapper or the object,
    // which the code then goes on to use.
    method AssignObject(s: Slot, y: Option<Obj>) returns (ok: bool)
      requires Enabled(View(), AssignRaw(s, y))
      modifies this
      ensures ok == Apply(old(View()), AssignRaw(s, y)).Some?
      ensures View() == if ok then Apply(old(View()), AssignRaw(s, y)).value else Release(old(View()), s)
    {
      hide DropRef;
      var held := target[s];
      if held.Some? {
        target := target[s := None];
        ReleaseRef(held.value);
      }
      ok := s in target && (y.Some? ==> y.value in cells);
      if ok { TakeRef(s, y); }
    }

    // operator=, from a wrapper; not ok when the release deletes the owner of either.
    method AssignWrapper(s: Slot, t: Slot) returns (ok: bool)
      requires Enabled(View(), Assign(s, t))
      modifies this
      ensures ok == Apply(old(View()), Assign(s, t)).Some?
      ensures View() == if ok then Apply(old(View()), Assign(s, t)).value else Release(old(View()), s)
    {
      hide DropRef;
      var held := target[s];
      ghost var h, h1 := View(), Release(View(), s);
      if held.Some? {
        target := target[s := None];
        ReleaseRef(held.value);
      }
      assert View() == h1;
      ok := s in target && t in target;
      if ok {
        var y := if s != t then target[t] else if held.Some? && held.value in cells then held else None;
        ok := y.Some? ==> y.value in cells;
        if ok { TakeRef(s, y); }
      }
    }
  }
}
