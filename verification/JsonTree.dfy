// Pointers into a value tree. The reader's node stack holds addresses of values inside
// the tree it builds; an address is modelled as the path of keys that leads to the value.

module JsonTree {
  import opened JsonValue
  import JsonOrder

  type Path = seq<Key>

  predicate IsContainer(v: Value) { v.Array? || v.Object? }

  function EntriesOf(v: Value): Entries
    requires IsContainer(v)
  {
    if v.Array? then v.items else v.members
  }

  function Rebuild(v: Value, e: Entries): Value
    requires IsContainer(v)
  {
    if v.Array? then Array(e) else Object(e)
  }

  // A std::map with keys of the kind that its container uses.
  predicate Fits(v: Value) {
    match v
    case Array(e) => AllIndexes(e) && Ascending(e)
    case Object(e) => AllNames(e) && Ascending(e)
    case _ => false
  }

  predicate KeyFor(v: Value, k: Key) {
    (v.Array? && k.Index?) || (v.Object? && k.Name?)
  }

  function Child(v: Value, k: Key): Value
    requires IsContainer(v)
  {
    Lookup(EntriesOf(v), k)
  }

  function WithChild(v: Value, k: Key, x: Value): Value
    requires IsContainer(v)
  {
    Rebuild(v, Put(EntriesOf(v), k, x))
  }

  // operator[] on a mutable container: a missing entry is inserted, holding null.
  function Ensure(e: Entries, k: Key): Entries {
    if e.End? then Entry(k, Null, End)
    else if KeyLess(e.key, k) then Entry(e.key, e.value, Ensure(e.rest, k))
    else if e.key == k then e
    else Entry(k, Null, e)
  }

  function EnsureChild(v: Value, k: Key): Value
    requires IsContainer(v)
  {
    Rebuild(v, Ensure(EntriesOf(v), k))
  }

  // The path leads to a value that is present.
  predicate Reaches(v: Value, path: Path)
    decreases |path|
  {
    path == [] ||
    (&& Fits(v) && KeyFor(v, path[0]) && Has(EntriesOf(v), path[0])
     && Reaches(Child(v, path[0]), path[1..]))
  }

  function At(v: Value, path: Path): Value
    requires Reaches(v, path)
    decreases |path|
  {
    if path == [] then v else At(Child(v, path[0]), path[1..])
  }

  // The tree after assigning x through the pointer.
  function With(v: Value, path: Path, x: Value): Value
    requires Reaches(v, path)
    decreases |path|
  {
    if path == [] then x else WithChild(v, path[0], With(Child(v, path[0]), path[1..], x))
  }

  // ------------------------------------------------------------------- maps

  // Inserting keeps a map a map, and affects the one entry only.
  lemma {:induction false} PutGet(e: Entries, k: Key, x: Value, y: Value)
    ensures Lookup(Put(e, k, x), k) == x && Has(Put(e, k, x), k)
    ensures Put(Put(e, k, x), k, y) == Put(e, k, y)
    ensures Put(Ensure(e, k), k, x) == Put(e, k, x) && Has(Ensure(e, k), k)
    decreases e
  {
    JsonOrder.KeyTrichotomy(k, k);
    if e.Entry? { PutGet(e.rest, k, x, y); }
  }

  lemma {:induction false} PutKeepsMap(e: Entries, k: Key, x: Value)
    requires Ascending(e) && (k.Index? ==> AllIndexes(e)) && (k.Name? ==> AllNames(e))
    ensures Ascending(Put(e, k, x)) && Ascending(Ensure(e, k))
    ensures k.Index? ==> AllIndexes(Put(e, k, x)) && AllIndexes(Ensure(e, k))
    ensures k.Name? ==> AllNames(Put(e, k, x)) && AllNames(Ensure(e, k))
    decreases e
  {
    if e.Entry? {
      JsonOrder.KeyTrichotomy(e.key, k);
      PutKeepsMap(e.rest, k, x);
    }
  }

  lemma {:induction false} NotBelowFirst(e: Entries, k: Key)
    requires e.Entry? && Ascending(e) && KeyLess(k, e.key)
    ensures !Has(e, k)
    decreases e
  {
    JsonOrder.KeyTrichotomy(k, e.key);
    if e.rest.Entry? {
      JsonOrder.KeyTransitive(k, e.key, e.rest.key);
      NotBelowFirst(e.rest, k);
    }
  }

  // Looking up through operator[] finds what find() would have found.
  lemma {:induction false} EnsureLookup(e: Entries, k: Key)
    requires Ascending(e) && (k.Index? ==> AllIndexes(e)) && (k.Name? ==> AllNames(e))
    ensures Lookup(Ensure(e, k), k) == Lookup(e, k)
    ensures Has(e, k) ==> Put(e, k, Lookup(e, k)) == e && Ensure(e, k) == e
    ensures !Has(e, k) ==> Lookup(e, k) == Null && Ensure(e, k) == Put(e, k, Null)
    decreases e
  {
    if e.Entry? {
      JsonOrder.KeyTrichotomy(e.key, k);
      if KeyLess(k, e.key) { NotBelowFirst(e, k); NotThere(e, k); }
      EnsureLookup(e.rest, k);
    }
  }

  lemma {:induction false} NotThere(e: Entries, k: Key)
    requires !Has(e, k)
    ensures Lookup(e, k) == Null
    decreases e
  {
    if e.Entry? { NotThere(e.rest, k); }
  }

  // ------------------------------------------------------------------ paths

  // Assigning through a pointer keeps it valid, sets the value there, and a second
  // assignment overwrites the first; assigning the value already there changes nothing.
  lemma {:induction false} AssignThrough(v: Value, path: Path, x: Value, y: Value)
    requires Reaches(v, path)
    ensures Reaches(With(v, path, x), path) && At(With(v, path, x), path) == x
    ensures With(With(v, path, x), path, y) == With(v, path, y)
    ensures With(v, path, At(v, path)) == v
    decreases |path|
  {
    if path != [] {
      var e, k, rest := EntriesOf(v), path[0], path[1..];
      AssignThrough(Child(v, k), rest, x, y);
      var x', y' := With(Child(v, k), rest, x), With(Child(v, k), rest, y);
      PutGet(e, k, x', y');
      PutKeepsMap(e, k, x');
      EnsureLookup(e, k);
    }
  }

  // One key further down.
  lemma {:induction false} OneFurther(v: Value, path: Path, k: Key, x: Value)
    requires Reaches(v, path) && Fits(At(v, path)) && KeyFor(At(v, path), k)
    requires Has(EntriesOf(At(v, path)), k)
    ensures Reaches(v, path + [k]) && At(v, path + [k]) == Child(At(v, path), k)
    ensures With(v, path + [k], x) == With(v, path, WithChild(At(v, path), k, x))
    decreases |path|
  {
    var next := path + [k];
    if path == [] {
      assert next[1..] == [];
    } else {
      OneFurther(Child(v, path[0]), path[1..], k, x);
      assert next[0] == path[0] && next[1..] == path[1..] + [k];
    }
  }

  // operator[] on the container c that a pointer holds gives a pointer to the entry;
  // assigning through that is assigning the updated container.
  lemma ChildSlot(v: Value, path: Path, c: Value, k: Key, x: Value)
    requires Reaches(v, path) && Fits(c) && KeyFor(c, k)
    ensures Reaches(With(v, path, c), path) && At(With(v, path, c), path) == c
    ensures
      var v' := With(v, path, EnsureChild(c, k));
      && With(With(v, path, c), path, EnsureChild(c, k)) == v'
      && Reaches(v', path + [k]) && At(v', path + [k]) == Child(c, k)
      && With(v', path + [k], x) == With(v, path, WithChild(c, k, x))
    ensures Fits(WithChild(c, k, x))
  {
    var e, c' := EntriesOf(c), EnsureChild(c, k);
    PutKeepsMap(e, k, x);
    EnsureLookup(e, k);
    PutGet(e, k, x, x);
    AssignThrough(v, path, c, c');
    AssignThrough(v, path, c', WithChild(c', k, x));
    OneFurther(With(v, path, c'), path, k, x);
  }
}
