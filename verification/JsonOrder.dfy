// Value::operator< is a strict total order that agrees with operator==, as long as no
// NaN is involved; a NaN anywhere breaks reflexivity of operator==.

module JsonOrder {
  import opened JsonValue

  // No double in the tree is NaN.
  predicate NanFree(v: Value) {
    match v
    case Real(d) => !d.NaN?
    case Array(items) => NanFreeEntries(items)
    case Object(members) => NanFreeEntries(members)
    case _ => true
  }

  predicate NanFreeEntries(e: Entries) {
    e.Entry? ==> NanFree(e.value) && NanFreeEntries(e.rest)
  }

  // The kinds of keys that one container may hold.
  ghost predicate SameKind(a: Entries, b: Entries) {
    (AllNames(a) && AllNames(b)) || (AllIndexes(a) && AllIndexes(b))
  }

  // ----------------------------------------------------------------- strcmp

  lemma {:induction false} StrTrichotomy(a: string, b: string)
    ensures StrLess(a, b) || a == b || StrLess(b, a)
    ensures !(StrLess(a, b) && StrLess(b, a))
    ensures !StrLess(a, a)
  {
    if a != "" {
      StrTrichotomy(a[1..], if b == "" then "" else b[1..]);
      if b != "" {
        assert a == [a[0]] + a[1..] && b == [b[0]] + b[1..];
      }
    }
  }

  lemma {:induction false} StrTransitive(a: string, b: string, c: string)
    requires StrLess(a, b) && StrLess(b, c)
    ensures StrLess(a, c)
  {
    if a != "" && b != "" && c != "" && a[0] == b[0] == c[0] {
      StrTransitive(a[1..], b[1..], c[1..]);
    }
  }

  lemma KeyTrichotomy(a: Key, b: Key)
    requires a.Name? == b.Name?
    ensures KeyLess(a, b) || a == b || KeyLess(b, a)
    ensures !(KeyLess(a, b) && KeyLess(b, a)) && !KeyLess(a, a)
  {
    if a.Name? { StrTrichotomy(a.cstr, b.cstr); }
  }

  lemma KeyTransitive(a: Key, b: Key, c: Key)
    requires KeyLess(a, b) && KeyLess(b, c)
    ensures KeyLess(a, c)
  {
    if a.Name? { StrTransitive(a.cstr, b.cstr, c.cstr); }
  }

  // ------------------------------------------------------------- trichotomy

  // Exactly one of a < b, a == b, b < a.
  ghost predicate ExactlyOne(x: bool, y: bool, z: bool) {
    (x || y || z) && !(x && y) && !(y && z) && !(x && z)
  }

  lemma {:induction false} Trichotomy(a: Value, b: Value)
    requires WellFormed(a) && WellFormed(b) && NanFree(a) && NanFree(b)
    ensures ExactlyOne(Less(a, b), Equal(a, b), Less(b, a))
    decreases a
  {
    match (a, b) {
      case (Array(x), Array(y)) => MapTrichotomy(x, y);
      case (Object(x), Object(y)) => MapTrichotomy(x, y);
      case (Str(Chars(x)), Str(Chars(y))) => StrTrichotomy(x, y);
      case _ =>
    }
  }

  lemma {:induction false} MapTrichotomy(a: Entries, b: Entries)
    requires SameKind(a, b) && WellFormedEntries(a) && WellFormedEntries(b)
    requires NanFreeEntries(a) && NanFreeEntries(b)
    ensures Count(a) == Count(b) ==>
              ExactlyOne(EntriesLess(a, b), EntriesEqual(a, b), EntriesLess(b, a))
    decreases a
  {
    if a.Entry? && b.Entry? {
      KeyTrichotomy(a.key, b.key);
      Trichotomy(a.value, b.value);
      MapTrichotomy(a.rest, b.rest);
    }
  }

  // operator== decides identity of NaN-free trees, so it is an equivalence on them.
  lemma {:induction false} EqualIsIdentity(a: Value, b: Value)
    requires Equal(a, b)
    ensures a == b
    decreases a
  {
    match (a, b) {
      case (Array(x), Array(y)) => EntriesEqualIsIdentity(x, y);
      case (Object(x), Object(y)) => EntriesEqualIsIdentity(x, y);
      case _ =>
    }
  }

  lemma {:induction false} EntriesEqualIsIdentity(a: Entries, b: Entries)
    requires Count(a) == Count(b) && EntriesEqual(a, b)
    ensures a == b
    decreases a
  {
    if a.Entry? && b.Entry? {
      EqualIsIdentity(a.value, b.value);
      EntriesEqualIsIdentity(a.rest, b.rest);
    }
  }

  // A value equals itself exactly when it holds no NaN.
  lemma {:induction false} ReflexiveIffNanFree(v: Value)
    ensures Equal(v, v) <==> NanFree(v)
    decreases v
  {
    match v {
      case Array(x) => EntriesReflexive(x);
      case Object(x) => EntriesReflexive(x);
      case _ =>
    }
  }

  lemma {:induction false} EntriesReflexive(e: Entries)
    ensures EntriesEqual(e, e) <==> NanFreeEntries(e)
    decreases e
  {
    if e.Entry? {
      ReflexiveIffNanFree(e.value);
      EntriesReflexive(e.rest);
    }
  }

  // ----------------------------------------------------------- transitivity

  lemma {:induction false} Transitivity(a: Value, b: Value, c: Value)
    requires WellFormed(a) && WellFormed(b) && WellFormed(c)
    requires NanFree(a) && NanFree(b) && NanFree(c)
    requires Less(a, b) && Less(b, c)
    ensures Less(a, c)
    decreases a
  {
    if TypeOf(a) == TypeOf(b) == TypeOf(c) {
      match (a, b, c) {
        case (Array(x), Array(y), Array(z)) => MapTransitivity(x, y, z);
        case (Object(x), Object(y), Object(z)) => MapTransitivity(x, y, z);
        case (Str(Chars(x)), Str(Chars(y)), Str(Chars(z))) => StrTransitive(x, y, z);
        case _ =>
      }
    }
  }

  lemma {:induction false} MapTransitivity(a: Entries, b: Entries, c: Entries)
    requires SameKind(a, b) && SameKind(b, c)
    requires WellFormedEntries(a) && WellFormedEntries(b) && WellFormedEntries(c)
    requires NanFreeEntries(a) && NanFreeEntries(b) && NanFreeEntries(c)
    ensures MapLess(a, b) && MapLess(b, c) ==> MapLess(a, c)
    ensures Count(a) == Count(b) == Count(c) && EntriesLess(a, b) && EntriesLess(b, c) ==> EntriesLess(a, c)
    decreases a
  {
    if Count(a) == Count(b) == Count(c) && EntriesLess(a, b) && EntriesLess(b, c) {
      HeadStep(a, b);
      HeadStep(b, c);
      HeadStep(a, c);
      if KeyLess(a.key, b.key) && KeyLess(b.key, c.key) {
        KeyTransitive(a.key, b.key, c.key);
      } else if a.key == b.key == c.key {
        if Less(a.value, b.value) && Less(b.value, c.value) {
          Transitivity(a.value, b.value, c.value);
        } else {
          MapTransitivity(a.rest, b.rest, c.rest);
        }
      }
    }
  }

  // How the first pair decides a lexicographic comparison.
  lemma HeadStep(a: Entries, b: Entries)
    requires a.Entry? && b.Entry? && SameKind(a, b)
    requires WellFormedEntries(a) && WellFormedEntries(b) && NanFreeEntries(a) && NanFreeEntries(b)
    ensures EntriesLess(a, b) <==>
              || KeyLess(a.key, b.key)
              || (a.key == b.key && (Less(a.value, b.value) || (a.value == b.value && EntriesLess(a.rest, b.rest))))
    ensures !KeyLess(a.key, a.key) && !Less(a.value, a.value)
  {
    KeyTrichotomy(a.key, b.key);
    Trichotomy(a.value, b.value);
    Trichotomy(a.value, a.value);
    if Equal(a.value, b.value) { EqualIsIdentity(a.value, b.value); }
    ReflexiveIffNanFree(a.value);
  }

  // Value::compare is 0 exactly on equal values, and antisymmetric.
  lemma CompareSoundness(a: Value, b: Value)
    requires WellFormed(a) && WellFormed(b) && NanFree(a) && NanFree(b)
    ensures Compare(a, b) == 0 <==> a == b
    ensures Compare(b, a) == -Compare(a, b)
  {
    Trichotomy(a, b);
    if Equal(a, b) { EqualIsIdentity(a, b); }
    if a == b { ReflexiveIffNanFree(a); }
  }

  // -------------------------------------------------------------- direction

  // The first byte in which two strings differ decides, or else the shorter comes first.
  predicate DiffersAt(a: string, b: string, i: nat) {
    i <= |a| && i < |b| && a[..i] == b[..i] && (i == |a| || a[i] < b[i])
  }

  lemma SameStart(a: string, b: string, i: nat)
    requires DiffersAt(a, b, i) && i > 0
    ensures a[0] == b[0]
  {
    assert a[..i][0] == a[0] && b[..i][0] == b[0];
  }

  lemma {:induction false} StrLessIff(a: string, b: string)
    ensures StrLess(a, b) <==> exists i :: DiffersAt(a, b, i)
  {
    if b != "" && (a == "" || a[0] < b[0]) {
      assert DiffersAt(a, b, 0);
    } else if b != "" && a[0] == b[0] {
      StrLessIff(a[1..], b[1..]);
      forall i: nat | DiffersAt(a[1..], b[1..], i) ensures DiffersAt(a, b, i + 1) {
        assert a[..i + 1] == [a[0]] + a[1..][..i] && b[..i + 1] == [b[0]] + b[1..][..i];
      }
      forall i: nat | DiffersAt(a, b, i) ensures i > 0 && DiffersAt(a[1..], b[1..], i - 1) {
        assert a[1..][..i - 1] == a[..i][1..] && b[1..][..i - 1] == b[..i][1..];
      }
    } else if b != "" {
      forall i: nat ensures !DiffersAt(a, b, i) {
        if 0 < i && DiffersAt(a, b, i) { SameStart(a, b, i); }
      }
    }
  }

  // The maps have the same k entries first, and then the smaller key, or at the same key
  // the smaller value, on the left.
  ghost predicate FirstAt(a: Entries, b: Entries, k: nat) {
    var x, y := Drop(a, k), Drop(b, k);
    && SameFirst(a, b, k) && x.Entry? && y.Entry?
    && (KeyLess(x.key, y.key) || (x.key == y.key && Less(x.value, y.value)))
  }

  ghost predicate SameFirst(a: Entries, b: Entries, k: nat)
    decreases k
  {
    k == 0 || (a.Entry? && b.Entry? && a.key == b.key && a.value == b.value && SameFirst(a.rest, b.rest, k - 1))
  }

  lemma {:induction false} EntriesLessIff(a: Entries, b: Entries)
    requires SameKind(a, b) && WellFormedEntries(a) && WellFormedEntries(b)
    requires NanFreeEntries(a) && NanFreeEntries(b) && Count(a) == Count(b)
    ensures EntriesLess(a, b) <==> exists k :: FirstAt(a, b, k)
    decreases a
  {
    if a.Entry? {
      HeadStep(a, b);
      EntriesLessIff(a.rest, b.rest);
      KeyTrichotomy(a.key, b.key);
      assert FirstAt(a, b, 0) <==> KeyLess(a.key, b.key) || (a.key == b.key && Less(a.value, b.value));
      forall k: nat | FirstAt(a.rest, b.rest, k) && a.key == b.key && a.value == b.value ensures FirstAt(a, b, k + 1) {}
      forall k: nat | k > 0 && FirstAt(a, b, k)
        ensures a.key == b.key && a.value == b.value && FirstAt(a.rest, b.rest, k - 1) {}
    }
  }

  // The types in their order.
  function Types(v: Value): seq<bool> {
    [v.Null?, v.Int?, v.UInt?, v.Real?, v.Str?, v.Bool?, v.Array?, v.Object?]
  }

  predicate EarlierType(a: Value, b: Value) {
    exists i, j :: 0 <= i < j < 8 && Types(a)[i] && Types(b)[j]
  }

  lemma EarlierTypeIff(a: Value, b: Value)
    ensures EarlierType(a, b) <==> TypeOf(a) < TypeOf(b)
  {
    assert Types(a)[TypeOf(a)] && Types(b)[TypeOf(b)];
  }

  predicate DoubleBefore(x: Double, y: Double) {
    x != y && (x == NegInf || y == PosInf || (x.Finite? && y.Finite? && y.r - x.r > 0.0))
  }

  // Maps are compared by size first.
  ghost predicate MapBefore(a: Entries, b: Entries) {
    Count(a) < Count(b) || (Count(a) == Count(b) && exists k :: FirstAt(a, b, k))
  }

  // Which of two values is the smaller: the one of the earlier type, or at the same type
  // the one of smaller magnitude, earlier text, or smaller size and first difference.
  lemma LessIff(a: Value, b: Value)
    requires WellFormed(a) && WellFormed(b) && NanFree(a) && NanFree(b)
    ensures Less(a, b) <==>
            || EarlierType(a, b)
            || match (a, b)
               case (Int(i), Int(j)) => j - i > 0
               case (UInt(i), UInt(j)) => j - i > 0
               case (Real(x), Real(y)) => DoubleBefore(x, y)
               case (Str(x), Str(y)) => y.Chars? && (x.Chars? ==> exists i :: DiffersAt(x.text, y.text, i))
               case (Bool(x), Bool(y)) => y && !x
               case (Array(x), Array(y)) => MapBefore(x, y)
               case (Object(x), Object(y)) => MapBefore(x, y)
               case _ => false
  {
    EarlierTypeIff(a, b);
    match (a, b) {
      case (Str(Chars(x)), Str(Chars(y))) => StrLessIff(x, y);
      case (Array(x), Array(y)) => if Count(x) == Count(y) { EntriesLessIff(x, y); }
      case (Object(x), Object(y)) => if Count(x) == Count(y) { EntriesLessIff(x, y); }
      case _ =>
    }
    hide EarlierType, FirstAt, DiffersAt;
  }
}
