// The JSON value tree of jsoncpp: type tags, the std::map that backs arrays and
// objects, and the comparison operators.
//
// A byte is a `char`; a C string is the text before its terminating NUL.

module JsonValue {

  // A double as far as comparison can tell: IEEE order with one NaN; the two zeros,
  // which compare equal, are one value.
  datatype Double = NaN | NegInf | Finite(r: real) | PosInf {
    predicate Below(other: Double) {
      match (this, other)
      case (NaN, _) => false
      case (_, NaN) => false
      case (NegInf, _) => !other.NegInf?
      case (Finite(x), Finite(y)) => x < y
      case (Finite(_), _) => other.PosInf?
      case (PosInf, _) => false
    }

    predicate Same(other: Double) {
      this == other && !NaN?
    }
  }

  // A `char *` field: it may be the null pointer.
  datatype CString = NullPtr | Chars(text: string)

  // CZString: a member name, or an array index when the pointer is null.
  datatype Key = Index(index: nat) | Name(cstr: string)

  datatype Value =
    | Null
    | Int(i: int)
    | UInt(u: nat)
    | Real(d: Double)
    | Str(s: CString)
    | Bool(b: bool)
    | Array(items: Entries)
    | Object(members: Entries)

  // ObjectValues, the std::map<CZString, Value>, in iteration order.
  datatype Entries = End | Entry(key: Key, value: Value, rest: Entries)

  // ValueType, by its numeric value.
  function TypeOf(v: Value): nat {
    match v
    case Null => 0
    case Int(_) => 1
    case UInt(_) => 2
    case Real(_) => 3
    case Str(_) => 4
    case Bool(_) => 5
    case Array(_) => 6
    case Object(_) => 7
  }

  predicate IsArray(v: Value) { v.Null? || v.Array? }

  predicate IsObject(v: Value) { v.Null? || v.Object? }

  // ------------------------------------------------------------------ maps

  function Count(e: Entries): nat {
    if e.End? then 0 else 1 + Count(e.rest)
  }

  // strcmp(a, b) < 0
  predicate StrLess(a: string, b: string) {
    if b == "" then false
    else if a == "" then true
    else if a[0] != b[0] then a[0] < b[0]
    else StrLess(a[1..], b[1..])
  }

  // One map only ever holds keys of one kind, so mixed kinds are never compared.
  predicate KeyLess(a: Key, b: Key) {
    match (a, b)
    case (Name(x), Name(y)) => StrLess(x, y)
    case (Index(i), Index(j)) => i < j
    case _ => false
  }

  // map::find followed by the shared null object
  function Lookup(e: Entries, k: Key): Value {
    if e.End? then Null
    else if e.key == k then e.value
    else Lookup(e.rest, k)
  }

  predicate Has(e: Entries, k: Key) {
    e.Entry? && (e.key == k || Has(e.rest, k))
  }

  // lower_bound, then overwrite the entry found there or insert before it
  function Put(e: Entries, k: Key, v: Value): Entries {
    if e.End? then Entry(k, v, End)
    else if KeyLess(e.key, k) then Entry(e.key, e.value, Put(e.rest, k, v))
    else if e.key == k then Entry(k, v, e.rest)
    else Entry(k, v, e)
  }

  // Value::size: highest index + 1 for an array.
  function ArraySize(e: Entries): nat {
    if e.End? then 0
    else if e.rest.End? then (if e.key.Index? then e.key.index + 1 else 0)
    else ArraySize(e.rest)
  }

  function Size(v: Value): nat {
    match v
    case Array(items) => ArraySize(items)
    case Object(members) => Count(members)
    case _ => 0
  }

  // The entries from the k-th on.
  function Drop(e: Entries, k: nat): Entries
    decreases k
  {
    if k == 0 || e.End? then e else Drop(e.rest, k - 1)
  }

  predicate AllIndexes(e: Entries) {
    e.Entry? ==> e.key.Index? && AllIndexes(e.rest)
  }

  predicate AllNames(e: Entries) {
    e.Entry? ==> e.key.Name? && AllNames(e.rest)
  }

  predicate Ascending(e: Entries) {
    e.Entry? ==> (e.rest.Entry? ==> KeyLess(e.key, e.rest.key)) && Ascending(e.rest)
  }

  predicate NulFree(s: string) {
    s != "" ==> s[0] != '\0' && NulFree(s[1..])
  }

  // What every Value built through the public interface satisfies.
  predicate WellFormed(v: Value) {
    match v
    case Int(i) => -0x8000_0000_0000_0000 <= i < 0x8000_0000_0000_0000
    case UInt(u) => u < 0x1_0000_0000_0000_0000
    case Str(Chars(text)) => NulFree(text)
    case Array(items) => AllIndexes(items) && Ascending(items) && WellFormedEntries(items)
    case Object(members) => AllNames(members) && Ascending(members) && WellFormedEntries(members)
    case _ => true
  }

  predicate WellFormedEntries(e: Entries) {
    e.Entry? ==>
      && WellFormed(e.value)
      && (e.key.Name? ==> NulFree(e.key.cstr))
      && WellFormedEntries(e.rest)
  }

  // ------------------------------------------------------------ comparison

  // Number of nodes; bounds the recursion of the comparison, which swaps its arguments.
  ghost function Nodes(v: Value): nat {
    match v
    case Array(items) => 1 + NodesIn(items)
    case Object(members) => 1 + NodesIn(members)
    case _ => 1
  }

  ghost function NodesIn(e: Entries): nat {
    if e.End? then 0 else 1 + Nodes(e.value) + NodesIn(e.rest)
  }

  // Value::operator<
  predicate Less(a: Value, b: Value)
    decreases Nodes(a) + Nodes(b), 1
  {
    if TypeOf(a) != TypeOf(b) then TypeOf(a) < TypeOf(b)
    else
      match (a, b)
      case (Int(x), Int(y)) => x < y
      case (UInt(x), UInt(y)) => x < y
      case (Real(x), Real(y)) => x.Below(y)
      case (Bool(x), Bool(y)) => !x && y
      case (Str(NullPtr), Str(y)) => y.Chars?
      case (Str(Chars(x)), Str(Chars(y))) => StrLess(x, y)
      case (Array(x), Array(y)) => MapLess(x, y)
      case (Object(x), Object(y)) => MapLess(x, y)
      case _ => false
  }

  predicate MapLess(a: Entries, b: Entries)
    decreases NodesIn(a) + NodesIn(b), 2
  {
    if Count(a) != Count(b) then Count(a) < Count(b) else EntriesLess(a, b)
  }

  // lexicographical_compare over the pairs of the two maps
  predicate EntriesLess(a: Entries, b: Entries)
    decreases NodesIn(a) + NodesIn(b), 1
  {
    if b.End? then false
    else if a.End? then true
    else if PairLess(a.key, a.value, b.key, b.value) then true
    else if PairLess(b.key, b.value, a.key, a.value) then false
    else EntriesLess(a.rest, b.rest)
  }

  // std::pair's operator<
  predicate PairLess(k1: Key, v1: Value, k2: Key, v2: Value)
    decreases Nodes(v1) + Nodes(v2), 2
  {
    KeyLess(k1, k2) || (!KeyLess(k2, k1) && Less(v1, v2))
  }

  // Value::operator==
  predicate Equal(a: Value, b: Value) {
    match (a, b)
    case (Null, Null) => true
    case (Int(x), Int(y)) => x == y
    case (UInt(x), UInt(y)) => x == y
    case (Real(x), Real(y)) => x.Same(y)
    case (Bool(x), Bool(y)) => x == y
    case (Str(x), Str(y)) => x == y
    case (Array(x), Array(y)) => Count(x) == Count(y) && EntriesEqual(x, y)
    case (Object(x), Object(y)) => Count(x) == Count(y) && EntriesEqual(x, y)
    case _ => false
  }

  predicate EntriesEqual(a: Entries, b: Entries) {
    match (a, b)
    case (Entry(k, v, r), Entry(k', v', r')) => k == k' && Equal(v, v') && EntriesEqual(r, r')
    case _ => true
  }

  // Value::compare
  function Compare(a: Value, b: Value): int {
    if Less(a, b) then -1
    else if Less(b, a) then 1
    else 0
  }
}
