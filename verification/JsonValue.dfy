/** JSON values and their order: Value and Value::CZString of lib/json/jsoncpp.cpp.

    A C string is the sequence of its bytes before the terminating zero, so it holds no zero itself. The
    std::map behind an array or an object is the sequence of its entries in key order. */
module JsonValue {
  import opened Wrappers

  /** The key of an entry: an array index or a member name. */
  datatype Key = Index(i: nat) | Name(s: string)

  datatype Entry = Entry(key: Key, value: Value)

  /** Str(None) is a string value whose pointer is null. */
  datatype Value =
    | Null
    | Int(i: int)
    | UInt(u: int)
    | Real(r: real)
    | Str(s: Option<string>)
    | Bool(b: bool)
    | Array(entries: seq<Entry>)
    | Object(entries: seq<Entry>)

  // ----- The order of keys -----

  /** strcmp(a, b) < 0 */
  predicate StrLess(a: string, b: string) {
    if b == "" then false
    else if a == "" then true
    else if a[0] != b[0] then a[0] < b[0]
    else StrLess(a[1..], b[1..])
  }

  /** CZString::operator<. An index and a name never meet in one map. */
  predicate KeyLess(a: Key, b: Key) {
    match (a, b)
    case (Index(i), Index(k)) => i < k
    case (Name(s), Name(t)) => StrLess(s, t)
    case (Index(_), Name(_)) => true
    case (Name(_), Index(_)) => false
  }

  lemma {:induction false} StrOrder(a: string, b: string)
    ensures StrLess(a, b) ==> !StrLess(b, a) && a != b
    ensures StrLess(a, b) || StrLess(b, a) || a == b
    decreases |a|
  {
    if a != "" && b != "" && a[0] == b[0] {
      StrOrder(a[1..], b[1..]);
      assert a == [a[0]] + a[1..] && b == [b[0]] + b[1..];
    }
  }

  lemma {:induction false} StrTransitive(a: string, b: string, c: string)
    requires StrLess(a, b) && StrLess(b, c)
    ensures StrLess(a, c)
    decreases |a|
  {
    if a != "" && b != "" && c != "" && a[0] == b[0] == c[0] {
      StrTransitive(a[1..], b[1..], c[1..]);
    }
  }

  lemma KeyOrder(a: Key, b: Key)
    ensures KeyLess(a, b) ==> !KeyLess(b, a) && a != b
    ensures KeyLess(a, b) || KeyLess(b, a) || a == b
  {
    if a.Name? && b.Name? {
      StrOrder(a.s, b.s);
    }
  }

  lemma KeyTransitive(a: Key, b: Key, c: Key)
    requires KeyLess(a, b) && KeyLess(b, c)
    ensures KeyLess(a, c)
  {
    if a.Name? && b.Name? && c.Name? {
      StrTransitive(a.s, b.s, c.s);
    }
  }

  // ----- The order of values -----

  function TypeRank(v: Value): nat {
    match v
    case Null => 0
    case Int(_) => 1
    case UInt(_) => 2
    case Real(_) => 3
    case Str(_) => 4
    case Bool(_) => 5
    case Array(_) => 6
    case Object(_) => 7
  }

  function Size(v: Value): nat {
    match v
    case Array(entries) => 1 + SizeOf(entries)
    case Object(entries) => 1 + SizeOf(entries)
    case _ => 1
  }

  function SizeOf(entries: seq<Entry>): (n: nat)
    ensures entries != [] ==> n == EntrySize(entries[0]) + SizeOf(entries[1..])
  {
    if entries == [] then 0 else EntrySize(entries[0]) + SizeOf(entries[1..])
  }

  function EntrySize(e: Entry): (n: nat)
    ensures n == 1 + Size(e.value)
  {
    1 + Size(e.value)
  }

  /** Value::operator< */
  predicate Less(a: Value, b: Value)
    decreases Size(a) + Size(b), 0
  {
    if TypeRank(a) != TypeRank(b) then TypeRank(a) < TypeRank(b)
    else
      match a
      case Null => false
      case Int(i) => i < b.i
      case UInt(u) => u < b.u
      case Real(r) => r < b.r
      case Bool(x) => !x && b.b
      case Str(s) => (s.None? && b.s.Some?) || (b.s.Some? && s.Some? && StrLess(s.value, b.s.value))
      case _ =>
        if |a.entries| != |b.entries| then |a.entries| < |b.entries|
        else MapLess(a.entries, b.entries)
  }

  /** Lexicographic comparison of two maps. */
  predicate MapLess(xs: seq<Entry>, ys: seq<Entry>)
    decreases SizeOf(xs) + SizeOf(ys), 0
  {
    if ys == [] then false
    else if xs == [] then true
    else if EntryLess(xs[0], ys[0]) then true
    else if EntryLess(ys[0], xs[0]) then false
    else MapLess(xs[1..], ys[1..])
  }

  /** Comparison of two pairs. */
  predicate EntryLess(x: Entry, y: Entry)
    decreases Size(x.value) + Size(y.value), 1
  {
    KeyLess(x.key, y.key) || (!KeyLess(y.key, x.key) && Less(x.value, y.value))
  }

  /** Value::operator== */
  predicate Same(a: Value, b: Value)
    decreases Size(a), 0
  {
    if TypeRank(a) != TypeRank(b) then false
    else
      match a
      case Null => true
      case Int(i) => i == b.i
      case UInt(u) => u == b.u
      case Real(r) => r == b.r
      case Bool(x) => x == b.b
      case Str(s) =>
        || (s.None? && b.s.None?)
        || (b.s.Some? && s.Some? && !StrLess(s.value, b.s.value) && !StrLess(b.s.value, s.value))
      case _ => |a.entries| == |b.entries| && SameMap(a.entries, b.entries)
  }

  predicate SameMap(xs: seq<Entry>, ys: seq<Entry>)
    requires |xs| == |ys|
    decreases SizeOf(xs), 0
  {
    xs == [] || (SameKey(xs[0].key, ys[0].key) && Same(xs[0].value, ys[0].value) && SameMap(xs[1..], ys[1..]))
  }

  /** CZString::operator==: strcmp gives 0, or the indices are equal. */
  predicate SameKey(a: Key, b: Key) {
    !KeyLess(a, b) && !KeyLess(b, a)
  }

  /** Value::compare */
  function Compare(a: Value, b: Value): int {
    if Less(a, b) then -1 else if Less(b, a) then 1 else 0
  }

  // ----- It is a strict total order -----

  /** One of the two, and not both, is less, unless they are equal. */
  ghost predicate Ordered(less: bool, greater: bool, equal: bool) {
    (less ==> !greater && !equal) && (greater ==> !equal) && (less || greater || equal)
  }

  lemma {:induction false} LessTrichotomy(a: Value, b: Value)
    ensures Ordered(Less(a, b), Less(b, a), a == b)
    decreases Size(a) + Size(b), 0
  {
    if TypeRank(a) == TypeRank(b) {
      if a.Array? || a.Object? {
        if |a.entries| == |b.entries| {
          MapTrichotomy(a.entries, b.entries);
        }
      } else if a.Str? && a.s.Some? && b.s.Some? {
        StrOrder(a.s.value, b.s.value);
      }
    }
  }

  lemma {:induction false} MapTrichotomy(xs: seq<Entry>, ys: seq<Entry>)
    requires |xs| == |ys|
    ensures Ordered(MapLess(xs, ys), MapLess(ys, xs), xs == ys)
    decreases SizeOf(xs) + SizeOf(ys), 0
  {
    if xs != [] {
      assert xs == [xs[0]] + xs[1..] && ys == [ys[0]] + ys[1..];
      EntryTrichotomy(xs[0], ys[0]);
      MapTrichotomy(xs[1..], ys[1..]);
    }
  }

  lemma {:induction false} EntryTrichotomy(x: Entry, y: Entry)
    ensures Ordered(EntryLess(x, y), EntryLess(y, x), x == y)
    decreases Size(x.value) + Size(y.value), 1
  {
    KeyOrder(x.key, y.key);
    LessTrichotomy(x.value, y.value);
  }

  lemma {:induction false} LessTransitive(a: Value, b: Value, c: Value)
    requires Less(a, b) && Less(b, c)
    ensures Less(a, c)
    decreases Size(b), 0
  {
    if TypeRank(a) == TypeRank(b) == TypeRank(c) {
      if a.Array? || a.Object? {
        if |a.entries| == |b.entries| == |c.entries| {
          MapTransitive(a.entries, b.entries, c.entries);
        }
      } else if a.Str? && a.s.Some? {
        StrTransitive(a.s.value, b.s.value, c.s.value);
      }
    }
  }

  lemma {:induction false} MapTransitive(xs: seq<Entry>, ys: seq<Entry>, zs: seq<Entry>)
    requires |xs| == |ys| == |zs| && MapLess(xs, ys) && MapLess(ys, zs)
    ensures MapLess(xs, zs)
    decreases SizeOf(ys), 0
  {
    var x, y, z := xs[0], ys[0], zs[0];
    EntryTrichotomy(x, y);
    EntryTrichotomy(y, z);
    if EntryLess(x, y) && EntryLess(y, z) {
      EntryTransitive(x, y, z);
    } else if !EntryLess(x, y) && !EntryLess(y, z) {
      MapTransitive(xs[1..], ys[1..], zs[1..]);
    }
  }

  lemma {:induction false} EntryTransitive(x: Entry, y: Entry, z: Entry)
    requires EntryLess(x, y) && EntryLess(y, z)
    ensures EntryLess(x, z)
    decreases Size(y.value), 1
  {
    KeyOrder(x.key, y.key);
    KeyOrder(y.key, z.key);
    KeyOrder(x.key, z.key);
    if KeyLess(x.key, y.key) && KeyLess(y.key, z.key) {
      KeyTransitive(x.key, y.key, z.key);
    } else if !KeyLess(x.key, y.key) && !KeyLess(y.key, z.key) {
      LessTransitive(x.value, y.value, z.value);
    }
  }

  /** operator== is equality of values. */
  lemma {:induction false} SameIsEqual(a: Value, b: Value)
    ensures Same(a, b) <==> a == b
    decreases Size(a), 0
  {
    if TypeRank(a) == TypeRank(b) {
      if a.Array? || a.Object? {
        if |a.entries| == |b.entries| {
          SameMapIsEqual(a.entries, b.entries);
        }
      } else if a.Str? && a.s.Some? && b.s.Some? {
        StrOrder(a.s.value, b.s.value);
      }
    }
  }

  lemma {:induction false} SameMapIsEqual(xs: seq<Entry>, ys: seq<Entry>)
    requires |xs| == |ys|
    ensures SameMap(xs, ys) <==> xs == ys
    decreases SizeOf(xs), 0
  {
    if xs != [] {
      assert xs == [xs[0]] + xs[1..] && ys == [ys[0]] + ys[1..];
      KeyOrder(xs[0].key, ys[0].key);
      SameIsEqual(xs[0].value, ys[0].value);
      SameMapIsEqual(xs[1..], ys[1..]);
    }
  }

  /** operator< is a strict total order; two values that it does not order are equal by operator==, and
      compare says 0 of them alone. */
  lemma LessIsStrictTotalOrder(a: Value, b: Value, c: Value)
    ensures !Less(a, a)
    ensures Less(a, b) && Less(b, c) ==> Less(a, c)
    ensures Less(a, b) ==> !Less(b, a)
    ensures !Less(a, b) && !Less(b, a) <==> Same(a, b)
    ensures Compare(a, b) == 0 <==> Same(a, b)
  {
    LessTrichotomy(a, a);
    LessTrichotomy(a, b);
    SameIsEqual(a, b);
    if Less(a, b) && Less(b, c) {
      LessTransitive(a, b, c);
    }
  }

  // ----- The map of an array or an object -----

  ghost predicate Sorted(entries: seq<Entry>) {
    forall i, k :: 0 <= i < k < |entries| ==> KeyLess(entries[i].key, entries[k].key)
  }

  /** map::lower_bound: the first entry that is not before key. */
  function LowerBound(entries: seq<Entry>, key: Key): (n: nat)
    ensures n <= |entries|
    ensures forall i :: 0 <= i < n ==> KeyLess(entries[i].key, key)
    ensures n < |entries| ==> !KeyLess(entries[n].key, key)
  {
    if entries == [] || !KeyLess(entries[0].key, key) then 0 else 1 + LowerBound(entries[1..], key)
  }

  predicate Has(entries: seq<Entry>, key: Key) {
    var n := LowerBound(entries, key);
    n < |entries| && SameKey(entries[n].key, key)
  }

  /** The constant operator[]: a missing entry is null. */
  function Lookup(entries: seq<Entry>, key: Key): (v: Value)
    ensures entries != [] ==> Size(v) <= SizeOf(entries)
  {
    if Has(entries, key) then
      var n := LowerBound(entries, key);
      SizeOfOne(entries, n);
      entries[n].value
    else Null
  }

  lemma {:induction false} SizeOfOne(entries: seq<Entry>, n: nat)
    requires n < |entries|
    ensures Size(entries[n].value) < SizeOf(entries)
  {
    if n > 0 {
      SizeOfOne(entries[1..], n - 1);
    }
  }

  /** Assignment through the other operator[], which inserts a missing entry. */
  function Store(entries: seq<Entry>, key: Key, v: Value): seq<Entry> {
    var n := LowerBound(entries, key);
    if Has(entries, key) then entries[n := Entry(entries[n].key, v)]
    else entries[..n] + [Entry(key, v)] + entries[n..]
  }

  lemma StoreKeepsOrder(entries: seq<Entry>, key: Key, v: Value)
    requires Sorted(entries)
    ensures Sorted(Store(entries, key, v))
  {
    var n, t := LowerBound(entries, key), Store(entries, key, v);
    if !Has(entries, key) {
      forall i, k | 0 <= i < k < |t| ensures KeyLess(t[i].key, t[k].key) {
        if i < n < k {
          assert t[i] == entries[i] && t[k] == entries[k - 1];
        } else if n == i {
          KeyOrder(entries[n].key, key);
          if k > n + 1 {
            KeyTransitive(key, entries[n].key, entries[k - 1].key);
          }
        }
      }
    }
  }

  /** In a sorted map the lower bound finds the entry, if there is one. */
  lemma FindsEntry(entries: seq<Entry>, i: nat)
    requires Sorted(entries) && i < |entries|
    ensures Has(entries, entries[i].key) && LowerBound(entries, entries[i].key) == i &&
            Lookup(entries, entries[i].key) == entries[i].value
  {
    KeyOrder(entries[i].key, entries[i].key);
  }

  lemma StoredIsFound(entries: seq<Entry>, key: Key, v: Value)
    requires Sorted(entries)
    ensures Has(Store(entries, key, v), key) && Lookup(Store(entries, key, v), key) == v
  {
    var n := LowerBound(entries, key);
    StoreKeepsOrder(entries, key, v);
    if Has(entries, key) { KeyOrder(entries[n].key, key); }
    assert Store(entries, key, v)[n] == Entry(key, v);
    FindsEntry(Store(entries, key, v), n);
  }

  lemma OthersAreKept(entries: seq<Entry>, key: Key, v: Value, other: Key)
    requires Sorted(entries) && other != key && Has(entries, other)
    ensures Has(Store(entries, key, v), other) && Lookup(Store(entries, key, v), other) == Lookup(entries, other)
  {
    var n, i, t := LowerBound(entries, key), LowerBound(entries, other), Store(entries, key, v);
    hide KeyLess;
    KeyOrder(entries[i].key, other);
    StoreKeepsOrder(entries, key, v);
    if Has(entries, key) {
      KeyOrder(entries[n].key, key);
      assert t[i] == entries[i];
      FindsEntry(t, i);
    } else if i < n {
      assert t[i] == entries[i];
      FindsEntry(t, i);
    } else {
      assert t[i + 1] == entries[i];
      FindsEntry(t, i + 1);
    }
  }

  lemma NoneIsAdded(entries: seq<Entry>, key: Key, v: Value, other: Key)
    requires Sorted(entries) && other != key && Has(Store(entries, key, v), other)
    ensures Has(entries, other)
  {
    var t := Store(entries, key, v);
    var n, i := LowerBound(entries, key), LowerBound(t, other);
    hide KeyLess;
    KeyOrder(t[i].key, other);
    if Has(entries, key) {
      KeyOrder(entries[n].key, key);
      assert t[n] == Entry(key, v) && t[i] == entries[i];
      FindsEntry(entries, i);
    } else if i < n {
      assert t[i] == entries[i];
      FindsEntry(entries, i);
    } else {
      assert t[n] == Entry(key, v) && t[i] == entries[i - 1];
      FindsEntry(entries, i - 1);
    }
  }

  /** The map laws: what is stored is found, and nothing else changes. */
  lemma LookupStore(entries: seq<Entry>, key: Key, v: Value, other: Key)
    requires Sorted(entries)
    ensures var t := Store(entries, key, v);
            Lookup(t, other) == (if other == key then v else Lookup(entries, other))
            && (Has(t, other) <==> other == key || Has(entries, other))
  {
    StoredIsFound(entries, key, v);
    hide Store;
    if other != key {
      if Has(entries, other) { OthersAreKept(entries, key, v, other); }
      if Has(Store(entries, key, v), other) { NoneIsAdded(entries, key, v, other); }
    }
  }

  /** A key behind all others is appended. */
  lemma StoreLast(entries: seq<Entry>, key: Key, v: Value)
    requires forall i :: 0 <= i < |entries| ==> KeyLess(entries[i].key, key)
    ensures Lookup(entries, key) == Null && Store(entries, key, v) == entries + [Entry(key, v)]
  {
    assert LowerBound(entries, key) == |entries|;
    assert entries[..|entries|] == entries && entries[|entries|..] == [];
  }
}
