/** What Value::operator< of lib/json/jsoncpp.cpp means, in terms of the values alone. */
module JsonOrder {
  import opened JsonValue

  /** At position k two sequences part: they are the same before it. */
  predicate PartAt<T(==)>(a: seq<T>, b: seq<T>, k: int) {
    0 <= k <= |a| && k <= |b| && a[..k] == b[..k]
  }

  lemma SameStart<T>(a: seq<T>, b: seq<T>, k: int)
    requires PartAt(a, b, k) && k > 0
    ensures a[0] == b[0]
  {
    assert a[..k][0] == b[..k][0];
  }

  /** A proper prefix comes first, and otherwise the first byte that differs decides. */
  lemma {:induction false} StrLessMeans(a: string, b: string)
    ensures StrLess(a, b) <==>
            exists k :: PartAt(a, b, k) && Decides(a, b, k)
    decreases |a|
  {
    if a == "" || b == "" || a[0] != b[0] {
      assert PartAt(a, b, 0);
      forall k: int | PartAt(a, b, k) ensures k == 0 {
        if k > 0 { SameStart(a, b, k); }
      }
    } else {
      StrLessMeans(a[1..], b[1..]);
      forall k | PartAt(a[1..], b[1..], k) ensures PartAt(a, b, k + 1) {
        assert a[..k + 1] == [a[0]] + a[1..][..k] && b[..k + 1] == [b[0]] + b[1..][..k];
      }
      forall k | PartAt(a, b, k) && k > 0 ensures PartAt(a[1..], b[1..], k - 1) {
        assert a[1..][..k - 1] == a[..k][1..] && b[1..][..k - 1] == b[..k][1..];
      }
      if k :| PartAt(a[1..], b[1..], k) && Decides(a[1..], b[1..], k) {
        assert PartAt(a, b, k + 1) && Decides(a, b, k + 1);
      }
      if k :| PartAt(a, b, k) && Decides(a, b, k) {
        assert k > 0 && PartAt(a[1..], b[1..], k - 1) && Decides(a[1..], b[1..], k - 1);
      }
    }
  }

  predicate Decides(a: string, b: string, k: int) {
    (k == |a| && k < |b|) || (0 <= k < |a| && k < |b| && a[k] < b[k])
  }

  /** Null, signed, unsigned and real numbers, strings, booleans, arrays, objects. */
  predicate EarlierType(a: Value, b: Value) {
    match a
    case Null => !b.Null?
    case Int(_) => b.UInt? || b.Real? || b.Str? || b.Bool? || b.Array? || b.Object?
    case UInt(_) => b.Real? || b.Str? || b.Bool? || b.Array? || b.Object?
    case Real(_) => b.Str? || b.Bool? || b.Array? || b.Object?
    case Str(_) => b.Bool? || b.Array? || b.Object?
    case Bool(_) => b.Array? || b.Object?
    case Array(_) => b.Object?
    case Object(_) => false
  }

  lemma TypesAreOrdered(a: Value, b: Value)
    ensures EarlierType(a, b) ==> Less(a, b) && Compare(a, b) == -1
    ensures EarlierType(b, a) ==> Less(b, a) && Compare(a, b) == 1
  {
  }

  lemma ScalarsAreOrdered(a: Value, b: Value)
    ensures a.Null? && b.Null? ==> !Less(a, b)
    ensures a.Int? && b.Int? ==> (Less(a, b) <==> a.i < b.i)
    ensures a.UInt? && b.UInt? ==> (Less(a, b) <==> a.u < b.u)
    ensures a.Real? && b.Real? ==> (Less(a, b) <==> a.r < b.r)
    ensures a.Bool? && b.Bool? ==> (Less(a, b) <==> a.b == false && b.b == true)
    ensures a.Str? && b.Str? && b.s.None? ==> !Less(a, b)
    ensures a.Str? && b.Str? && a.s.None? && b.s.Some? ==> Less(a, b)
    ensures a.Str? && b.Str? && a.s.Some? && b.s.Some? ==>
              (Less(a, b) <==> exists k :: PartAt(a.s.value, b.s.value, k) && Decides(a.s.value, b.s.value, k))
  {
    if a.Str? && b.Str? && a.s.Some? && b.s.Some? {
      StrLessMeans(a.s.value, b.s.value);
      hide StrLess;
    }
  }

  /** A key that is smaller, or the same key and a smaller value. */
  predicate EntryDecides(x: Entry, y: Entry) {
    KeyLess(x.key, y.key) || (x.key == y.key && Less(x.value, y.value))
  }

  lemma EntryLessMeans(x: Entry, y: Entry)
    ensures EntryLess(x, y) <==> EntryDecides(x, y)
  {
    KeyOrder(x.key, y.key);
    hide KeyLess, Less;
  }

  lemma {:induction false} MapLessMeans(xs: seq<Entry>, ys: seq<Entry>)
    requires |xs| == |ys|
    ensures MapLess(xs, ys) <==> exists k :: PartAt(xs, ys, k) && k < |xs| && EntryDecides(xs[k], ys[k])
    decreases |xs|
  {
    hide EntryLess, EntryDecides;
    if xs != [] {
      EntryLessMeans(xs[0], ys[0]);
      EntryLessMeans(ys[0], xs[0]);
      EntryTrichotomy(xs[0], ys[0]);
      MapLessMeans(xs[1..], ys[1..]);
      assert PartAt(xs, ys, 0);
      if xs[0] == ys[0] {
        MapPartsLater(xs, ys);
      } else {
        forall k | PartAt(xs, ys, k) ensures k == 0 {
          if k > 0 { SameStart(xs, ys, k); }
        }
      }
    }
  }

  lemma MapPartsLater(xs: seq<Entry>, ys: seq<Entry>)
    requires |xs| == |ys| > 0 && xs[0] == ys[0] && !EntryDecides(xs[0], ys[0])
    ensures (exists k :: PartAt(xs, ys, k) && k < |xs| && EntryDecides(xs[k], ys[k])) <==>
            exists k :: PartAt(xs[1..], ys[1..], k) && k < |xs[1..]| && EntryDecides(xs[1..][k], ys[1..][k])
  {
    hide EntryDecides;
    forall k | PartAt(xs[1..], ys[1..], k) ensures PartAt(xs, ys, k + 1) {
      assert xs[..k + 1] == [xs[0]] + xs[1..][..k] && ys[..k + 1] == [ys[0]] + ys[1..][..k];
    }
    forall k | PartAt(xs, ys, k) && k > 0 ensures PartAt(xs[1..], ys[1..], k - 1) {
      assert xs[1..][..k - 1] == xs[..k][1..] && ys[1..][..k - 1] == ys[..k][1..];
    }
    hide PartAt;
    if k :| PartAt(xs, ys, k) && k < |xs| && EntryDecides(xs[k], ys[k]) {
      assert PartAt(xs[1..], ys[1..], k - 1) && EntryDecides(xs[1..][k - 1], ys[1..][k - 1]);
    }
    if k :| PartAt(xs[1..], ys[1..], k) && k < |xs[1..]| && EntryDecides(xs[1..][k], ys[1..][k]) {
      assert PartAt(xs, ys, k + 1) && EntryDecides(xs[k + 1], ys[k + 1]);
    }
  }

  /** The smaller of two arrays or objects comes first; if they are of the same size, the first entry where
      they differ decides. */
  lemma MapsAreOrdered(a: Value, b: Value)
    requires (a.Array? && b.Array?) || (a.Object? && b.Object?)
    ensures Less(a, b) <==>
            || |a.entries| < |b.entries|
            || (|a.entries| == |b.entries| &&
                exists k :: PartAt(a.entries, b.entries, k) && k < |a.entries| &&
                  EntryDecides(a.entries[k], b.entries[k]))
  {
    if |a.entries| == |b.entries| {
      MapLessMeans(a.entries, b.entries);
    }
    hide MapLess, EntryDecides;
  }

  /** Indices by number, names as C strings. */
  lemma KeysAreOrdered(a: Key, b: Key)
    ensures a.Index? && b.Index? ==> (KeyLess(a, b) <==> a.i < b.i)
    ensures a.Name? && b.Name? ==> (KeyLess(a, b) <==> exists k :: PartAt(a.s, b.s, k) && Decides(a.s, b.s, k))
  {
    if a.Name? && b.Name? {
      StrLessMeans(a.s, b.s);
      hide StrLess;
    }
  }

  lemma CompareMeans(a: Value, b: Value)
    ensures Compare(a, b) in {-1, 0, 1}
    ensures Compare(a, b) < 0 <==> Less(a, b)
    ensures Compare(a, b) > 0 <==> Less(b, a)
    ensures Compare(a, b) == 0 <==> a == b
  {
    LessTrichotomy(a, b);
    hide Less;
  }
}
