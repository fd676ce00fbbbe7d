/** What the 32-bit sizes of lib/json/jsoncpp.cpp do to the writing of large sparse arrays. */
module JsonSizes {
  import opened JsonValue
  import opened JsonString
  import opened JsonNumber
  import opened JsonText
  import opened JsonRoundTrip

  // ----- Entries and elements -----

  lemma IndexBelowExtent(entries: seq<Entry>, i: nat)
    requires Sorted(entries) && HeldEntries(entries, true) && i < |entries|
    ensures entries[i].key.Index? && entries[i].key.i < Extent(entries) <= 0x1_0000_0000
  {
    var last := |entries| - 1;
    assert HeldEntry(entries[i], true) && HeldEntry(entries[last], true);
    assert i < last ==> KeyLess(entries[i].key, entries[last].key);
  }

  lemma ExtentBound(entries: seq<Entry>)
    requires Sorted(entries) && HeldEntries(entries, true)
    ensures Extent(entries) <= 0x1_0000_0000
  {
    if entries != [] {
      IndexBelowExtent(entries, 0);
    }
  }

  /** What holds of null and of the value of every entry holds of every element, and conversely. */
  lemma ElementsAreEntries(entries: seq<Entry>, p: Value -> bool)
    requires Sorted(entries) && HeldEntries(entries, true) && p(Null)
    ensures (forall i :: 0 <= i < Extent(entries) ==> p(Lookup(entries, Index(i)))) <==>
            forall i :: 0 <= i < |entries| ==> p(entries[i].value)
  {
    if forall i :: 0 <= i < Extent(entries) ==> p(Lookup(entries, Index(i))) {
      forall i | 0 <= i < |entries| ensures p(entries[i].value) {
        IndexBelowExtent(entries, i);
        FindsEntry(entries, i);
        assert p(Lookup(entries, Index(entries[i].key.i)));
      }
    }
  }

  // ----- What is read back is everything -----

  function Limit(c: Counting): nat
    requires c != InFull
  {
    if c == AsInt then MAX_INT else 0xFFFF_FFFF
  }

  /** The extent of every array is one that the count can hold. */
  ghost predicate SizesFit(v: Value, c: Counting)
    requires c != InFull
    decreases Size(v), 0
  {
    match v
    case Array(entries) => Extent(entries) <= Limit(c) && SizesFitAll(entries, c)
    case Object(entries) => SizesFitAll(entries, c)
    case _ => true
  }

  ghost predicate SizesFitAll(entries: seq<Entry>, c: Counting)
    requires c != InFull
    decreases SizeOf(entries), 1
  {
    forall i :: 0 <= i < |entries| ==> (SizeOfOne(entries, i); SizesFit(entries[i].value, c))
  }

  /** What is written of v is all of it. */
  ghost predicate Whole(v: Value, c: Counting) {
    Normal(v, c) == Normal(v, InFull)
  }

  lemma {:induction false} ElementsWhole(entries: seq<Entry>, n: nat, c: Counting)
    requires n > 0 ==> entries != []
    ensures NormalElements(entries, n, c) == NormalElements(entries, n, InFull) <==>
            forall i :: 0 <= i < n ==> Whole(Lookup(entries, Index(i)), c)
  {
    if n > 0 {
      ElementsWhole(entries, n - 1, c);
      var a, b := NormalElements(entries, n, c), NormalElements(entries, n, InFull);
      assert a[..n - 1] == NormalElements(entries, n - 1, c) && b[..n - 1] == NormalElements(entries, n - 1, InFull);
      assert a == a[..n - 1] + [a[n - 1]] && b == b[..n - 1] + [b[n - 1]];
    }
  }

  lemma {:induction false} MembersWhole(entries: seq<Entry>, n: nat, c: Counting)
    requires n <= |entries|
    ensures NormalMembers(entries, n, c) == NormalMembers(entries, n, InFull) <==>
            forall i :: 0 <= i < n ==> Whole(entries[i].value, c)
  {
    if n > 0 {
      MembersWhole(entries, n - 1, c);
      var a, b := NormalMembers(entries, n, c), NormalMembers(entries, n, InFull);
      assert a[..n - 1] == NormalMembers(entries, n - 1, c) && b[..n - 1] == NormalMembers(entries, n - 1, InFull);
      assert a == a[..n - 1] + [a[n - 1]] && b == b[..n - 1] + [b[n - 1]];
    }
  }

  /** Nothing is lost exactly when the count can hold the extent of every array. */
  lemma {:induction false} AllIsWrittenIffSizesFit(v: Value, c: Counting)
    requires Held(v) && c != InFull
    ensures Whole(v, c) <==> SizesFit(v, c)
    decreases Size(v)
  {
    if v.Array? || v.Object? {
      forall i | 0 <= i < |v.entries| ensures Whole(v.entries[i].value, c) <==> SizesFit(v.entries[i].value, c) {
        SizeOfOne(v.entries, i);
        assert HeldEntry(v.entries[i], v.Array?);
        AllIsWrittenIffSizesFit(v.entries[i].value, c);
      }
      if v.Array? {
        ArrayWhole(v.entries, c);
      } else {
        MembersWhole(v.entries, |v.entries|, c);
      }
    }
  }

  /** A 32-bit size is the extent, or wraps to zero; as an int, or is negative. */
  lemma ShownSize(entries: seq<Entry>, c: Counting)
    requires Extent(entries) <= 0x1_0000_0000 && c != InFull
    ensures Shown(entries, c) == if Extent(entries) <= Limit(c) then Extent(entries) else 0
  {
  }

  lemma WholeElements(entries: seq<Entry>, c: Counting)
    requires Sorted(entries) && HeldEntries(entries, true) && c != InFull
    ensures Whole(Array(entries), c) <==>
            Extent(entries) <= Limit(c) && forall i :: 0 <= i < Extent(entries) ==> Whole(Lookup(entries, Index(i)), c)
  {
    var n := Extent(entries);
    assert n > 0 ==> entries != [];
    ExtentBound(entries);
    ShownSize(entries, c);
    NormalArray(entries, c);
    NormalArray(entries, InFull);
    hide Normal, NormalElements, Extent, HeldEntries, Sorted, Lookup;
    ElementsWhole(entries, n, c);
  }

  lemma ArrayWhole(entries: seq<Entry>, c: Counting)
    requires Sorted(entries) && HeldEntries(entries, true) && c != InFull
    requires forall i :: 0 <= i < |entries| ==> (Whole(entries[i].value, c) <==> SizesFit(entries[i].value, c))
    ensures Whole(Array(entries), c) <==> SizesFit(Array(entries), c)
  {
    WholeElements(entries, c);
    SizesFitArray(entries, c);
    NullWhole(c);
    ElementsAreEntries(entries, v => Whole(v, c));
    hide *;
  }

  lemma SizesFitArray(entries: seq<Entry>, c: Counting)
    requires c != InFull
    ensures SizesFit(Array(entries), c) <==>
            Extent(entries) <= Limit(c) && forall i :: 0 <= i < |entries| ==> SizesFit(entries[i].value, c)
  {
    hide Extent, Limit;
    assert SizesFitAll(entries, c) <==> forall i :: 0 <= i < |entries| ==> SizesFit(entries[i].value, c);
  }

  lemma NullWhole(c: Counting)
    ensures Whole(Null, c)
  {
  }

  /** A null at index 2^31 - 1 is enough: as an int the size is negative, and the array is written as if it
      were empty. */
  lemma LargeSparseArrayIsLost(st: Style)
    requires st.count == AsInt
    ensures var v := Array([Entry(Index(MAX_INT), Null)]);
            && Plain(v) && ValueTokens(v, st) == ["[", "]"]
            && Normal(v, AsInt) == Array([]) && |Normal(v, InFull).entries| == MAX_INT + 1
  {
    var entries := [Entry(Index(MAX_INT), Null)];
    assert Shown(entries, AsInt) == 0 && HeldEntry(entries[0], true);
    assert ["["] + [] + ["]"] == ["[", "]"];
    assert Extent(entries) == MAX_INT + 1;
  }

  // ----- Counting by the int and by the size -----

  /** Every array that a writer reaches has a size that is not negative as an int. */
  ghost predicate IntSizes(v: Value)
    decreases Size(v), 0
  {
    match v
    case Array(entries) => ArraySize(entries) <= MAX_INT && (ArraySize(entries) > 0 ==> IntSizesAll(entries))
    case Object(entries) => IntSizesAll(entries)
    case _ => true
  }

  ghost predicate IntSizesAll(entries: seq<Entry>)
    decreases SizeOf(entries), 1
  {
    forall i :: 0 <= i < |entries| ==> (SizeOfOne(entries, i); IntSizes(entries[i].value))
  }

  /** Counting by the size never writes fewer tokens, and writes the same ones exactly when no reached size is
      negative as an int. */
  ghost predicate Compares(a: seq<string>, b: seq<string>, same: bool) {
    |a| >= |b| && (same <==> |a| == |b|) && (same <==> a == b)
  }

  lemma ComparesConcat(a: seq<string>, b: seq<string>, same: bool, c: seq<string>, d: seq<string>, same': bool,
                       before: seq<string>)
    requires Compares(a, b, same) && Compares(c, d, same')
    ensures Compares(before + a + c, before + b + d, same && same')
  {
    if same && same' {
      assert before + a + c == before + b + d;
    } else {
      assert |before + a + c| > |before + b + d|;
    }
  }

  lemma ComparesBetween(a: seq<string>, b: seq<string>, same: bool, x: string, y: string)
    requires Compares(a, b, same)
    ensures Compares([x] + a + [y], [x] + b + [y], same)
  {
    assert !same ==> |[x] + a + [y]| > |[x] + b + [y]|;
  }

  lemma {:induction false} SameTokensIffIntSizes(v: Value, st: Style)
    requires Held(v)
    ensures Compares(ValueTokens(v, st.(count := AsUnsigned)), ValueTokens(v, st.(count := AsInt)), IntSizes(v))
    decreases Size(v), 1, 0
  {
    var u, s := st.(count := AsUnsigned), st.(count := AsInt);
    if v.Array? {
      ArrayCompares(v.entries, st);
    } else if v.Object? {
      MembersCompare(v.entries, 0, st);
      ObjectTokens(v.entries, u);
      ObjectTokens(v.entries, s);
      ComparesBetween(MemberTokens(v.entries, 0, u), MemberTokens(v.entries, 0, s), IntSizesFrom(v.entries, 0), "{",
                      "}");
      hide ValueTokens, MemberTokens;
      assert IntSizes(v) <==> IntSizesFrom(v.entries, 0);
    }
  }

  ghost predicate IntSizesFrom(entries: seq<Entry>, i: nat) {
    forall k :: i <= k < |entries| ==> IntSizes(entries[k].value)
  }

  lemma {:induction false} MembersCompare(entries: seq<Entry>, i: nat, st: Style)
    requires HeldEntries(entries, false) && i <= |entries|
    ensures Compares(MemberTokens(entries, i, st.(count := AsUnsigned)), MemberTokens(entries, i, st.(count := AsInt)),
                     IntSizesFrom(entries, i))
    decreases 1 + SizeOf(entries), 0, |entries| - i
  {
    if i < |entries| {
      var u, s := st.(count := AsUnsigned), st.(count := AsInt);
      SizeOfOne(entries, i);
      assert HeldEntry(entries[i], false);
      var v := entries[i].value;
      SameTokensIffIntSizes(v, st);
      MembersCompare(entries, i + 1, st);
      assert IntSizesFrom(entries, i) <==> IntSizes(v) && IntSizesFrom(entries, i + 1);
      ComparesConcat(ValueTokens(v, u), ValueTokens(v, s), IntSizes(v),
                     MemberTokens(entries, i + 1, u), MemberTokens(entries, i + 1, s), IntSizesFrom(entries, i + 1),
                     (if i > 0 then [","] else []) + [Quoted(NameOf(entries[i].key)), ":"]);
      hide ValueTokens, IntSizes, Held, HeldEntries;
    }
  }

  ghost predicate IntSizesBetween(entries: seq<Entry>, i: nat, n: nat) {
    forall k :: i <= k < n ==> IntSizes(Lookup(entries, Index(k)))
  }

  lemma {:induction false} ElementsCompare(entries: seq<Entry>, i: nat, n: nat, st: Style)
    requires HeldEntries(entries, true) && entries != [] && i <= n
    ensures Compares(ElementTokens(entries, i, n, st.(count := AsUnsigned)),
                     ElementTokens(entries, i, n, st.(count := AsInt)),
                     IntSizesBetween(entries, i, n))
    decreases 1 + SizeOf(entries), 0, n - i
  {
    if i < n {
      var u, s := st.(count := AsUnsigned), st.(count := AsInt);
      HeldLookup(entries, Index(i));
      var v := Lookup(entries, Index(i));
      SameTokensIffIntSizes(v, st);
      ElementsCompare(entries, i + 1, n, st);
      assert IntSizesBetween(entries, i, n) <==> IntSizes(v) && IntSizesBetween(entries, i + 1, n);
      ComparesConcat(ValueTokens(v, u), ValueTokens(v, s), IntSizes(v),
                     ElementTokens(entries, i + 1, n, u), ElementTokens(entries, i + 1, n, s),
                     IntSizesBetween(entries, i + 1, n),
                     if i > 0 then [","] else []);
      hide ValueTokens, IntSizes, Held, HeldEntries, Lookup;
    }
  }

  /** Every element but the first brings a comma at least. */
  lemma {:induction false} ManyTokens(entries: seq<Entry>, i: nat, n: nat, st: Style)
    requires entries != [] && 0 < i <= n
    ensures |ElementTokens(entries, i, n, st)| >= n - i
    decreases n - i
  {
    if i < n {
      ManyTokens(entries, i + 1, n, st);
      hide ValueTokens;
    }
  }

  lemma {:induction false} ArrayCompares(entries: seq<Entry>, st: Style)
    requires Sorted(entries) && HeldEntries(entries, true)
    ensures var v := Array(entries);
            Compares(ValueTokens(v, st.(count := AsUnsigned)), ValueTokens(v, st.(count := AsInt)), IntSizes(v))
    decreases 1 + SizeOf(entries), 0, 2 * ArraySize(entries) + 2
  {
    var u, s, n := st.(count := AsUnsigned), st.(count := AsInt), ArraySize(entries);
    ArrayTokens(entries, u);
    ArrayTokens(entries, s);
    ExtentBound(entries);
    hide ValueTokens, HeldEntries, Sorted, ElementTokens;
    if n == 0 {
      NoTokens(entries, u);
      NoTokens(entries, s);
    } else if n <= MAX_INT {
      ElementsCompare(entries, 0, n, st);
      SizedArray(entries, n);
      ComparesBetween(ElementTokens(entries, 0, n, u), ElementTokens(entries, 0, n, s), IntSizes(Array(entries)), "[",
                      "]");
    } else {
      FirstAndRest(entries, n, u);
      ManyTokens(entries, 1, n, u);
      NoTokens(entries, s);
    }
  }

  lemma NoTokens(entries: seq<Entry>, st: Style)
    ensures ElementTokens(entries, 0, 0, st) == []
  {
  }

  lemma FirstAndRest(entries: seq<Entry>, n: nat, st: Style)
    requires entries != [] && n > 0
    ensures |ElementTokens(entries, 0, n, st)| >= |ElementTokens(entries, 1, n, st)|
  {
  }

  /** A size that is not zero is the extent. */
  lemma SizedArray(entries: seq<Entry>, n: nat)
    requires Sorted(entries) && HeldEntries(entries, true) && n == ArraySize(entries) && 0 < n <= MAX_INT
    ensures IntSizes(Array(entries)) <==> IntSizesBetween(entries, 0, n)
  {
    ExtentBound(entries);
    assert n == Extent(entries);
    assert IntSizes(Null);
    ElementsAreEntries(entries, v => IntSizes(v));
    assert IntSizes(Array(entries)) <==> IntSizesAll(entries);
  }
}
