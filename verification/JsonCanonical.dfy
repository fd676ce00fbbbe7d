/** What the JSON reader of lib/json/jsoncpp.cpp returns is in normal form already, so that writing it and
    reading it again changes nothing. */
module JsonCanonical {
  import opened JsonValue
  import opened JsonString
  import opened JsonNumber
  import opened JsonToken
  import opened JsonParser
  import opened JsonText
  import opened JsonRoundTrip
  import opened JsonSizes
  import opened JsonFastWriter

  /** Integers in their narrowest type, strings and names without zeros, arrays without holes and with at most
      n elements. */
  ghost predicate Canonical(v: Value, n: nat)
    decreases Size(v), 0
  {
    match v
    case Int(i) => MIN_LARGEST_INT <= i <= MAX_INT
    case UInt(u) => MAX_INT < u <= MAX_LARGEST_UINT
    case Str(s) => s.Some? && '\0' !in s.value
    case Array(entries) => |entries| <= n && Dense(entries) && CanonicalAll(entries, n)
    case Object(entries) => Sorted(entries) && Named(entries) && CanonicalAll(entries, n)
    case _ => true
  }

  ghost predicate CanonicalAll(entries: seq<Entry>, n: nat)
    decreases SizeOf(entries), 1
  {
    forall i :: 0 <= i < |entries| ==> (SizeOfOne(entries, i); Canonical(entries[i].value, n))
  }

  ghost predicate Dense(entries: seq<Entry>) {
    forall i :: 0 <= i < |entries| ==> entries[i].key == Index(i)
  }

  ghost predicate Named(entries: seq<Entry>) {
    forall i :: 0 <= i < |entries| ==> entries[i].key.Name? && '\0' !in entries[i].key.s
  }

  // ----- The reader returns canonical values -----

  lemma NumberIsCanonical(f: Settings, t: Token, old_: Value, n: nat)
    requires IsNumberToken(t.text)
    ensures var o := ReadNumber(f, t, old_); o.ok ==> Canonical(o.value, n)
  {
    hide LooksReal;
  }

  lemma ScalarIsCanonical(f: Settings, t: Token, old_: Value, n: nat)
    requires (t.type_ == Number ==> IsNumberToken(t.text)) && (t.type_ == StringToken ==> |t.text| >= 2)
    ensures var o := ReadScalar(f, t, old_); o.ok ==> Canonical(o.value, n)
  {
    if t.type_ == Number {
      NumberIsCanonical(f, t, old_, n);
    }
    hide ReadNumber, IsNumberToken;
  }

  /** A successful read takes at least one character, and returns a canonical value. */
  lemma {:induction false} ValueIsCanonical(f: Settings, s: string, old_: Value, n: nat)
    requires |s| <= n
    ensures var o := ReadValue(f, s, old_); o.ok ==> |o.rest| < |s| && Canonical(o.value, n)
    decreases |s|, 0
  {
    hide FirstToken, ReadToken, SkipSpaces, Peek, ReadScalar, ReadMembers, ReadElements, Canonical;
    var t := FirstToken(f, s);
    if t.type_ == ObjectBegin {
      EmptyIsCanonical(n);
      MembersAreCanonical(f, t.rest, [], "", n);
    } else if t.type_ == ArrayBegin {
      EmptyIsCanonical(n);
      ElementsAreCanonical(f, SkipSpaces(t.rest), [], 0, n);
    } else {
      ScalarIsCanonical(f, t, old_, n);
      NotAtEnd(f, t, old_);
    }
  }

  lemma NotAtEnd(f: Settings, t: Token, old_: Value)
    requires (t.type_ == Number ==> IsNumberToken(t.text)) && (t.type_ == StringToken ==> |t.text| >= 2)
    ensures ReadScalar(f, t, old_).ok ==> t.type_ != EndOfStream
  {
  }

  lemma EmptyIsCanonical(n: nat)
    ensures Canonical(Array([]), n) && Canonical(Object([]), n)
  {
  }

  lemma StoredIsCanonical(entries: seq<Entry>, key: Key, v: Value, n: nat)
    requires Canonical(Object(entries), n) && Canonical(v, n) && key.Name? && '\0' !in key.s
    ensures Canonical(Object(Store(entries, key, v)), n)
  {
    StoreKeepsOrder(entries, key, v);
    var t := Store(entries, key, v);
    forall i | 0 <= i < |t| ensures t[i].key.Name? && '\0' !in t[i].key.s && Canonical(t[i].value, n) {
      hide Canonical;
      assert t[i].value == v || exists k :: 0 <= k < |entries| && t[i] == entries[k];
    }
  }

  lemma {:induction false} MembersAreCanonical(f: Settings, s: string, entries: seq<Entry>, name: string, n: nat)
    requires |s| <= n && Canonical(Object(entries), n)
    ensures var o := ReadMembers(f, s, entries, name); o.ok ==> Canonical(o.value, n)
    decreases |s|, 1
  {
    hide ReadValue, Recover, Store, Lookup, Unescape, ReadToken, ReadPastComments, Canonical, UpToZero;
    var st := MemberName(s, entries, name);
    if st.More? {
      var key := Name(UpToZero(st.name));
      var o := ReadValue(f, st.rest, Lookup(entries, key));
      ValueIsCanonical(f, st.rest, Lookup(entries, key), n);
      if o.ok {
        var stored := Store(entries, key, o.value);
        StoredIsCanonical(entries, key, o.value, n);
        var last := MemberEnd(o.rest, stored);
        if last.More? {
          MembersAreCanonical(f, last.rest, stored, st.name, n);
        }
      }
    }
  }

  lemma AppendedIsCanonical(entries: seq<Entry>, v: Value, n: nat)
    requires |entries| < n && Canonical(Array(entries), n) && Canonical(v, n)
    ensures var t := Store(entries, Index(|entries|), v); |t| == |entries| + 1 && Canonical(Array(t), n)
  {
    var t := entries + [Entry(Index(|entries|), v)];
    StoreLast(entries, Index(|entries|), v);
    forall i | 0 <= i < |t| ensures t[i].key == Index(i) && Canonical(t[i].value, n) {
      hide Canonical;
    }
  }

  lemma {:induction false} ElementsAreCanonical(f: Settings, s: string, entries: seq<Entry>, index: nat, n: nat)
    requires index + |s| <= n && Canonical(Array(entries), n) && |entries| == index
    ensures var o := ReadElements(f, s, entries, index); o.ok ==> Canonical(o.value, n)
    decreases |s|, 1
  {
    hide ReadValue, Recover, Store, Lookup, ReadPastComments, Canonical;
    var o := ReadValue(f, s, Lookup(entries, Index(index)));
    ValueIsCanonical(f, s, Lookup(entries, Index(index)), n);
    if o.ok {
      var stored := Store(entries, Index(index), o.value);
      AppendedIsCanonical(entries, o.value, n);
      var end := ElementEnd(o.rest, stored);
      if end.More? {
        ElementsAreCanonical(f, end.rest, stored, index + 1, n);
      }
    }
  }

  // ----- Canonical values are in normal form -----

  lemma DenseIsSorted(entries: seq<Entry>)
    requires Dense(entries)
    ensures Sorted(entries) && Extent(entries) == Shown(entries, InFull) == |entries|
  {
  }

  /** A canonical value is its own normal form, if all elements are counted. */
  lemma {:induction false} CanonicalIsNormal(v: Value, n: nat)
    requires Canonical(v, n)
    ensures Normal(v, InFull) == v
    decreases Size(v), 1
  {
    if v.Array? {
      DenseIsSorted(v.entries);
      EntriesAreNormal(v.entries, n);
      NormalArray(v.entries, InFull);
      ElementsAreNormal(v.entries, |v.entries|);
    } else if v.Object? {
      EntriesAreNormal(v.entries, n);
      MembersAreNormal(v.entries, |v.entries|);
      assert v.entries[..|v.entries|] == v.entries;
    }
  }

  lemma {:induction false} EntriesAreNormal(entries: seq<Entry>, n: nat)
    requires CanonicalAll(entries, n)
    ensures forall i :: 0 <= i < |entries| ==> Normal(entries[i].value, InFull) == entries[i].value
    decreases SizeOf(entries), 2
  {
    forall i | 0 <= i < |entries| ensures Normal(entries[i].value, InFull) == entries[i].value {
      SizeOfOne(entries, i);
      CanonicalIsNormal(entries[i].value, n);
      hide Normal, Canonical;
    }
  }

  lemma {:induction false} ElementsAreNormal(entries: seq<Entry>, n: nat)
    requires Dense(entries) && Sorted(entries) && n <= |entries|
    requires forall i :: 0 <= i < |entries| ==> Normal(entries[i].value, InFull) == entries[i].value
    ensures (n > 0 ==> entries != []) && NormalElements(entries, n, InFull) == entries[..n]
  {
    if n > 0 {
      var e := entries[n - 1];
      ElementsAreNormal(entries, n - 1);
      FindsEntry(entries, n - 1);
      assert e.key == Index(n - 1) && Normal(e.value, InFull) == e.value;
      hide Normal, Lookup, Sorted, Dense, Has, LowerBound;
      assert NormalElements(entries, n, InFull) == entries[..n - 1] + [e];
      assert entries[..n] == entries[..n - 1] + [e];
    }
  }

  lemma {:induction false} MembersAreNormal(entries: seq<Entry>, n: nat)
    requires n <= |entries| && forall i :: 0 <= i < |entries| ==> Normal(entries[i].value, InFull) == entries[i].value
    ensures NormalMembers(entries, n, InFull) == entries[..n]
  {
    if n > 0 {
      MembersAreNormal(entries, n - 1);
      hide Normal;
      assert entries[..n] == entries[..n - 1] + [entries[n - 1]];
    }
  }

  /** With few enough elements it can be held, and none is lost in writing. */
  lemma {:induction false} CanonicalIsHeld(v: Value, n: nat)
    requires Canonical(v, n) && n <= MAX_INT
    ensures Held(v) && SizesFit(v, AsInt)
    decreases Size(v)
  {
    if v.Array? || v.Object? {
      forall i | 0 <= i < |v.entries| ensures HeldEntry(v.entries[i], v.Array?) && SizesFit(v.entries[i].value, AsInt) {
        SizeOfOne(v.entries, i);
        CanonicalIsHeld(v.entries[i].value, n);
      }
      if v.Array? {
        DenseIsSorted(v.entries);
      }
    }
  }

  /** Whatever text was read: writing the value and reading it again gives the same value exactly when every
      array's size fits an int, which is so for every text of fewer than 2^31 characters. */
  lemma ReadWriteRead(f: Settings, document: string, root: Value, st: Style, yaml: bool, tail: string, root2: Value)
    requires Parse(f, document, root).ok && Proper(Parse(f, document, root).value)
    requires !st.dropNulls && st.count == AsInt && AllSpace(tail)
    ensures var v := Parse(f, document, root).value;
            var again := Parse(f, Compact(ValueTokens(v, st), yaml) + tail, root2);
            && (Held(v) ==> (again == Outcome(true, v, [], "") <==> SizesFit(v, AsInt)))
            && (|document| <= MAX_INT ==> Held(v) && SizesFit(v, AsInt))
  {
    var v, n := Parse(f, document, root).value, |document|;
    ValueIsCanonical(f, document, root, n);
    hide ReadValue;
    assert Canonical(v, n) && (f.strictRoot ==> v.Array? || v.Object?);
    hide Parse;
    CanonicalIsNormal(v, n);
    if n <= MAX_INT {
      CanonicalIsHeld(v, n);
    }
    if Held(v) {
      FastTextIsRead(f, v, st, yaml, tail, root2);
      AllIsWrittenIffSizesFit(v, AsInt);
    }
  }
}
