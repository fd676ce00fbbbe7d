/** The tokens of a JSON value as the writers of lib/json/jsoncpp.cpp emit them, and texts that spell them
    out with white space in between. */
module JsonText {
  import opened JsonValue
  import opened JsonString
  import opened JsonNumber
  import opened JsonToken

  // ----- Sizes of arrays -----

  /** One more than the highest index. */
  function Extent(entries: seq<Entry>): nat {
    if entries == [] then 0
    else
      match entries[|entries| - 1].key
      case Index(i) => i + 1
      case Name(_) => 0
  }

  /** Value::size() of an array, in 32 bits. */
  function ArraySize(entries: seq<Entry>): nat {
    Extent(entries) % 0x1_0000_0000
  }

  /** The size as an int. */
  function IntSize(entries: seq<Entry>): int {
    if ArraySize(entries) <= MAX_INT then ArraySize(entries) else ArraySize(entries) - 0x1_0000_0000
  }

  /** How the elements of an array are counted: by its size as an int, by its size, or up to its extent. */
  datatype Counting = AsInt | AsUnsigned | InFull

  /** How many elements a loop from 0 up to that count reaches. */
  function Shown(entries: seq<Entry>, c: Counting): (n: nat)
    ensures n > 0 ==> entries != []
  {
    match c
    case AsInt => if IntSize(entries) > 0 then IntSize(entries) else 0
    case AsUnsigned => ArraySize(entries)
    case InFull => Extent(entries)
  }

  // ----- Tokens -----

  /** Whether nulls are dropped, how a real number is printed, and how elements are counted. */
  datatype Style = Style(dropNulls: bool, print_: real -> string, count: Counting)
  {
    /** No number looks like a colon. */
    ghost predicate Sane() {
      forall r: real :: print_(r) != ":"
    }
  }

  function ValueTokens(v: Value, st: Style): seq<string>
    decreases Size(v), 1, 0
  {
    match v
    case Null => if st.dropNulls then [] else ["null"]
    case Int(i) => [IntNumeral(i)]
    case UInt(u) => [IntNumeral(u)]
    case Real(r) => [st.print_(r)]
    case Str(s) => if s.None? then [] else [Quoted(s.value)]
    case Bool(b) => [if b then "true" else "false"]
    case Array(entries) => ["["] + ElementTokens(entries, 0, Shown(entries, st.count), st) + ["]"]
    case Object(entries) => ["{"] + MemberTokens(entries, 0, st) + ["}"]
  }

  /** The elements from i up to n, each with the comma before it. */
  function ElementTokens(entries: seq<Entry>, i: nat, n: nat, st: Style): seq<string>
    requires i <= n && (n > 0 ==> entries != [])
    decreases 1 + SizeOf(entries), 0, n - i
  {
    if i == n then []
    else
      (if i > 0 then [","] else []) + ValueTokens(Lookup(entries, Index(i)), st) + ElementTokens(entries, i + 1, n, st)
  }

  /** The members from i on, each with the comma before it. */
  function MemberTokens(entries: seq<Entry>, i: nat, st: Style): seq<string>
    requires i <= |entries|
    decreases 1 + SizeOf(entries), 0, |entries| - i
  {
    if i == |entries| then []
    else
      SizeOfOne(entries, i);
      (if i > 0 then [","] else []) + [Quoted(NameOf(entries[i].key)), ":"] +
      ValueTokens(entries[i].value, st) + MemberTokens(entries, i + 1, st)
  }

  /** A member without a comma, and those after it. */
  function FromMember(entries: seq<Entry>, i: nat, st: Style): seq<string>
    requires i < |entries|
  {
    [Quoted(NameOf(entries[i].key)), ":"] + ValueTokens(entries[i].value, st) + MemberTokens(entries, i + 1, st)
  }

  function NameOf(k: Key): string {
    if k.Name? then k.s else ""
  }

  // ----- Texts -----

  /** A token, or white space between tokens. */
  datatype Piece = Tok(s: string) | Gap(s: string)

  function Text(pieces: seq<Piece>): string {
    if pieces == [] then "" else pieces[0].s + Text(pieces[1..])
  }

  function Tokens(pieces: seq<Piece>): seq<string> {
    if pieces == [] then []
    else (if pieces[0].Tok? then [pieces[0].s] else []) + Tokens(pieces[1..])
  }

  predicate AllSpace(s: string) {
    forall i :: 0 <= i < |s| ==> IsSpace(s[i])
  }

  predicate GapsAreSpace(pieces: seq<Piece>) {
    forall i :: 0 <= i < |pieces| && pieces[i].Gap? ==> AllSpace(pieces[i].s)
  }

  lemma {:induction false} TextConcat(a: seq<Piece>, b: seq<Piece>)
    ensures Text(a + b) == Text(a) + Text(b)
    decreases |a|
  {
    if a == [] {
      assert a + b == b && "" + Text(b) == Text(b);
    } else {
      assert (a + b)[0] == a[0] && (a + b)[1..] == a[1..] + b;
      TextConcat(a[1..], b);
      assert a[0].s + (Text(a[1..]) + Text(b)) == a[0].s + Text(a[1..]) + Text(b);
    }
  }

  lemma {:induction false} TokensConcat(a: seq<Piece>, b: seq<Piece>)
    ensures Tokens(a + b) == Tokens(a) + Tokens(b)
    decreases |a|
  {
    if a == [] {
      assert a + b == b && [] + Tokens(b) == Tokens(b);
    } else {
      assert (a + b)[0] == a[0] && (a + b)[1..] == a[1..] + b;
      TokensConcat(a[1..], b);
      var first := if a[0].Tok? then [a[0].s] else [];
      assert first + (Tokens(a[1..]) + Tokens(b)) == first + Tokens(a[1..]) + Tokens(b);
    }
  }

  // ----- Numbers are separated from what follows -----

  /** A token that would run into a following number. */
  predicate Open(t: string) {
    t != "" && StartsNumber(t[0])
  }

  /** A token that ends a number before it. */
  predicate Ends(t: string) {
    t != "" && !NumChar(t[0])
  }

  predicate Separated(tokens: seq<string>) {
    forall i :: 0 <= i < |tokens| - 1 && Open(tokens[i]) ==> Ends(tokens[i + 1])
  }

  /** The last token is not a number that goes on. */
  predicate Closed(tokens: seq<string>) {
    tokens == [] || !Open(tokens[|tokens| - 1])
  }

  lemma SeparatedConcat(a: seq<string>, b: seq<string>)
    requires Separated(a) && Separated(b) && (Closed(a) || b == [] || Ends(b[0]))
    ensures Separated(a + b)
  {
    var c := a + b;
    forall i | 0 <= i < |c| - 1 && Open(c[i]) ensures Ends(c[i + 1]) {
      if i + 1 < |a| {
        assert c[i] == a[i] && c[i + 1] == a[i + 1];
      } else if i >= |a| {
        assert c[i] == b[i - |a|] && c[i + 1] == b[i + 1 - |a|];
      } else {
        assert c[i] == a[|a| - 1] && c[i + 1] == b[0];
      }
    }
  }

  lemma {:induction false} ValueSeparated(v: Value, st: Style)
    ensures Separated(ValueTokens(v, st))
    decreases Size(v), 1, 0
  {
    match v {
      case Array(entries) =>
        var n := Shown(entries, st.count);
        ElementsSeparated(entries, 0, n, st);
        Bracketed("[", ElementTokens(entries, 0, n, st), "]");
      case Object(entries) =>
        MembersSeparated(entries, 0, st);
        Bracketed("{", MemberTokens(entries, 0, st), "}");
      case _ =>
    }
  }

  lemma Bracketed(a: string, tokens: seq<string>, b: string)
    requires Separated(tokens) && !Open(a) && Ends(b)
    ensures Separated([a] + tokens + [b])
  {
    SeparatedConcat([a], tokens);
    SeparatedConcat([a] + tokens, [b]);
  }

  /** A comma, or nothing, and a value, and what starts with a comma. */
  lemma Listed(comma: seq<string>, a: seq<string>, b: seq<string>)
    requires (comma == [] || comma == [","]) && Separated(a) && Separated(b) && (b == [] || b[0] == ",")
    ensures Separated(comma + a + b)
  {
    SeparatedConcat(comma, a);
    SeparatedConcat(comma + a, b);
  }

  lemma {:induction false} ElementsSeparated(entries: seq<Entry>, i: nat, n: nat, st: Style)
    requires i <= n && (n > 0 ==> entries != [])
    ensures var t := ElementTokens(entries, i, n, st); Separated(t) && (i > 0 && t != [] ==> t[0] == ",")
    decreases 1 + SizeOf(entries), 0, n - i
  {
    if i < n {
      var v := ValueTokens(Lookup(entries, Index(i)), st);
      ValueSeparated(Lookup(entries, Index(i)), st);
      ElementsSeparated(entries, i + 1, n, st);
      Listed(if i > 0 then [","] else [], v, ElementTokens(entries, i + 1, n, st));
    }
  }

  lemma {:induction false} MembersSeparated(entries: seq<Entry>, i: nat, st: Style)
    requires i <= |entries|
    ensures var t := MemberTokens(entries, i, st); Separated(t) && (i > 0 && t != [] ==> t[0] == ",")
    decreases 1 + SizeOf(entries), 0, |entries| - i
  {
    if i < |entries| {
      SizeOfOne(entries, i);
      var comma: seq<string> := if i > 0 then [","] else [];
      var name, v, more := Quoted(NameOf(entries[i].key)), ValueTokens(entries[i].value, st),
                           MemberTokens(entries, i + 1, st);
      assert MemberTokens(entries, i, st) == comma + [name, ":"] + v + more;
      ValueSeparated(entries[i].value, st);
      MembersSeparated(entries, i + 1, st);
      QuotedIsClosed(NameOf(entries[i].key));
      hide Quoted, ValueTokens, MemberTokens, Separated, Open;
      MemberListed(comma, name, v, more);
    }
  }

  lemma QuotedIsClosed(s: string)
    ensures !Open(Quoted(s))
  {
  }

  lemma MemberListed(comma: seq<string>, name: string, v: seq<string>, more: seq<string>)
    requires (comma == [] || comma == [","]) && !Open(name) && Separated(v)
    requires Separated(more) && (more == [] || more[0] == ",")
    ensures Separated(comma + [name, ":"] + v + more)
  {
    var tag := [name, ":"];
    assert Separated(tag) && Closed(tag);
    SeparatedConcat(tag, v);
    hide Separated;
    Listed(comma, tag + v, more);
    assert comma + (tag + v) == comma + tag + v;
  }

  // ----- Values as the program can hold them -----

  ghost predicate Held(v: Value)
    decreases Size(v), 0
  {
    match v
    case Int(i) => MIN_LARGEST_INT <= i <= MAX_LARGEST_INT
    case UInt(u) => 0 <= u <= MAX_LARGEST_UINT
    case Str(s) => s.Some? ==> '\0' !in s.value
    case Array(entries) => Sorted(entries) && HeldEntries(entries, true)
    case Object(entries) => Sorted(entries) && HeldEntries(entries, false)
    case _ => true
  }

  ghost predicate HeldEntries(entries: seq<Entry>, array_: bool)
    decreases SizeOf(entries), 1
  {
    forall i :: 0 <= i < |entries| ==> (SizeOfOne(entries, i); HeldEntry(entries[i], array_))
  }

  ghost predicate HeldEntry(e: Entry, array_: bool)
    decreases Size(e.value), 1
  {
    && Held(e.value)
    && if array_ then e.key.Index? && e.key.i < 0x1_0000_0000 else e.key.Name? && '\0' !in e.key.s
  }

  lemma HeldLookup(entries: seq<Entry>, key: Key)
    requires HeldEntries(entries, true)
    ensures Held(Lookup(entries, key))
  {
    if Has(entries, key) {
      var n := LowerBound(entries, key);
      assert HeldEntry(entries[n], true);
    }
  }

  /** getMemberNames */
  method MemberNames(entries: seq<Entry>) returns (names: seq<string>)
    requires HeldEntries(entries, false)
    ensures |names| == |entries| && forall i :: 0 <= i < |names| ==> entries[i].key == Name(names[i])
  {
    names := [];
    for i := 0 to |entries|
      invariant |names| == i && forall k :: 0 <= k < i ==> entries[k].key == Name(names[k])
    {
      assert HeldEntry(entries[i], false);
      names := names + [entries[i].key.s];
    }
  }

  lemma ArrayTokens(entries: seq<Entry>, st: Style)
    ensures ValueTokens(Array(entries), st) == ["["] + ElementTokens(entries, 0, Shown(entries, st.count), st) + ["]"]
  {
    hide ElementTokens, Shown;
  }

  lemma ObjectTokens(entries: seq<Entry>, st: Style)
    ensures ValueTokens(Object(entries), st) == ["{"] + MemberTokens(entries, 0, st) + ["}"]
  {
    hide MemberTokens;
  }

  // ----- Tokens without white space -----

  /** Every token, and a space after each colon if it is to be YAML. */
  function Spread(tokens: seq<string>, yaml: bool): seq<Piece> {
    if tokens == [] then []
    else SpreadOne(tokens[0], yaml) + Spread(tokens[1..], yaml)
  }

  function SpreadOne(t: string, yaml: bool): seq<Piece> {
    [Tok(t)] + if yaml && t == ":" then [Gap(" ")] else []
  }

  function Compact(tokens: seq<string>, yaml: bool): string {
    Text(Spread(tokens, yaml))
  }

  /** The tokens one after the other, with a space behind each colon if YAML is wanted. */
  function Concatenated(tokens: seq<string>, yaml: bool): string {
    if tokens == [] then ""
    else (if yaml && tokens[0] == ":" then ": " else tokens[0]) + Concatenated(tokens[1..], yaml)
  }

  lemma {:induction false} CompactMeans(tokens: seq<string>, yaml: bool)
    ensures Compact(tokens, yaml) == Concatenated(tokens, yaml)
    decreases |tokens|
  {
    if tokens != [] {
      var first, more := SpreadOne(tokens[0], yaml), Spread(tokens[1..], yaml);
      CompactMeans(tokens[1..], yaml);
      TextConcat(first, more);
      SpreadOneText(tokens[0], yaml);
      hide Text, SpreadOne;
    }
  }

  lemma SpreadOneText(t: string, yaml: bool)
    ensures Text(SpreadOne(t, yaml)) == if yaml && t == ":" then ": " else t
  {
    var p := SpreadOne(t, yaml);
    if yaml && t == ":" {
      assert p[1..] == [Gap(" ")] && Text([Gap(" ")]) == " " + Text([]);
    } else {
      assert p[1..] == [] && t + "" == t;
    }
  }

  lemma {:induction false} SpreadTokens(tokens: seq<string>, yaml: bool)
    ensures Tokens(Spread(tokens, yaml)) == tokens && GapsAreSpace(Spread(tokens, yaml))
    decreases |tokens|
  {
    if tokens != [] {
      SpreadTokens(tokens[1..], yaml);
      var first := SpreadOne(tokens[0], yaml);
      TokensConcat(first, Spread(tokens[1..], yaml));
      SpreadOneToken(tokens[0], yaml);
      hide Tokens, SpreadOne;
    }
  }

  lemma SpreadOneToken(t: string, yaml: bool)
    ensures Tokens(SpreadOne(t, yaml)) == [t] && GapsAreSpace(SpreadOne(t, yaml))
  {
    var first := SpreadOne(t, yaml);
    if yaml && t == ":" {
      assert first[1..] == [Gap(" ")] && Tokens([Gap(" ")]) == [];
    } else {
      assert first[1..] == [] && Tokens([]) == [];
    }
    assert Tokens(first) == [t] + Tokens(first[1..]);
  }

  lemma {:induction false} SpreadConcat(a: seq<string>, b: seq<string>, yaml: bool)
    ensures Spread(a + b, yaml) == Spread(a, yaml) + Spread(b, yaml)
    decreases |a|
  {
    if a == [] {
      assert a + b == b;
    } else {
      assert (a + b)[0] == a[0] && (a + b)[1..] == a[1..] + b;
      SpreadConcat(a[1..], b, yaml);
      var first := [Tok(a[0])] + if yaml && a[0] == ":" then [Gap(" ")] else [];
      assert first + (Spread(a[1..], yaml) + Spread(b, yaml)) == first + Spread(a[1..], yaml) + Spread(b, yaml);
    }
  }

  lemma CompactConcat(a: seq<string>, b: seq<string>, yaml: bool)
    ensures Compact(a + b, yaml) == Compact(a, yaml) + Compact(b, yaml)
  {
    SpreadConcat(a, b, yaml);
    TextConcat(Spread(a, yaml), Spread(b, yaml));
  }

  lemma CompactOne(t: string, yaml: bool)
    ensures Compact([t], yaml) == t + if yaml && t == ":" then " " else ""
  {
    var gap := if yaml && t == ":" then [Gap(" ")] else [];
    assert [t][1..] == [];
    assert Spread([t], yaml) == [Tok(t)] + gap + [];
    assert [Tok(t)] + gap + [] == [Tok(t)] + gap;
    TextConcat([Tok(t)], gap);
    assert Text([Tok(t)]) == t + "" && [Tok(t)][1..] == [];
    if gap != [] { assert gap[1..] == [] && Text(gap) == " " + ""; }
  }
}
