/** The JSON reader undoes the writers. */
module JsonRoundTrip {
  import opened Wrappers
  import opened JsonValue
  import opened JsonString
  import opened JsonNumber
  import opened JsonToken
  import opened JsonParser
  import opened JsonText

  // ----- Reading one token -----

  predicate IsWord(t: string) {
    t == "null" || t == "true" || t == "false"
  }

  predicate IsPunctuation(t: string) {
    t == "[" || t == "]" || t == "{" || t == "}" || t == "," || t == ":"
  }

  ghost predicate IsQuoted(t: string) {
    exists s: string :: '\0' !in s && t == Quoted(s)
  }

  ghost predicate GoodToken(t: string) {
    IsWord(t) || IsPunctuation(t) || IsNumberToken(t) || IsQuoted(t)
  }

  function TypeOf(t: string): (r: Type)
    requires t != ""
    ensures r != Comment && r != EndOfStream
  {
    match t[0]
    case '{' => ObjectBegin
    case '}' => ObjectEnd
    case '[' => ArrayBegin
    case ']' => ArrayEnd
    case ',' => ArraySeparator
    case ':' => MemberSeparator
    case 'n' => NullToken
    case 't' => True
    case 'f' => False
    case '"' => StringToken
    case _ => Number
  }

  lemma ScanPair(x: char, behind: string)
    ensures ScanString(['\\', x] + behind) == ScanString(behind)
  {
    var t := ['\\', x] + behind;
    assert t[0] == '\\' && t[1..] == [x] + behind && t[1..][1..] == behind;
  }

  lemma SpecialEscape(c: char) returns (x: char)
    requires Special(c)
    ensures Escaped(c) == ['\\', x]
  {
    x := Escaped(c)[1];
  }

  lemma ScanControl(c: char, behind: string)
    requires IsControl(c)
    ensures ScanString(['\\', 'u'] + HexText(c as int) + behind) == ScanString(behind)
  {
    var h := HexText(c as int);
    hide ScanString, HexText;
    ScanPair('u', h + behind);
    ScanHex(c as int, behind);
    assert ['\\', 'u'] + h + behind == ['\\', 'u'] + (h + behind);
  }

  lemma ScanEscaped(c: char, behind: string)
    requires c != '\0'
    ensures ScanString(Escaped(c) + behind) == ScanString(behind)
  {
    hide ScanString, HexText;
    if Special(c) {
      var x := SpecialEscape(c);
      ScanPair(x, behind);
    } else if IsControl(c) {
      ScanControl(c, behind);
    } else {
      ScanOne(c, behind);
    }
  }

  lemma ScanHex(n: nat, behind: string)
    requires n <= 0xFFFF
    ensures ScanString(HexText(n) + behind) == ScanString(behind)
  {
    var h := HexText(n);
    assert h == [h[0], h[1], h[2], h[3]];
    ScanFour(h[0], h[1], h[2], h[3], behind);
  }

  lemma ScanOne(c: char, behind: string)
    requires c != '"' && c != '\\'
    ensures ScanString([c] + behind) == ScanString(behind)
  {
    assert ([c] + behind)[1..] == behind;
  }

  lemma ScanFour(a: char, b: char, c: char, d: char, behind: string)
    requires a != '"' && a != '\\' && b != '"' && b != '\\' && c != '"' && c != '\\' && d != '"' && d != '\\'
    ensures ScanString([a, b, c, d] + behind) == ScanString(behind)
  {
    ScanOne(d, behind);
    ScanOne(c, [d] + behind);
    ScanOne(b, [c] + ([d] + behind));
    ScanOne(a, [b] + ([c] + ([d] + behind)));
    assert [a, b, c, d] + behind == [a] + ([b] + ([c] + ([d] + behind)));
  }

  lemma Regroup(a: string, b: string, c: string, d: string)
    ensures a + b + c + d == a + (b + c + d)
  {
  }

  lemma {:induction false} ScanQuoted(s: string, behind: string)
    requires '\0' !in s
    ensures ScanString(EscapedAll(s) + "\"" + behind) == Scan(true, behind)
    decreases |s|
  {
    if s == "" {
      assert (EscapedAll(s) + "\"" + behind)[1..] == behind;
    } else {
      ScanQuoted(s[1..], behind);
      var more := EscapedAll(s[1..]) + "\"" + behind;
      ScanEscaped(s[0], more);
      Regroup(Escaped(s[0]), EscapedAll(s[1..]), "\"", behind);
    }
  }

  lemma {:induction false} ScanDigits(t: string, behind: string)
    requires (forall i :: 0 <= i < |t| ==> NumChar(t[i])) && (behind == "" || !NumChar(behind[0]))
    ensures ScanNumber(t + behind) == behind
    decreases |t|
  {
    if t == "" {
      assert t + behind == behind;
    } else {
      assert (t + behind)[1..] == t[1..] + behind;
      ScanDigits(t[1..], behind);
    }
  }

  lemma ScanPrefix(pattern: string, behind: string)
    ensures ScanWord(pattern + behind, pattern) == Scan(true, behind)
  {
    assert (pattern + behind)[|pattern|..] == behind;
  }

  lemma ClassifyOne(c: char, behind: string)
    requires IsPunctuation([c])
    ensures Classify([c] + behind) == (TypeOf([c]), behind)
  {
    assert ([c] + behind)[1..] == behind;
  }

  lemma ClassifyWord(t: string, behind: string)
    requires IsWord(t)
    ensures Classify(t + behind) == (TypeOf(t), behind)
  {
    var s := t + behind;
    ScanPrefix(t[1..], behind);
    hide ScanWord;
    assert s[0] == t[0] && s[1..] == t[1..] + behind;
    assert t[1..] == if t == "null" then "ull" else if t == "true" then "rue" else "alse";
  }

  lemma ClassifyNumber(t: string, behind: string)
    requires IsNumberToken(t) && (behind == "" || !NumChar(behind[0]))
    ensures Classify(t + behind) == (TypeOf(t), behind)
  {
    var s := t + behind;
    assert s[0] == t[0] && s[1..] == t[1..] + behind;
    ScanDigits(t[1..], behind);
  }

  lemma ClassifyQuoted(s: string, behind: string)
    requires '\0' !in s
    ensures Classify(Quoted(s) + behind) == (TypeOf(Quoted(s)), behind)
  {
    var t := Quoted(s) + behind;
    assert t[0] == '"' && t[1..] == EscapedAll(s) + "\"" + behind;
    ScanQuoted(s, behind);
  }

  lemma ClassifyToken(t: string, behind: string)
    requires GoodToken(t) && (IsNumberToken(t) ==> behind == "" || !NumChar(behind[0]))
    ensures t != "" && !IsSpace(t[0]) && Classify(t + behind) == (TypeOf(t), behind)
  {
    hide Classify;
    if IsNumberToken(t) {
      ClassifyNumber(t, behind);
    } else if IsWord(t) {
      ClassifyWord(t, behind);
    } else if IsPunctuation(t) {
      assert t == [t[0]];
      ClassifyOne(t[0], behind);
    } else {
      var s: string :| '\0' !in s && t == Quoted(s);
      ClassifyQuoted(s, behind);
    }
  }

  // ----- Reading a text of tokens -----

  /** P spells out the tokens, and what follows does not go on with a number. */
  ghost predicate Spells(P: seq<Piece>, tokens: seq<string>, tail: string) {
    && Tokens(P) == tokens && GapsAreSpace(P) && Separated(tokens)
    && (forall i :: 0 <= i < |tokens| ==> GoodToken(tokens[i]))
    && (tail == "" || !NumChar(tail[0]))
  }

  lemma {:induction false} SkipGap(gap: string, behind: string)
    requires AllSpace(gap)
    ensures SkipSpaces(gap + behind) == SkipSpaces(behind)
    decreases |gap|
  {
    if gap == "" {
      assert gap + behind == behind;
    } else {
      assert (gap + behind)[1..] == gap[1..] + behind;
      SkipGap(gap[1..], behind);
    }
  }

  lemma SkipFirstGap(P: seq<Piece>, tail: string)
    requires P != [] && AllSpace(P[0].s)
    ensures SkipSpaces(Text(P) + tail) == SkipSpaces(Text(P[1..]) + tail)
  {
    hide SkipSpaces, AllSpace;
    SkipGap(P[0].s, Text(P[1..]) + tail);
    assert P[0].s + Text(P[1..]) + tail == P[0].s + (Text(P[1..]) + tail);
  }

  lemma {:induction false} DropGaps(P: seq<Piece>, tail: string) returns (Q: seq<Piece>)
    requires GapsAreSpace(P)
    ensures Tokens(Q) == Tokens(P) && GapsAreSpace(Q) && (Q == [] || Q[0].Tok?)
    ensures SkipSpaces(Text(P) + tail) == SkipSpaces(Text(Q) + tail)
    decreases |P|
  {
    if P == [] || P[0].Tok? {
      Q := P;
    } else {
      assert AllSpace(P[0].s);
      SkipFirstGap(P, tail);
      Q := DropGaps(P[1..], tail);
      hide SkipSpaces, Text;
      assert [] + Tokens(P[1..]) == Tokens(P[1..]);
    }
  }

  lemma {:induction false} NumberEnds(P: seq<Piece>, tail: string)
    requires GapsAreSpace(P) && (Tokens(P) == [] || Ends(Tokens(P)[0])) && (tail == "" || !NumChar(tail[0]))
    ensures Text(P) + tail == "" || !NumChar((Text(P) + tail)[0])
    decreases |P|
  {
    if P != [] {
      if P[0].Gap? && P[0].s == "" {
        assert "" + Text(P[1..]) == Text(P[1..]) && [] + Tokens(P[1..]) == Tokens(P[1..]);
        NumberEnds(P[1..], tail);
      } else {
        assert P[0].Tok? ==> Tokens(P)[0] == P[0].s;
        assert Text(P) == P[0].s + Text(P[1..]);
        hide Text, Tokens;
        assert P[0].s != "" && (Text(P) + tail)[0] == P[0].s[0];
      }
    }
  }

  lemma ReadOneToken(t: string, behind: string, s: string)
    requires GoodToken(t) && (IsNumberToken(t) ==> behind == "" || !NumChar(behind[0]))
    requires SkipSpaces(s) == SkipSpaces(t + behind)
    ensures t != "" && ReadToken(s) == Token(TypeOf(t), t, behind)
  {
    hide Classify, GoodToken, TypeOf, IsNumberToken, NumChar;
    ClassifyToken(t, behind);
    assert (t + behind)[0] == t[0];
    assert SkipSpaces(t + behind) == t + behind;
    hide SkipSpaces;
    assert (t + behind)[..|t|] == t;
    assert |t + behind| - |behind| == |t|;
  }

  lemma SpellsRest(D: seq<Piece>, tokens: seq<string>, tail: string)
    requires Spells(D, tokens, tail) && D != [] && D[0].Tok?
    ensures Spells(D[1..], tokens[1..], tail) && tokens[0] == D[0].s
    ensures Open(tokens[0]) ==> Text(D[1..]) + tail == "" || !NumChar((Text(D[1..]) + tail)[0])
  {
    hide GoodToken;
    var rest := tokens[1..];
    assert tokens == [D[0].s] + Tokens(D[1..]);
    assert Tokens(D[1..]) == rest;
    assert forall i :: 0 <= i < |rest| ==> rest[i] == tokens[i + 1];
    if Open(tokens[0]) {
      assert rest == [] || Ends(rest[0]);
      NumberEnds(D[1..], tail);
    }
  }

  /** The next token is read, whatever the white space before it. */
  lemma NextToken(P: seq<Piece>, tokens: seq<string>, tail: string) returns (Q: seq<Piece>)
    requires Spells(P, tokens, tail) && tokens != []
    ensures Spells(Q, tokens[1..], tail)
    ensures tokens[0] != "" && ReadToken(Text(P) + tail) == Token(TypeOf(tokens[0]), tokens[0], Text(Q) + tail)
  {
    hide ReadToken, GoodToken, SkipSpaces, TypeOf, NumChar, Separated, GapsAreSpace;
    var D := DropGaps(P, tail);
    Q := D[1..];
    assert GoodToken(tokens[0]);
    assert D != [] && Spells(D, tokens, tail);
    hide Spells;
    SpellsRest(D, tokens, tail);
    assert D[0].s + Text(Q) + tail == D[0].s + (Text(Q) + tail);
    ReadOneToken(tokens[0], Text(Q) + tail, Text(P) + tail);
  }

  lemma PastComments(f: Settings, s: string)
    requires ReadToken(s).type_ != Comment
    ensures ReadPastComments(s) == ReadToken(s) == FirstToken(f, s)
  {
    hide ReadToken;
  }

  lemma NextFirst(f: Settings, P: seq<Piece>, tokens: seq<string>, tail: string) returns (Q: seq<Piece>)
    requires Spells(P, tokens, tail) && tokens != []
    ensures Spells(Q, tokens[1..], tail) && tokens[0] != ""
    ensures var t := Token(TypeOf(tokens[0]), tokens[0], Text(Q) + tail); var s := Text(P) + tail;
            ReadToken(s) == ReadPastComments(s) == FirstToken(f, s) == t
  {
    hide Spells, ReadToken, TypeOf;
    Q := NextToken(P, tokens, tail);
    PastComments(f, Text(P) + tail);
  }

  // ----- What is read -----

  /** No real number and no null string anywhere. */
  ghost predicate Proper(v: Value)
    decreases Size(v), 0
  {
    match v
    case Real(_) => false
    case Str(s) => s.Some?
    case Array(entries) => ProperAll(entries)
    case Object(entries) => ProperAll(entries)
    case _ => true
  }

  ghost predicate ProperAll(entries: seq<Entry>)
    decreases SizeOf(entries), 1
  {
    forall i :: 0 <= i < |entries| ==> (SizeOfOne(entries, i); Proper(entries[i].value))
  }

  /** A value as the program can hold it, without reals and null strings. */
  ghost predicate Plain(v: Value) {
    Held(v) && Proper(v)
  }

  ghost predicate PlainEntries(entries: seq<Entry>, array_: bool) {
    HeldEntries(entries, array_) && ProperAll(entries)
  }

  ghost predicate PlainEntry(e: Entry, array_: bool) {
    HeldEntry(e, array_) && Proper(e.value)
  }

  lemma PlainAt(entries: seq<Entry>, array_: bool, i: nat)
    requires PlainEntries(entries, array_) && i < |entries|
    ensures PlainEntry(entries[i], array_) && Plain(entries[i].value)
  {
  }

  /** A value as it comes back: integers in their narrowest type, arrays without holes. */
  function Normal(v: Value, c: Counting): Value
    decreases Size(v), 1, 0
  {
    match v
    case Int(i) => IntegerValue(i)
    case UInt(u) => IntegerValue(u)
    case Array(entries) => Array(NormalElements(entries, Shown(entries, c), c))
    case Object(entries) => Object(NormalMembers(entries, |entries|, c))
    case _ => v
  }

  function NormalElements(entries: seq<Entry>, n: nat, c: Counting): (r: seq<Entry>)
    requires n > 0 ==> entries != []
    ensures |r| == n && forall i :: 0 <= i < n ==> r[i].key == Index(i)
    decreases 1 + SizeOf(entries), 0, n
  {
    if n == 0 then []
    else NormalElements(entries, n - 1, c) + [Entry(Index(n - 1), Normal(Lookup(entries, Index(n - 1)), c))]
  }

  function NormalMembers(entries: seq<Entry>, n: nat, c: Counting): (r: seq<Entry>)
    requires n <= |entries|
    ensures |r| == n
    decreases 1 + SizeOf(entries), 0, n
  {
    if n == 0 then []
    else
      SizeOfOne(entries, n - 1);
      NormalMembers(entries, n - 1, c) + [Entry(entries[n - 1].key, Normal(entries[n - 1].value, c))]
  }

  lemma PlainLookup(entries: seq<Entry>, key: Key)
    requires PlainEntries(entries, true)
    ensures Plain(Lookup(entries, key))
  {
    if Has(entries, key) {
      var n := LowerBound(entries, key);
      PlainAt(entries, true, n);
    }
  }

  // ----- Scalars -----

  /** The token of a scalar, and what is made of it. */
  lemma ScalarRead(f: Settings, v: Value, st: Style, rest: string, old_: Value) returns (t: string)
    requires Plain(v) && !v.Array? && !v.Object? && !st.dropNulls
    ensures ValueTokens(v, st) == [t] && GoodToken(t) && t != ""
    ensures TypeOf(t) != ArrayBegin && TypeOf(t) != ArrayEnd && TypeOf(t) != ObjectBegin
    ensures (TypeOf(t) == Number ==> IsNumberToken(t)) && (TypeOf(t) == StringToken ==> |t| >= 2)
    ensures ReadScalar(f, Token(TypeOf(t), t, rest), old_) == Outcome(true, Normal(v, st.count), [], rest)
  {
    t := ValueTokens(v, st)[0];
    match v {
      case Int(i) => ReadNumeral(f, i, old_, rest);
      case UInt(u) => ReadNumeral(f, u, old_, rest);
      case Str(s) => ReadQuoted(s.value, old_, rest);
      case _ =>
    }
    hide ReadNumber, ReadString, IsNumberToken, Quoted, IntNumeral;
  }

  lemma ReadNumeral(f: Settings, n: int, old_: Value, rest: string)
    requires Fits(n)
    ensures var t := IntNumeral(n);
            t != "" && TypeOf(t) == Number && IsNumberToken(t) && GoodToken(t)
            && ReadNumber(f, Token(Number, t, rest), old_) == Outcome(true, IntegerValue(n), [], rest)
  {
    PrintedIntegerIsRead(n, f.scan);
    NumberTokenType(IntNumeral(n));
    hide NumberValue, IntNumeral, TypeOf, GoodToken, IsNumberToken, IntegerValue;
  }

  lemma NumberTokenType(t: string)
    requires IsNumberToken(t)
    ensures TypeOf(t) == Number && GoodToken(t)
  {
  }

  lemma ReadQuoted(s: string, old_: Value, rest: string)
    requires '\0' !in s
    ensures var t := Quoted(s);
            TypeOf(t) == StringToken && |t| >= 2 && GoodToken(t) && Unescape(Inner(t)) == Ok(s) && UpToZero(s) == s
            && ReadString(Token(StringToken, t, rest), old_) == Outcome(true, Str(Some(s)), [], rest)
  {
    UnescapeIsInverse(s);
    hide Unescape, EscapedAll;
    assert Inner(Quoted(s)) == EscapedAll(s);
    assert IsQuoted(Quoted(s));
  }

  lemma ReadScalarOf(f: Settings, v: Value, st: Style, P: seq<Piece>, more: seq<string>, tail: string, old_: Value)
    returns (Q: seq<Piece>)
    requires Plain(v) && !v.Array? && !v.Object? && !st.dropNulls && Spells(P, ValueTokens(v, st) + more, tail)
    ensures Spells(Q, more, tail)
    ensures ReadValue(f, Text(P) + tail, old_) == Outcome(true, Normal(v, st.count), [], Text(Q) + tail)
  {
    hide Spells, TypeOf, FirstToken, ReadToken, ReadPastComments, ReadScalar, GoodToken, IsNumberToken, Normal;
    var t := ScalarRead(f, v, st, "", old_);
    assert ([t] + more)[1..] == more && ([t] + more)[0] == t;
    hide ValueTokens;
    Q := NextFirst(f, P, [t] + more, tail);
    t := ScalarRead(f, v, st, Text(Q) + tail, old_);
  }

  // ----- Arrays -----

  lemma TokenStart(s: string)
    ensures ReadToken(SkipSpaces(s)) == ReadToken(s)
    ensures ReadToken(s).text != "" ==> Peek(SkipSpaces(s)) == ReadToken(s).text[0]
  {
    assert SkipSpaces(SkipSpaces(s)) == SkipSpaces(s);
    hide Classify;
  }

  lemma Skipped(P: seq<Piece>, tokens: seq<string>, tail: string) returns (D: seq<Piece>)
    requires Spells(P, tokens, tail) && tokens != []
    ensures Spells(D, tokens, tail) && SkipSpaces(Text(P) + tail) == Text(D) + tail
  {
    D := DropGaps(P, tail);
    assert GoodToken(tokens[0]) && tokens[0] == D[0].s;
    NotSpace(tokens[0]);
    hide GoodToken;
    assert (Text(D) + tail)[0] == tokens[0][0];
  }

  lemma NotSpace(t: string)
    requires GoodToken(t)
    ensures t != "" && !IsSpace(t[0])
  {
  }

  lemma ValueStarts(v: Value, st: Style)
    requires Plain(v) && !st.dropNulls
    ensures var t := ValueTokens(v, st); t != [] && t[0] != "" && TypeOf(t[0]) != ArrayEnd && t[0][0] != ']'
  {
    if !v.Array? && !v.Object? {
      assert v.Int? || v.UInt? ==> IsNumberToken(ValueTokens(v, st)[0]) by {
        if v.Int? { PrintedIntegerIsRead(v.i, s => None); }
        if v.UInt? { PrintedIntegerIsRead(v.u, s => None); }
      }
      hide IntNumeral;
    }
  }

  /** After an element: a comma and the rest, or the closing bracket. */
  lemma ElementEndOf(f: Settings, P: seq<Piece>, tokens: seq<string>, tail: string, entries: seq<Entry>)
    returns (Q: seq<Piece>)
    requires Spells(P, tokens, tail) && tokens != [] && (tokens[0] == "," || tokens[0] == "]")
    ensures Spells(Q, tokens[1..], tail)
    ensures ElementEnd(Text(P) + tail, entries) ==
            if tokens[0] == "," then More("", Text(Q) + tail)
            else Stop(Outcome(true, Array(entries), [], Text(Q) + tail))
  {
    hide Spells, ReadPastComments, ReadToken;
    Q := NextFirst(f, P, tokens, tail);
  }

  lemma {:induction false} ReadElementsOf(f: Settings, entries: seq<Entry>, i: nat, n: nat, st: Style,
                                          P: seq<Piece>, more: seq<string>, tail: string) returns (Q: seq<Piece>)
    requires PlainEntries(entries, true) && entries != [] && i < n && !st.dropNulls
    requires Spells(P, ValueTokens(Lookup(entries, Index(i)), st) +
                    (ElementTokens(entries, i + 1, n, st) + ["]"] + more), tail)
    ensures Spells(Q, more, tail)
    ensures ReadElements(f, Text(P) + tail, NormalElements(entries, i, st.count), i) ==
            Outcome(true, Array(NormalElements(entries, n, st.count)), [], Text(Q) + tail)
    decreases 1 + SizeOf(entries), 0, 2 * (n - i)
  {
    hide Spells, ElementEnd, Normal, ReadValue, Text, Plain, PlainEntries;
    var v, acc := Lookup(entries, Index(i)), NormalElements(entries, i, st.count);
    PlainLookup(entries, Index(i));
    StoreLast(acc, Index(i), Normal(v, st.count));
    hide Lookup, Store;
    var R := ReadValueOf(f, v, st, P, ElementTokens(entries, i + 1, n, st) + ["]"] + more, tail, Null);
    assert NormalElements(entries, i + 1, st.count) == acc + [Entry(Index(i), Normal(v, st.count))];
    hide NormalElements, ElementTokens, ValueTokens;
    Q := ReadRestOfElements(f, entries, i, n, st, R, more, tail);
  }

  lemma {:induction false} ReadRestOfElements(f: Settings, entries: seq<Entry>, i: nat, n: nat, st: Style,
                                              P: seq<Piece>, more: seq<string>, tail: string) returns (Q: seq<Piece>)
    requires PlainEntries(entries, true) && entries != [] && i < n && !st.dropNulls
    requires Spells(P, ElementTokens(entries, i + 1, n, st) + ["]"] + more, tail)
    ensures Spells(Q, more, tail)
    ensures var acc := NormalElements(entries, i + 1, st.count);
            Outcome(true, Array(NormalElements(entries, n, st.count)), [], Text(Q) + tail) ==
            match ElementEnd(Text(P) + tail, acc)
            case Stop(r) => r
            case More(_, rest) => ReadElements(f, rest, acc, i + 1)
    decreases 1 + SizeOf(entries), 0, 2 * (n - i) - 1
  {
    hide Spells, ElementEnd, ReadElements, PlainEntries, Text;
    var behind, acc := ElementTokens(entries, i + 1, n, st) + ["]"] + more, NormalElements(entries, i + 1, st.count);
    if i + 1 == n {
      assert behind == ["]"] + more && behind[1..] == more;
      Q := ElementEndOf(f, P, behind, tail, acc);
    } else {
      NextElement(entries, i + 1, n, st, more);
      hide ElementTokens, ValueTokens;
      assert behind[1..] ==
             ValueTokens(Lookup(entries, Index(i + 1)), st) + (ElementTokens(entries, i + 2, n, st) + ["]"] + more);
      var R := ElementEndOf(f, P, behind, tail, acc);
      Q := ReadElementsOf(f, entries, i + 1, n, st, R, more, tail);
    }
  }

  lemma NextElement(entries: seq<Entry>, i: nat, n: nat, st: Style, more: seq<string>)
    requires entries != [] && 0 < i < n
    ensures ElementTokens(entries, i, n, st) + ["]"] + more ==
            [","] + (ValueTokens(Lookup(entries, Index(i)), st) + (ElementTokens(entries, i + 1, n, st) + ["]"] + more))
  {
    var a, b := ValueTokens(Lookup(entries, Index(i)), st), ElementTokens(entries, i + 1, n, st);
    assert ElementTokens(entries, i, n, st) == [","] + a + b;
    hide ElementTokens, ValueTokens;
    assert [","] + a + b + ["]"] + more == [","] + (a + (b + ["]"] + more));
  }

  lemma {:induction false} ReadValueOf(f: Settings, v: Value, st: Style, P: seq<Piece>, more: seq<string>,
                                       tail: string, old_: Value)
    returns (Q: seq<Piece>)
    requires Plain(v) && !st.dropNulls && Spells(P, ValueTokens(v, st) + more, tail)
    ensures Spells(Q, more, tail)
    ensures ReadValue(f, Text(P) + tail, old_) == Outcome(true, Normal(v, st.count), [], Text(Q) + tail)
    decreases Size(v), 2, 0
  {
    hide Spells, ReadValue;
    if v.Array? {
      Q := ReadArrayOf(f, v.entries, st, P, more, tail, old_);
    } else if v.Object? {
      Q := ReadObjectOf(f, v.entries, st, P, more, tail, old_);
    } else {
      Q := ReadScalarOf(f, v, st, P, more, tail, old_);
    }
  }

  /** readValue after an opening bracket. */
  lemma ReadBracket(f: Settings, s: string, rest: string, old_: Value)
    requires FirstToken(f, s) == Token(ArrayBegin, "[", rest)
    ensures var u := SkipSpaces(rest);
            ReadValue(f, s, old_) ==
            if Peek(u) == ']' then Outcome(true, Array([]), [], ReadToken(u).rest) else ReadElements(f, u, [], 0)
  {
    hide FirstToken, ReadToken, SkipSpaces, Peek, ReadElements;
  }

  lemma InsideEmpty(f: Settings, R: seq<Piece>, more: seq<string>, tail: string) returns (Q: seq<Piece>)
    requires Spells(R, ["]"] + more, tail)
    ensures Spells(Q, more, tail)
    ensures var u := SkipSpaces(Text(R) + tail); Peek(u) == ']' && ReadToken(u).rest == Text(Q) + tail
  {
    hide Spells, ReadToken, ReadPastComments, FirstToken, SkipSpaces, Peek, Text, TypeOf;
    assert (["]"] + more)[1..] == more;
    Q := NextFirst(f, R, ["]"] + more, tail);
    TokenStart(Text(R) + tail);
  }

  lemma InsideFull(f: Settings, R: seq<Piece>, inside: seq<string>, tail: string) returns (D: seq<Piece>)
    requires Spells(R, inside, tail) && inside != [] && inside[0] != "" && inside[0][0] != ']'
    ensures Spells(D, inside, tail)
    ensures var u := SkipSpaces(Text(R) + tail); Peek(u) != ']' && u == Text(D) + tail
  {
    hide Spells, ReadToken, ReadPastComments, FirstToken, SkipSpaces, Peek, Text, TypeOf;
    var Q := NextFirst(f, R, inside, tail);
    TokenStart(Text(R) + tail);
    D := Skipped(R, inside, tail);
  }

  lemma NormalArray(entries: seq<Entry>, c: Counting)
    ensures Normal(Array(entries), c) == Array(NormalElements(entries, Shown(entries, c), c))
  {
    hide Shown, NormalElements;
  }

  lemma {:induction false} ReadArrayOf(f: Settings, entries: seq<Entry>, st: Style, P: seq<Piece>, more: seq<string>,
                                       tail: string, old_: Value) returns (Q: seq<Piece>)
    requires PlainEntries(entries, true) && !st.dropNulls && Spells(P, ValueTokens(Array(entries), st) + more, tail)
    ensures Spells(Q, more, tail)
    ensures ReadValue(f, Text(P) + tail, old_) == Outcome(true, Normal(Array(entries), st.count), [], Text(Q) + tail)
    decreases 1 + SizeOf(entries), 1, 0
  {
    var n := Shown(entries, st.count);
    NormalArray(entries, st.count);
    hide Spells, ReadElements, ReadToken, ReadPastComments, FirstToken, SkipSpaces, Peek, PlainEntries, ReadValue,
         Plain, Lookup;
    hide ValueTokens, Normal, Text, Shown, SizeOf;
    var inside := ElementTokens(entries, 0, n, st) + ["]"] + more;
    OpenBracket(entries, n, st, more);
    assert (["["] + inside)[1..] == inside;
    assert TypeOf("[") == ArrayBegin;
    var R := NextFirst(f, P, ["["] + inside, tail);
    ReadBracket(f, Text(P) + tail, Text(R) + tail, old_);
    if n == 0 {
      assert inside == ["]"] + more;
      Q := InsideEmpty(f, R, more, tail);
    } else {
      hide ElementTokens, TypeOf;
      Q := ReadFullArrayOf(f, entries, n, st, R, more, tail);
    }
  }

  lemma {:induction false} ReadFullArrayOf(f: Settings, entries: seq<Entry>, n: nat, st: Style, R: seq<Piece>,
                                           more: seq<string>,
                                           tail: string) returns (Q: seq<Piece>)
    requires PlainEntries(entries, true) && entries != [] && n > 0 && !st.dropNulls
    requires Spells(R, ElementTokens(entries, 0, n, st) + ["]"] + more, tail)
    ensures Spells(Q, more, tail)
    ensures var u := SkipSpaces(Text(R) + tail);
            && Peek(u) != ']'
            && ReadElements(f, u, [], 0) ==
               Outcome(true, Array(NormalElements(entries, n, st.count)), [], Text(Q) + tail)
    decreases 1 + SizeOf(entries), 0, 2 * n + 1
  {
    assert NormalElements(entries, 0, st.count) == [];
    FirstElement(entries, n, st, more);
    hide Spells, ReadElements, SkipSpaces, Peek, PlainEntries, Plain, Lookup, ValueTokens, Text, ElementTokens, TypeOf,
         NormalElements;
    PlainLookup(entries, Index(0));
    ValueStarts(Lookup(entries, Index(0)), st);
    var D := InsideFull(f, R, ElementTokens(entries, 0, n, st) + ["]"] + more, tail);
    Q := ReadElementsOf(f, entries, 0, n, st, D, more, tail);
  }

  lemma OpenBracket(entries: seq<Entry>, n: nat, st: Style, more: seq<string>)
    requires n == Shown(entries, st.count)
    ensures ValueTokens(Array(entries), st) + more == ["["] + (ElementTokens(entries, 0, n, st) + ["]"] + more)
  {
    var e := ElementTokens(entries, 0, n, st);
    assert ValueTokens(Array(entries), st) == ["["] + e + ["]"];
    hide ValueTokens, ElementTokens;
    assert ["["] + e + ["]"] + more == ["["] + (e + ["]"] + more);
  }

  lemma FirstElement(entries: seq<Entry>, n: nat, st: Style, more: seq<string>)
    requires entries != [] && 0 < n
    ensures ElementTokens(entries, 0, n, st) + ["]"] + more ==
            ValueTokens(Lookup(entries, Index(0)), st) + (ElementTokens(entries, 1, n, st) + ["]"] + more)
  {
    var a, b := ValueTokens(Lookup(entries, Index(0)), st), ElementTokens(entries, 1, n, st);
    assert ElementTokens(entries, 0, n, st) == [] + a + b;
    hide ElementTokens, ValueTokens;
    assert [] + a + b + ["]"] + more == a + (b + ["]"] + more);
  }

  // ----- Objects -----

  lemma MemberNameOf(f: Settings, P: seq<Piece>, k: string, tokens: seq<string>, tail: string, entries: seq<Entry>,
                     name: string)
    returns (Q: seq<Piece>)
    requires '\0' !in k && Spells(P, [Quoted(k), ":"] + tokens, tail)
    ensures Spells(Q, tokens, tail) && MemberName(Text(P) + tail, entries, name) == More(k, Text(Q) + tail)
  {
    hide Spells, ReadPastComments, ReadToken, Unescape, Quoted, UpToZero;
    var all := [Quoted(k), ":"] + tokens;
    assert all[0] == Quoted(k) && all[1..] == [":"] + tokens && ([":"] + tokens)[1..] == tokens;
    var R := NextFirst(f, P, all, tail);
    ReadQuoted(k, Null, "");
    Q := NextFirst(f, R, [":"] + tokens, tail);
    assert TypeOf(":") == MemberSeparator;
  }

  /** After a member: a comma and the rest, or the closing brace. */
  lemma MemberEndOf(f: Settings, P: seq<Piece>, tokens: seq<string>, tail: string, entries: seq<Entry>)
    returns (Q: seq<Piece>)
    requires Spells(P, tokens, tail) && tokens != [] && (tokens[0] == "," || tokens[0] == "}")
    ensures Spells(Q, tokens[1..], tail)
    ensures MemberEnd(Text(P) + tail, entries) ==
            if tokens[0] == "," then More("", Text(Q) + tail)
            else Stop(Outcome(true, Object(entries), [], Text(Q) + tail))
  {
    hide Spells, ReadPastComments, ReadToken;
    Q := NextFirst(f, P, tokens, tail);
  }

  lemma NextMember(entries: seq<Entry>, i: nat, st: Style, more: seq<string>)
    requires i < |entries|
    ensures MemberTokens(entries, i, st) + ["}"] + more ==
            (if i > 0 then [","] else []) + (FromMember(entries, i, st) + ["}"] + more)
    ensures FromMember(entries, i, st) + ["}"] + more ==
            [Quoted(NameOf(entries[i].key)), ":"] +
            (ValueTokens(entries[i].value, st) + (MemberTokens(entries, i + 1, st) + ["}"] + more))
  {
    var comma: seq<string> := if i > 0 then [","] else [];
    var name, a, b := [Quoted(NameOf(entries[i].key)), ":"], ValueTokens(entries[i].value, st),
                      MemberTokens(entries, i + 1, st);
    assert MemberTokens(entries, i, st) == comma + name + a + b && FromMember(entries, i, st) == name + a + b;
    hide MemberTokens, ValueTokens, Quoted, FromMember;
    Flat(comma, name, a, b, ["}"], more);
    Flat([], name, a, b, ["}"], more);
    assert [] + name == name;
  }

  lemma Flat(a: seq<string>, b: seq<string>, c: seq<string>, d: seq<string>, e: seq<string>, f: seq<string>)
    ensures a + b + c + d + e + f == a + (b + (c + (d + e + f)))
  {
    assert a + b + c + d + e + f == a + b + c + (d + e + f);
    assert a + b + c + (d + e + f) == a + (b + (c + (d + e + f)));
  }

  /** The members come in order, so each is appended. */
  lemma StoreMember(entries: seq<Entry>, i: nat, v: Value, c: Counting)
    requires Sorted(entries) && i < |entries|
    ensures var acc := NormalMembers(entries, i, c); var key := entries[i].key;
            Lookup(acc, key) == Null && Store(acc, key, v) == acc + [Entry(key, v)]
  {
    SameKeys(entries, i, c);
    hide KeyLess, NormalMembers;
    StoreLast(NormalMembers(entries, i, c), entries[i].key, v);
  }

  lemma {:induction false} SameKeys(entries: seq<Entry>, n: nat, c: Counting)
    requires n <= |entries|
    ensures forall k :: 0 <= k < n ==> NormalMembers(entries, n, c)[k].key == entries[k].key
  {
    if n > 0 {
      SameKeys(entries, n - 1, c);
    }
  }

  lemma {:induction false} ReadMembersOf(f: Settings, entries: seq<Entry>, i: nat, st: Style, P: seq<Piece>,
                                         more: seq<string>,
                                         tail: string, name: string) returns (Q: seq<Piece>)
    requires Sorted(entries) && PlainEntries(entries, false) && i < |entries| && !st.dropNulls
    requires Spells(P, FromMember(entries, i, st) + ["}"] + more, tail)
    ensures Spells(Q, more, tail)
    ensures ReadMembers(f, Text(P) + tail, NormalMembers(entries, i, st.count), name) ==
            Outcome(true, Object(NormalMembers(entries, |entries|, st.count)), [], Text(Q) + tail)
    decreases 1 + SizeOf(entries), 0, 2 * (|entries| - i)
  {
    hide Spells, MemberName, MemberEnd, ReadValue, Normal, Store, Lookup, UpToZero, Text;
    var e, acc := entries[i], NormalMembers(entries, i, st.count);
    PlainAt(entries, false, i);
    var k, behind := e.key.s, MemberTokens(entries, i + 1, st) + ["}"] + more;
    SizeOfOne(entries, i);
    StoreMember(entries, i, Normal(e.value, st.count), st.count);
    hide PlainEntries, Plain, Sorted;
    NextMember(entries, i, st, more);
    var R := MemberNameOf(f, P, k, ValueTokens(e.value, st) + behind, tail, acc, name);
    var S := ReadValueOf(f, e.value, st, R, behind, tail, Null);
    assert NormalMembers(entries, i + 1, st.count) == acc + [Entry(e.key, Normal(e.value, st.count))];
    hide NormalMembers, MemberTokens, ValueTokens, FromMember;
    Q := ReadRestOfMembers(f, entries, i, st, S, more, tail, k);
  }

  lemma {:induction false} ReadRestOfMembers(f: Settings, entries: seq<Entry>, i: nat, st: Style, P: seq<Piece>,
                                             more: seq<string>,
                                             tail: string, name: string) returns (Q: seq<Piece>)
    requires Sorted(entries) && PlainEntries(entries, false) && i < |entries| && !st.dropNulls
    requires Spells(P, MemberTokens(entries, i + 1, st) + ["}"] + more, tail)
    ensures Spells(Q, more, tail)
    ensures var acc := NormalMembers(entries, i + 1, st.count);
            Outcome(true, Object(NormalMembers(entries, |entries|, st.count)), [], Text(Q) + tail) ==
            match MemberEnd(Text(P) + tail, acc)
            case Stop(r) => r
            case More(_, last) => ReadMembers(f, last, acc, name)
    decreases 1 + SizeOf(entries), 0, 2 * (|entries| - i) - 1
  {
    hide Spells, MemberEnd, ReadMembers, Sorted, PlainEntries, Text;
    var behind, acc := MemberTokens(entries, i + 1, st) + ["}"] + more, NormalMembers(entries, i + 1, st.count);
    if i + 1 == |entries| {
      assert behind == ["}"] + more && behind[1..] == more;
      Q := MemberEndOf(f, P, behind, tail, acc);
    } else {
      NextMember(entries, i + 1, st, more);
      hide MemberTokens, FromMember;
      assert behind[1..] == FromMember(entries, i + 1, st) + ["}"] + more;
      var R := MemberEndOf(f, P, behind, tail, acc);
      Q := ReadMembersOf(f, entries, i + 1, st, R, more, tail, name);
    }
  }

  /** readValue after an opening brace. */
  lemma ReadBrace(f: Settings, s: string, rest: string, old_: Value)
    requires FirstToken(f, s) == Token(ObjectBegin, "{", rest)
    ensures ReadValue(f, s, old_) == ReadMembers(f, rest, [], "")
  {
    hide FirstToken, ReadMembers;
  }

  lemma EmptyObject(f: Settings, P: seq<Piece>, more: seq<string>, tail: string) returns (Q: seq<Piece>)
    requires Spells(P, ["}"] + more, tail)
    ensures Spells(Q, more, tail) &&
            ReadMembers(f, Text(P) + tail, [], "") == Outcome(true, Object([]), [], Text(Q) + tail)
  {
    hide Spells, ReadPastComments, ReadToken;
    assert (["}"] + more)[1..] == more;
    Q := NextFirst(f, P, ["}"] + more, tail);
    assert TypeOf("}") == ObjectEnd;
  }

  lemma {:induction false} ReadObjectOf(f: Settings, entries: seq<Entry>, st: Style, P: seq<Piece>, more: seq<string>,
                                        tail: string, old_: Value) returns (Q: seq<Piece>)
    requires Sorted(entries) && PlainEntries(entries, false) && !st.dropNulls
    requires Spells(P, ValueTokens(Object(entries), st) + more, tail)
    ensures Spells(Q, more, tail)
    ensures ReadValue(f, Text(P) + tail, old_) == Outcome(true, Normal(Object(entries), st.count), [], Text(Q) + tail)
    decreases 1 + SizeOf(entries), 1, 0
  {
    hide Spells, ReadMembers, ReadToken, ReadPastComments, FirstToken, PlainEntries, ReadValue, Sorted, Text;
    var inside := MemberTokens(entries, 0, st) + ["}"] + more;
    OpenBrace(entries, st, more);
    assert (["{"] + inside)[1..] == inside && TypeOf("{") == ObjectBegin;
    var R := NextFirst(f, P, ["{"] + inside, tail);
    ReadBrace(f, Text(P) + tail, Text(R) + tail, old_);
    if entries == [] {
      assert inside == ["}"] + more;
      Q := EmptyObject(f, R, more, tail);
    } else {
      NextMember(entries, 0, st, more);
      hide MemberTokens, ValueTokens;
      assert [] + (FromMember(entries, 0, st) + ["}"] + more) == FromMember(entries, 0, st) + ["}"] + more;
      Q := ReadMembersOf(f, entries, 0, st, R, more, tail, "");
    }
  }

  lemma OpenBrace(entries: seq<Entry>, st: Style, more: seq<string>)
    ensures ValueTokens(Object(entries), st) + more == ["{"] + (MemberTokens(entries, 0, st) + ["}"] + more)
  {
    var e := MemberTokens(entries, 0, st);
    assert ValueTokens(Object(entries), st) == ["{"] + e + ["}"];
    hide ValueTokens, MemberTokens;
    assert ["{"] + e + ["}"] + more == ["{"] + (e + ["}"] + more);
  }

  // ----- The whole text -----

  lemma ScalarGood(v: Value, st: Style)
    requires Plain(v) && !v.Array? && !v.Object? && !st.dropNulls
    ensures forall t :: t in ValueTokens(v, st) ==> GoodToken(t)
  {
    var f := Settings(true, false, s => None);
    var t := ScalarRead(f, v, st, "", Null);
    hide GoodToken;
  }

  lemma {:induction false} ValueGood(v: Value, st: Style)
    requires Plain(v) && !st.dropNulls
    ensures forall t :: t in ValueTokens(v, st) ==> GoodToken(t)
    decreases Size(v), 1, 0
  {
    assert IsPunctuation("[") && IsPunctuation("]") && IsPunctuation("{") && IsPunctuation("}");
    if v.Array? {
      ElementsGood(v.entries, 0, Shown(v.entries, st.count), st);
    } else if v.Object? {
      MembersGood(v.entries, 0, st);
    } else {
      ScalarGood(v, st);
    }
    hide GoodToken, ElementTokens, MemberTokens;
    assert GoodToken("[") && GoodToken("]") && GoodToken("{") && GoodToken("}") by { Punctuation(); }
  }

  lemma Punctuation()
    ensures GoodToken("[") && GoodToken("]") && GoodToken("{") && GoodToken("}") && GoodToken(",") && GoodToken(":")
  {
  }

  lemma {:induction false} ElementsGood(entries: seq<Entry>, i: nat, n: nat, st: Style)
    requires PlainEntries(entries, true) && i <= n && (n > 0 ==> entries != []) && !st.dropNulls
    ensures forall t :: t in ElementTokens(entries, i, n, st) ==> GoodToken(t)
    decreases 1 + SizeOf(entries), 0, n - i
  {
    hide GoodToken;
    if i < n {
      PlainLookup(entries, Index(i));
      ValueGood(Lookup(entries, Index(i)), st);
      ElementsGood(entries, i + 1, n, st);
      Punctuation();
      hide ValueTokens, Plain, PlainEntries;
    }
  }

  lemma {:induction false} MembersGood(entries: seq<Entry>, i: nat, st: Style)
    requires PlainEntries(entries, false) && i <= |entries| && !st.dropNulls
    ensures forall t :: t in MemberTokens(entries, i, st) ==> GoodToken(t)
    decreases 1 + SizeOf(entries), 0, |entries| - i
  {
    hide GoodToken;
    if i < |entries| {
      SizeOfOne(entries, i);
      PlainAt(entries, false, i);
      ReadQuoted(entries[i].key.s, Null, "");
      ValueGood(entries[i].value, st);
      MembersGood(entries, i + 1, st);
      Punctuation();
      hide ValueTokens, Plain, PlainEntries, Quoted;
    }
  }

  lemma {:induction false} OnlyGaps(Q: seq<Piece>)
    requires Tokens(Q) == [] && GapsAreSpace(Q)
    ensures AllSpace(Text(Q))
    decreases |Q|
  {
    if Q != [] {
      OnlyGaps(Q[1..]);
      assert AllSpace(Q[0].s);
    }
  }

  lemma ReadNothing(f: Settings, s: string)
    requires AllSpace(s)
    ensures FirstToken(f, s).rest == ""
  {
    SkipGap(s, "");
    assert s + "" == s;
  }

  /** Whatever white space is put between the tokens of a value and behind them, the text is read back as that
      value in its normal form; only a strict reader refuses a scalar as the root, and says so. */
  lemma AnyLayoutIsRead(f: Settings, v: Value, st: Style, P: seq<Piece>, tail: string, root: Value)
    requires Plain(v) && !st.dropNulls && Tokens(P) == ValueTokens(v, st) && GapsAreSpace(P) && AllSpace(tail)
    ensures Parse(f, Text(P) + tail, root) ==
            if f.strictRoot && !v.Array? && !v.Object? then Fail(Normal(v, st.count), [BadRoot], "")
            else Outcome(true, Normal(v, st.count), [], "")
  {
    hide Parse, ReadValue, Normal, ValueTokens, Text, Plain, Spells;
    SpellsValue(v, st, P, tail);
    var Q := ReadValueOf(f, v, st, P, [], tail, root);
    OnlySpaceLeft(Q, tail);
    EndOfParse(f, Text(P) + tail, root, v, st.count, Text(Q) + tail);
  }

  lemma SpellsValue(v: Value, st: Style, P: seq<Piece>, tail: string)
    requires Plain(v) && !st.dropNulls && Tokens(P) == ValueTokens(v, st) && GapsAreSpace(P) && AllSpace(tail)
    ensures Spells(P, ValueTokens(v, st) + [], tail)
  {
    hide GoodToken, Separated, ValueTokens, Plain, GapsAreSpace;
    ValueSeparated(v, st);
    ValueGood(v, st);
    assert ValueTokens(v, st) + [] == ValueTokens(v, st);
  }

  lemma OnlySpaceLeft(Q: seq<Piece>, tail: string)
    requires Spells(Q, [], tail) && AllSpace(tail)
    ensures AllSpace(Text(Q) + tail)
  {
    OnlyGaps(Q);
    hide Spells, Text;
  }

  /** What parse does after the value has been read. */
  lemma EndOfParse(f: Settings, s: string, root: Value, v: Value, c: Counting, rest: string)
    requires ReadValue(f, s, root) == Outcome(true, Normal(v, c), [], rest) && AllSpace(rest)
    ensures Parse(f, s, root) ==
            if f.strictRoot && !v.Array? && !v.Object? then Fail(Normal(v, c), [BadRoot], "")
            else Outcome(true, Normal(v, c), [], "")
  {
    hide ReadValue, FirstToken, NormalElements, NormalMembers;
    ReadNothing(f, rest);
    assert (Normal(v, c).Array? <==> v.Array?) && (Normal(v, c).Object? <==> v.Object?);
    hide Normal;
  }
}
