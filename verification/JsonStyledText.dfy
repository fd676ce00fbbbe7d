/** The document that Json::StyledWriter of lib/json/jsoncpp.cpp writes, as a function of the value, and that it
    is a layout of the tokens of the value. */
module JsonStyledText {
  import opened JsonValue
  import opened JsonString
  import opened JsonNumber
  import opened JsonText
  import opened JsonSizes

  const RIGHT_MARGIN: int := 74
  const INDENT_SIZE: nat := 3

  /** Conversion to a 32-bit int, which is also what int arithmetic that overflows is taken to do. */
  function ToInt(n: int): int {
    var u := n % 0x1_0000_0000;
    if u <= MAX_INT then u else u - 0x1_0000_0000
  }

  lemma ToIntAdds(a: int, b: int)
    ensures ToInt(ToInt(a) + ToInt(b)) == ToInt(a + b)
  {
  }

  /** The first test of isMultineArray. */
  predicate Wide(entries: seq<Entry>) {
    ToInt(IntSize(entries) * 3) >= RIGHT_MARGIN
  }

  /** No array that is reached makes the writer reserve a negative number of child values. */
  ghost predicate Survives(v: Value)
    decreases Size(v), 0
  {
    match v
    case Array(entries) =>
      ArraySize(entries) == 0 || ((ArraySize(entries) <= MAX_INT || Wide(entries)) && SurvivesAll(entries))
    case Object(entries) => SurvivesAll(entries)
    case _ => true
  }

  ghost predicate SurvivesAll(entries: seq<Entry>)
    decreases SizeOf(entries), 1
  {
    forall i :: 0 <= i < |entries| ==> (SizeOfOne(entries, i); Survives(entries[i].value))
  }

  /** Value::size() is not zero. */
  predicate HasChildren(v: Value) {
    (v.Array? && ArraySize(v.entries) > 0) || (v.Object? && v.entries != [])
  }

  lemma ChildlessSurvives(v: Value)
    requires !HasChildren(v)
    ensures Survives(v)
  {
  }

  /** A new line, unless the document ends in a space or has just begun one, and the indentation. */
  function Indented(document: string, indent: string): string {
    if document == "" then indent
    else if document[|document| - 1] == ' ' then document
    else if document[|document| - 1] == '\n' then document + indent
    else document + "\n" + indent
  }

  function Joined(values: seq<string>, n: nat): string
    requires n <= |values|
  {
    if n == 0 then "" else Joined(values, n - 1) + (if n > 1 then ", " else "") + values[n - 1]
  }

  lemma JoinedNone(before: string, values: seq<string>)
    ensures before + Joined(values, 0) == before
  {
  }

  lemma JoinedNext(before: string, values: seq<string>, i: nat)
    requires i < |values|
    ensures before + Joined(values, i + 1) == before + Joined(values, i) + (if i > 0 then ", " else "") + values[i]
  {
  }

  function TotalLength(values: seq<string>): nat {
    if values == [] then 0 else TotalLength(values[..|values| - 1]) + |values[|values| - 1]|
  }

  lemma NoLength()
    ensures TotalLength([]) == 0
  {
  }

  lemma LineGrows(fixed: int, before: seq<string>, values: seq<string>)
    requires |values| == |before| + 1 && values[..|before|] == before
    ensures ToInt(ToInt(fixed + TotalLength(before)) + ToInt(|values[|before|]|)) == ToInt(fixed + TotalLength(values))
  {
    assert TotalLength(values) == TotalLength(before) + |values[|before|]|;
    hide TotalLength;
    ToIntAdds(fixed + TotalLength(before), |values[|before|]|);
  }

  /** The length of a line with these values, commas and brackets, as an int. */
  function LineLength(values: seq<string>): int {
    ToInt(4 + (|values| - 1) * 2 + TotalLength(values))
  }

  /** Some element below n has children. */
  ghost predicate Nested(entries: seq<Entry>, n: int) {
    exists i :: 0 <= i < n && HasChildren(Lookup(entries, Index(i)))
  }

  ghost predicate ElementsSurvive(entries: seq<Entry>) {
    forall i :: 0 <= i < ArraySize(entries) ==> Survives(Lookup(entries, Index(i)))
  }

  lemma ArraySurvives(entries: seq<Entry>)
    requires Held(Array(entries)) && ArraySize(entries) > 0
    ensures HeldEntries(entries, true)
    ensures Survives(Array(entries)) <==> (ArraySize(entries) <= MAX_INT || Wide(entries)) && ElementsSurvive(entries)
  {
    ExtentBound(entries);
    assert ArraySize(entries) == Extent(entries);
    assert Survives(Null);
    ElementsAreEntries(entries, v => Survives(v));
    assert SurvivesAll(entries) <==> forall i :: 0 <= i < |entries| ==> Survives(entries[i].value);
    hide Wide;
  }

  // ----- The document -----

  /** A value without children, on a line of its own or among others. */
  function ChildText(v: Value, st: Style): string {
    match v
    case Null => "null"
    case Int(i) => IntNumeral(i)
    case UInt(u) => IntNumeral(u)
    case Real(r) => st.print_(r)
    case Str(s) => if s.None? then "" else Quoted(s.value)
    case Bool(b) => if b then "true" else "false"
    case Array(_) => "[]"
    case Object(_) => "{}"
  }

  function Texts(entries: seq<Entry>, n: nat, st: Style): (texts: seq<string>)
    ensures |texts| == n && forall i :: 0 <= i < n ==> texts[i] == ChildText(Lookup(entries, Index(i)), st)
  {
    seq(n, i requires 0 <= i < n => ChildText(Lookup(entries, Index(i)), st))
  }

  /** An array goes on many lines if it has many elements, if one of them has children, or if a line with all of
      them would be too long. */
  ghost predicate ManyLines(entries: seq<Entry>, st: Style) {
    || Wide(entries)
    || Nested(entries, IntSize(entries))
    || LineLength(Texts(entries, ArraySize(entries), st)) >= RIGHT_MARGIN
  }

  /** The document once v has been written behind doc, with that indentation. */
  ghost function Styled(v: Value, st: Style, doc: string, indent: string): string
    decreases Size(v), 1, 0
  {
    match v
    case Array(entries) =>
      var n := ArraySize(entries);
      if n == 0 then doc + "[]"
      else if !ManyLines(entries, st) then doc + "[ " + Joined(Texts(entries, n, st), n) + " ]"
      else Indented(StyledElements(entries, n, st, Indented(doc, indent) + "[", indent + "   "), indent) + "]"
    case Object(entries) =>
      if entries == [] then doc + "{}"
      else
        Indented(StyledMembers(entries, |entries|, st, Indented(doc, indent) + "{", indent + "   "), indent) + "}"
    case _ => doc + ChildText(v, st)
  }

  /** The document once the first n elements have been written, each on a line of its own. */
  ghost function StyledElements(entries: seq<Entry>, n: nat, st: Style, doc: string, indent: string): string
    requires n > 0 ==> entries != []
    decreases 1 + SizeOf(entries), 0, n
  {
    if n == 0 then doc
    else
      var before := StyledElements(entries, n - 1, st, doc, indent) + CommaText(n - 1);
      Styled(Lookup(entries, Index(n - 1)), st, Indented(before, indent), indent)
  }

  /** The document once the first n members have been written, each on a line of its own. */
  ghost function StyledMembers(entries: seq<Entry>, n: nat, st: Style, doc: string, indent: string): string
    requires n <= |entries|
    decreases 1 + SizeOf(entries), 0, n
  {
    if n == 0 then doc
    else
      SizeOfOne(entries, n - 1);
      var before := StyledMembers(entries, n - 1, st, doc, indent) + CommaText(n - 1);
      var name := Quoted(NameOf(entries[n - 1].key));
      Styled(entries[n - 1].value, st, Indented(before, indent) + name + " : ", indent)
  }

  /** Between two of them. */
  function CommaText(i: nat): string {
    if i > 0 then "," else ""
  }

  /** With the comma for the next one. */
  ghost function ElementsSoFar(entries: seq<Entry>, n: nat, st: Style, doc: string, indent: string): string
    requires n > 0 ==> entries != []
  {
    StyledElements(entries, n, st, doc, indent) + CommaText(n)
  }

  ghost function MembersSoFar(entries: seq<Entry>, n: nat, st: Style, doc: string, indent: string): string
    requires n <= |entries|
  {
    StyledMembers(entries, n, st, doc, indent) + CommaText(n)
  }

  lemma ElementsSoFarIs(entries: seq<Entry>, n: nat, st: Style, doc: string, indent: string)
    requires n > 0 ==> entries != []
    ensures ElementsSoFar(entries, n, st, doc, indent) == StyledElements(entries, n, st, doc, indent) + CommaText(n)
  {
    hide StyledElements, CommaText;
  }

  lemma MembersSoFarIs(entries: seq<Entry>, n: nat, st: Style, doc: string, indent: string)
    requires n <= |entries|
    ensures MembersSoFar(entries, n, st, doc, indent) == StyledMembers(entries, n, st, doc, indent) + CommaText(n)
  {
    hide StyledMembers, CommaText;
  }

  lemma NoneYet(entries: seq<Entry>, st: Style, start: string, indent: string)
    ensures ElementsSoFar(entries, 0, st, start, indent) == start
  {
  }

  lemma OneMore(entries: seq<Entry>, i: nat, st: Style, start: string, indent: string)
    requires entries != []
    ensures StyledElements(entries, i + 1, st, start, indent) ==
            Styled(Lookup(entries, Index(i)), st, Indented(ElementsSoFar(entries, i, st, start, indent), indent),
                   indent)
    ensures ElementsSoFar(entries, i + 1, st, start, indent) == StyledElements(entries, i + 1, st, start, indent) + ","
  {
    hide Styled, Indented, Lookup;
  }

  lemma ObjectIsStyled(entries: seq<Entry>, st: Style, doc: string, indent: string)
    requires entries != []
    ensures var inside := StyledMembers(entries, |entries|, st, Indented(doc, indent) + "{", indent + "   ");
            Styled(Object(entries), st, doc, indent) == Indented(inside, indent) + "}"
  {
    hide StyledMembers, Indented;
  }

  lemma NoMemberYet(entries: seq<Entry>, st: Style, start: string, indent: string)
    ensures MembersSoFar(entries, 0, st, start, indent) == start
  {
  }

  lemma AllSurvive(entries: seq<Entry>)
    ensures SurvivesAll(entries) <==> forall i :: 0 <= i < |entries| ==> Survives(entries[i].value)
  {
    hide Survives;
  }

  lemma OneMoreMember(entries: seq<Entry>, i: nat, st: Style, start: string, indent: string)
    requires i < |entries|
    ensures var before := Indented(MembersSoFar(entries, i, st, start, indent), indent);
            StyledMembers(entries, i + 1, st, start, indent) ==
            Styled(entries[i].value, st, before + Quoted(NameOf(entries[i].key)) + " : ", indent)
    ensures MembersSoFar(entries, i + 1, st, start, indent) == StyledMembers(entries, i + 1, st, start, indent) + ","
  {
    hide Styled, Indented, Quoted;
  }

  lemma ChildlessIsStyled(v: Value, st: Style, doc: string, indent: string)
    requires !HasChildren(v)
    ensures Styled(v, st, doc, indent) == doc + ChildText(v, st)
  {
  }

  lemma NewLine(doc: string, indent: string)
    requires doc != "" && doc[|doc| - 1] != ' ' && doc[|doc| - 1] != '\n'
    ensures Indented(doc, indent) == doc + "\n" + indent
  {
  }

  /** Every element of an array on many lines, and every member of an object, begins a new line with the inner
      indentation. */
  lemma ElementsBeginLines(entries: seq<Entry>, i: nat, st: Style, doc: string, indent: string)
    requires i > 0 ==> entries != []
    ensures var before := ElementsSoFar(entries, i, st, doc + "[", indent);
            Indented(before, indent) == before + "\n" + indent
  {
    hide Indented, StyledElements;
    if i == 0 {
      NoneYet(entries, st, doc + "[", indent);
    } else {
      OneMore(entries, i - 1, st, doc + "[", indent);
    }
    NewLine(ElementsSoFar(entries, i, st, doc + "[", indent), indent);
  }

  lemma MembersBeginLines(entries: seq<Entry>, i: nat, st: Style, doc: string, indent: string)
    requires i <= |entries|
    ensures var before := MembersSoFar(entries, i, st, doc + "{", indent);
            Indented(before, indent) == before + "\n" + indent
  {
    hide Indented, StyledMembers;
    if i == 0 {
      NoMemberYet(entries, st, doc + "{", indent);
    } else {
      OneMoreMember(entries, i - 1, st, doc + "{", indent);
    }
    NewLine(MembersSoFar(entries, i, st, doc + "{", indent), indent);
  }

  /** What is compared with the margin is the length of the line that would be written. */
  lemma LineLengthMeans(values: seq<string>)
    requires values != []
    ensures LineLength(values) == ToInt(|"[ " + Joined(values, |values|) + " ]"|)
  {
    assert values[..|values|] == values;
    JoinedLength(values, |values|);
    hide Joined, TotalLength;
  }

  lemma {:induction false} JoinedLength(values: seq<string>, n: nat)
    requires n <= |values|
    ensures |Joined(values, n)| == (if n > 0 then (n - 1) * 2 else 0) + TotalLength(values[..n])
    decreases n
  {
    if n > 0 {
      JoinedLength(values, n - 1);
      assert values[..n][..n - 1] == values[..n - 1];
    }
  }

  // ----- It is a layout of the tokens -----

  lemma GapOf(s: string)
    ensures Text([Gap(s)]) == s && Tokens([Gap(s)]) == []
  {
    assert [Gap(s)][1..] == [] && s + "" == s;
  }

  lemma TokOf(s: string)
    ensures Text([Tok(s)]) == s && Tokens([Tok(s)]) == [s] && GapsAreSpace([Tok(s)])
  {
    assert [Tok(s)][1..] == [] && s + "" == s;
  }

  lemma PairOf(a: string, b: string)
    ensures Text([Tok(a), Tok(b)]) == a + b && Tokens([Tok(a), Tok(b)]) == [a, b] && GapsAreSpace([Tok(a), Tok(b)])
  {
    TokOf(b);
    assert [Tok(a), Tok(b)][1..] == [Tok(b)];
  }

  lemma TokGap(s: string)
    ensures Text([Tok(s), Gap(" ")]) == s + " " && Tokens([Tok(s), Gap(" ")]) == [s] && GapsAreSpace([Tok(s), Gap(" ")])
  {
    GapOf(" ");
    assert [Tok(s), Gap(" ")][1..] == [Gap(" ")];
  }

  lemma GapTok(s: string)
    ensures Text([Gap(" "), Tok(s)]) == " " + s && Tokens([Gap(" "), Tok(s)]) == [s] && GapsAreSpace([Gap(" "), Tok(s)])
  {
    TokOf(s);
    assert [Gap(" "), Tok(s)][1..] == [Tok(s)];
  }

  lemma Associate(a: seq<string>, b: seq<string>, c: seq<string>, d: seq<string>)
    ensures a + (b + c + d) == a + b + c + d
  {
  }

  lemma Regroup3(a: seq<string>, b: seq<string>, c: seq<string>)
    ensures a + (b + c) == a + b + c
  {
  }

  function Comma(i: nat): seq<string> {
    if i > 0 then [","] else []
  }

  lemma CommaPieces(i: nat)
    ensures var p := if i > 0 then [Tok(","), Gap(" ")] else [];
            Text(p) == (if i > 0 then ", " else "") && Tokens(p) == Comma(i) && GapsAreSpace(p)
  {
    TokGap(",");
  }

  lemma ElementOf(entries: seq<Entry>, i: nat, n: nat, st: Style, before: seq<string>)
    requires i < n && entries != []
    ensures before + ElementTokens(entries, i, n, st) ==
            before + Comma(i) + ValueTokens(Lookup(entries, Index(i)), st) + ElementTokens(entries, i + 1, n, st)
  {
    Associate(before, Comma(i), ValueTokens(Lookup(entries, Index(i)), st), ElementTokens(entries, i + 1, n, st));
  }

  lemma ColonOf()
    ensures var p := [Gap(" "), Tok(":"), Gap(" ")]; Text(p) == " : " && Tokens(p) == [":"] && GapsAreSpace(p)
  {
    var p := [Gap(" "), Tok(":"), Gap(" ")];
    TokGap(":");
    assert p[1..] == [Tok(":"), Gap(" ")];
  }

  /** The text goes on from doc with these pieces. */
  ghost predicate Extends(text: string, doc: string, p: seq<Piece>, tokens: seq<string>) {
    text == doc + Text(p) && Tokens(p) == tokens && GapsAreSpace(p)
  }

  lemma ExtendsMore(a: string, doc: string, p: seq<Piece>, tokens: seq<string>, b: string, q: seq<Piece>,
                    more: seq<string>)
    requires Extends(a, doc, p, tokens) && Extends(b, a, q, more)
    ensures Extends(b, doc, p + q, tokens + more)
  {
    TextConcat(p, q);
    TokensConcat(p, q);
    hide Text, Tokens;
    assert doc + (Text(p) + Text(q)) == doc + Text(p) + Text(q);
  }

  lemma IndentedExtends(doc: string, indent: string) returns (p: seq<Piece>)
    requires AllSpace(indent)
    ensures Extends(Indented(doc, indent), doc, p, [])
  {
    if doc == "" || doc[|doc| - 1] == '\n' {
      p := [Gap(indent)];
      GapOf(indent);
    } else if doc[|doc| - 1] == ' ' {
      p := [];
      assert doc + "" == doc;
    } else {
      p := [Gap("\n" + indent)];
      GapOf("\n" + indent);
      assert doc + ("\n" + indent) == doc + "\n" + indent;
    }
  }

  lemma TokenExtends(doc: string, t: string) returns (p: seq<Piece>)
    ensures Extends(doc + t, doc, p, [t])
  {
    p := [Tok(t)];
    TokOf(t);
  }

  /** A token on a line of its own. */
  lemma LineExtends(doc: string, indent: string, t: string) returns (p: seq<Piece>)
    requires AllSpace(indent)
    ensures Extends(Indented(doc, indent) + t, doc, p, [t])
  {
    var a := IndentedExtends(doc, indent);
    var b := TokenExtends(Indented(doc, indent), t);
    ExtendsMore(Indented(doc, indent), doc, a, [], Indented(doc, indent) + t, b, [t]);
    assert [] + [t] == [t];
    p := a + b;
  }

  lemma ChildExtends(v: Value, st: Style, doc: string) returns (p: seq<Piece>)
    requires !HasChildren(v) && !st.dropNulls && st.count == AsUnsigned
    ensures Extends(doc + ChildText(v, st), doc, p, ValueTokens(v, st))
  {
    if v.Array? || v.Object? {
      var a, b := if v.Array? then "[" else "{", if v.Array? then "]" else "}";
      p := [Tok(a), Tok(b)];
      PairOf(a, b);
      assert [a] + [] + [b] == [a, b];
    } else if v.Str? && v.s.None? {
      p := [];
    } else {
      p := TokenExtends(doc, ChildText(v, st));
    }
  }

  /** The elements of a line with commas between them. */
  lemma {:induction false} JoinedExtends(entries: seq<Entry>, i: nat, n: nat, st: Style, doc: string)
    returns (p: seq<Piece>)
    requires i <= n == ArraySize(entries) && entries != [] && !st.dropNulls && st.count == AsUnsigned
    requires forall k :: 0 <= k < n ==> !HasChildren(Lookup(entries, Index(k)))
    ensures var text := doc + Joined(Texts(entries, n, st), i);
            && text == doc + Text(p) && GapsAreSpace(p)
            && Tokens(p) + ElementTokens(entries, i, n, st) == ElementTokens(entries, 0, n, st)
    decreases i
  {
    var texts := Texts(entries, n, st);
    if i == 0 {
      p := [];
    } else {
      var q := JoinedExtends(entries, i - 1, n, st, doc);
      var a, v := doc + Joined(texts, i - 1), Lookup(entries, Index(i - 1));
      var comma := if i > 1 then [Tok(","), Gap(" ")] else [];
      CommaPieces(i - 1);
      var b := a + if i > 1 then ", " else "";
      var r := ChildExtends(v, st, b);
      ElementOf(entries, i - 1, n, st, Tokens(q));
      JoinedNext(doc, texts, i - 1);
      hide ElementTokens, ValueTokens, Joined, Texts, ChildText, HasChildren;
      assert Extends(a, doc, q, Tokens(q)) && Extends(b, a, comma, Comma(i - 1));
      ExtendsMore(a, doc, q, Tokens(q), b, comma, Comma(i - 1));
      ExtendsMore(b, doc, q + comma, Tokens(q) + Comma(i - 1), b + ChildText(v, st), r, ValueTokens(v, st));
      p := q + comma + r;
    }
  }

  lemma OneLineExtends(entries: seq<Entry>, st: Style, doc: string) returns (p: seq<Piece>)
    requires ArraySize(entries) > 0 && entries != [] && !st.dropNulls && st.count == AsUnsigned
    requires forall k :: 0 <= k < ArraySize(entries) ==> !HasChildren(Lookup(entries, Index(k)))
    ensures var n := ArraySize(entries);
            Extends(doc + "[ " + Joined(Texts(entries, n, st), n) + " ]", doc, p, ValueTokens(Array(entries), st))
  {
    var n := ArraySize(entries);
    var t1, inner := doc + "[ ", ElementTokens(entries, 0, n, st);
    var t2 := t1 + Joined(Texts(entries, n, st), n);
    var q := JoinedExtends(entries, n, n, st, t1);
    assert ElementTokens(entries, n, n, st) == [] && Tokens(q) + [] == Tokens(q);
    ArrayTokens(entries, st);
    var a := OpenLine(doc);
    var b := CloseLine(t2);
    hide *;
    IsExtends(t2, t1, q);
    ExtendsMore(t1, doc, a, ["["], t2, q, inner);
    ExtendsMore(t2, doc, a + q, ["["] + inner, t2 + " ]", b, ["]"]);
    p := a + q + b;
  }

  lemma OpenLine(doc: string) returns (p: seq<Piece>)
    ensures Extends(doc + "[ ", doc, p, ["["])
  {
    p := [Tok("["), Gap(" ")];
    TokGap("[");
  }

  lemma CloseLine(doc: string) returns (p: seq<Piece>)
    ensures Extends(doc + " ]", doc, p, ["]"])
  {
    p := [Gap(" "), Tok("]")];
    GapTok("]");
  }

  /** Every value that is written survives its measurement, so a line has no nested values. */
  lemma OneLineIsFlat(entries: seq<Entry>, st: Style)
    requires ArraySize(entries) > 0 && !ManyLines(entries, st) && ArraySize(entries) <= MAX_INT
    ensures forall k :: 0 <= k < ArraySize(entries) ==> !HasChildren(Lookup(entries, Index(k)))
  {
    hide Wide, LineLength;
  }

  /** What the writer writes is a layout of the tokens of the value. */
  lemma {:induction false} StyledExtends(v: Value, st: Style, doc: string, indent: string) returns (p: seq<Piece>)
    requires Held(v) && Survives(v) && !st.dropNulls && st.count == AsUnsigned && AllSpace(indent)
    ensures Extends(Styled(v, st, doc, indent), doc, p, ValueTokens(v, st))
    decreases Size(v), 1, 0
  {
    if !HasChildren(v) {
      ChildlessIsStyled(v, st, doc, indent);
      p := ChildExtends(v, st, doc);
    } else if v.Array? {
      ArraySurvives(v.entries);
      if ManyLines(v.entries, st) {
        p := ManyLinesExtend(v.entries, st, doc, indent);
      } else {
        OneLineIsFlat(v.entries, st);
        p := OneLineExtends(v.entries, st, doc);
      }
    } else {
      p := ObjectExtends(v.entries, st, doc, indent);
    }
  }

  lemma {:induction false} ManyLinesExtend(entries: seq<Entry>, st: Style, doc: string, indent: string)
    returns (p: seq<Piece>)
    requires ArraySize(entries) > 0 && entries != [] && HeldEntries(entries, true) && ElementsSurvive(entries)
    requires !st.dropNulls && st.count == AsUnsigned && AllSpace(indent)
    ensures var inside := StyledElements(entries, ArraySize(entries), st, Indented(doc, indent) + "[", indent + "   ");
            Extends(Indented(inside, indent) + "]", doc, p, ValueTokens(Array(entries), st))
    decreases 1 + SizeOf(entries), 0, ArraySize(entries) + 1
  {
    var n := ArraySize(entries);
    var start := Indented(doc, indent) + "[";
    var inside := StyledElements(entries, n, st, start, indent + "   ");
    var inner := ElementTokens(entries, 0, n, st);
    var a := LineExtends(doc, indent, "[");
    var q := ElementsExtend(entries, n, n, st, start, indent + "   ");
    var b := LineExtends(inside, indent, "]");
    assert ElementTokens(entries, n, n, st) == [] && Tokens(q) + [] == Tokens(q);
    ArrayTokens(entries, st);
    hide ElementTokens, ValueTokens, StyledElements, Tokens, Text, Indented, GapsAreSpace;
    assert Extends(inside, start, q, inner);
    ExtendsMore(start, doc, a, ["["], inside, q, inner);
    ExtendsMore(inside, doc, a + q, ["["] + inner, Indented(inside, indent) + "]", b, ["]"]);
    p := a + q + b;
  }

  /** The pieces spell the first i elements. */
  ghost predicate SpellsElements(entries: seq<Entry>, i: nat, n: nat, st: Style, doc: string, text: string,
                                 p: seq<Piece>)
    requires i <= n && (n > 0 ==> entries != [])
  {
    && text == doc + Text(p) && GapsAreSpace(p)
    && Tokens(p) + ElementTokens(entries, i, n, st) == ElementTokens(entries, 0, n, st)
  }

  lemma SpellsNoElements(entries: seq<Entry>, n: nat, st: Style, doc: string, indent: string)
    requires n > 0 ==> entries != []
    ensures SpellsElements(entries, 0, n, st, doc, StyledElements(entries, 0, st, doc, indent), [])
  {
    assert StyledElements(entries, 0, st, doc, indent) == doc;
    hide ElementTokens, StyledElements;
  }

  lemma SpellsNextElement(entries: seq<Entry>, i: nat, n: nat, st: Style, doc: string, before: string, q: seq<Piece>,
                          next: string, r: seq<Piece>)
    requires i < n && entries != [] && SpellsElements(entries, i, n, st, doc, before, q)
    requires Extends(next, before, r, Comma(i) + ValueTokens(Lookup(entries, Index(i)), st))
    ensures SpellsElements(entries, i + 1, n, st, doc, next, q + r)
  {
    ElementOf(entries, i, n, st, Tokens(q));
    hide ElementTokens, ValueTokens, Comma, Tokens, Text, GapsAreSpace;
    IsExtends(before, doc, q);
    ExtendsMore(before, doc, q, Tokens(q), next, r, Comma(i) + ValueTokens(Lookup(entries, Index(i)), st));
    Regroup3(Tokens(q), Comma(i), ValueTokens(Lookup(entries, Index(i)), st));
  }

  lemma {:induction false} ElementsExtend(entries: seq<Entry>, i: nat, n: nat, st: Style, doc: string, indent: string)
    returns (p: seq<Piece>)
    requires i <= n == ArraySize(entries) && entries != [] && HeldEntries(entries, true) && ElementsSurvive(entries)
    requires !st.dropNulls && st.count == AsUnsigned && AllSpace(indent)
    ensures SpellsElements(entries, i, n, st, doc, StyledElements(entries, i, st, doc, indent), p)
    decreases 1 + SizeOf(entries), 0, i
  {
    hide *;
    if i == 0 {
      p := [];
      SpellsNoElements(entries, n, st, doc, indent);
    } else {
      OneMore(entries, i - 1, st, doc, indent);
      ElementsSoFarIs(entries, i - 1, st, doc, indent);
      var before := StyledElements(entries, i - 1, st, doc, indent);
      var q := ElementsExtend(entries, i - 1, n, st, doc, indent);
      var r := ElementExtends(entries, i - 1, st, before, indent);
      SpellsNextElement(entries, i - 1, n, st, doc, before, q, StyledElements(entries, i, st, doc, indent), r);
      p := q + r;
    }
  }

  lemma {:induction false} ElementExtends(entries: seq<Entry>, i: nat, st: Style, before: string, indent: string)
    returns (p: seq<Piece>)
    requires i < ArraySize(entries) && entries != [] && HeldEntries(entries, true) && ElementsSurvive(entries)
    requires !st.dropNulls && st.count == AsUnsigned && AllSpace(indent)
    ensures var v := Lookup(entries, Index(i));
            Extends(Styled(v, st, Indented(before + CommaText(i), indent), indent), before, p,
                    Comma(i) + ValueTokens(v, st))
    decreases 1 + SizeOf(entries), 0, i
  {
    var v, behind := Lookup(entries, Index(i)), before + CommaText(i);
    HeldLookup(entries, Index(i));
    var c := CommaExtends(before, i);
    var g := IndentedExtends(behind, indent);
    var start := Indented(behind, indent);
    var r := StyledExtends(v, st, start, indent);
    hide ValueTokens, Styled, Indented, Extends, Comma, CommaText, Lookup;
    ExtendsMore(behind, before, c, Comma(i), start, g, []);
    assert Comma(i) + [] == Comma(i);
    ExtendsMore(start, before, c + g, Comma(i), Styled(v, st, start, indent), r, ValueTokens(v, st));
    p := c + g + r;
  }

  lemma CommaExtends(doc: string, i: nat) returns (p: seq<Piece>)
    ensures Extends(doc + CommaText(i), doc, p, Comma(i))
  {
    if i > 0 {
      p := TokenExtends(doc, ",");
    } else {
      p := [];
    }
  }

  lemma {:induction false} ObjectExtends(entries: seq<Entry>, st: Style, doc: string, indent: string)
    returns (p: seq<Piece>)
    requires entries != [] && HeldEntries(entries, false) && SurvivesAll(entries)
    requires !st.dropNulls && st.count == AsUnsigned && AllSpace(indent)
    ensures Extends(Styled(Object(entries), st, doc, indent), doc, p, ValueTokens(Object(entries), st))
    decreases 1 + SizeOf(entries), 0, |entries| + 1
  {
    var n := |entries|;
    var start := Indented(doc, indent) + "{";
    var inside := StyledMembers(entries, n, st, start, indent + "   ");
    var inner := MemberTokens(entries, 0, st);
    var a := LineExtends(doc, indent, "{");
    var q := MembersExtend(entries, n, st, start, indent + "   ");
    var b := LineExtends(inside, indent, "}");
    assert MemberTokens(entries, n, st) == [] && Tokens(q) + [] == Tokens(q);
    ObjectTokens(entries, st);
    assert Styled(Object(entries), st, doc, indent) == Indented(inside, indent) + "}";
    hide MemberTokens, ValueTokens, StyledMembers, Styled, Tokens, Text, Indented, GapsAreSpace;
    assert Extends(inside, start, q, inner);
    ExtendsMore(start, doc, a, ["{"], inside, q, inner);
    ExtendsMore(inside, doc, a + q, ["{"] + inner, Indented(inside, indent) + "}", b, ["}"]);
    p := a + q + b;
  }

  /** The pieces spell the first i members. */
  ghost predicate SpellsMembers(entries: seq<Entry>, i: nat, st: Style, doc: string, text: string, p: seq<Piece>)
    requires i <= |entries|
  {
    text == doc + Text(p) && GapsAreSpace(p) && Tokens(p) + MemberTokens(entries, i, st) == MemberTokens(entries, 0, st)
  }

  lemma SpellsNoMembers(entries: seq<Entry>, st: Style, doc: string, indent: string)
    ensures SpellsMembers(entries, 0, st, doc, StyledMembers(entries, 0, st, doc, indent), [])
  {
    assert StyledMembers(entries, 0, st, doc, indent) == doc;
    hide MemberTokens, StyledMembers;
  }

  lemma SpellsNextMember(entries: seq<Entry>, i: nat, st: Style, doc: string, before: string, q: seq<Piece>,
                         next: string,
                         r: seq<Piece>)
    requires i < |entries| && SpellsMembers(entries, i, st, doc, before, q)
    requires Extends(next, before, r, OneMember(entries, i, st))
    ensures SpellsMembers(entries, i + 1, st, doc, next, q + r)
  {
    MemberOf(entries, i, st, Tokens(q));
    hide MemberTokens, OneMember, Tokens, Text, GapsAreSpace;
    IsExtends(before, doc, q);
    ExtendsMore(before, doc, q, Tokens(q), next, r, OneMember(entries, i, st));
  }

  lemma {:induction false} MembersExtend(entries: seq<Entry>, i: nat, st: Style, doc: string, indent: string)
    returns (p: seq<Piece>)
    requires i <= |entries| && HeldEntries(entries, false) && SurvivesAll(entries)
    requires !st.dropNulls && st.count == AsUnsigned && AllSpace(indent)
    ensures SpellsMembers(entries, i, st, doc, StyledMembers(entries, i, st, doc, indent), p)
    decreases 1 + SizeOf(entries), 0, i
  {
    hide *;
    if i == 0 {
      p := [];
      SpellsNoMembers(entries, st, doc, indent);
    } else {
      OneMoreMember(entries, i - 1, st, doc, indent);
      MembersSoFarIs(entries, i - 1, st, doc, indent);
      var before := StyledMembers(entries, i - 1, st, doc, indent);
      var q := MembersExtend(entries, i - 1, st, doc, indent);
      var r := MemberExtends(entries, i - 1, st, before, indent);
      SpellsNextMember(entries, i - 1, st, doc, before, q, StyledMembers(entries, i, st, doc, indent), r);
      p := q + r;
    }
  }

  /** A member with the comma before it. */
  function OneMember(entries: seq<Entry>, i: nat, st: Style): seq<string>
    requires i < |entries|
  {
    Comma(i) + [Quoted(NameOf(entries[i].key)), ":"] + ValueTokens(entries[i].value, st)
  }

  lemma {:induction false} MemberExtends(entries: seq<Entry>, i: nat, st: Style, before: string, indent: string)
    returns (p: seq<Piece>)
    requires i < |entries| && HeldEntries(entries, false) && SurvivesAll(entries)
    requires !st.dropNulls && st.count == AsUnsigned && AllSpace(indent)
    ensures var start := Indented(before + CommaText(i), indent) + Quoted(NameOf(entries[i].key)) + " : ";
            Extends(Styled(entries[i].value, st, start, indent), before, p, OneMember(entries, i, st))
    decreases 1 + SizeOf(entries), 0, i
  {
    SizeOfOne(entries, i);
    var e := entries[i];
    assert HeldEntry(e, false) && Survives(e.value);
    var name := Quoted(NameOf(e.key));
    var start := Indented(before + CommaText(i), indent) + name + " : ";
    var m := StartExtends(before, i, indent, name);
    var r := StyledExtends(e.value, st, start, indent);
    hide ValueTokens, Styled, Indented, Extends, Quoted, Comma;
    ExtendsMore(start, before, m, Comma(i) + [name, ":"], Styled(e.value, st, start, indent), r,
                ValueTokens(e.value, st));
    p := m + r;
  }

  lemma IsExtends(text: string, doc: string, p: seq<Piece>)
    requires text == doc + Text(p) && GapsAreSpace(p)
    ensures Extends(text, doc, p, Tokens(p))
  {
  }

  /** What stands before the value of a member. */
  lemma StartExtends(doc: string, i: nat, indent: string, name: string) returns (p: seq<Piece>)
    requires AllSpace(indent)
    ensures Extends(Indented(doc + CommaText(i), indent) + name + " : ", doc, p, Comma(i) + [name, ":"])
  {
    var behind := doc + CommaText(i);
    var start := Indented(behind, indent);
    var c := CommaExtends(doc, i);
    var g := IndentedExtends(behind, indent);
    var m := NameExtends(start, name);
    hide *;
    ExtendsMore(behind, doc, c, Comma(i), start, g, []);
    assert Comma(i) + [] == Comma(i);
    ExtendsMore(start, doc, c + g, Comma(i), start + name + " : ", m, [name, ":"]);
    p := c + g + m;
  }

  lemma NameExtends(doc: string, name: string) returns (p: seq<Piece>)
    ensures Extends(doc + name + " : ", doc, p, [name, ":"])
  {
    var q := TokenExtends(doc, name);
    var colon := [Gap(" "), Tok(":"), Gap(" ")];
    ColonOf();
    assert Extends(doc + name + " : ", doc + name, colon, [":"]);
    ExtendsMore(doc + name, doc, q, [name], doc + name + " : ", colon, [":"]);
    assert [name] + [":"] == [name, ":"];
    p := q + colon;
  }

  lemma MemberOf(entries: seq<Entry>, i: nat, st: Style, before: seq<string>)
    requires i < |entries|
    ensures before + MemberTokens(entries, i, st) ==
            before + OneMember(entries, i, st) + MemberTokens(entries, i + 1, st)
  {
    assert MemberTokens(entries, i, st) == OneMember(entries, i, st) + MemberTokens(entries, i + 1, st);
    hide MemberTokens, OneMember;
    Regroup3(before, OneMember(entries, i, st), MemberTokens(entries, i + 1, st));
  }
}
