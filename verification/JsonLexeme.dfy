/** The words of the language that the JSON reader of lib/json/jsoncpp.cpp accepts, described by their texts:
    white space, comments and tokens. */
module JsonLexeme {
  import opened JsonNumber
  import opened JsonToken

  // ----- Between tokens -----

  datatype Filler = White(c: char) | Block(body: string) | Line(body: string, end: char)

  /** White space and comments before a token. */
  type Gap = seq<Filler>

  predicate IsNewline(c: char) {
    c == '\r' || c == '\n'
  }

  predicate FillerOk(x: Filler) {
    match x
    case White(c) => IsSpace(c)
    case Block(body) => forall i :: 0 <= i < |body| - 1 ==> !(body[i] == '*' && body[i + 1] == '/')
    case Line(body, end) => (forall i :: 0 <= i < |body| ==> !IsNewline(body[i])) && IsNewline(end)
  }

  predicate GapOk(gap: Gap, comments: bool) {
    forall i :: 0 <= i < |gap| ==> FillerOk(gap[i]) && (comments || gap[i].White?)
  }

  predicate HasComment(gap: Gap) {
    exists i :: 0 <= i < |gap| && !gap[i].White?
  }

  /** The filler, followed by s. */
  function FillerFront(x: Filler, s: string): string {
    match x
    case White(c) => [c] + s
    case Block(body) => "/*" + (body + ("*/" + s))
    case Line(body, end) => "//" + (body + ([end] + s))
  }

  /** The gap, followed by s. */
  function Fill(gap: Gap, s: string): string {
    if gap == [] then s else FillerFront(gap[0], Fill(gap[1..], s))
  }

  /** White space by its codes, and the characters of numbers. */
  lemma CharacterClasses(c: char)
    ensures IsSpace(c) <==> c as int == 9 || c as int == 10 || c as int == 13 || c as int == 32
    ensures NumChar(c) <==> c in "0123456789.eE+-"
    ensures StartsNumber(c) <==> c in "0123456789-"
  {
  }

  // ----- Tokens -----

  /** Behind an opening quote: plain characters, escapes of two characters each, and a quote. */
  predicate Closes(t: string)
    decreases |t|
  {
    t != "" &&
    if t[0] == '"' then |t| == 1
    else if t[0] == '\\' then |t| >= 2 && Closes(t[2..])
    else Closes(t[1..])
  }

  /** A character that no token starts with. */
  predicate Stray(c: char) {
    !IsSpace(c) && !StartsNumber(c) && c !in "{}[]\"/tfn,:\0"
  }

  predicate Malformed(text: string, behind: string) {
    || (|text| == 1 && Stray(text[0]))
    || (text == "t" && !("rue" <= behind)) || (text == "f" && !("alse" <= behind)) ||
       (text == "n" && !("ull" <= behind))
    || (|text| == 2 && text[0] == '/' && text[1] != '*' && text[1] != '/')
  }

  /** The text is a token of that type when `behind` follows it. */
  predicate Lexeme(type_: Type, text: string, behind: string) {
    match type_
    case ObjectBegin => text == "{"
    case ObjectEnd => text == "}"
    case ArrayBegin => text == "["
    case ArrayEnd => text == "]"
    case ArraySeparator => text == ","
    case MemberSeparator => text == ":"
    case True => text == "true"
    case False => text == "false"
    case NullToken => text == "null"
    case StringToken => |text| >= 2 && text[0] == '"' && Closes(text[1..])
    case Number => IsNumberToken(text) && (behind == "" || !NumChar(behind[0]))
    case EndOfStream => text == "\0"
    case Error => Malformed(text, behind)
    case Comment => false
  }

  lemma {:induction false} ClosesIsScanned(t: string, behind: string)
    requires Closes(t)
    ensures ScanString(t + behind) == Scan(true, behind)
    decreases |t|
  {
    var s := t + behind;
    if t[0] == '"' {
      assert s[1..] == behind;
    } else if t[0] == '\\' {
      assert s[1..][1..] == t[2..] + behind;
      ClosesIsScanned(t[2..], behind);
    } else {
      assert s[1..] == t[1..] + behind;
      ClosesIsScanned(t[1..], behind);
    }
  }

  lemma {:induction false} ScannedCloses(s: string)
    requires ScanString(s).ok
    ensures Closes(s[..|s| - |ScanString(s).rest|])
    decreases |s|
  {
    var t := s[..|s| - |ScanString(s).rest|];
    if s[0] != '"' {
      var k := if s[0] == '\\' then 2 else 1;
      if s[0] == '\\' {
        assert |s| > 1 && s[1..][1..] == s[2..];
      }
      ScannedCloses(s[k..]);
      assert t[k..] == s[k..][..|s[k..]| - |ScanString(s).rest|];
    }
  }

  lemma {:induction false} NumberIsScanned(t: string, behind: string)
    requires forall i :: 0 <= i < |t| ==> NumChar(t[i])
    requires behind == "" || !NumChar(behind[0])
    ensures ScanNumber(t + behind) == behind
    decreases |t|
  {
    if t == "" {
      assert t + behind == behind;
    } else {
      assert (t + behind)[1..] == t[1..] + behind;
      NumberIsScanned(t[1..], behind);
    }
  }

  /** readToken delivers a lexeme as such. */
  lemma LexemeIsRead(type_: Type, text: string, behind: string)
    requires Lexeme(type_, text, behind)
    ensures ReadToken(text + behind) == Token(type_, text, behind)
  {
    var s := text + behind;
    assert text != "" && s[0] == text[0] && s[1..] == text[1..] + behind && s[..|text|] == text;
    LexemeStarts(type_, text, behind);
    assert SkipSpaces(s) == s;
    LexemeIsClassified(type_, text, behind);
    hide Lexeme, Classify, SkipSpaces;
  }

  lemma LexemeStarts(type_: Type, text: string, behind: string)
    requires Lexeme(type_, text, behind)
    ensures text != "" && !IsSpace(text[0])
  {
  }

  lemma LexemeIsClassified(type_: Type, text: string, behind: string)
    requires Lexeme(type_, text, behind)
    ensures Classify(text + behind) == (type_, behind)
  {
    var s := text + behind;
    LexemeStarts(type_, text, behind);
    assert s[0] == text[0] && s[1..] == text[1..] + behind;
    match type_ {
      case StringToken => ClosesIsScanned(text[1..], behind);
      case Number => NumberIsScanned(text[1..], behind);
      case True => WordIsScanned("rue", behind);
      case False => WordIsScanned("alse", behind);
      case NullToken => WordIsScanned("ull", behind);
      case Error => MalformedIsClassified(text, behind);
      case Comment =>
      case _ => assert text[1..] + behind == behind;
    }
    hide ScanString, ScanNumber, ScanWord, ScanComment;
  }

  lemma WordIsScanned(word: string, behind: string)
    ensures ScanWord(word + behind, word) == Scan(true, behind)
  {
    assert (word + behind)[|word|..] == behind;
  }

  lemma MalformedIsClassified(text: string, behind: string)
    requires Malformed(text, behind)
    ensures Classify(text + behind) == (Error, behind)
  {
    var s := text + behind;
    assert s[0] == text[0] && s[1..] == text[1..] + behind;
    if |text| == 2 {
      assert s[1] == text[1] && s[2..] == behind;
    } else {
      assert s[1..] == behind;
    }
  }

  /** Any other text that starts a token is one of the lexemes, unless it is a comment or something is
      missing at the end of the document. */
  lemma ClassifiedIsLexeme(s: string)
    requires s != "" && !IsSpace(s[0])
    ensures var (type_, rest) := Classify(s);
            type_ == Comment || (type_ == Error && rest == "") || Lexeme(type_, s[..|s| - |rest|], rest)
  {
    var (type_, rest) := Classify(s);
    var text := s[..|s| - |rest|];
    if s[0] == '"' {
      if ScanString(s[1..]).ok {
        ScannedCloses(s[1..]);
        assert text[1..] == s[1..][..|s[1..]| - |rest|];
      } else {
        UnclosedTakesAll(s[1..]);
      }
    } else if s[0] == '/' {
      SlashIsMalformed(s);
    } else if s[0] == 't' || s[0] == 'f' || s[0] == 'n' {
      WordIsLexeme(s);
    } else if StartsNumber(s[0]) {
      assert rest == ScanNumber(s[1..]);
    } else {
      assert rest == s[1..] && text == [s[0]];
    }
  }

  lemma {:induction false} UnclosedTakesAll(s: string)
    requires !ScanString(s).ok
    ensures ScanString(s).rest == ""
    decreases |s|
  {
    if s != "" {
      UnclosedTakesAll(if s[0] == '\\' then Next(s[1..]) else s[1..]);
    }
  }

  lemma {:induction false} UnclosedBlockTakesAll(s: string)
    requires !ScanCStyle(s).ok
    ensures ScanCStyle(s).rest == ""
    decreases |s|
  {
    if s != "" {
      UnclosedBlockTakesAll(s[1..]);
    }
  }

  lemma SlashIsMalformed(s: string)
    requires s != "" && s[0] == '/'
    ensures var (type_, rest) := Classify(s);
            type_ == Comment || (type_ == Error && rest == "") || (type_ == Error && Malformed(s[..|s| - |rest|], rest))
  {
    var t := s[1..];
    if Peek(t) == '*' {
      if !ScanCStyle(t[1..]).ok {
        UnclosedBlockTakesAll(t[1..]);
      }
    } else if Peek(t) != '/' && t != "" {
      assert t[1..] == s[2..] && s[..2] == [s[0], s[1]];
    }
  }

  lemma WordIsLexeme(s: string)
    requires s != "" && (s[0] == 't' || s[0] == 'f' || s[0] == 'n')
    ensures var (type_, rest) := Classify(s); Lexeme(type_, s[..|s| - |rest|], rest)
  {
    var word := if s[0] == 't' then "rue" else if s[0] == 'f' then "alse" else "ull";
    var (type_, rest) := Classify(s);
    if word <= s[1..] {
      assert s[..1 + |word|] == [s[0]] + word;
    } else {
      assert s[..1] == [s[0]];
    }
  }

  /** r is the end of s. */
  predicate Ends(s: string, r: string) {
    |r| <= |s| && s[|s| - |r|..] == r
  }

  lemma EndsWithEnd(s: string, k: nat, r: string)
    requires k <= |s| && (r == s[k..] || Ends(s[k..], r))
    ensures Ends(s, r)
  {
    assert s[|s| - |r|..] == s[k..][|s[k..]| - |r|..];
  }

  lemma {:induction false} ScanStringEnds(s: string)
    ensures Ends(s, ScanString(s).rest)
    decreases |s|
  {
    hide Ends;
    var r := ScanString(s).rest;
    if s == "" || s[0] == '"' {
      EndsWithEnd(s, if s == "" then 0 else 1, r);
    } else if s[0] == '\\' && |s| > 1 {
      assert s[1..][1..] == s[2..];
      ScanStringEnds(s[2..]);
      EndsWithEnd(s, 2, r);
    } else {
      ScanStringEnds(s[1..]);
      EndsWithEnd(s, 1, r);
    }
  }

  lemma {:induction false} ScanNumberEnds(s: string)
    ensures Ends(s, ScanNumber(s))
    decreases |s|
  {
    hide Ends;
    if s == "" || !NumChar(s[0]) {
      EndsWithEnd(s, 0, s);
    } else {
      ScanNumberEnds(s[1..]);
      EndsWithEnd(s, 1, ScanNumber(s));
    }
  }

  lemma {:induction false} ScanCStyleEnds(s: string)
    ensures Ends(s, ScanCStyle(s).rest)
    decreases |s|
  {
    hide Ends;
    if s == "" {
      EndsWithEnd(s, 0, s);
    } else if s[0] == '*' && Peek(s[1..]) == '/' {
      EndsWithEnd(s, 2, s[2..]);
    } else {
      ScanCStyleEnds(s[1..]);
      EndsWithEnd(s, 1, ScanCStyle(s).rest);
    }
  }

  lemma {:induction false} ScanLineEnds(s: string)
    ensures Ends(s, ScanLine(s))
    decreases |s|
  {
    hide Ends;
    if s == "" || IsNewline(s[0]) {
      EndsWithEnd(s, if s == "" then 0 else 1, ScanLine(s));
    } else {
      ScanLineEnds(s[1..]);
      EndsWithEnd(s, 1, ScanLine(s));
    }
  }

  lemma ScanCommentEnds(s: string)
    ensures Ends(s, ScanComment(s).rest)
  {
    hide Ends, ScanCStyle, ScanLine;
    if s == "" {
      EndsWithEnd(s, 0, s);
    } else {
      ScanCStyleEnds(s[1..]);
      ScanLineEnds(s[1..]);
      EndsWithEnd(s, 1, ScanComment(s).rest);
    }
  }

  lemma ClassifyRest(s: string)
    requires s != ""
    ensures var t := s[1..];
            Classify(s).1 ==
            if s[0] == '"' then ScanString(t).rest
            else if s[0] == '/' then ScanComment(t).rest
            else if s[0] == 't' then ScanWord(t, "rue").rest
            else if s[0] == 'f' then ScanWord(t, "alse").rest
            else if s[0] == 'n' then ScanWord(t, "ull").rest
            else if StartsNumber(s[0]) then ScanNumber(t)
            else t
  {
    hide ScanString, ScanComment, ScanNumber, ScanWord;
  }

  lemma ClassifyEnds(s: string)
    requires s != ""
    ensures Ends(s, Classify(s).1)
  {
    ClassifyRest(s);
    hide ScanString, ScanComment, ScanNumber, ScanWord, Ends, Classify;
    var t, rest := s[1..], Classify(s).1;
    if s[0] == '"' {
      ScanStringEnds(t);
    } else if s[0] == '/' {
      ScanCommentEnds(t);
    } else if s[0] == 't' {
      ScanWordEnds(t, "rue");
    } else if s[0] == 'f' {
      ScanWordEnds(t, "alse");
    } else if s[0] == 'n' {
      ScanWordEnds(t, "ull");
    } else if StartsNumber(s[0]) {
      ScanNumberEnds(t);
    }
    EndsWithEnd(s, 1, rest);
  }

  lemma ScanWordEnds(s: string, word: string)
    ensures Ends(s, ScanWord(s, word).rest)
  {
    EndsWithEnd(s, if word <= s then |word| else 0, ScanWord(s, word).rest);
  }

  // ----- Gaps are skipped -----

  lemma {:induction false} BlockIsScanned(body: string, s: string)
    requires FillerOk(Block(body))
    ensures ScanCStyle(body + ("*/" + s)) == Scan(true, s)
    decreases |body|
  {
    var t := body + ("*/" + s);
    if body == "" {
      assert t == "*/" + s && t[1] == '/' && t[2..] == s;
    } else {
      assert t[1..] == body[1..] + ("*/" + s);
      assert t[0] == '*' ==> t[1] != '/';
      BlockIsScanned(body[1..], s);
    }
  }

  lemma {:induction false} LineIsScanned(body: string, end: char, s: string)
    requires FillerOk(Line(body, end))
    ensures ScanLine(body + ([end] + s)) == s
    decreases |body|
  {
    var t := body + ([end] + s);
    if body == "" {
      assert t == [end] + s && t[1..] == s;
    } else {
      assert t[1..] == body[1..] + ([end] + s);
      LineIsScanned(body[1..], end, s);
    }
  }

  lemma FillerIsRead(x: Filler, s: string)
    requires FillerOk(x)
    ensures x.White? ==> ReadToken(FillerFront(x, s)) == ReadToken(s) && SkipSpaces(FillerFront(x, s)) == SkipSpaces(s)
    ensures !x.White? ==> ReadToken(FillerFront(x, s)).type_ == Comment && ReadToken(FillerFront(x, s)).rest == s
  {
    var t := FillerFront(x, s);
    match x {
      case White(c) => assert t[1..] == s;
      case Block(body) =>
        BlockIsScanned(body, s);
        assert t[0] == '/' && t[1..][1..] == body + ("*/" + s);
        hide ScanCStyle;
      case Line(body, end) =>
        LineIsScanned(body, end, s);
        assert t[0] == '/' && t[1..][1..] == body + ([end] + s);
        hide ScanLine;
    }
  }

  lemma {:induction false} GapIsSkipped(gap: Gap, s: string)
    requires GapOk(gap, true)
    ensures ReadPastComments(Fill(gap, s)) == ReadPastComments(s)
    decreases |gap|
  {
    if gap != [] {
      FillerIsRead(gap[0], Fill(gap[1..], s));
      GapIsSkipped(gap[1..], s);
      hide ReadToken, FillerFront;
    }
  }

  lemma {:induction false} WhiteIsSkipped(gap: Gap, s: string)
    requires GapOk(gap, false)
    ensures ReadToken(Fill(gap, s)) == ReadToken(s) && SkipSpaces(Fill(gap, s)) == SkipSpaces(s)
    decreases |gap|
  {
    if gap != [] {
      FillerIsRead(gap[0], Fill(gap[1..], s));
      WhiteIsSkipped(gap[1..], s);
      hide ReadToken, FillerFront, SkipSpaces;
    }
  }

  // ----- What was skipped is a gap -----

  lemma {:induction false} ScannedIsBlock(s: string) returns (body: string)
    requires ScanCStyle(s).ok
    ensures s == body + ("*/" + ScanCStyle(s).rest) && FillerOk(Block(body))
    decreases |s|
  {
    if s[0] == '*' && Peek(s[1..]) == '/' {
      body := "";
      assert s == "*/" + s[2..];
    } else {
      var inner := ScannedIsBlock(s[1..]);
      body := [s[0]] + inner;
      assert s == body + ("*/" + ScanCStyle(s).rest);
      assert inner != "" ==> s[1] == inner[0];
    }
  }

  lemma {:induction false} ScannedIsLine(s: string) returns (body: string, end: char)
    requires ScanLine(s) != ""
    ensures s == body + ([end] + ScanLine(s)) && FillerOk(Line(body, end))
    decreases |s|
  {
    if IsNewline(s[0]) {
      body, end := "", s[0];
    } else {
      var inner;
      inner, end := ScannedIsLine(s[1..]);
      body := [s[0]] + inner;
    }
  }

  /** White space in front of a token. */
  lemma {:induction false} SpacesAreGap(s: string) returns (gap: Gap)
    ensures s == Fill(gap, SkipSpaces(s)) && GapOk(gap, false)
    decreases |s|
  {
    if s == "" || !IsSpace(s[0]) {
      gap := [];
    } else {
      var more := SpacesAreGap(s[1..]);
      gap := [White(s[0])] + more;
      assert gap[1..] == more && s == [s[0]] + s[1..];
    }
  }

  lemma {:induction false} FillConcat(a: Gap, b: Gap, s: string)
    ensures Fill(a + b, s) == Fill(a, Fill(b, s))
    decreases |a|
  {
    if a == [] {
      assert a + b == b;
    } else {
      assert (a + b)[1..] == a[1..] + b;
      FillConcat(a[1..], b, s);
    }
  }

  lemma CommentIsFiller(s: string) returns (x: Filler)
    requires s != "" && Classify(s).0 == Comment && Classify(s).1 != ""
    ensures s == FillerFront(x, Classify(s).1) && FillerOk(x) && !x.White?
  {
    var t := s[1..];
    assert s[0] == '/' && t != "" && s == [s[0], t[0]] + t[1..];
    if t[0] == '*' {
      var body := ScannedIsBlock(t[1..]);
      x := Block(body);
    } else {
      var body, end := ScannedIsLine(t[1..]);
      x := Line(body, end);
    }
  }

  /** A token that was read stands behind white space. */
  lemma TokenIsLexeme(s: string) returns (gap: Gap)
    requires var t := ReadToken(s); t.text != "" && t.type_ != Comment && (t.type_ != Error || t.rest != "")
    ensures var t := ReadToken(s);
            s == Fill(gap, t.text + t.rest) && GapOk(gap, false) && Lexeme(t.type_, t.text, t.rest)
  {
    var t, start := ReadToken(s), SkipSpaces(s);
    gap := SpacesAreGap(s);
    ClassifiedIsLexeme(start);
    ClassifyEnds(start);
    assert start == t.text + t.rest;
    hide Classify, Lexeme, Fill, SkipSpaces;
  }

  /** One that was read past comments stands behind a gap. */
  lemma {:induction false} PastCommentsIsLexeme(s: string) returns (gap: Gap)
    requires var t := ReadPastComments(s); t.text != "" && (t.type_ != Error || t.rest != "")
    ensures var t := ReadPastComments(s);
            s == Fill(gap, t.text + t.rest) && GapOk(gap, true) && Lexeme(t.type_, t.text, t.rest)
    ensures HasComment(gap) <==> ReadToken(s).type_ == Comment
    decreases |s|
  {
    var t := ReadToken(s);
    if t.type_ != Comment {
      gap := TokenIsLexeme(s);
    } else {
      NothingBehindNothing(t.rest);
      var more := PastCommentsIsLexeme(t.rest);
      gap := CommentGap(s, more, ReadPastComments(s).text + ReadPastComments(s).rest);
    }
  }

  lemma NothingBehindNothing(s: string)
    ensures s == "" ==> ReadPastComments(s) == Token(EndOfStream, "", "")
  {
  }

  lemma CommentGap(s: string, more: Gap, behind: string) returns (gap: Gap)
    requires ReadToken(s).type_ == Comment && ReadToken(s).rest != "" && ReadToken(s).rest == Fill(more, behind)
    requires GapOk(more, true)
    ensures s == Fill(gap, behind) && GapOk(gap, true) && HasComment(gap)
  {
    var white := SpacesAreGap(s);
    var x := CommentIsFiller(SkipSpaces(s));
    var rest := [x] + more;
    assert rest[1..] == more && SkipSpaces(s) == Fill(rest, behind);
    FillConcat(white, rest, behind);
    hide Classify, SkipSpaces, Fill, FillerFront, FillerOk;
    gap := white + rest;
    assert gap[|white|] == x;
  }
}
