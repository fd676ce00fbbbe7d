/** The language that the JSON reader of lib/json/jsoncpp.cpp accepts, as a grammar with concrete syntax trees,
    and what a tree means. The reader accepts a text exactly when it starts with a tree, and then it reads what
    the tree means.

    The language is larger than JSON: anything may follow the root; a comma may stand behind a member whose name
    is empty; behind a member that is followed by a comment, any token is taken for a comma. Comments between
    the members of an object and behind the elements of an array are always allowed. */
module JsonGrammar {
  import opened Wrappers
  import opened JsonValue
  import opened JsonString
  import opened JsonNumber
  import opened JsonToken
  import opened JsonParser
  import opened JsonLexeme

  // ----- Syntax -----

  datatype Tree =
    | Scalar(gap: Gap, type_: Type, text: string)
    | EmptyArray(gap: Gap, white: Gap)
    | ArrayTree(gap: Gap, elements: Elements)
    | ObjectTree(gap: Gap, members: Members)

  datatype Elements = Only(value: Tree, end: Gap) | AndMore(value: Tree, end: Gap, more: Elements)

  /** close: the brace where a name could stand; last: a member and the brace; then: a member, what is taken for
      a comma, and more. */
  datatype Members =
    | Close(gap: Gap)
    | Last(gap: Gap, literal: string, white: Gap, value: Tree, end: Gap)
    | Then(gap: Gap, literal: string, white: Gap, value: Tree, end: Gap, type_: Type, comma: string, more: Members)

  /** The text of a tree, followed by s. */
  function TreeFront(t: Tree, s: string): string {
    match t
    case Scalar(gap, _, text) => Fill(gap, text + s)
    case EmptyArray(gap, white) => Fill(gap, "[" + Fill(white, "]" + s))
    case ArrayTree(gap, elements) => Fill(gap, "[" + ElementsFront(elements, s))
    case ObjectTree(gap, members) => Fill(gap, "{" + MembersFront(members, s))
  }

  function ElementsFront(e: Elements, s: string): string {
    match e
    case Only(value, end) => TreeFront(value, Fill(end, "]" + s))
    case AndMore(value, end, more) => TreeFront(value, Fill(end, "," + ElementsFront(more, s)))
  }

  function MembersFront(m: Members, s: string): string {
    match m
    case Close(gap) => Fill(gap, "}" + s)
    case Last(gap, literal, white, value, end) =>
      Fill(gap, literal + Fill(white, ":" + TreeFront(value, Fill(end, "}" + s))))
    case Then(gap, literal, white, value, end, _, comma, more) =>
      Fill(gap, literal + Fill(white, ":" + TreeFront(value, Fill(end, comma + MembersFront(more, s)))))
  }

  /** The value of a scalar token, if it has one. */
  function ScalarValue(f: Settings, type_: Type, text: string): Option<Value> {
    match type_
    case Number => if IsNumberToken(text) then NumberValue(text, f.scan) else None
    case StringToken =>
      if NameIn(text).Some? then Some(Str(Some(UpToZero(NameIn(text).value)))) else None
    case True => Some(Bool(true))
    case False => Some(Bool(false))
    case NullToken => Some(Null)
    case _ => None
  }

  /** What a literal between quotes spells, if its escapes are right. */
  function NameIn(literal: string): Option<string> {
    if |literal| < 2 then None
    else
      match Unescape(Inner(literal))
      case Err(_) => None
      case Ok(name) => Some(name)
  }

  predicate IsName(literal: string) {
    Lexeme(StringToken, literal, "") && NameIn(literal).Some?
  }

  /** A tree that s follows is one of the language. */
  predicate TreeOk(f: Settings, t: Tree, s: string) {
    && GapOk(t.gap, f.allowComments)
    && match t
       case Scalar(_, type_, text) => Lexeme(type_, text, s) && ScalarValue(f, type_, text).Some?
       case EmptyArray(_, white) => GapOk(white, false)
       case ArrayTree(_, elements) => ElementsOk(f, elements, s)
       case ObjectTree(_, members) => MembersOk(f, members, "", s)
  }

  predicate ElementsOk(f: Settings, e: Elements, s: string) {
    && GapOk(e.end, true)
    && match e
       case Only(value, end) => TreeOk(f, value, Fill(end, "]" + s))
       case AndMore(value, end, more) =>
         TreeOk(f, value, Fill(end, "," + ElementsFront(more, s))) && ElementsOk(f, more, s)
  }

  /** `name` is that of the member before. */
  predicate MembersOk(f: Settings, m: Members, name: string, s: string) {
    && GapOk(m.gap, true)
    && match m
       case Close(_) => name == ""
       case Last(_, literal, white, value, end) =>
         && IsName(literal) && GapOk(white, false) && GapOk(end, true)
         && TreeOk(f, value, Fill(end, "}" + s))
       case Then(_, literal, white, value, end, type_, comma, more) =>
         && IsName(literal) && GapOk(white, false) && GapOk(end, true)
         && IsComma(end, type_, comma, MembersFront(more, s))
         && TreeOk(f, value, Fill(end, comma + MembersFront(more, s)))
         && MembersOk(f, more, NameIn(literal).value, s)
  }

  /** A comma, or behind a comment any token but the brace. */
  predicate IsComma(end: Gap, type_: Type, comma: string, behind: string) {
    Lexeme(type_, comma, behind) && type_ != ObjectEnd && (type_ == ArraySeparator || HasComment(end))
  }

  // ----- Meaning -----

  function TreeValue(f: Settings, t: Tree): Value {
    match t
    case Scalar(_, type_, text) => ScalarValue(f, type_, text).UnwrapOr(Null)
    case EmptyArray(_, _) => Array([])
    case ArrayTree(_, elements) => Array(ElementsValue(f, elements, [], 0))
    case ObjectTree(_, members) => Object(MembersValue(f, members, []))
  }

  function ElementsValue(f: Settings, e: Elements, entries: seq<Entry>, index: nat): seq<Entry> {
    var stored := Store(entries, Index(index), TreeValue(f, e.value));
    match e
    case Only(_, _) => stored
    case AndMore(_, _, more) => ElementsValue(f, more, stored, index + 1)
  }

  /** A later member of the same name replaces an earlier one. */
  function MembersValue(f: Settings, m: Members, entries: seq<Entry>): seq<Entry> {
    if m.Close? then entries
    else
      var stored := Store(entries, Name(UpToZero(NameIn(m.literal).UnwrapOr(""))), TreeValue(f, m.value));
      if m.Then? then MembersValue(f, m.more, stored) else stored
  }

  /** The value of the last member of a name, if there is one. */
  function LastNamed(f: Settings, m: Members, name: string): Option<Value> {
    if m.Close? then None
    else
      var own := if UpToZero(NameIn(m.literal).UnwrapOr("")) == name then Some(TreeValue(f, m.value)) else None;
      if m.Last? then own
      else
        var later := LastNamed(f, m.more, name);
        if later.Some? then later else own
  }

  /** The members of an object are in key order, and each name holds what its last member says. */
  lemma {:induction false} MembersMean(f: Settings, m: Members, entries: seq<Entry>, name: string)
    requires Sorted(entries)
    ensures Sorted(MembersValue(f, m, entries))
    ensures Lookup(MembersValue(f, m, entries), Name(name)) ==
            LastNamed(f, m, name).UnwrapOr(Lookup(entries, Name(name)))
    ensures Has(MembersValue(f, m, entries), Name(name)) <==> LastNamed(f, m, name).Some? || Has(entries, Name(name))
    decreases m
  {
    if !m.Close? {
      var key, v := Name(UpToZero(NameIn(m.literal).UnwrapOr(""))), TreeValue(f, m.value);
      StoreKeepsOrder(entries, key, v);
      LookupStore(entries, key, v, Name(name));
      hide Store, Lookup, Sorted, UpToZero, NameIn, TreeValue, Has;
      if m.Then? {
        MembersMean(f, m.more, Store(entries, key, v), name);
      }
    }
  }

  function Values(e: Elements): seq<Tree> {
    [e.value] + if e.Only? then [] else Values(e.more)
  }

  function Numbered(f: Settings, trees: seq<Tree>, index: nat): seq<Entry> {
    if trees == [] then [] else [Entry(Index(index), TreeValue(f, trees[0]))] + Numbered(f, trees[1..], index + 1)
  }

  predicate InSequence(entries: seq<Entry>) {
    forall i :: 0 <= i < |entries| ==> entries[i].key == Index(i)
  }

  lemma AppendElement(entries: seq<Entry>, v: Value)
    requires InSequence(entries)
    ensures var own := [Entry(Index(|entries|), v)];
            Store(entries, Index(|entries|), v) == entries + own && InSequence(entries + own)
  {
    StoreLast(entries, Index(|entries|), v);
    hide Store, Lookup;
  }

  /** The elements of an array are the values of its trees, numbered in order. */
  lemma {:induction false} ElementsMean(f: Settings, e: Elements, entries: seq<Entry>)
    requires InSequence(entries)
    ensures ElementsValue(f, e, entries, |entries|) == entries + Numbered(f, Values(e), |entries|)
    decreases e
  {
    hide *;
    ElementAdds(f, e, entries);
    if e.AndMore? {
      ElementsMean(f, e.more, entries + Own(f, e, |entries|));
      Regroup(entries, Own(f, e, |entries|), Numbered(f, Values(e.more), |entries| + 1));
    }
  }

  function Own(f: Settings, e: Elements, index: nat): (own: seq<Entry>)
    ensures |own| == 1
  {
    [Entry(Index(index), TreeValue(f, e.value))]
  }

  /** The first element is appended; the others follow. */
  lemma ElementAdds(f: Settings, e: Elements, entries: seq<Entry>)
    requires InSequence(entries)
    ensures var index := |entries|; var stored := entries + Own(f, e, index);
            && InSequence(stored)
            && ElementsValue(f, e, entries, index) ==
               (if e.Only? then stored else ElementsValue(f, e.more, stored, index + 1))
            && Numbered(f, Values(e), index) ==
               if e.Only? then Own(f, e, index) else Own(f, e, index) + Numbered(f, Values(e.more), index + 1)
  {
    AppendElement(entries, TreeValue(f, e.value));
    ElementsStep(f, e, entries, |entries|);
    NumberedStep(f, e, |entries|);
    hide Store, TreeValue, Numbered, ElementsValue, Values, InSequence;
  }

  lemma Regroup(a: seq<Entry>, b: seq<Entry>, c: seq<Entry>)
    ensures a + b + c == a + (b + c)
  {
  }

  lemma ElementsStep(f: Settings, e: Elements, entries: seq<Entry>, index: nat)
    ensures var stored := Store(entries, Index(index), TreeValue(f, e.value));
            ElementsValue(f, e, entries, index) ==
              if e.Only? then stored else ElementsValue(f, e.more, stored, index + 1)
  {
    hide Store, TreeValue;
  }

  lemma NumberedStep(f: Settings, e: Elements, index: nat)
    ensures var own := [Entry(Index(index), TreeValue(f, e.value))];
            Numbered(f, Values(e), index) == if e.Only? then own else own + Numbered(f, Values(e.more), index + 1)
  {
    hide TreeValue;
    assert Values(e)[0] == e.value;
    assert Values(e)[1..] == if e.Only? then [] else Values(e.more);
    if e.Only? {
      assert Numbered(f, [], index + 1) == [];
    }
  }

  // ----- Trees are read -----

  lemma FirstIsRead(f: Settings, gap: Gap, type_: Type, text: string, s: string)
    requires GapOk(gap, f.allowComments) && Lexeme(type_, text, s)
    ensures FirstToken(f, Fill(gap, text + s)) == Token(type_, text, s)
  {
    LexemeIsRead(type_, text, s);
    if f.allowComments {
      GapIsSkipped(gap, text + s);
    } else {
      WhiteIsSkipped(gap, text + s);
    }
    hide ReadToken, Lexeme, Fill;
  }

  lemma PastCommentsIsRead(gap: Gap, type_: Type, text: string, s: string)
    requires GapOk(gap, true) && Lexeme(type_, text, s)
    ensures ReadPastComments(Fill(gap, text + s)) == Token(type_, text, s)
  {
    LexemeIsRead(type_, text, s);
    GapIsSkipped(gap, text + s);
    hide ReadToken, Lexeme, Fill;
  }

  /** White space before a value makes no difference. */
  lemma FirstSkips(f: Settings, s: string)
    ensures FirstToken(f, SkipSpaces(s)) == FirstToken(f, s)
  {
    SkipsOnce(s);
    hide SkipSpaces, ReadToken;
  }

  lemma ValueSkips(f: Settings, s: string, old_: Value)
    ensures ReadValue(f, SkipSpaces(s), old_) == ReadValue(f, s, old_)
  {
    FirstSkips(f, s);
    hide SkipSpaces, FirstToken, ReadToken, ReadScalar, ReadMembers, ReadElements, Peek;
  }

  lemma ElementsSkip(f: Settings, s: string, entries: seq<Entry>, index: nat)
    ensures ReadElements(f, SkipSpaces(s), entries, index) == ReadElements(f, s, entries, index)
  {
    ValueSkips(f, s, Lookup(entries, Index(index)));
    hide SkipSpaces, ReadValue, ElementEnd, Store, Lookup;
  }

  lemma SkipsOnce(s: string)
    ensures ReadToken(SkipSpaces(s)) == ReadToken(s)
  {
    var start := SkipSpaces(s);
    assert SkipSpaces(start) == start;
  }

  /** A bracket that closes at once is seen by peeking. */
  lemma PeekIsFirst(f: Settings, s: string)
    requires Peek(SkipSpaces(s)) == ']'
    ensures FirstToken(f, s).type_ == ArrayEnd && ReadToken(SkipSpaces(s)) == ReadToken(s)
  {
    SkipsOnce(s);
  }

  lemma ReadBracket(f: Settings, s: string, inside: string, old_: Value)
    requires FirstToken(f, s) == Token(ArrayBegin, "[", inside)
    ensures var u := SkipSpaces(inside);
            ReadValue(f, s, old_) ==
            if Peek(u) == ']' then Outcome(true, Array([]), [], ReadToken(u).rest) else ReadElements(f, inside, [], 0)
  {
    ElementsSkip(f, inside, [], 0);
    hide FirstToken, ReadElements, SkipSpaces, ReadToken, Peek;
  }

  lemma ReadBrace(f: Settings, s: string, inside: string, old_: Value)
    requires FirstToken(f, s) == Token(ObjectBegin, "{", inside)
    ensures ReadValue(f, s, old_) == ReadMembers(f, inside, [], "")
  {
    hide FirstToken, ReadMembers;
  }

  lemma {:induction false} TreeIsRead(f: Settings, t: Tree, s: string, old_: Value)
    requires TreeOk(f, t, s)
    ensures ReadValue(f, TreeFront(t, s), old_) == Outcome(true, TreeValue(f, t), [], s)
    ensures FirstToken(f, TreeFront(t, s)).type_ != ArrayEnd
    decreases t, 1
  {
    var text := TreeFront(t, s);
    hide FirstToken, ReadElements, ReadMembers, Fill, SkipSpaces, ReadToken;
    match t {
      case Scalar(gap, type_, word) =>
        FirstIsRead(f, gap, type_, word, s);
      case EmptyArray(gap, white) =>
        EmptyArrayIsRead(f, gap, white, s, old_);
      case ArrayTree(gap, elements) =>
        FirstIsRead(f, gap, ArrayBegin, "[", ElementsFront(elements, s));
        ElementsAreRead(f, elements, s, [], 0);
        ReadBracket(f, text, ElementsFront(elements, s), old_);
        if Peek(SkipSpaces(ElementsFront(elements, s))) == ']' {
          PeekIsFirst(f, ElementsFront(elements, s));
        }
      case ObjectTree(gap, members) =>
        FirstIsRead(f, gap, ObjectBegin, "{", MembersFront(members, s));
        MembersAreRead(f, members, s, "", []);
        ReadBrace(f, text, MembersFront(members, s), old_);
    }
  }

  lemma EmptyArrayIsRead(f: Settings, gap: Gap, white: Gap, s: string, old_: Value)
    requires GapOk(gap, f.allowComments) && GapOk(white, false)
    ensures var text := Fill(gap, "[" + Fill(white, "]" + s));
            ReadValue(f, text, old_) == Outcome(true, Array([]), [], s) && FirstToken(f, text).type_ == ArrayBegin
  {
    var inside := Fill(white, "]" + s);
    FirstIsRead(f, gap, ArrayBegin, "[", inside);
    WhiteIsSkipped(white, "]" + s);
    assert SkipSpaces("]" + s) == "]" + s;
    LexemeIsRead(ArrayEnd, "]", s);
    ReadBracket(f, Fill(gap, "[" + inside), inside, old_);
    hide FirstToken, ReadElements, ReadToken, ReadValue, Fill, SkipSpaces;
  }

  lemma {:induction false} ElementsAreRead(f: Settings, e: Elements, s: string, entries: seq<Entry>, index: nat)
    requires ElementsOk(f, e, s)
    ensures ReadElements(f, ElementsFront(e, s), entries, index) ==
            Outcome(true, Array(ElementsValue(f, e, entries, index)), [], s)
    ensures FirstToken(f, ElementsFront(e, s)).type_ != ArrayEnd
    decreases e, 0
  {
    hide FirstToken, Fill, ReadPastComments, ReadValue, Store, Lookup;
    var old_ := Lookup(entries, Index(index));
    match e {
      case Only(value, end) =>
        TreeIsRead(f, value, Fill(end, "]" + s), old_);
        PastCommentsIsRead(end, ArrayEnd, "]", s);
      case AndMore(value, end, more) =>
        TreeIsRead(f, value, Fill(end, "," + ElementsFront(more, s)), old_);
        PastCommentsIsRead(end, ArraySeparator, ",", ElementsFront(more, s));
        ElementsAreRead(f, more, s, Store(entries, Index(index), TreeValue(f, value)), index + 1);
    }
  }

  lemma NameIsRead(gap: Gap, literal: string, white: Gap, s: string, entries: seq<Entry>, name: string)
    requires GapOk(gap, true) && IsName(literal) && GapOk(white, false)
    ensures MemberName(Fill(gap, literal + Fill(white, ":" + s)), entries, name) == More(NameIn(literal).value, s)
  {
    assert Lexeme(StringToken, literal, Fill(white, ":" + s)) && |literal| >= 2;
    hide Lexeme;
    PastCommentsIsRead(gap, StringToken, literal, Fill(white, ":" + s));
    WhiteIsSkipped(white, ":" + s);
    assert Lexeme(MemberSeparator, ":", s) by { ColonIsLexeme(s); }
    LexemeIsRead(MemberSeparator, ":", s);
    hide ReadPastComments, ReadToken, Fill, Unescape, Closes;
  }

  lemma ColonIsLexeme(s: string)
    ensures Lexeme(MemberSeparator, ":", s)
  {
  }

  lemma CloseIsRead(gap: Gap, s: string, entries: seq<Entry>)
    requires GapOk(gap, true)
    ensures MemberName(Fill(gap, "}" + s), entries, "") == Stop(Outcome(true, Object(entries), [], s))
  {
    PastCommentsIsRead(gap, ObjectEnd, "}", s);
    hide ReadPastComments, Fill;
  }

  lemma EndIsRead(end: Gap, s: string, entries: seq<Entry>)
    requires GapOk(end, true)
    ensures MemberEnd(Fill(end, "}" + s), entries) == Stop(Outcome(true, Object(entries), [], s))
  {
    PastCommentsIsRead(end, ObjectEnd, "}", s);
    FirstOfGap(end, "}" + s);
    LexemeIsRead(ObjectEnd, "}", s);
    hide ReadToken, Fill;
  }

  /** A gap with a comment begins with one, but for white space. */
  lemma {:induction false} FirstOfGap(gap: Gap, s: string)
    requires GapOk(gap, true)
    ensures var first := ReadToken(Fill(gap, s));
            if HasComment(gap) then first.type_ == Comment else first == ReadToken(s)
    decreases |gap|
  {
    if gap != [] {
      FillerIsRead(gap[0], Fill(gap[1..], s));
      FirstOfGap(gap[1..], s);
      assert HasComment(gap) <==> !gap[0].White? || HasComment(gap[1..]) by {
        assert forall i :: 1 <= i < |gap| ==> gap[i] == gap[1..][i - 1];
      }
      hide ReadToken, FillerFront;
    }
  }

  lemma CommaIsRead(end: Gap, type_: Type, comma: string, s: string, entries: seq<Entry>)
    requires GapOk(end, true) && IsComma(end, type_, comma, s)
    ensures MemberEnd(Fill(end, comma + s), entries) == More("", s)
  {
    PastCommentsIsRead(end, type_, comma, s);
    FirstOfGap(end, comma + s);
    LexemeIsRead(type_, comma, s);
    hide ReadToken, Fill, Lexeme;
  }

  lemma {:induction false} MembersAreRead(f: Settings, m: Members, s: string, name: string, entries: seq<Entry>)
    requires MembersOk(f, m, name, s)
    ensures ReadMembers(f, MembersFront(m, s), entries, name) ==
            Outcome(true, Object(MembersValue(f, m, entries)), [], s)
    decreases m, 0
  {
    if m.Close? {
      CloseIsRead(m.gap, s, entries);
      hide MemberName, Fill;
    } else {
      var n := NameIn(m.literal).value;
      var key := Name(UpToZero(n));
      var stored := Store(entries, key, TreeValue(f, m.value));
      var tail := if m.Last? then "}" + s else m.comma + MembersFront(m.more, s);
      var behind := Fill(m.end, tail);
      hide MemberName, MemberEnd, Fill, ReadValue, Store, Lookup, UpToZero, IsName, NameIn;
      NameIsRead(m.gap, m.literal, m.white, TreeFront(m.value, behind), entries, name);
      TreeIsRead(f, m.value, behind, Lookup(entries, key));
      if m.Last? {
        EndIsRead(m.end, s, stored);
      } else {
        CommaIsRead(m.end, m.type_, m.comma, MembersFront(m.more, s), stored);
        MembersAreRead(f, m.more, s, n, stored);
      }
    }
  }

  // ----- What is read is a tree -----

  lemma FirstIsLexeme(f: Settings, s: string) returns (gap: Gap)
    requires var t := FirstToken(f, s); t.text != "" && t.type_ != Error && t.type_ != Comment
    ensures var t := FirstToken(f, s);
            s == Fill(gap, t.text + t.rest) && GapOk(gap, f.allowComments) && Lexeme(t.type_, t.text, t.rest)
  {
    hide ReadToken, Lexeme, Fill;
    if f.allowComments {
      gap := PastCommentsIsLexeme(s);
    } else {
      gap := TokenIsLexeme(s);
    }
  }

  lemma TokenHasText(s: string)
    ensures ReadToken(s).text == "" ==> ReadToken(s) == Token(EndOfStream, "", "")
  {
    hide Classify, SkipSpaces;
  }

  lemma {:induction false} PastCommentsHasText(s: string)
    ensures ReadPastComments(s).text == "" ==> ReadPastComments(s) == Token(EndOfStream, "", "")
    decreases |s|
  {
    TokenHasText(s);
    hide ReadToken;
    if ReadToken(s).type_ == Comment {
      PastCommentsHasText(ReadToken(s).rest);
    }
  }

  lemma {:induction false} ValueIsTree(f: Settings, s: string, old_: Value) returns (t: Tree)
    requires ReadValue(f, s, old_).ok
    ensures var o := ReadValue(f, s, old_);
            s == TreeFront(t, o.rest) && TreeOk(f, t, o.rest) && o.value == TreeValue(f, t)
    decreases |s|, 0
  {
    var first := FirstToken(f, s);
    TokenHasText(s);
    PastCommentsHasText(s);
    hide ReadToken, ReadPastComments, Fill, Lexeme, SkipSpaces, ReadElements, ReadMembers;
    var gap := FirstIsLexeme(f, s);
    hide FirstToken;
    if first.type_ == ObjectBegin {
      assert first.text == "{" by { LexemeOf(first); }
      ReadBrace(f, s, first.rest, old_);
      var members := MembersAreTree(f, first.rest, [], "");
      t := ObjectTree(gap, members);
    } else if first.type_ == ArrayBegin {
      assert first.text == "[" by { LexemeOf(first); }
      ReadBracket(f, s, first.rest, old_);
      if Peek(SkipSpaces(first.rest)) == ']' {
        t := EmptyIsTree(f, gap, first.rest);
      } else {
        var elements := ElementsAreTree(f, first.rest, [], 0);
        t := ArrayTree(gap, elements);
      }
    } else {
      t := Scalar(gap, first.type_, first.text);
    }
  }

  lemma LexemeOf(t: Token)
    requires Lexeme(t.type_, t.text, t.rest)
    ensures t.type_ == ObjectBegin ==> t.text == "{"
    ensures t.type_ == ArrayBegin ==> t.text == "["
    ensures t.type_ == ObjectEnd ==> t.text == "}"
    ensures t.type_ == ArrayEnd ==> t.text == "]"
    ensures t.type_ == ArraySeparator ==> t.text == ","
    ensures t.type_ == MemberSeparator ==> t.text == ":"
  {
  }

  lemma EmptyIsTree(f: Settings, gap: Gap, inside: string) returns (t: Tree)
    requires GapOk(gap, f.allowComments) && Peek(SkipSpaces(inside)) == ']'
    ensures var rest := ReadToken(SkipSpaces(inside)).rest;
            Fill(gap, "[" + inside) == TreeFront(t, rest) && TreeOk(f, t, rest) && TreeValue(f, t) == Array([])
  {
    var u := SkipSpaces(inside);
    var white := SpacesAreGap(inside);
    SkipsOnce(inside);
    assert u == "]" + u[1..] && SkipSpaces(u) == u && ReadToken(u).rest == u[1..];
    t := EmptyArray(gap, white);
  }

  lemma {:induction false} ElementsAreTree(f: Settings, s: string, entries: seq<Entry>, index: nat)
    returns (e: Elements)
    requires ReadElements(f, s, entries, index).ok
    ensures var o := ReadElements(f, s, entries, index);
            s == ElementsFront(e, o.rest) && ElementsOk(f, e, o.rest) &&
              o.value == Array(ElementsValue(f, e, entries, index))
    decreases |s|, 1
  {
    var old_ := Lookup(entries, Index(index));
    hide ReadValue, ReadPastComments, Fill, Lexeme, Store, Lookup;
    var value := ValueIsTree(f, s, old_);
    var rest := ReadValue(f, s, old_).rest;
    var stored := Store(entries, Index(index), TreeValue(f, value));
    var comma := ReadPastComments(rest);
    PastCommentsHasText(rest);
    var end := PastCommentsIsLexeme(rest);
    LexemeOf(comma);
    if comma.type_ == ArrayEnd {
      e := Only(value, end);
    } else {
      var more := ElementsAreTree(f, comma.rest, stored, index + 1);
      e := AndMore(value, end, more);
    }
  }

  /** MemberEnd, with all comments skipped first. */
  lemma MemberEndMeans(s: string, entries: seq<Entry>)
    ensures var first, last := ReadToken(s), ReadPastComments(s);
            MemberEnd(s, entries) ==
            if last.type_ == ObjectEnd then Stop(Outcome(true, Object(entries), [], last.rest))
            else if last.type_ == ArraySeparator || first.type_ == Comment then More("", last.rest)
            else Stop(Fail(Object(entries), [MissingComma], Recover(first.rest, ObjectEnd)))
  {
    hide ReadToken, Recover;
  }

  lemma NothingIsNoMember(f: Settings, entries: seq<Entry>, name: string)
    ensures !ReadMembers(f, "", entries, name).ok
  {
    NothingBehindNothing("");
    hide ReadPastComments;
  }

  /** A name, white space and a colon. */
  lemma NameIsTree(s: string, entries: seq<Entry>, name: string) returns (gap: Gap, literal: string, white: Gap)
    requires MemberName(s, entries, name).More?
    ensures var r := MemberName(s, entries, name);
            && s == Fill(gap, literal + Fill(white, ":" + r.rest))
            && GapOk(gap, true) && GapOk(white, false) && IsName(literal) && NameIn(literal) == Some(r.name)
  {
    var t := ReadPastComments(s);
    var colon := ReadToken(t.rest);
    PastCommentsHasText(s);
    TokenHasText(t.rest);
    hide ReadToken, ReadPastComments, Fill, Unescape;
    gap := PastCommentsIsLexeme(s);
    white := TokenIsLexeme(t.rest);
    LexemeOf(colon);
    literal := t.text;
  }

  lemma ClosingIsTree(s: string, entries: seq<Entry>, name: string) returns (gap: Gap)
    requires MemberName(s, entries, name).Stop? && MemberName(s, entries, name).o.ok
    ensures var o := MemberName(s, entries, name).o;
            s == Fill(gap, "}" + o.rest) && GapOk(gap, true) && name == "" && o.value == Object(entries)
  {
    var t := ReadPastComments(s);
    PastCommentsHasText(s);
    hide ReadToken, ReadPastComments, Fill, Unescape, Recover;
    gap := PastCommentsIsLexeme(s);
    LexemeOf(t);
  }

  lemma {:induction false} MembersAreTree(f: Settings, s: string, entries: seq<Entry>, name: string)
    returns (m: Members)
    requires ReadMembers(f, s, entries, name).ok
    ensures var o := ReadMembers(f, s, entries, name);
            s == MembersFront(m, o.rest) && MembersOk(f, m, name, o.rest) &&
              o.value == Object(MembersValue(f, m, entries))
    decreases |s|, 1
  {
    hide ReadValue, Fill, Lexeme, Store, Lookup, UpToZero, MemberName, MemberEnd, IsName, NameIn;
    match MemberName(s, entries, name)
    case Stop(_) =>
      var gap := ClosingIsTree(s, entries, name);
      m := Close(gap);
    case More(n, rest) =>
      var key := Name(UpToZero(n));
      var gap, literal, white := NameIsTree(s, entries, name);
      var value := ValueIsTree(f, rest, Lookup(entries, key));
      var o := ReadValue(f, rest, Lookup(entries, key));
      var stored := Store(entries, key, o.value);
      m := RestIsTree(f, gap, literal, white, value, o.rest, stored, n);
  }

  /** What follows a member: the brace, or a comma and more. */
  lemma {:induction false} RestIsTree(f: Settings, gap: Gap, literal: string, white: Gap, value: Tree, s: string,
                                      stored: seq<Entry>, n: string) returns (m: Members)
    requires GapOk(gap, true) && GapOk(white, false) && IsName(literal) && NameIn(literal) == Some(n) &&
             TreeOk(f, value, s)
    requires match MemberEnd(s, stored)
             case Stop(r) => r.ok
             case More(_, last) => ReadMembers(f, last, stored, n).ok
    ensures var o := match MemberEnd(s, stored)
                     case Stop(r) => r
                     case More(_, last) => ReadMembers(f, last, stored, n);
            && Fill(gap, literal + Fill(white, ":" + TreeFront(value, s))) == MembersFront(m, o.rest)
            && (forall name :: MembersOk(f, m, name, o.rest))
            && !m.Close? && m.literal == literal && m.value == value
            && o.value == Object(if m.Then? then MembersValue(f, m.more, stored) else stored)
    decreases |s|, 2
  {
    MemberEndMeans(s, stored);
    var last := ReadPastComments(s);
    PastCommentsHasText(s);
    NothingIsNoMember(f, stored, n);
    hide ReadPastComments, ReadToken, MemberEnd, Fill, Lexeme, ReadMembers, IsName, NameIn;
    var end := PastCommentsIsLexeme(s);
    LexemeOf(last);
    if last.type_ == ObjectEnd {
      m := Last(gap, literal, white, value, end);
    } else {
      var more := MembersAreTree(f, last.rest, stored, n);
      m := Then(gap, literal, white, value, end, last.type_, last.text, more);
    }
  }

  // ----- The language -----

  predicate IsDocument(f: Settings, t: Tree, behind: string, document: string) {
    document == TreeFront(t, behind) && TreeOk(f, t, behind) && (f.strictRoot ==> !t.Scalar?)
  }

  /** A document that starts with a tree is read as what the tree means, whatever follows. */
  lemma DocumentIsRead(f: Settings, t: Tree, behind: string, document: string, root: Value)
    requires IsDocument(f, t, behind, document)
    ensures var o := Parse(f, document, root); o.ok && o.value == TreeValue(f, t)
  {
    TreeIsRead(f, t, behind, root);
    ScalarIsNoRoot(f, t);
    hide ReadValue, FirstToken, TreeFront, TreeValue, TreeOk;
  }

  lemma AcceptedIsDocument(f: Settings, document: string, root: Value) returns (t: Tree, behind: string)
    requires Parse(f, document, root).ok
    ensures IsDocument(f, t, behind, document)
  {
    hide ReadValue, FirstToken, TreeFront, TreeOk, TreeValue;
    t := ValueIsTree(f, document, root);
    behind := ReadValue(f, document, root).rest;
    ScalarIsNoRoot(f, t);
  }

  lemma ScalarIsNoRoot(f: Settings, t: Tree)
    ensures t.Scalar? <==> !TreeValue(f, t).Array? && !TreeValue(f, t).Object?
  {
    if t.Scalar? && t.type_ == Number && IsNumberToken(t.text) {
      var v := NumberValue(t.text, f.scan);
      assert v.Some? ==> !v.value.Array? && !v.value.Object?;
    }
    hide NumberValue, NameIn, ElementsValue, MembersValue;
  }

  /** A document is accepted exactly when it starts with a tree. */
  lemma AcceptsExactlyDocuments(f: Settings, document: string, root: Value)
    ensures Parse(f, document, root).ok <==> exists t, behind :: IsDocument(f, t, behind, document)
  {
    if Parse(f, document, root).ok {
      var t, behind := AcceptedIsDocument(f, document, root);
    }
    hide Parse, IsDocument;
    if t, behind :| IsDocument(f, t, behind, document) {
      DocumentIsRead(f, t, behind, document, root);
    }
  }

  function TrailingTree(end: Gap, type_: Type, comma: string): Tree {
    ObjectTree([], Then([], "\"\"", [], Scalar([], NullToken, "null"), end, type_, comma, Close([])))
  }

  lemma TrailingText(end: Gap, type_: Type, comma: string, behind: string)
    ensures TreeFront(TrailingTree(end, type_, comma), behind) == "{\"\":null" + Fill(end, comma + ("}" + behind))
  {
    var t, rest := TrailingTree(end, type_, comma), Fill(end, comma + ("}" + behind));
    assert MembersFront(Close([]), behind) == "}" + behind;
    assert TreeFront(Scalar([], NullToken, "null"), rest) == "null" + rest;
    assert MembersFront(t.members, behind) == "\"\"" + (":" + ("null" + rest));
    assert TreeFront(t, behind) == "{" + ("\"\"" + (":" + ("null" + rest)));
  }

  lemma TrailingOk(f: Settings, end: Gap, type_: Type, comma: string, behind: string)
    requires GapOk(end, true) && IsComma(end, type_, comma, "}" + behind)
    ensures TreeOk(f, TrailingTree(end, type_, comma), behind)
  {
    var t, rest := TrailingTree(end, type_, comma), Fill(end, comma + ("}" + behind));
    assert MembersFront(Close([]), behind) == "}" + behind && MembersOk(f, Close([]), "", behind);
    assert TreeOk(f, Scalar([], NullToken, "null"), rest);
    assert IsName("\"\"") && NameIn("\"\"") == Some("") by {
      assert Closes("\"") && Unescape("") == Ok("");
    }
    hide IsName, NameIn, IsComma;
    assert MembersOk(f, t.members, "", behind);
  }

  /** A brace may follow the comma behind a member whose name is empty, and behind a comment any other token but
      a brace will do for the comma. */
  lemma TrailingComma(f: Settings, end: Gap, type_: Type, comma: string, behind: string, root: Value)
    requires GapOk(end, true) && IsComma(end, type_, comma, "}" + behind)
    ensures var o := Parse(f, "{\"\":null" + Fill(end, comma + ("}" + behind)), root); o.ok && o.value.Object?
  {
    var t := TrailingTree(end, type_, comma);
    TrailingText(end, type_, comma, behind);
    TrailingOk(f, end, type_, comma, behind);
    assert TreeValue(f, t).Object?;
    hide TreeFront, TreeOk, TreeValue, Parse, Fill, IsComma;
    DocumentIsRead(f, t, behind, TreeFront(t, behind), root);
  }
}
