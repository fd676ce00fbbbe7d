/** What the JSON reader of lib/json/jsoncpp.cpp makes of a text, as a function of the text that is left. */
module JsonParser {
  import opened Wrappers
  import opened JsonValue
  import opened JsonString
  import opened JsonToken
  import opened JsonNumber

  /** The reader's features, with dropped null placeholders and numeric keys switched off, and sscanf. */
  datatype Settings = Settings(allowComments: bool, strictRoot: bool, scan: string -> Option<real>)

  /** The value is the node's new value, also after an error; errors are those added. */
  datatype Outcome = Outcome(ok: bool, value: Value, errors: seq<Message>, rest: string)

  /** The C string that starts a text. */
  function UpToZero(s: string): (t: string)
    ensures '\0' !in t && t <= s && ('\0' !in s ==> t == s)
  {
    if s == "" || s[0] == '\0' then "" else [s[0]] + UpToZero(s[1..])
  }

  /** The text of a string token without its quotes. */
  function Inner(text: string): string
    requires |text| >= 2
  {
    text[1..|text| - 1]
  }

  function FirstToken(f: Settings, s: string): (t: Token)
    ensures |t.rest| <= |s| && (t.type_ != EndOfStream ==> |t.rest| < |s|)
    ensures t.type_ == Number ==> IsNumberToken(t.text)
    ensures t.type_ == StringToken ==> |t.text| >= 2
  {
    if f.allowComments then ReadPastComments(s) else ReadToken(s)
  }

  function Fail(value: Value, errors: seq<Message>, rest: string): Outcome {
    Outcome(false, value, errors, rest)
  }

  /** readValue, for a node that holds old. */
  function ReadValue(f: Settings, s: string, old_: Value): (o: Outcome)
    ensures |o.rest| <= |s|
    ensures (o.ok <==> o.errors == []) && |o.errors| <= 1
    decreases |s|, 0
  {
    var t := FirstToken(f, s);
    match t.type_
    case ObjectBegin => ReadMembers(f, t.rest, [], "")
    case ArrayBegin =>
      var u := SkipSpaces(t.rest);
      if Peek(u) == ']' then Outcome(true, Array([]), [], ReadToken(u).rest)
      else ReadElements(f, u, [], 0)
    case _ => ReadScalar(f, t, old_)
  }

  /** A value of one token. */
  function ReadScalar(f: Settings, t: Token, old_: Value): (o: Outcome)
    requires t.type_ == Number ==> IsNumberToken(t.text)
    requires t.type_ == StringToken ==> |t.text| >= 2
    ensures o.rest == t.rest
    ensures (o.ok <==> o.errors == []) && |o.errors| <= 1
  {
    match t.type_
    case Number => ReadNumber(f, t, old_)
    case StringToken => ReadString(t, old_)
    case True => Outcome(true, Bool(true), [], t.rest)
    case False => Outcome(true, Bool(false), [], t.rest)
    case NullToken => Outcome(true, Null, [], t.rest)
    case _ => Fail(old_, [ValueExpected], t.rest)
  }

  function ReadNumber(f: Settings, t: Token, old_: Value): Outcome
    requires IsNumberToken(t.text)
  {
    match NumberValue(t.text, f.scan)
    case None => Fail(old_, [NotANumber], t.rest)
    case Some(v) => Outcome(true, v, [], t.rest)
  }

  function ReadString(t: Token, old_: Value): Outcome
    requires |t.text| >= 2
  {
    match Unescape(Inner(t.text))
    case Err(m) => Fail(old_, [m], t.rest)
    case Ok(d) => Outcome(true, Str(Some(UpToZero(d))), [], t.rest)
  }

  /** Part of a turn of a loop: it returns, or goes on with the name of the member and the text that is left. */
  datatype Step = Stop(o: Outcome) | More(name: string, rest: string)
  {
    predicate Within(s: string) {
      match this
      case Stop(o) => |o.rest| <= |s| && (o.ok <==> o.errors == []) && |o.errors| <= 1
      case More(_, rest) => |rest| < |s|
    }
  }

  /** The loop of readObject up to the colon; name is that of the last member read. */
  function MemberName(s: string, entries: seq<Entry>, name: string): (r: Step)
    ensures r.Within(s)
  {
    var t := ReadPastComments(s);
    if t.type_ == ObjectEnd && name == "" then Stop(Outcome(true, Object(entries), [], t.rest))
    else if t.type_ != StringToken then Stop(Fail(Object(entries), [MissingMember], Recover(t.rest, ObjectEnd)))
    else
      match Unescape(Inner(t.text))
      case Err(m) => Stop(Fail(Object(entries), [m], Recover(t.rest, ObjectEnd)))
      case Ok(n) =>
        var colon := ReadToken(t.rest);
        if colon.type_ == MemberSeparator then More(n, colon.rest)
        else Stop(Fail(Object(entries), [MissingColon], Recover(colon.rest, ObjectEnd)))
  }

  /** The end of a member. After a comment any token but a brace is taken for the comma. */
  function MemberEnd(s: string, entries: seq<Entry>): (r: Step)
    ensures r.Within(s)
  {
    var comma := ReadToken(s);
    if comma.type_ != ObjectEnd && comma.type_ != ArraySeparator && comma.type_ != Comment then
      Stop(Fail(Object(entries), [MissingComma], Recover(comma.rest, ObjectEnd)))
    else
      var last := if comma.type_ == Comment then ReadPastComments(comma.rest) else comma;
      if last.type_ == ObjectEnd then Stop(Outcome(true, Object(entries), [], last.rest)) else More("", last.rest)
  }

  function ReadMembers(f: Settings, s: string, entries: seq<Entry>, name: string): (o: Outcome)
    ensures |o.rest| <= |s|
    ensures (o.ok <==> o.errors == []) && |o.errors| <= 1
    decreases |s|, 1
  {
    match MemberName(s, entries, name)
    case Stop(o) => o
    case More(n, rest) =>
      var key := Name(UpToZero(n));
      var o := ReadValue(f, rest, Lookup(entries, key));
      var stored := Store(entries, key, o.value);
      if !o.ok then Fail(Object(stored), o.errors, Recover(o.rest, ObjectEnd))
      else
        match MemberEnd(o.rest, stored)
        case Stop(r) => r
        case More(_, last) => ReadMembers(f, last, stored, n)
  }

  /** The end of an element. */
  function ElementEnd(s: string, entries: seq<Entry>): (r: Step)
    ensures r.Within(s)
  {
    var t := ReadPastComments(s);
    if t.type_ != ArraySeparator && t.type_ != ArrayEnd then
      Stop(Fail(Array(entries), [MissingBracket], Recover(t.rest, ArrayEnd)))
    else if t.type_ == ArrayEnd then Stop(Outcome(true, Array(entries), [], t.rest))
    else More("", t.rest)
  }

  /** The loop of readArray. */
  function ReadElements(f: Settings, s: string, entries: seq<Entry>, index: nat): (o: Outcome)
    ensures |o.rest| <= |s|
    ensures (o.ok <==> o.errors == []) && |o.errors| <= 1
    decreases |s|, 1
  {
    var o := ReadValue(f, s, Lookup(entries, Index(index)));
    var stored := Store(entries, Index(index), o.value);
    if !o.ok then Fail(Array(stored), o.errors, Recover(o.rest, ArrayEnd))
    else
      match ElementEnd(o.rest, stored)
      case Stop(r) => r
      case More(_, rest) => ReadElements(f, rest, stored, index + 1)
  }

  /** parse */
  function Parse(f: Settings, document: string, root: Value): (o: Outcome)
    ensures o.ok <==> o.errors == []
    ensures |o.errors| <= if f.strictRoot then 2 else 1
  {
    var o := ReadValue(f, document, root);
    var rest := FirstToken(f, o.rest).rest;
    if f.strictRoot && !o.value.Array? && !o.value.Object? then Fail(o.value, o.errors + [BadRoot], rest)
    else o.(rest := rest)
  }
}
