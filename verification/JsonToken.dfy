/** Tokens of the JSON reader of lib/json/jsoncpp.cpp, as functions of the text that is left to read. At the
    end of the text the reader sees the terminating zero of a C string. */
module JsonToken {
  import opened Decimal
  import opened JsonNumber

  datatype Type =
    | EndOfStream | ObjectBegin | ObjectEnd | ArrayBegin | ArrayEnd | StringToken | Number | True | False | NullToken
    | ArraySeparator | MemberSeparator | Comment | Error

  /** rest: what is left after the token. */
  datatype Token = Token(type_: Type, text: string, rest: string)

  predicate IsSpace(c: char) {
    c == ' ' || c == '\t' || c == '\r' || c == '\n'
  }

  function SkipSpaces(s: string): (t: string)
    ensures |t| <= |s| && (t == "" || !IsSpace(t[0]))
  {
    if s == "" || !IsSpace(s[0]) then s else SkipSpaces(s[1..])
  }

  /** *current_ */
  function Peek(s: string): char {
    if s == "" then '\0' else s[0]
  }

  /** What is left after getNextChar. */
  function Next(s: string): (t: string)
    ensures |t| <= |s|
  {
    if s == "" then "" else s[1..]
  }

  /** Whether a scan succeeded, and what is left. */
  datatype Scan = Scan(ok: bool, rest: string)

  /** The rest of a string, after its opening quote. */
  function ScanString(s: string): (r: Scan)
    ensures |r.rest| <= |s|
    ensures r.ok ==> |r.rest| < |s| && s[|s| - |r.rest| - 1] == '"'
    decreases |s|
  {
    if s == "" then Scan(false, "")
    else if s[0] == '"' then Scan(true, s[1..])
    else if s[0] == '\\' then ScanString(Next(s[1..]))
    else ScanString(s[1..])
  }

  function ScanNumber(s: string): (t: string)
    ensures |t| <= |s| && forall i :: 0 <= i < |s| - |t| ==> NumChar(s[i])
    ensures t == "" || !NumChar(t[0])
  {
    if s == "" || !NumChar(s[0]) then s else ScanNumber(s[1..])
  }

  /** match: the pattern, or nothing is read. */
  function ScanWord(s: string, pattern: string): (r: Scan)
    ensures |r.rest| <= |s|
  {
    if pattern <= s then Scan(true, s[|pattern|..]) else Scan(false, s)
  }

  /** The rest of a comment, after its slash. */
  function ScanComment(s: string): (r: Scan)
    ensures |r.rest| <= |s|
  {
    if Peek(s) == '*' then ScanCStyle(s[1..])
    else if Peek(s) == '/' then Scan(true, ScanLine(s[1..]))
    else Scan(false, Next(s))
  }

  function ScanCStyle(s: string): (r: Scan)
    ensures |r.rest| <= |s|
  {
    if s == "" then Scan(false, "")
    else if s[0] == '*' && Peek(s[1..]) == '/' then Scan(true, s[2..])
    else ScanCStyle(s[1..])
  }

  function ScanLine(s: string): (t: string)
    ensures |t| <= |s|
  {
    if s == "" then "" else if s[0] == '\r' || s[0] == '\n' then s[1..] else ScanLine(s[1..])
  }

  predicate StartsNumber(c: char) {
    IsDigit(c) || c == '-'
  }

  function Checked(type_: Type, r: Scan): (Type, string) {
    (if r.ok then type_ else Error, r.rest)
  }

  /** The type of a token that starts with the first character of s, and what is left after it. */
  function Classify(s: string): (r: (Type, string))
    ensures |r.1| <= |s|
    ensures s != "" ==> |r.1| < |s|
    ensures s == "" ==> r.0 == EndOfStream
    ensures r.0 == Number ==> IsNumberToken(s[..|s| - |r.1|])
    ensures r.0 == StringToken ==> |s| >= |r.1| + 2 && s[0] == '"' == s[|s| - |r.1| - 1]
  {
    if s == "" then (EndOfStream, "")
    else
      var rest := s[1..];
      match s[0]
      case '{' => (ObjectBegin, rest)
      case '}' => (ObjectEnd, rest)
      case '[' => (ArrayBegin, rest)
      case ']' => (ArrayEnd, rest)
      case '"' => Checked(StringToken, ScanString(rest))
      case '/' => Checked(Comment, ScanComment(rest))
      case 't' => Checked(True, ScanWord(rest, "rue"))
      case 'f' => Checked(False, ScanWord(rest, "alse"))
      case 'n' => Checked(NullToken, ScanWord(rest, "ull"))
      case ',' => (ArraySeparator, rest)
      case ':' => (MemberSeparator, rest)
      case '\0' => (EndOfStream, rest)
      case c => if StartsNumber(c) then (Number, ScanNumber(rest)) else (Error, rest)
  }

  /** readToken */
  function ReadToken(s: string): (t: Token)
    ensures |t.rest| <= |s|
    ensures t.type_ != EndOfStream ==> |t.rest| < |s|
    ensures t.type_ == Number ==> IsNumberToken(t.text)
    ensures t.type_ == StringToken ==> |t.text| >= 2 && t.text[0] == '"' == t.text[|t.text| - 1]
  {
    var start := SkipSpaces(s);
    var (type_, rest) := Classify(start);
    Token(type_, start[..|start| - |rest|], rest)
  }

  /** Tokens until one is not a comment. */
  function ReadPastComments(s: string): (t: Token)
    ensures |t.rest| <= |s| && t.type_ != Comment
    ensures t.type_ != EndOfStream ==> |t.rest| < |s|
    ensures t.type_ == Number ==> IsNumberToken(t.text)
    ensures t.type_ == StringToken ==> |t.text| >= 2 && t.text[0] == '"' == t.text[|t.text| - 1]
    decreases |s|
  {
    var t := ReadToken(s);
    if t.type_ != Comment then t else ReadPastComments(t.rest)
  }

  /** recoverFromError: tokens up to one of the given type, or to the end. */
  function Recover(s: string, until: Type): (rest: string)
    ensures |rest| <= |s|
    decreases |s|
  {
    var t := ReadToken(s);
    if t.type_ == until || t.type_ == EndOfStream then t.rest else Recover(t.rest, until)
  }

  /** All tokens up to the end. */
  function TokensOf(s: string): (ts: seq<Token>)
    ensures ts != [] && ts[|ts| - 1].type_ == EndOfStream
    decreases |s|
  {
    var t := ReadToken(s);
    if t.type_ == EndOfStream then [t] else [t] + TokensOf(t.rest)
  }

  /** Recovery stops behind the first of them that has the type, or else at the end. */
  lemma {:induction false} RecoverMeans(s: string, until: Type) returns (k: nat)
    ensures var ts := TokensOf(s);
            && k < |ts| && Recover(s, until) == ts[k].rest
            && (ts[k].type_ == until || k == |ts| - 1)
            && forall i :: 0 <= i < k ==> ts[i].type_ != until
    decreases |s|
  {
    var t := ReadToken(s);
    hide ReadToken;
    if t.type_ == until || t.type_ == EndOfStream {
      k := 0;
    } else {
      var j := RecoverMeans(t.rest, until);
      k := j + 1;
      assert forall i :: 1 <= i < |TokensOf(s)| ==> TokensOf(s)[i] == TokensOf(t.rest)[i - 1];
    }
  }
}
