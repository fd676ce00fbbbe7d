/** The incremental request parser of lib/http/request_parser.cpp and request_parser.hpp.

    A character is a byte; is_char refuses the upper half, whether `char` is signed or not. */
module RequestParser {
  import opened Decimal

  datatype Header = Header(name: string, value: string)

  datatype Request = Request(method_: string, uri: string, major: int, minor: int, headers: seq<Header>)

  datatype Verdict = Good | Bad | Indeterminate

  datatype State =
    | MethodStart | InMethod | InUri
    | HttpVersionH | HttpVersionT1 | HttpVersionT2 | HttpVersionP | HttpVersionSlash
    | HttpVersionMajorStart | HttpVersionMajor | HttpVersionMinorStart | HttpVersionMinor
    | ExpectingNewline1 | HeaderLineStart | HeaderLws | HeaderName | SpaceBeforeHeaderValue | HeaderValue
    | ExpectingNewline2 | ExpectingNewline3

  // ----- Character classes -----

  predicate IsChar(c: char) {
    c as int <= 127
  }

  predicate IsCtl(c: char) {
    c as int <= 31 || c as int == 127
  }

  predicate IsTspecial(c: char) {
    c == '(' || c == ')' || c == '<' || c == '>' || c == '@' || c == ',' || c == ';' || c == ':' || c == '\\' ||
    c == '"' || c == '/' || c == '[' || c == ']' || c == '?' || c == '=' || c == '{' || c == '}' || c == ' ' ||
    c == '\t'
  }

  predicate IsToken(c: char) {
    IsChar(c) && !IsCtl(c) && !IsTspecial(c)
  }

  /** The characters of a token, in the order of their codes. */
  lemma TokenCharacters(c: char)
    ensures IsToken(c) <==>
            || c == '!' || '#' <= c <= '\'' || c == '*' || c == '+' || c == '-' || c == '.' || '0' <= c <= '9'
            || 'A' <= c <= 'Z' || '^' <= c <= 'z' || c == '|' || c == '~'
  {
  }

  // ----- One character -----

  /** The parser and the request it fills. */
  datatype Machine = Machine(state: State, req: Request)
  {
    /** States that write to the last header have one to write to. */
    predicate Valid() {
      state in {HeaderLws, HeaderName, SpaceBeforeHeaderValue, HeaderValue, ExpectingNewline2} ==> req.headers != []
    }

    function To(s: State): Machine {
      Machine(s, req)
    }

    function PushName(c: char): Machine
      requires req.headers != []
    {
      var last := |req.headers| - 1;
      var h := req.headers[last];
      Machine(HeaderName, req.(headers := req.headers[last := Header(h.name + [c], h.value)]))
    }

    function PushValue(c: char): Machine
      requires req.headers != []
    {
      var last := |req.headers| - 1;
      var h := req.headers[last];
      Machine(HeaderValue, req.(headers := req.headers[last := Header(h.name, h.value + [c])]))
    }
  }

  datatype Consumed = Consumed(verdict: Verdict, machine: Machine)

  function Digit(n: int, c: char): int {
    n * 10 + c as int - '0' as int
  }

  function Next(m: Machine, c: char): (r: Consumed)
    requires m.Valid()
    ensures r.machine.Valid()
  {
    var bad := Consumed(Bad, m);
    match m.state
    case MethodStart =>
      if !IsToken(c) then bad
      else Consumed(Indeterminate, Machine(InMethod, m.req.(method_ := m.req.method_ + [c])))
    case InMethod =>
      if c == ' ' then Consumed(Indeterminate, m.To(InUri))
      else if !IsToken(c) then bad
      else Consumed(Indeterminate, Machine(InMethod, m.req.(method_ := m.req.method_ + [c])))
    case InUri =>
      if c == ' ' then Consumed(Indeterminate, m.To(HttpVersionH))
      else if IsCtl(c) then bad
      else Consumed(Indeterminate, Machine(InUri, m.req.(uri := m.req.uri + [c])))
    case HttpVersionH => if c == 'H' then Consumed(Indeterminate, m.To(HttpVersionT1)) else bad
    case HttpVersionT1 => if c == 'T' then Consumed(Indeterminate, m.To(HttpVersionT2)) else bad
    case HttpVersionT2 => if c == 'T' then Consumed(Indeterminate, m.To(HttpVersionP)) else bad
    case HttpVersionP => if c == 'P' then Consumed(Indeterminate, m.To(HttpVersionSlash)) else bad
    case HttpVersionSlash =>
      if c == '/' then Consumed(Indeterminate, Machine(HttpVersionMajorStart, m.req.(major := 0, minor := 0))) else bad
    case HttpVersionMajorStart =>
      if IsDigit(c)
      then Consumed(Indeterminate, Machine(HttpVersionMajor, m.req.(major := Digit(m.req.major, c))))
      else bad
    case HttpVersionMajor =>
      if c == '.' then Consumed(Indeterminate, m.To(HttpVersionMinorStart))
      else if IsDigit(c) then Consumed(Indeterminate, Machine(HttpVersionMajor, m.req.(major := Digit(m.req.major, c))))
      else bad
    case HttpVersionMinorStart =>
      if IsDigit(c)
      then Consumed(Indeterminate, Machine(HttpVersionMinor, m.req.(minor := Digit(m.req.minor, c))))
      else bad
    case HttpVersionMinor =>
      if c == '\r' then Consumed(Indeterminate, m.To(ExpectingNewline1))
      else if IsDigit(c) then Consumed(Indeterminate, Machine(HttpVersionMinor, m.req.(minor := Digit(m.req.minor, c))))
      else bad
    case ExpectingNewline1 => if c == '\n' then Consumed(Indeterminate, m.To(HeaderLineStart)) else bad
    case HeaderLineStart =>
      if c == '\r' then Consumed(Indeterminate, m.To(ExpectingNewline3))
      else if m.req.headers != [] && (c == ' ' || c == '\t') then Consumed(Indeterminate, m.To(HeaderLws))
      else if !IsToken(c) then bad
      else Consumed(Indeterminate, Machine(HeaderName, m.req.(headers := m.req.headers + [Header([c], "")])))
    case HeaderLws =>
      if c == '\r' then Consumed(Indeterminate, m.To(ExpectingNewline2))
      else if c == ' ' || c == '\t' then Consumed(Indeterminate, m)
      else if IsCtl(c) then bad
      else Consumed(Indeterminate, m.PushValue(c))
    case HeaderName =>
      if c == ':' then Consumed(Indeterminate, m.To(SpaceBeforeHeaderValue))
      else if !IsToken(c) then bad
      else Consumed(Indeterminate, m.PushName(c))
    case SpaceBeforeHeaderValue => if c == ' ' then Consumed(Indeterminate, m.To(HeaderValue)) else bad
    case HeaderValue =>
      if c == '\r' then Consumed(Indeterminate, m.To(ExpectingNewline2))
      else if IsCtl(c) then bad
      else Consumed(Indeterminate, m.PushValue(c))
    case ExpectingNewline2 => if c == '\n' then Consumed(Indeterminate, m.To(HeaderLineStart)) else bad
    case ExpectingNewline3 => if c == '\n' then Consumed(Good, m) else bad
  }

  // ----- A piece of input -----

  /** used: how much of the input has been consumed. */
  datatype Outcome = Outcome(verdict: Verdict, machine: Machine, used: nat)

  function Read(m: Machine, text: string): (o: Outcome)
    requires m.Valid()
    ensures o.machine.Valid() && o.used <= |text| && (o.verdict == Indeterminate ==> o.used == |text|)
    ensures o.verdict != Indeterminate ==> o.used > 0
    decreases |text|
  {
    if text == "" then Outcome(Indeterminate, m, 0)
    else
      var r := Next(m, text[0]);
      if r.verdict != Indeterminate then Outcome(r.verdict, r.machine, 1)
      else
        var o := Read(r.machine, text[1..]);
        Outcome(o.verdict, o.machine, 1 + o.used)
  }

  /** Reading on where an indeterminate result left off is reading both pieces at once; a final
      result does not look at what follows. */
  lemma {:induction false} ReadConcat(m: Machine, a: string, b: string)
    requires m.Valid()
    ensures var o := Read(m, a);
            Read(m, a + b) ==
            if o.verdict != Indeterminate then o
            else var p := Read(o.machine, b); Outcome(p.verdict, p.machine, |a| + p.used)
    decreases |a|
  {
    if a == "" {
      assert a + b == b;
    } else {
      assert (a + b)[0] == a[0] && (a + b)[1..] == a[1..] + b;
      hide Next;
      var r := Next(m, a[0]);
      if r.verdict == Indeterminate {
        ReadConcat(r.machine, a[1..], b);
      }
    }
  }

  function Flatten(chunks: seq<string>): string {
    if chunks == [] then "" else chunks[0] + Flatten(chunks[1..])
  }

  /** parse() on one chunk after the other, until the result is final. */
  function ReadChunks(m: Machine, chunks: seq<string>): Outcome
    requires m.Valid()
    decreases |chunks|
  {
    if chunks == [] then Outcome(Indeterminate, m, 0)
    else
      var o := Read(m, chunks[0]);
      if o.verdict != Indeterminate then o
      else var p := ReadChunks(o.machine, chunks[1..]); Outcome(p.verdict, p.machine, |chunks[0]| + p.used)
  }

  /** However the input is cut, the result is that of parsing it in one piece. */
  lemma {:induction false} ChunksDoNotMatter(m: Machine, chunks: seq<string>)
    requires m.Valid()
    ensures ReadChunks(m, chunks) == Read(m, Flatten(chunks))
    decreases |chunks|
  {
    if chunks != [] {
      var o := Read(m, chunks[0]);
      ReadConcat(m, chunks[0], Flatten(chunks[1..]));
      if o.verdict == Indeterminate {
        ChunksDoNotMatter(o.machine, chunks[1..]);
      }
    }
  }

  // ----- The objects -----

  class RequestObject {
    var method_: string
    var uri: string
    var major: int
    var minor: int
    var headers: seq<Header>

    constructor ()
      ensures V() == Request("", "", 0, 0, [])
    {
      method_, uri, major, minor, headers := "", "", 0, 0, [];
    }

    function V(): Request
      reads this
    {
      Request(method_, uri, major, minor, headers)
    }
  }

  class Parser {
    var state: State

    constructor ()
      ensures state == MethodStart
    {
      state := MethodStart;
    }

    ghost function M(req: RequestObject): Machine
      reads this, req
    {
      Machine(state, req.V())
    }

    method PushName(req: RequestObject, c: char)
      requires req.headers != []
      modifies req`headers
      ensures M(req) == old(M(req)).PushName(c).To(state)
    {
      var last := |req.headers| - 1;
      req.headers := req.headers[last := Header(req.headers[last].name + [c], req.headers[last].value)];
    }

    method PushValue(req: RequestObject, c: char)
      requires req.headers != []
      modifies req`headers
      ensures M(req) == old(M(req)).PushValue(c).To(state)
    {
      var last := |req.headers| - 1;
      req.headers := req.headers[last := Header(req.headers[last].name, req.headers[last].value + [c])];
    }

    method Consume(req: RequestObject, input: char) returns (r: Verdict)
      requires M(req).Valid()
      modifies this, req
      ensures Consumed(r, M(req)) == Next(old(M(req)), input)
    {
      r := Indeterminate;
      match state {
        case MethodStart =>
          if !IsChar(input) || IsCtl(input) || IsTspecial(input) { return Bad; }
          state := InMethod;
          req.method_ := req.method_ + [input];
        case InMethod =>
          if input == ' ' { state := InUri; return; }
          if !IsChar(input) || IsCtl(input) || IsTspecial(input) { return Bad; }
          req.method_ := req.method_ + [input];
        case InUri =>
          if input == ' ' { state := HttpVersionH; return; }
          if IsCtl(input) { return Bad; }
          req.uri := req.uri + [input];
        case HttpVersionH =>
          if input != 'H' { return Bad; }
          state := HttpVersionT1;
        case HttpVersionT1 =>
          if input != 'T' { return Bad; }
          state := HttpVersionT2;
        case HttpVersionT2 =>
          if input != 'T' { return Bad; }
          state := HttpVersionP;
        case HttpVersionP =>
          if input != 'P' { return Bad; }
          state := HttpVersionSlash;
        case HttpVersionSlash =>
          if input != '/' { return Bad; }
          req.major, req.minor := 0, 0;
          state := HttpVersionMajorStart;
        case HttpVersionMajorStart =>
          if !IsDigit(input) { return Bad; }
          req.major := req.major * 10 + input as int - '0' as int;
          state := HttpVersionMajor;
        case HttpVersionMajor =>
          if input == '.' { state := HttpVersionMinorStart; return; }
          if !IsDigit(input) { return Bad; }
          req.major := req.major * 10 + input as int - '0' as int;
        case HttpVersionMinorStart =>
          if !IsDigit(input) { return Bad; }
          req.minor := req.minor * 10 + input as int - '0' as int;
          state := HttpVersionMinor;
        case HttpVersionMinor =>
          if input == '\r' { state := ExpectingNewline1; return; }
          if !IsDigit(input) { return Bad; }
          req.minor := req.minor * 10 + input as int - '0' as int;
        case ExpectingNewline1 =>
          if input != '\n' { return Bad; }
          state := HeaderLineStart;
        case HeaderLineStart =>
          if input == '\r' { state := ExpectingNewline3; return; }
          if req.headers != [] && (input == ' ' || input == '\t') { state := HeaderLws; return; }
          if !IsChar(input) || IsCtl(input) || IsTspecial(input) { return Bad; }
          ghost var before := req.headers;
          req.headers := req.headers + [Header("", "")];
          PushName(req, input);
          assert "" + [input] == [input];
          assert req.headers == before + [Header([input], "")];
          state := HeaderName;
        case HeaderLws =>
          if input == '\r' { state := ExpectingNewline2; return; }
          if input == ' ' || input == '\t' { return; }
          if IsCtl(input) { return Bad; }
          state := HeaderValue;
          PushValue(req, input);
        case HeaderName =>
          if input == ':' { state := SpaceBeforeHeaderValue; return; }
          if !IsChar(input) || IsCtl(input) || IsTspecial(input) { return Bad; }
          PushName(req, input);
        case SpaceBeforeHeaderValue =>
          if input != ' ' { return Bad; }
          state := HeaderValue;
        case HeaderValue =>
          if input == '\r' { state := ExpectingNewline2; return; }
          if IsCtl(input) { return Bad; }
          PushValue(req, input);
        case ExpectingNewline2 =>
          if input != '\n' { return Bad; }
          state := HeaderLineStart;
        case ExpectingNewline3 =>
          r := if input == '\n' then Good else Bad;
      }
    }

    method Parse(req: RequestObject, input: string) returns (r: Verdict, used: nat)
      requires M(req).Valid()
      modifies this, req
      ensures Outcome(r, M(req), used) == Read(old(M(req)), input)
    {
      hide Next;
      used := 0;
      while used < |input|
        invariant used <= |input| && M(req).Valid()
        invariant var o := Read(M(req), input[used..]);
                  Read(old(M(req)), input) == Outcome(o.verdict, o.machine, used + o.used)
      {
        ghost var rest := input[used..];
        assert rest[0] == input[used] && rest[1..] == input[used + 1..];
        r := Consume(req, input[used]);
        used := used + 1;
        if r == Good || r == Bad {
          return;
        }
      }
      r := Indeterminate;
    }
  }

  // ----- The language of requests -----

  /** A continuation line: white space, and text that does not start with any. */
  datatype Fold = Fold(lws: string, text: string)
  {
    predicate Valid() {
      lws != "" && AllLws(lws) && AllText(text) && (text != "" ==> text[0] != ' ')
    }
  }

  datatype Line = Line(name: string, first: string, folds: seq<Fold>)
  {
    predicate Valid() {
      name != "" && AllToken(name) && AllText(first) && forall i :: 0 <= i < |folds| ==> folds[i].Valid()
    }
  }

  datatype Sentence = Sentence(method_: string, uri: string, major: string, minor: string, lines: seq<Line>)
  {
    predicate Valid() {
      && method_ != "" && AllToken(method_) && AllUri(uri)
      && major != "" && AllDigits(major) && minor != "" && AllDigits(minor)
      && forall i :: 0 <= i < |lines| ==> lines[i].Valid()
    }
  }

  predicate AllToken(s: string) { forall i :: 0 <= i < |s| ==> IsToken(s[i]) }

  predicate AllUri(s: string) { forall i :: 0 <= i < |s| ==> !IsCtl(s[i]) && s[i] != ' ' }

  predicate AllLws(s: string) { forall i :: 0 <= i < |s| ==> s[i] == ' ' || s[i] == '\t' }

  predicate AllText(s: string) { forall i :: 0 <= i < |s| ==> !IsCtl(s[i]) }

  const CRLF: string := "\r\n"

  function FoldsText(folds: seq<Fold>): string {
    if folds == [] then ""
    else FoldsText(folds[..|folds| - 1]) + folds[|folds| - 1].lws + folds[|folds| - 1].text + CRLF
  }

  function LineText(l: Line): string {
    l.name + ": " + l.first + CRLF + FoldsText(l.folds)
  }

  function LinesText(lines: seq<Line>): string {
    if lines == [] then "" else LinesText(lines[..|lines| - 1]) + LineText(lines[|lines| - 1])
  }

  /** The request line and the headers, up to the empty line. */
  function RequestLine(s: Sentence): string {
    s.method_ + " " + s.uri + " HTTP/" + s.major + "." + s.minor + CRLF
  }

  function SentenceText(s: Sentence): string {
    RequestLine(s) + LinesText(s.lines) + CRLF
  }

  function Number(digits: string): int {
    if digits == "" then 0 else Digit(Number(digits[..|digits| - 1]), digits[|digits| - 1])
  }

  /** It is the number that the digits denote. */
  lemma {:induction false} NumberDenotes(digits: string)
    requires AllDigits(digits)
    ensures Number(digits) == Denoted(digits)
    decreases |digits|
  {
    if digits != "" {
      NumberDenotes(digits[..|digits| - 1]);
    }
  }

  function FoldsValue(folds: seq<Fold>): string {
    if folds == [] then "" else FoldsValue(folds[..|folds| - 1]) + folds[|folds| - 1].text
  }

  function LineHeader(l: Line): Header {
    Header(l.name, l.first + FoldsValue(l.folds))
  }

  function LineHeaders(lines: seq<Line>): (headers: seq<Header>)
    ensures |headers| == |lines|
  {
    if lines == [] then [] else LineHeaders(lines[..|lines| - 1]) + [LineHeader(lines[|lines| - 1])]
  }

  function Meaning(s: Sentence): Request {
    Request(s.method_, s.uri, Number(s.major), Number(s.minor), LineHeaders(s.lines))
  }

  const START: Machine := Machine(MethodStart, Request("", "", 0, 0, []))

  // ----- Sentences are accepted -----

  ghost predicate Reaches(m: Machine, text: string, n: Machine) {
    m.Valid() && n.Valid() && Read(m, text) == Outcome(Indeterminate, n, |text|)
  }

  lemma Then(m: Machine, a: string, n: Machine, b: string, k: Machine)
    requires Reaches(m, a, n) && Reaches(n, b, k)
    ensures Reaches(m, a + b, k)
  {
    ReadConcat(m, a, b);
  }

  lemma Stays(m: Machine)
    requires m.Valid()
    ensures Reaches(m, "", m)
  {
  }

  lemma OneStep(m: Machine, c: char, n: Machine)
    requires m.Valid() && Next(m, c) == Consumed(Indeterminate, n)
    ensures Reaches(m, [c], n)
  {
    assert [c][0] == c && [c][1..] == "";
    assert Read(n, "") == Outcome(Indeterminate, n, 0);
    hide Next;
  }

  /** What a state that loops on its characters collects. */
  function Collect(m: Machine, text: string): Machine
    requires m.Valid()
    requires m.state in {InMethod, InUri, HttpVersionMajor, HttpVersionMinor, HeaderName, HeaderValue, HeaderLws}
  {
    match m.state
    case InMethod => Machine(InMethod, m.req.(method_ := m.req.method_ + text))
    case InUri => Machine(InUri, m.req.(uri := m.req.uri + text))
    case HttpVersionMajor => Machine(HttpVersionMajor, m.req.(major := Append(m.req.major, text)))
    case HttpVersionMinor => Machine(HttpVersionMinor, m.req.(minor := Append(m.req.minor, text)))
    case HeaderName => SetLast(m, LastHeader(m).name + text, LastHeader(m).value)
    case HeaderValue => SetLast(m, LastHeader(m).name, LastHeader(m).value + text)
    case _ => m
  }

  function Append(n: int, digits: string): int
    decreases |digits|
  {
    if digits == "" then n else Append(Digit(n, digits[0]), digits[1..])
  }

  function LastHeader(m: Machine): Header
    requires m.req.headers != []
  {
    m.req.headers[|m.req.headers| - 1]
  }

  function SetLast(m: Machine, name: string, value: string): Machine
    requires m.req.headers != []
  {
    Machine(m.state, m.req.(headers := m.req.headers[|m.req.headers| - 1 := Header(name, value)]))
  }

  predicate Collectable(s: State, c: char) {
    match s
    case InMethod => IsToken(c)
    case InUri => !IsCtl(c) && c != ' '
    case HttpVersionMajor => IsDigit(c)
    case HttpVersionMinor => IsDigit(c)
    case HeaderName => IsToken(c)
    case HeaderValue => !IsCtl(c)
    case HeaderLws => c == ' ' || c == '\t'
    case _ => false
  }

  lemma CollectOne(m: Machine, c: char)
    requires m.Valid()
    requires m.state in {InMethod, InUri, HttpVersionMajor, HttpVersionMinor, HeaderName, HeaderValue, HeaderLws}
    requires Collectable(m.state, c)
    ensures Next(m, c) == Consumed(Indeterminate, Collect(m, [c])) && Collect(m, [c]).Valid()
  {
    assert Append(m.req.major, [c]) == Digit(m.req.major, c) by { assert [c][1..] == ""; }
    assert Append(m.req.minor, [c]) == Digit(m.req.minor, c) by { assert [c][1..] == ""; }
  }

  lemma {:induction false} CollectAll(m: Machine, text: string)
    requires m.Valid()
    requires m.state in {InMethod, InUri, HttpVersionMajor, HttpVersionMinor, HeaderName, HeaderValue, HeaderLws}
    requires forall i :: 0 <= i < |text| ==> Collectable(m.state, text[i])
    ensures Reaches(m, text, Collect(m, text))
    decreases |text|
  {
    if text == "" {
      CollectNothing(m);
    } else {
      var c, rest := text[0], text[1..];
      CollectOne(m, c);
      var n := Collect(m, [c]);
      OneStep(m, c, n);
      CollectAll(n, rest);
      Then(m, [c], n, rest, Collect(n, rest));
      assert [c] + rest == text;
      CollectMore(m, c, rest);
    }
  }

  lemma CollectNothing(m: Machine)
    requires m.Valid()
    requires m.state in {InMethod, InUri, HttpVersionMajor, HttpVersionMinor, HeaderName, HeaderValue, HeaderLws}
    ensures Collect(m, "") == m
  {
    assert m.req.method_ + "" == m.req.method_ && m.req.uri + "" == m.req.uri;
    if m.req.headers != [] {
      assert LastHeader(m).name + "" == LastHeader(m).name && LastHeader(m).value + "" == LastHeader(m).value;
    }
  }

  lemma CollectMore(m: Machine, c: char, rest: string)
    requires m.Valid()
    requires m.state in {InMethod, InUri, HttpVersionMajor, HttpVersionMinor, HeaderName, HeaderValue, HeaderLws}
    ensures Collect(m, [c]).Valid() && Collect(Collect(m, [c]), rest) == Collect(m, [c] + rest)
  {
    assert m.req.method_ + ([c] + rest) == m.req.method_ + [c] + rest;
    assert m.req.uri + ([c] + rest) == m.req.uri + [c] + rest;
    assert ([c] + rest)[1..] == rest && [c][1..] == "";
    assert Append(m.req.major, [c]) == Digit(m.req.major, c) && Append(m.req.minor, [c]) == Digit(m.req.minor, c);
    if m.req.headers != [] {
      var h := LastHeader(m);
      assert h.name + ([c] + rest) == h.name + [c] + rest && h.value + ([c] + rest) == h.value + [c] + rest;
    }
  }

  lemma {:induction false} AppendIsNumber(digits: string, k: nat)
    requires k <= |digits|
    ensures Append(Number(digits[..k]), digits[k..]) == Number(digits)
    decreases |digits| - k
  {
    if k == |digits| {
      assert digits[..k] == digits;
    } else {
      assert digits[..k + 1][..k] == digits[..k] && digits[k..][1..] == digits[k + 1..];
      AppendIsNumber(digits, k + 1);
    }
  }

  /** A machine that needs a first character before it starts to collect. */
  lemma FirstThenRest(m: Machine, text: string, n: Machine)
    requires text != "" && m.Valid() && Next(m, text[0]) == Consumed(Indeterminate, n)
    requires n.state in {InMethod, InUri, HttpVersionMajor, HttpVersionMinor, HeaderName, HeaderValue, HeaderLws}
    requires forall i :: 1 <= i < |text| ==> Collectable(n.state, text[i])
    ensures n.Valid() && Reaches(m, text, Collect(n, text[1..]))
  {
    OneStep(m, text[0], n);
    hide Next;
    CollectAll(n, text[1..]);
    Then(m, [text[0]], n, text[1..], Collect(n, text[1..]));
    assert [text[0]] + text[1..] == text;
  }

  lemma AndStep(m: Machine, text: string, n: Machine, c: char, k: Machine)
    requires Reaches(m, text, n) && Next(n, c) == Consumed(Indeterminate, k)
    ensures Reaches(m, text + [c], k)
  {
    OneStep(n, c, k);
    Then(m, text, n, [c], k);
  }

  lemma AcceptsMethod(method_: string)
    requires method_ != "" && AllToken(method_)
    ensures Reaches(START, method_, Machine(InMethod, Request(method_, "", 0, 0, [])))
  {
    hide Reaches, Read;
    var n := Machine(InMethod, Request([method_[0]], "", 0, 0, []));
    assert "" + [method_[0]] == [method_[0]];
    FirstThenRest(START, method_, n);
    assert [method_[0]] + method_[1..] == method_;
  }

  lemma AcceptsUri(method_: string, uri: string)
    requires method_ != "" && AllToken(method_) && AllUri(uri)
    ensures Reaches(START, method_ + " " + uri, Machine(InUri, Request(method_, uri, 0, 0, [])))
  {
    hide Reaches, Read;
    AcceptsMethod(method_);
    var m := Machine(InUri, Request(method_, "", 0, 0, []));
    AndStep(START, method_, Machine(InMethod, Request(method_, "", 0, 0, [])), ' ', m);
    CollectAll(m, uri);
    assert "" + uri == uri;
    Then(START, method_ + " ", m, uri, Collect(m, uri));
  }

  lemma AcceptsHttp(r: Request)
    ensures Reaches(Machine(InUri, r), " HTTP/", Machine(HttpVersionMajorStart, r.(major := 0, minor := 0)))
  {
    hide Reaches, Read;
    var m := Machine(InUri, r);
    assert " " + "H" == " H" && " H" + "T" == " HT" && " HT" + "T" == " HTT" && " HTT" + "P" == " HTTP" &&
           " HTTP" + "/" == " HTTP/";
    OneStep(m, ' ', m.To(HttpVersionH));
    AndStep(m, " ", m.To(HttpVersionH), 'H', m.To(HttpVersionT1));
    AndStep(m, " H", m.To(HttpVersionT1), 'T', m.To(HttpVersionT2));
    AndStep(m, " HT", m.To(HttpVersionT2), 'T', m.To(HttpVersionP));
    AndStep(m, " HTT", m.To(HttpVersionP), 'P', m.To(HttpVersionSlash));
    AndStep(m, " HTTP", m.To(HttpVersionSlash), '/', Machine(HttpVersionMajorStart, r.(major := 0, minor := 0)));
  }

  lemma AcceptsMajor(r: Request, major: string)
    requires r.major == 0 && major != "" && AllDigits(major)
    ensures Reaches(Machine(HttpVersionMajorStart, r), major, Machine(HttpVersionMajor, r.(major := Number(major))))
  {
    hide Reaches, Read;
    var n := Machine(HttpVersionMajor, r.(major := Digit(0, major[0])));
    FirstThenRest(Machine(HttpVersionMajorStart, r), major, n);
    assert Append(0, major) == Append(Digit(0, major[0]), major[1..]);
    assert major[0..] == major && major[..0] == "";
    AppendIsNumber(major, 0);
  }

  lemma AcceptsMinor(r: Request, minor: string)
    requires r.minor == 0 && minor != "" && AllDigits(minor)
    ensures Reaches(Machine(HttpVersionMinorStart, r), minor, Machine(HttpVersionMinor, r.(minor := Number(minor))))
  {
    hide Reaches, Read;
    var n := Machine(HttpVersionMinor, r.(minor := Digit(0, minor[0])));
    FirstThenRest(Machine(HttpVersionMinorStart, r), minor, n);
    assert Append(0, minor) == Append(Digit(0, minor[0]), minor[1..]);
    assert minor[0..] == minor && minor[..0] == "";
    AppendIsNumber(minor, 0);
  }

  lemma AcceptsVersion(r: Request, major: string, minor: string)
    requires r.major == r.minor == 0 && major != "" && AllDigits(major) && minor != "" && AllDigits(minor)
    ensures Reaches(Machine(HttpVersionMajorStart, r), major + "." + minor + CRLF,
                    Machine(HeaderLineStart, r.(major := Number(major), minor := Number(minor))))
  {
    hide Reaches, Read;
    var m, r1 := Machine(HttpVersionMajorStart, r), r.(major := Number(major));
    var r2 := r1.(minor := Number(minor));
    AcceptsMajor(r, major);
    AndStep(m, major, Machine(HttpVersionMajor, r1), '.', Machine(HttpVersionMinorStart, r1));
    AcceptsMinor(r1, minor);
    Then(m, major + ".", Machine(HttpVersionMinorStart, r1), minor, Machine(HttpVersionMinor, r2));
    AndStep(m, major + "." + minor, Machine(HttpVersionMinor, r2), '\r', Machine(ExpectingNewline1, r2));
    AndStep(m, major + "." + minor + "\r", Machine(ExpectingNewline1, r2), '\n', Machine(HeaderLineStart, r2));
    assert major + "." + minor + "\r" + "\n" == major + "." + minor + CRLF;
  }

  lemma AcceptsRequestLine(s: Sentence)
    requires s.Valid()
    ensures Reaches(START, RequestLine(s),
                    Machine(HeaderLineStart, Request(s.method_, s.uri, Number(s.major), Number(s.minor), [])))
  {
    hide Reaches;
    var r := Request(s.method_, s.uri, 0, 0, []);
    AcceptsUri(s.method_, s.uri);
    AcceptsHttp(r);
    Then(START, s.method_ + " " + s.uri, Machine(InUri, r), " HTTP/", Machine(HttpVersionMajorStart, r));
    AcceptsVersion(r, s.major, s.minor);
    var end := Machine(HeaderLineStart, r.(major := Number(s.major), minor := Number(s.minor)));
    Then(START, s.method_ + " " + s.uri + " HTTP/", Machine(HttpVersionMajorStart, r), s.major + "." + s.minor + CRLF,
         end);
    assert s.method_ + " " + s.uri + " HTTP/" + (s.major + "." + s.minor + CRLF) == RequestLine(s);
  }

  lemma AcceptsFold(m: Machine, f: Fold)
    requires m.state == HeaderLineStart && m.req.headers != [] && f.Valid()
    ensures Reaches(m, f.lws + f.text + CRLF, SetLast(m, LastHeader(m).name, LastHeader(m).value + f.text))
  {
    hide Reaches, Read;
    var n := m.To(HeaderLws);
    FirstThenRest(m, f.lws, n);
    var v := SetLast(m, LastHeader(m).name, LastHeader(m).value + f.text);
    if f.text == "" {
      assert LastHeader(m).value + "" == LastHeader(m).value && f.lws + "" == f.lws;
      assert v == m;
      AcceptsNewline(m, f.lws, n);
    } else {
      var u := n.PushValue(f.text[0]);
      FirstThenRest(n, f.text, u);
      assert LastHeader(m).value + [f.text[0]] + f.text[1..] == LastHeader(m).value + f.text;
      assert Collect(u, f.text[1..]) == v.To(HeaderValue);
      Then(m, f.lws, n, f.text, v.To(HeaderValue));
      assert v.To(HeaderValue).To(HeaderLineStart) == v;
      AcceptsNewline(m, f.lws + f.text, v.To(HeaderValue));
    }
  }

  lemma Regroup(a: string, b: string, c: string)
    ensures a + (b + c) == a + b + c
  {
  }

  lemma SetLastTwice(m: Machine, name: string, v: string, w: string)
    requires m.req.headers != []
    ensures var n := SetLast(m, name, v);
            n.state == m.state && n.req.headers != [] && LastHeader(n) == Header(name, v) &&
              SetLast(n, name, w) == SetLast(m, name, w)
  {
  }

  lemma {:induction false} AcceptsFolds(m: Machine, folds: seq<Fold>)
    requires m.state == HeaderLineStart && m.req.headers != [] && forall i :: 0 <= i < |folds| ==> folds[i].Valid()
    ensures Reaches(m, FoldsText(folds), SetLast(m, LastHeader(m).name, LastHeader(m).value + FoldsValue(folds)))
    decreases |folds|
  {
    hide Reaches, Read;
    var h := LastHeader(m);
    if folds == [] {
      assert h.value + "" == h.value;
      assert SetLast(m, h.name, h.value) == m;
      Stays(m);
    } else {
      var front, f := folds[..|folds| - 1], folds[|folds| - 1];
      assert f.Valid();
      Regroup(h.value, FoldsValue(front), f.text);
      Regroup(FoldsText(front), f.lws, f.text);
      Regroup(FoldsText(front), f.lws + f.text, CRLF);
      hide FoldsText, FoldsValue, Fold.Valid;
      AcceptsFolds(m, front);
      var n := SetLast(m, h.name, h.value + FoldsValue(front));
      var k := SetLast(m, h.name, h.value + FoldsValue(folds));
      SetLastTwice(m, h.name, h.value + FoldsValue(front), h.value + FoldsValue(folds));
      hide SetLast, LastHeader;
      AcceptsFold(n, f);
      Then(m, FoldsText(front), n, f.lws + f.text + CRLF, k);
    }
  }

  lemma AcceptsName(m: Machine, name: string)
    requires m.state == HeaderLineStart && name != "" && AllToken(name)
    ensures Reaches(m, name + ": ", Machine(HeaderValue, m.req.(headers := m.req.headers + [Header(name, "")])))
  {
    hide Reaches, Read;
    var n := Machine(HeaderName, m.req.(headers := m.req.headers + [Header([name[0]], "")]));
    var k := Machine(HeaderName, m.req.(headers := m.req.headers + [Header(name, "")]));
    assert name[0] != ' ' && name[0] != '\t' && name[0] != '\r';
    FirstThenRest(m, name, n);
    assert [name[0]] + name[1..] == name && Collect(n, name[1..]) == k;
    AndStep(m, name, k, ':', k.To(SpaceBeforeHeaderValue));
    AndStep(m, name + ":", k.To(SpaceBeforeHeaderValue), ' ', k.To(HeaderValue));
    assert name + ":" + " " == name + ": ";
  }

  /** The end of a header line. */
  lemma AcceptsNewline(m: Machine, text: string, v: Machine)
    requires Reaches(m, text, v) && (v.state == HeaderValue || v.state == HeaderLws)
    ensures Reaches(m, text + CRLF, v.To(HeaderLineStart))
  {
    AndStep(m, text, v, '\r', v.To(ExpectingNewline2));
    hide Reaches, Read;
    AndStep(m, text + "\r", v.To(ExpectingNewline2), '\n', v.To(HeaderLineStart));
    assert text + "\r" + "\n" == text + CRLF;
  }

  /** The first line of a header. */
  lemma AcceptsFirstLine(m: Machine, name: string, value: string)
    requires m.state == HeaderLineStart && name != "" && AllToken(name) && AllText(value)
    ensures Reaches(m, name + ": " + value + CRLF,
                    Machine(HeaderLineStart, m.req.(headers := m.req.headers + [Header(name, value)])))
  {
    hide Reaches, Read, Next;
    var k := Machine(HeaderValue, m.req.(headers := m.req.headers + [Header(name, "")]));
    var v := Machine(HeaderValue, m.req.(headers := m.req.headers + [Header(name, value)]));
    AcceptsName(m, name);
    CollectAll(k, value);
    assert "" + value == value && Collect(k, value) == v;
    Then(m, name + ": ", k, value, v);
    AcceptsNewline(m, name + ": " + value, v);
  }

  lemma AcceptsLine(m: Machine, l: Line)
    requires m.state == HeaderLineStart && l.Valid()
    ensures Reaches(m, LineText(l), Machine(HeaderLineStart, m.req.(headers := m.req.headers + [LineHeader(l)])))
  {
    hide Reaches, Read;
    AcceptsFirstLine(m, l.name, l.first);
    var n := Machine(HeaderLineStart, m.req.(headers := m.req.headers + [Header(l.name, l.first)]));
    AcceptsFolds(n, l.folds);
    var k := Machine(HeaderLineStart, m.req.(headers := m.req.headers + [LineHeader(l)]));
    assert SetLast(n, l.name, l.first + FoldsValue(l.folds)) == k;
    Then(m, l.name + ": " + l.first + CRLF, n, FoldsText(l.folds), k);
  }

  lemma {:induction false} AcceptsLines(m: Machine, lines: seq<Line>)
    requires m.state == HeaderLineStart && forall i :: 0 <= i < |lines| ==> lines[i].Valid()
    ensures Reaches(m, LinesText(lines),
                    Machine(HeaderLineStart, m.req.(headers := m.req.headers + LineHeaders(lines))))
    decreases |lines|
  {
    hide Reaches, Read;
    if lines == [] {
      assert m.req.headers + [] == m.req.headers;
      Stays(m);
    } else {
      var front, l := lines[..|lines| - 1], lines[|lines| - 1];
      AcceptsLines(m, front);
      var n := Machine(HeaderLineStart, m.req.(headers := m.req.headers + LineHeaders(front)));
      AcceptsLine(n, l);
      var k := Machine(HeaderLineStart, m.req.(headers := m.req.headers + LineHeaders(lines)));
      assert m.req.headers + LineHeaders(front) + [LineHeader(l)] == m.req.headers + LineHeaders(lines);
      Then(m, LinesText(front), n, LineText(l), k);
    }
  }

  /** The empty line ends the request, whatever follows. */
  lemma AcceptsEnd(m: Machine, text: string, n: Machine, behind: string)
    requires Reaches(m, text, n) && n.state == HeaderLineStart
    ensures Read(m, text + CRLF + behind) == Outcome(Good, n.To(ExpectingNewline3), |text| + 2)
  {
    AndStep(m, text, n, '\r', n.To(ExpectingNewline3));
    var k := n.To(ExpectingNewline3);
    assert Read(k, "\n" + behind) == Outcome(Good, k, 1) by {
      assert ("\n" + behind)[0] == '\n';
    }
    ReadConcat(m, text + "\r", "\n" + behind);
    assert text + "\r" + ("\n" + behind) == text + CRLF + behind;
  }

  /** Every sentence is parsed, into what it means, and no character more is consumed. */
  lemma SentencesAreAccepted(s: Sentence, behind: string)
    requires s.Valid()
    ensures Read(START, SentenceText(s) + behind) ==
            Outcome(Good, Machine(ExpectingNewline3, Meaning(s)), |SentenceText(s)|)
    ensures Meaning(s).major == Denoted(s.major) && Meaning(s).minor == Denoted(s.minor)
  {
    NumberDenotes(s.major);
    NumberDenotes(s.minor);
    AcceptsRequestLine(s);
    var m := Machine(HeaderLineStart, Request(s.method_, s.uri, Number(s.major), Number(s.minor), []));
    AcceptsLines(m, s.lines);
    assert [] + LineHeaders(s.lines) == LineHeaders(s.lines);
    var n := Machine(HeaderLineStart, Meaning(s));
    Then(START, RequestLine(s), m, LinesText(s.lines), n);
    AcceptsEnd(START, RequestLine(s) + LinesText(s.lines), n, behind);
  }

  /** Whatever the version numbers are, they are read as printed. */
  lemma VersionIsRead(s: Sentence, n: nat, k: nat, behind: string)
    requires s.Valid() && s.major == Numeral(n) && s.minor == Numeral(k)
    ensures var o := Read(START, SentenceText(s) + behind);
            o.verdict == Good && o.machine.req.major == n && o.machine.req.minor == k
  {
    NumeralDenotes(n);
    NumeralDenotes(k);
    hide Numeral, Denoted, SentenceText, Read;
    SentencesAreAccepted(s, behind);
  }

  // ----- Only sentences are accepted -----

  /** A header line whose last newline is still to come. */
  function OpenLine(l: Line): string {
    if l.folds == [] then l.name + ": " + l.first
    else
      var last := |l.folds| - 1;
      l.name + ": " + l.first + CRLF + FoldsText(l.folds[..last]) + l.folds[last].lws + l.folds[last].text
  }

  lemma CloseLine(l: Line)
    ensures LineText(l) == OpenLine(l) + CRLF
  {
    if l.folds == [] {
      assert LineText(l) == l.name + ": " + l.first + CRLF + "";
    } else {
      var last := |l.folds| - 1;
      var a, b, f := l.name + ": " + l.first + CRLF, FoldsText(l.folds[..last]), l.folds[last];
      assert a + (b + f.lws + f.text + CRLF) == a + b + f.lws + f.text + CRLF;
    }
  }

  /** All lines but the last one. */
  function Front(s: Sentence): string
    requires s.lines != []
  {
    RequestLine(s) + LinesText(s.lines[..|s.lines| - 1])
  }

  function Last(s: Sentence): Line
    requires s.lines != []
  {
    s.lines[|s.lines| - 1]
  }

  /** The text of a request line that has been read up to `state`. */
  function LineSoFar(state: State, s: Sentence): string {
    match state
    case MethodStart => ""
    case InMethod => s.method_
    case InUri => s.method_ + " " + s.uri
    case HttpVersionH => s.method_ + " " + s.uri + " "
    case HttpVersionT1 => s.method_ + " " + s.uri + " H"
    case HttpVersionT2 => s.method_ + " " + s.uri + " HT"
    case HttpVersionP => s.method_ + " " + s.uri + " HTT"
    case HttpVersionSlash => s.method_ + " " + s.uri + " HTTP"
    case HttpVersionMajorStart => s.method_ + " " + s.uri + " HTTP/"
    case HttpVersionMajor => s.method_ + " " + s.uri + " HTTP/" + s.major
    case HttpVersionMinorStart => s.method_ + " " + s.uri + " HTTP/" + s.major + "."
    case HttpVersionMinor => s.method_ + " " + s.uri + " HTTP/" + s.major + "." + s.minor
    case ExpectingNewline1 => s.method_ + " " + s.uri + " HTTP/" + s.major + "." + s.minor + "\r"
    case _ => RequestLine(s)
  }

  /** How far into the request line a state is. */
  function Rank(state: State): nat {
    match state
    case MethodStart => 0
    case InMethod => 1
    case InUri => 2
    case HttpVersionH => 3
    case HttpVersionT1 => 4
    case HttpVersionT2 => 5
    case HttpVersionP => 6
    case HttpVersionSlash => 7
    case HttpVersionMajorStart => 8
    case HttpVersionMajor => 9
    case HttpVersionMinorStart => 10
    case HttpVersionMinor => 11
    case ExpectingNewline1 => 12
    case _ => 13
  }

  predicate HasOpenLine(state: State) {
    state in {HeaderLws, HeaderName, SpaceBeforeHeaderValue, HeaderValue, ExpectingNewline2}
  }

  /** The text that has been read when the parser is in `state` and has built s. */
  function SoFar(state: State, s: Sentence): string
    requires HasOpenLine(state) ==> s.lines != []
  {
    match state
    case HeaderLineStart => RequestLine(s) + LinesText(s.lines)
    case ExpectingNewline3 => RequestLine(s) + LinesText(s.lines) + "\r"
    case HeaderName => Front(s) + Last(s).name
    case SpaceBeforeHeaderValue => Front(s) + Last(s).name + ":"
    case HeaderLws => Front(s) + OpenLine(Last(s))
    case HeaderValue => Front(s) + OpenLine(Last(s))
    case ExpectingNewline2 => Front(s) + OpenLine(Last(s)) + "\r"
    case _ => LineSoFar(state, s)
  }

  predicate ClosedLines(lines: seq<Line>) {
    forall i :: 0 <= i < |lines| ==> lines[i].Valid()
  }

  /** The last line, as far as it has been read. */
  predicate OpenLineOk(state: State, l: Line) {
    match state
    case HeaderName => l.name != "" && AllToken(l.name) && l.first == "" && l.folds == []
    case SpaceBeforeHeaderValue => l.name != "" && AllToken(l.name) && l.first == "" && l.folds == []
    case HeaderLws => l.Valid() && l.folds != [] && l.folds[|l.folds| - 1].text == ""
    case HeaderValue => l.Valid() && (l.folds != [] ==> l.folds[|l.folds| - 1].text != "")
    case _ => l.Valid()
  }

  predicate RequestLineOk(m: Machine, s: Sentence) {
    && AllToken(s.method_) && AllUri(s.uri) && AllDigits(s.major) && AllDigits(s.minor)
    && m.req.method_ == s.method_ && m.req.uri == s.uri
    && (s.method_ != "" <==> Rank(m.state) >= 1)
    && (s.uri != "" ==> Rank(m.state) >= 2)
    && (s.major != "" <==> Rank(m.state) >= 9)
    && (s.minor != "" <==> Rank(m.state) >= 11)
    && (Rank(m.state) >= 8 ==> m.req.major == Number(s.major) && m.req.minor == Number(s.minor))
  }

  /** s is what the parser has read, as far as it has come. */
  predicate Builds(m: Machine, s: Sentence) {
    && RequestLineOk(m, s)
    && m.req.headers == LineHeaders(s.lines)
    && (Rank(m.state) < 13 ==> s.lines == [])
    && (if HasOpenLine(m.state) then
          s.lines != [] && ClosedLines(s.lines[..|s.lines| - 1]) && OpenLineOk(m.state, Last(s))
        else ClosedLines(s.lines))
  }

  lemma NumberSnoc(digits: string, c: char)
    ensures Number(digits + [c]) == Digit(Number(digits), c)
  {
    assert (digits + [c])[..|digits|] == digits;
  }

  lemma StepMethod(m: Machine, c: char, s: Sentence) returns (s': Sentence)
    requires m.Valid() && Rank(m.state) <= 2 && Builds(m, s) && Next(m, c).verdict == Indeterminate
    ensures var n := Next(m, c).machine;
            Builds(n, s') && SoFar(n.state, s') == SoFar(m.state, s) + [c]
  {
    s' := s;
    if c != ' ' {
      if m.state == InUri {
        s' := s.(uri := s.uri + [c]);
        assert s.method_ + " " + (s.uri + [c]) == s.method_ + " " + s.uri + [c];
      } else {
        s' := s.(method_ := s.method_ + [c]);
      }
    }
    assert m.state == InMethod ==> s.uri == "" && s.method_ + " " + "" == s.method_ + " ";
  }

  lemma StepHttp(m: Machine, c: char, s: Sentence)
    requires m.Valid() && 3 <= Rank(m.state) <= 7 && Builds(m, s) && Next(m, c).verdict == Indeterminate
    ensures var n := Next(m, c).machine;
            Builds(n, s) && SoFar(n.state, s) == SoFar(m.state, s) + [c]
  {
    var t := s.method_ + " " + s.uri;
    assert t + " H" == t + " " + ['H'] && t + " HT" == t + " H" + ['T'] && t + " HTT" == t + " HT" + ['T'];
    assert t + " HTTP" == t + " HTT" + ['P'] && t + " HTTP/" == t + " HTTP" + ['/'];
  }

  lemma StepMajor(m: Machine, c: char, s: Sentence) returns (s': Sentence)
    requires m.Valid() && 8 <= Rank(m.state) <= 9 && Builds(m, s) && Next(m, c).verdict == Indeterminate
    ensures var n := Next(m, c).machine;
            Builds(n, s') && SoFar(n.state, s') == SoFar(m.state, s) + [c]
  {
    NumberSnoc(s.major, c);
    var t := s.method_ + " " + s.uri + " HTTP/";
    assert m.state == HttpVersionMajorStart ==> t + s.major == t;
    assert t + (s.major + [c]) == t + s.major + [c];
    s' := if c == '.' then s else s.(major := s.major + [c]);
  }

  lemma StepMinor(m: Machine, c: char, s: Sentence) returns (s': Sentence)
    requires m.Valid() && 10 <= Rank(m.state) <= 12 && Builds(m, s) && Next(m, c).verdict == Indeterminate
    ensures var n := Next(m, c).machine;
            Builds(n, s') && SoFar(n.state, s') == SoFar(m.state, s) + [c]
  {
    NumberSnoc(s.minor, c);
    var t := s.method_ + " " + s.uri + " HTTP/" + s.major + ".";
    assert m.state == HttpVersionMinorStart ==> t + s.minor == t;
    assert t + (s.minor + [c]) == t + s.minor + [c];
    assert t + s.minor + CRLF == t + s.minor + "\r" + ['\n'] && RequestLine(s) + "" == RequestLine(s);
    s' := if c == '\r' || c == '\n' then s else s.(minor := s.minor + [c]);
  }

  /** s with another last line. */
  function WithLast(s: Sentence, l: Line): (s': Sentence)
    requires s.lines != []
    ensures s'.lines != [] && Last(s') == l && s'.lines[..|s'.lines| - 1] == s.lines[..|s.lines| - 1]
    ensures Front(s') == Front(s)
    ensures LineHeaders(s'.lines) == LineHeaders(s.lines)[|s.lines| - 1 := LineHeader(l)]
  {
    var n := |s.lines| - 1;
    assert (s.lines[..n] + [l])[..n] == s.lines[..n];
    s.(lines := s.lines[..n] + [l])
  }

  function LastFold(l: Line): Fold
    requires l.folds != []
  {
    l.folds[|l.folds| - 1]
  }

  function BeforeFold(l: Line): string
    requires l.folds != []
  {
    l.name + ": " + l.first + CRLF + FoldsText(l.folds[..|l.folds| - 1])
  }

  function ValueBeforeFold(l: Line): string
    requires l.folds != []
  {
    l.first + FoldsValue(l.folds[..|l.folds| - 1])
  }

  /** l with another last continuation. */
  function WithFold(l: Line, f: Fold): (k: Line)
    requires l.folds != []
    ensures k.folds != [] && LastFold(k) == f && k.name == l.name
    ensures BeforeFold(k) == BeforeFold(l) && ValueBeforeFold(k) == ValueBeforeFold(l)
    ensures l.Valid() && f.Valid() ==> k.Valid()
  {
    var n := |l.folds| - 1;
    assert (l.folds[..n] + [f])[..n] == l.folds[..n];
    l.(folds := l.folds[..n] + [f])
  }

  lemma Folded(l: Line)
    requires l.folds != []
    ensures OpenLine(l) == BeforeFold(l) + LastFold(l).lws + LastFold(l).text
    ensures LineHeader(l) == Header(l.name, ValueBeforeFold(l) + LastFold(l).text)
  {
    var front, f := l.folds[..|l.folds| - 1], LastFold(l);
    assert l.first + (FoldsValue(front) + f.text) == l.first + FoldsValue(front) + f.text;
  }

  lemma AddFold(l: Line, c: char) returns (k: Line)
    requires l.Valid() && (c == ' ' || c == '\t')
    ensures OpenLineOk(HeaderLws, k) && OpenLine(k) == LineText(l) + [c] && LineHeader(k) == LineHeader(l)
  {
    var f := Fold([c], "");
    k := l.(folds := l.folds + [f]);
    assert k.folds[..|l.folds|] == l.folds;
    assert f.Valid();
    Folded(k);
    hide FoldsText, FoldsValue;
    assert LineText(l) + [c] + "" == LineText(l) + [c] && LineHeader(l).value + "" == LineHeader(l).value;
  }

  /** The parser writes to the last header what the sentence gains in its last line. */
  lemma BuildsLast(m: Machine, s: Sentence, n: Machine, l: Line)
    requires Builds(m, s) && Rank(m.state) == 13 && s.lines != [] && HasOpenLine(n.state) && OpenLineOk(n.state, l)
    requires n.req == m.req.(headers := m.req.headers[|s.lines| - 1 := LineHeader(l)])
    ensures Builds(n, WithLast(s, l))
  {
    hide LineHeaders, LineHeader, LinesText, RequestLine, OpenLineOk, Number, AllToken, AllUri, AllDigits, Front;
    assert ClosedLines(s.lines[..|s.lines| - 1]);
  }

  lemma LastIs(m: Machine, s: Sentence)
    requires Builds(m, s) && s.lines != []
    ensures LastHeader(m) == LineHeader(Last(s)) && m.req.headers[|s.lines| - 1 := LineHeader(Last(s))] == m.req.headers
    ensures WithLast(s, Last(s)) == s
  {
    assert s.lines[..|s.lines| - 1] + [Last(s)] == s.lines;
  }

  lemma StepName(m: Machine, c: char, s: Sentence) returns (s': Sentence)
    requires m.Valid() && m.state == HeaderName && Builds(m, s) && Next(m, c).verdict == Indeterminate
    ensures var n := Next(m, c).machine;
            Builds(n, s') && SoFar(n.state, s') == SoFar(m.state, s) + [c]
  {
    LastIs(m, s);
    var l, n := Last(s), Next(m, c).machine;
    var k := if c == ':' then l else l.(name := l.name + [c]);
    BuildsLast(m, s, n, k);
    s' := WithLast(s, k);
    assert Front(s) + (l.name + [c]) == Front(s) + l.name + [c];
  }

  lemma StepSpace(m: Machine, c: char, s: Sentence)
    requires m.Valid() && m.state == SpaceBeforeHeaderValue && Builds(m, s) && Next(m, c).verdict == Indeterminate
    ensures var n := Next(m, c).machine;
            Builds(n, s) && SoFar(n.state, s) == SoFar(m.state, s) + [c]
  {
    LastIs(m, s);
    var l, n := Last(s), Next(m, c).machine;
    BuildsLast(m, s, n, l);
    assert Front(s) + OpenLine(l) == Front(s) + l.name + ":" + [' '];
  }

  lemma StartLine(m: Machine, c: char, s: Sentence) returns (s': Sentence)
    requires m.state == HeaderLineStart && Builds(m, s) && IsToken(c)
    ensures var n := Machine(HeaderName, m.req.(headers := m.req.headers + [Header([c], "")]));
            Builds(n, s') && SoFar(n.state, s') == SoFar(m.state, s) + [c]
  {
    var l := Line([c], "", []);
    s' := s.(lines := s.lines + [l]);
    assert s'.lines[..|s.lines|] == s.lines;
    assert "" + "" == "";
    hide LineHeaders, LinesText;
  }

  lemma StartFold(m: Machine, c: char, s: Sentence) returns (s': Sentence)
    requires m.state == HeaderLineStart && Builds(m, s) && s.lines != [] && (c == ' ' || c == '\t')
    ensures Builds(m.To(HeaderLws), s') && SoFar(HeaderLws, s') == SoFar(m.state, s) + [c]
  {
    LastIs(m, s);
    var l := Last(s);
    assert l.Valid();
    hide Builds, SoFar, OpenLine, LineHeader, LineHeaders, LineText, OpenLineOk, WithLast;
    var k := AddFold(l, c);
    BuildsLast(m, s, m.To(HeaderLws), k);
    s' := WithLast(s, k);
    FoldText(s, k, c);
  }

  lemma FoldText(s: Sentence, k: Line, c: char)
    requires s.lines != [] && OpenLine(k) == LineText(Last(s)) + [c]
    ensures SoFar(HeaderLws, WithLast(s, k)) == SoFar(HeaderLineStart, s) + [c]
  {
    assert RequestLine(s) + LinesText(s.lines) == Front(s) + LineText(Last(s));
    hide OpenLine, LinesText, Front, RequestLine, LineText;
    Regroup(Front(s), LineText(Last(s)), [c]);
  }

  lemma StepLineStart(m: Machine, c: char, s: Sentence) returns (s': Sentence)
    requires m.Valid() && m.state == HeaderLineStart && Builds(m, s) && Next(m, c).verdict == Indeterminate
    ensures var n := Next(m, c).machine;
            Builds(n, s') && SoFar(n.state, s') == SoFar(m.state, s) + [c]
  {
    if c == '\r' {
      s' := s;
    } else if m.req.headers != [] && (c == ' ' || c == '\t') {
      s' := StartFold(m, c, s);
    } else {
      s' := StartLine(m, c, s);
    }
  }

  /** One more white space character, or the first other one, in a continuation line. */
  lemma PushLws(l: Line, c: char) returns (k: Line)
    requires OpenLineOk(HeaderLws, l) && (c == ' ' || c == '\t')
    ensures OpenLine(k) == OpenLine(l) + [c] && OpenLineOk(HeaderLws, k) && LineHeader(k) == LineHeader(l)
  {
    var f := LastFold(l);
    var g := f.(lws := f.lws + [c]);
    k := WithFold(l, g);
    Folded(l);
    Folded(k);
    assert g.Valid();
    hide OpenLine, LineHeader, FoldsText, FoldsValue, BeforeFold, ValueBeforeFold, Fold.Valid, Line.Valid;
    var before := BeforeFold(l);
    assert before + (f.lws + [c]) + "" == before + f.lws + "" + [c];
  }

  lemma PushFirst(l: Line, c: char) returns (k: Line)
    requires OpenLineOk(HeaderLws, l) && !IsCtl(c) && c != ' '
    ensures OpenLine(k) == OpenLine(l) + [c]
    ensures OpenLineOk(HeaderValue, k) && LineHeader(k) == Header(l.name, LineHeader(l).value + [c])
  {
    var f := LastFold(l);
    var g := f.(text := [c]);
    k := WithFold(l, g);
    Folded(l);
    Folded(k);
    assert g.Valid();
    hide OpenLine, LineHeader, FoldsText, FoldsValue, BeforeFold, ValueBeforeFold, Fold.Valid, Line.Valid;
    var before, value := BeforeFold(l) + f.lws, ValueBeforeFold(l);
    assert before + [c] == before + "" + [c] && value + [c] == value + "" + [c];
  }

  lemma StepLws(m: Machine, c: char, s: Sentence) returns (s': Sentence)
    requires m.Valid() && m.state == HeaderLws && Builds(m, s) && Next(m, c).verdict == Indeterminate
    ensures var n := Next(m, c).machine;
            Builds(n, s') && SoFar(n.state, s') == SoFar(m.state, s) + [c]
  {
    LastIs(m, s);
    var l, n := Last(s), Next(m, c).machine;
    assert OpenLineOk(m.state, l);
    hide Builds, LineHeaders, LinesText, Front, RequestLine, OpenLine, LineHeader;
    if c == '\r' {
      BuildsLast(m, s, n, l);
      s' := s;
    } else {
      var k := l;
      if c == ' ' || c == '\t' { k := PushLws(l, c); } else { k := PushFirst(l, c); }
      hide OpenLineOk;
      BuildsLast(m, s, n, k);
      s' := WithLast(s, k);
      Regroup(Front(s), OpenLine(l), [c]);
    }
  }

  lemma PushText(l: Line, c: char) returns (k: Line)
    requires OpenLineOk(HeaderValue, l) && !IsCtl(c)
    ensures OpenLineOk(HeaderValue, k) && OpenLine(k) == OpenLine(l) + [c] &&
            LineHeader(k) == Header(l.name, LineHeader(l).value + [c])
  {
    if l.folds == [] {
      k := l.(first := l.first + [c]);
      assert l.first + [c] + "" == l.first + "" + [c];
    } else {
      var f := LastFold(l);
      var g := f.(text := f.text + [c]);
      k := WithFold(l, g);
      Folded(l);
      Folded(k);
      assert g.Valid();
      hide OpenLine, LineHeader, FoldsText, FoldsValue, BeforeFold, ValueBeforeFold, Fold.Valid, Line.Valid;
      var before, value := BeforeFold(l) + f.lws, ValueBeforeFold(l);
      assert before + (f.text + [c]) == before + f.text + [c] && value + (f.text + [c]) == value + f.text + [c];
    }
  }

  lemma StepValue(m: Machine, c: char, s: Sentence) returns (s': Sentence)
    requires m.Valid() && m.state == HeaderValue && Builds(m, s) && Next(m, c).verdict == Indeterminate
    ensures var n := Next(m, c).machine;
            Builds(n, s') && SoFar(n.state, s') == SoFar(m.state, s) + [c]
  {
    LastIs(m, s);
    var l, n := Last(s), Next(m, c).machine;
    if c == '\r' {
      BuildsLast(m, s, n, l);
      s' := s;
    } else {
      var k := PushText(l, c);
      BuildsLast(m, s, n, k);
      s' := WithLast(s, k);
      Regroup(Front(s), OpenLine(l), [c]);
    }
  }

  lemma StepNewline(m: Machine, c: char, s: Sentence)
    requires m.Valid() && m.state == ExpectingNewline2 && Builds(m, s) && Next(m, c).verdict == Indeterminate
    ensures var n := Next(m, c).machine;
            Builds(n, s) && SoFar(n.state, s) == SoFar(m.state, s) + [c]
  {
    var l := Last(s);
    CloseLine(l);
    assert Front(s) + (OpenLine(l) + CRLF) == Front(s) + OpenLine(l) + "\r" + ['\n'];
    assert RequestLine(s) + LinesText(s.lines) == Front(s) + LineText(l);
    assert forall i :: 0 <= i < |s.lines| - 1 ==> s.lines[i] == s.lines[..|s.lines| - 1][i];
    hide LineHeaders, LinesText, RequestLine, Front, OpenLine, LineText;
  }

  /** Every character the parser takes extends what it has built by that character. */
  lemma Step(m: Machine, c: char, s: Sentence) returns (s': Sentence)
    requires m.Valid() && Builds(m, s) && Next(m, c).verdict == Indeterminate
    ensures var n := Next(m, c).machine;
            Builds(n, s') && SoFar(n.state, s') == SoFar(m.state, s) + [c]
  {
    hide Builds, SoFar;
    if Rank(m.state) <= 2 {
      s' := StepMethod(m, c, s);
    } else if Rank(m.state) <= 7 {
      s' := s;
      StepHttp(m, c, s);
    } else if Rank(m.state) <= 9 {
      s' := StepMajor(m, c, s);
    } else if Rank(m.state) <= 12 {
      s' := StepMinor(m, c, s);
    } else {
      s' := StepHeader(m, c, s);
    }
  }

  lemma StepHeader(m: Machine, c: char, s: Sentence) returns (s': Sentence)
    requires m.Valid() && Rank(m.state) == 13 && Builds(m, s) && Next(m, c).verdict == Indeterminate
    ensures var n := Next(m, c).machine;
            Builds(n, s') && SoFar(n.state, s') == SoFar(m.state, s) + [c]
  {
    hide Builds, SoFar;
    s' := s;
    match m.state {
      case HeaderLineStart => s' := StepLineStart(m, c, s);
      case HeaderLws => s' := StepLws(m, c, s);
      case HeaderName => s' := StepName(m, c, s);
      case SpaceBeforeHeaderValue => StepSpace(m, c, s);
      case HeaderValue => s' := StepValue(m, c, s);
      case ExpectingNewline2 => StepNewline(m, c, s);
      case _ =>
    }
  }

  lemma {:induction false} AcceptedFrom(m: Machine, s: Sentence, text: string) returns (t: Sentence)
    requires m.Valid() && Builds(m, s) && Read(m, text).verdict == Good
    ensures var o := Read(m, text);
            t.Valid() && SentenceText(t) == SoFar(m.state, s) + text[..o.used] && Meaning(t) == o.machine.req
    decreases |text|
  {
    var before := SoFar(m.state, s);
    hide Builds, SoFar, SentenceText, Meaning, Sentence.Valid, Machine.Valid;
    var c := text[0];
    if Next(m, c).verdict == Good {
      t := s;
      Ends(m, s);
      assert text[..1] == ['\n'];
    } else {
      hide Next;
      var n := Step(m, c, s);
      t := AcceptedFrom(Next(m, c).machine, n, text[1..]);
      TakeOneMore(before, text, Read(Next(m, c).machine, text[1..]).used);
    }
  }

  lemma TakeOneMore(before: string, text: string, used: nat)
    requires used < |text|
    ensures before + [text[0]] + text[1..][..used] == before + text[..1 + used]
  {
  }

  lemma Ends(m: Machine, s: Sentence)
    requires m.state == ExpectingNewline3 && Builds(m, s)
    ensures s.Valid() && SentenceText(s) == SoFar(m.state, s) + ['\n'] && Meaning(s) == m.req
  {
    assert RequestLine(s) + LinesText(s.lines) + CRLF == RequestLine(s) + LinesText(s.lines) + "\r" + ['\n'];
  }

  /** What the parser accepts is a sentence, and it is read as that sentence means. */
  lemma AcceptedAreSentences(text: string) returns (s: Sentence)
    requires Read(START, text).verdict == Good
    ensures s.Valid() && SentenceText(s) == text[..Read(START, text).used] &&
            Meaning(s) == Read(START, text).machine.req
  {
    var nothing := Sentence("", "", "", "", []);
    s := AcceptedFrom(START, nothing, text);
    assert "" + text[..Read(START, text).used] == text[..Read(START, text).used];
  }

  /** The accepted inputs are exactly those that start with a sentence. */
  lemma GoodExactlyOnSentences(text: string)
    ensures Read(START, text).verdict == Good <==> exists s: Sentence :: s.Valid() && SentenceText(s) <= text
  {
    hide SentenceText, Read, Sentence.Valid;
    if Read(START, text).verdict == Good {
      var s := AcceptedAreSentences(text);
      assert SentenceText(s) <= text;
    }
    if s: Sentence :| s.Valid() && SentenceText(s) <= text {
      SentencesAreAccepted(s, text[|SentenceText(s)|..]);
      assert SentenceText(s) + text[|SentenceText(s)|..] == text;
    }
  }
}
