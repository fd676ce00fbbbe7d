/** Json::Reader of lib/json/jsoncpp.cpp: a cursor, a list of errors and a stack of nodes.

    The stack holds the values under construction in place of pointers to them: a child is pushed with the
    value that its place in the parent holds, and popping it writes it back to that place. */
module JsonReader {
  import opened Wrappers
  import opened JsonValue
  import opened JsonString
  import opened JsonNumber
  import JsonToken
  import JsonParser

  type Type = JsonToken.Type

  class Reader {
    const settings: JsonParser.Settings
    var document: string
    var current: nat
    var errors: seq<Message>
    var nodes: seq<Value>

    constructor (settings: JsonParser.Settings)
      ensures this.settings == settings && Valid()
    {
      this.settings := settings;
      document, current, errors, nodes := "", 0, [], [];
    }

    ghost predicate Valid()
      reads this
    {
      current <= |document|
    }

    function Rest(): string
      reads this
      requires Valid()
    {
      document[current..]
    }

    // ----- Characters -----

    method GetNextChar() returns (c: char)
      requires Valid()
      modifies this`current
      ensures Valid() && c == JsonToken.Peek(old(Rest())) && Rest() == JsonToken.Next(old(Rest()))
    {
      if current == |document| {
        return '\0';
      }
      c := document[current];
      current := current + 1;
    }

    /** *current_, which is the terminating zero at the end. */
    method CurrentChar() returns (c: char)
      requires Valid()
      ensures c == JsonToken.Peek(Rest())
    {
      c := if current == |document| then '\0' else document[current];
    }

    method SkipSpaces()
      requires Valid()
      modifies this`current
      ensures Valid() && Rest() == JsonToken.SkipSpaces(old(Rest())) && current >= old(current)
    {
      while current != |document|
        invariant old(current) <= current && Valid() &&
                  JsonToken.SkipSpaces(Rest()) == JsonToken.SkipSpaces(old(Rest()))
        decreases |document| - current
      {
        if !JsonToken.IsSpace(document[current]) {
          break;
        }
        assert Rest()[1..] == document[current + 1..];
        current := current + 1;
      }
    }

    method Match(pattern: string) returns (ok: bool)
      requires Valid()
      modifies this`current
      ensures Valid() && JsonToken.Scan(ok, Rest()) == JsonToken.ScanWord(old(Rest()), pattern)
    {
      if |document| - current < |pattern| {
        return false;
      }
      var index := |pattern|;
      while index > 0
        invariant 0 <= index <= |pattern| && current + |pattern| <= |document|
        invariant forall i :: index <= i < |pattern| ==> document[current + i] == pattern[i]
      {
        index := index - 1;
        if document[current + index] != pattern[index] {
          assert Rest()[index] != pattern[index];
          return false;
        }
      }
      assert Rest()[..|pattern|] == pattern;
      assert Rest()[|pattern|..] == document[current + |pattern|..];
      current := current + |pattern|;
      ok := true;
    }

    // ----- Tokens -----

    method ReadComment() returns (ok: bool)
      requires Valid()
      modifies this`current
      ensures Valid() && JsonToken.Scan(ok, Rest()) == JsonToken.ScanComment(old(Rest()))
    {
      ghost var s := Rest();
      var c := GetNextChar();
      if c == '*' {
        ok := ReadCStyleComment();
      } else if c == '/' {
        ReadCppStyleComment();
        ok := true;
      } else {
        ok := false;
      }
    }

    method ReadCStyleComment() returns (ok: bool)
      requires Valid()
      modifies this`current
      ensures Valid() && JsonToken.Scan(ok, Rest()) == JsonToken.ScanCStyle(old(Rest()))
    {
      while current != |document|
        invariant Valid() && JsonToken.ScanCStyle(Rest()) == JsonToken.ScanCStyle(old(Rest()))
        decreases |document| - current
      {
        ghost var s := Rest();
        var c := GetNextChar();
        var d := CurrentChar();
        if c == '*' && d == '/' {
          assert Rest() == s[1..] && s[1..][1..] == s[2..];
          break;
        }
      }
      var e := GetNextChar();
      ok := e == '/';
    }

    method ReadCppStyleComment()
      requires Valid()
      modifies this`current
      ensures Valid() && Rest() == JsonToken.ScanLine(old(Rest()))
    {
      while current != |document|
        invariant Valid() && JsonToken.ScanLine(Rest()) == JsonToken.ScanLine(old(Rest()))
        decreases |document| - current
      {
        var c := GetNextChar();
        if c == '\r' || c == '\n' {
          break;
        }
      }
    }

    method ReadNumber()
      requires Valid()
      modifies this`current
      ensures Valid() && Rest() == JsonToken.ScanNumber(old(Rest()))
    {
      while current != |document|
        invariant Valid() && JsonToken.ScanNumber(Rest()) == JsonToken.ScanNumber(old(Rest()))
        decreases |document| - current
      {
        if !NumChar(document[current]) {
          break;
        }
        assert Rest()[1..] == document[current + 1..];
        current := current + 1;
      }
    }

    method ReadString() returns (ok: bool)
      requires Valid()
      modifies this`current
      ensures Valid() && JsonToken.Scan(ok, Rest()) == JsonToken.ScanString(old(Rest()))
    {
      var c := '\0';
      while current != |document|
        invariant Valid() && JsonToken.ScanString(Rest()) == JsonToken.ScanString(old(Rest()))
        invariant c != '"'
        decreases |document| - current
      {
        ghost var s := Rest();
        c := GetNextChar();
        if c == '\\' {
          var _ := GetNextChar();
        } else if c == '"' {
          break;
        }
      }
      ok := c == '"';
    }

    method ReadToken() returns (type_: Type, text: string)
      requires Valid()
      modifies this`current
      ensures Valid()
      ensures JsonToken.Token(type_, text, Rest()) == JsonToken.ReadToken(old(Rest()))
    {
      hide JsonToken.Classify, JsonToken.SkipSpaces;
      SkipSpaces();
      ghost var s := Rest();
      var start := current;
      type_ := ReadTokenBody();
      text := document[start..current];
      assert text == s[..|s| - |Rest()|];
    }

    method ReadTokenBody() returns (type_: Type)
      requires Valid()
      modifies this`current
      ensures Valid() && (type_, Rest()) == JsonToken.Classify(old(Rest()))
    {
      ghost var s := Rest();
      var c := GetNextChar();
      assert s != "" ==> Rest() == s[1..];
      var ok := true;
      match c {
        case '{' => type_ := JsonToken.ObjectBegin;
        case '}' => type_ := JsonToken.ObjectEnd;
        case '[' => type_ := JsonToken.ArrayBegin;
        case ']' => type_ := JsonToken.ArrayEnd;
        case '"' =>
          type_ := JsonToken.StringToken;
          ok := ReadString();
        case '/' =>
          type_ := JsonToken.Comment;
          ok := ReadComment();
        case 't' =>
          type_ := JsonToken.True;
          ok := Match("rue");
        case 'f' =>
          type_ := JsonToken.False;
          ok := Match("alse");
        case 'n' =>
          type_ := JsonToken.NullToken;
          ok := Match("ull");
        case ',' => type_ := JsonToken.ArraySeparator;
        case ':' => type_ := JsonToken.MemberSeparator;
        case '\0' => type_ := JsonToken.EndOfStream;
        case _ =>
          type_ := JsonToken.Number;
          if JsonToken.StartsNumber(c) {
            ReadNumber();
          } else {
            ok := false;
          }
      }
      if !ok {
        type_ := JsonToken.Error;
      }
    }

    method ReadPastComments() returns (type_: Type, text: string)
      requires Valid()
      modifies this`current
      ensures Valid()
      ensures JsonToken.Token(type_, text, Rest()) == JsonToken.ReadPastComments(old(Rest()))
    {
      type_, text := ReadToken();
      while type_ == JsonToken.Comment
        invariant Valid()
        invariant JsonToken.ReadPastComments(old(Rest())) ==
                  if type_ == JsonToken.Comment then JsonToken.ReadPastComments(Rest())
                  else JsonToken.Token(type_, text, Rest())
        decreases |document| - current, type_ == JsonToken.Comment
      {
        type_, text := ReadToken();
      }
    }

    method SkipCommentTokens() returns (type_: Type, text: string)
      requires Valid()
      modifies this`current
      ensures Valid()
      ensures JsonToken.Token(type_, text, Rest()) == JsonParser.FirstToken(settings, old(Rest()))
    {
      if settings.allowComments {
        type_, text := ReadPastComments();
      } else {
        type_, text := ReadToken();
      }
    }

    method RecoverFromError(skipUntilToken: Type) returns (ok: bool)
      requires Valid()
      modifies this`current, this`errors
      ensures Valid() && !ok && errors == old(errors) && Rest() == JsonToken.Recover(old(Rest()), skipUntilToken)
    {
      hide JsonToken.ReadToken;
      var errorCount := |errors|;
      while true
        invariant Valid() && errors == old(errors)
        invariant JsonToken.Recover(Rest(), skipUntilToken) == JsonToken.Recover(old(Rest()), skipUntilToken)
        decreases |document| - current
      {
        var type_, _ := ReadToken();
        if type_ == skipUntilToken || type_ == JsonToken.EndOfStream {
          break;
        }
      }
      errors := errors[..errorCount];
      ok := false;
    }

    // ----- Strings -----

    method AddError(message: Message) returns (ok: bool)
      modifies this`errors
      ensures !ok && errors == old(errors) + [message]
    {
      errors := errors + [message];
      ok := false;
    }

    /** decodeUnicodeEscapeSequence: t is the text from the cursor to the closing quote. */
    static method DecodeHex(t: string) returns (r: Result<nat>)
      ensures r == Hex4(t)
    {
      if |t| < 4 {
        return Err(FourDigitsExpected);
      }
      var unicode := 0;
      ghost var ds := [];
      for index := 0 to 4
        invariant |ds| == index && forall i :: 0 <= i < index ==> HexValue(t[i]) == Some(ds[i])
        invariant unicode == HexNumber(ds)
      {
        var d := HexValue(t[index]);
        if d.None? {
          return Err(HexDigitExpected);
        }
        HexSnoc(ds, d.value);
        unicode := unicode * 16 + d.value;
        ds := ds + [d.value];
      }
      HexFour(ds);
      r := Ok(unicode);
    }

    /** decodeUnicodeCodePoint */
    static method DecodeCodePoint(t: string) returns (r: Result<(nat, nat)>)
      ensures r == CodePoint(t)
    {
      hide Hex4;
      var u := DecodeHex(t);
      if u.Err? {
        return Err(u.message);
      }
      var unicode, current := u.value, 4;
      if HighSurrogate(unicode) {
        if |t| - current < 6 {
          return Err(SixCharactersExpected);
        }
        if t[current] == '\\' && t[current + 1] == 'u' {
          current := current + 2;
          assert t[4..][2..] == t[current..];
          var low := DecodeHex(t[current..]);
          if low.Err? {
            return Err(low.message);
          }
          unicode := Combine(unicode, low.value);
          current := current + 4;
        } else {
          return Err(LowSurrogateExpected);
        }
      }
      r := Ok((unicode, current));
    }

    /** decodeString, for the text between the quotes. */
    static method DecodeString(t: string) returns (r: Result<string>)
      ensures r == Unescape(t)
    {
      hide Unescape;
      var decoded, current := "", 0;
      assert t[0..] == t;
      Nothing(Unescape(t));
      while current != |t|
        invariant 0 <= current <= |t| && Unescape(t) == Before(decoded, Unescape(t[current..]))
        decreases |t| - current
      {
        var e := DecodeOne(t[current..]);
        if e.Err? {
          return Err(e.message);
        }
        var (piece, n) := e.value;
        if n == 0 {
          assert decoded + "" == decoded;
          return Ok(decoded);
        }
        assert t[current..][n..] == t[current + n..];
        current := current + n;
        BeforeBefore(decoded, piece, Unescape(t[current..]));
        decoded := decoded + piece;
      }
      UnescapeNothing();
      assert t[current..] == "" && decoded + "" == decoded;
      r := Ok(decoded);
    }

    /** One turn of the loop in decodeString: what it appends and how many characters it takes, none at a quote. */
    static method DecodeOne(t: string) returns (r: Result<(string, nat)>)
      requires t != ""
      ensures r.Err? ==> Unescape(t) == Err(r.message)
      ensures r.Ok? ==> r.value.1 <= |t|
      ensures r.Ok? ==> Unescape(t) == if r.value.1 == 0 then Ok("") else Before(r.value.0, Unescape(t[r.value.1..]))
    {
      hide CodePoint, SimpleEscape, Utf8;
      var c := t[0];
      if c == '"' {
        return Ok(("", 0));
      } else if c == '\\' {
        if |t| == 1 {
          return Err(EmptyEscape);
        }
        var escape := t[1];
        if escape == 'u' {
          var p := DecodeCodePoint(t[2..]);
          if p.Err? {
            return Err(p.message);
          }
          return Ok((Utf8(p.value.0), 2 + p.value.1));
        }
        var e := SimpleEscape(escape);
        if e.None? {
          return Err(BadEscape);
        }
        return Ok(([e.value], 2));
      }
      r := Ok(([c], 1));
    }

    // ----- Values -----

    /** The reader has done what o says, to the node on top of the stack and to nothing else on it. */
    ghost predicate Did(o: JsonParser.Outcome, errors0: seq<Message>, nodes0: seq<Value>)
      requires nodes0 != []
      reads this
    {
      Valid() && Rest() == o.rest && errors == errors0 + o.errors && nodes == nodes0[..|nodes0| - 1] + [o.value]
    }

    function CurrentValue(): Value
      requires nodes != []
      reads this
    {
      nodes[|nodes| - 1]
    }

    method SetCurrentValue(v: Value)
      requires nodes != []
      modifies this`nodes
      ensures nodes == old(nodes)[..|old(nodes)| - 1] + [v]
    {
      nodes := nodes[..|nodes| - 1] + [v];
    }

    method Push(v: Value)
      modifies this`nodes
      ensures nodes == old(nodes) + [v]
    {
      nodes := nodes + [v];
    }

    method Pop() returns (v: Value)
      requires nodes != []
      modifies this`nodes
      ensures nodes == old(nodes)[..|old(nodes)| - 1] && v == old(CurrentValue())
    {
      v := CurrentValue();
      nodes := nodes[..|nodes| - 1];
    }

    /** A part of a loop's turn has gone as st says. */
    ghost predicate Stepped(st: JsonParser.Step, more: bool, ok: bool, errors0: seq<Message>, nodes0: seq<Value>)
      requires nodes0 != []
      reads this
    {
      more == st.More? &&
      if more then Valid() && Rest() == st.rest && errors == errors0 && nodes == nodes0
      else ok == st.o.ok && Did(st.o, errors0, nodes0)
    }

    lemma SameTop()
      requires nodes != []
      ensures nodes[..|nodes| - 1] + [CurrentValue()] == nodes
    {
    }

    method ReadValue() returns (ok: bool)
      requires Valid() && nodes != []
      modifies this`current, this`errors, this`nodes
      ensures var o := JsonParser.ReadValue(settings, old(Rest()), old(CurrentValue()));
              ok == o.ok && Did(o, old(errors), old(nodes))
      decreases |document| - current, 0
    {
      hide JsonParser.ReadMembers, JsonParser.ReadElements, JsonParser.FirstToken, JsonParser.ReadNumber,
           JsonParser.ReadString;
      hide JsonToken.SkipSpaces, JsonToken.ReadToken, JsonToken.Peek;
      SameTop();
      var type_, text := SkipCommentTokens();
      match type_ {
        case ObjectBegin => ok := ReadObject();
        case ArrayBegin => ok := ReadArray();
        case Number => ok := StoreNumber(text);
        case StringToken => ok := StoreString(text);
        case True => ok := StoreValue(Bool(true));
        case False => ok := StoreValue(Bool(false));
        case NullToken => ok := StoreValue(Null);
        case _ => ok := AddError(ValueExpected);
      }
    }

    method StoreValue(v: Value) returns (ok: bool)
      requires Valid() && nodes != []
      modifies this`nodes
      ensures ok && Did(JsonParser.Outcome(true, v, [], old(Rest())), errors, old(nodes))
    {
      SetCurrentValue(v);
      ok := true;
    }

    method StoreNumber(text: string) returns (ok: bool)
      requires Valid() && nodes != [] && IsNumberToken(text)
      modifies this`nodes, this`errors
      ensures var t := JsonToken.Token(JsonToken.Number, text, old(Rest()));
              var o := JsonParser.ReadNumber(settings, t, old(CurrentValue()));
              ok == o.ok && Did(o, old(errors), old(nodes))
    {
      hide NumberValue, IsNumberToken;
      SameTop();
      var v := DecodeNumber(text, settings.scan);
      if v.None? {
        ok := AddError(NotANumber);
      } else {
        ok := StoreValue(v.value);
      }
    }

    method StoreString(text: string) returns (ok: bool)
      requires Valid() && nodes != [] && |text| >= 2
      modifies this`nodes, this`errors
      ensures var t := JsonToken.Token(JsonToken.StringToken, text, old(Rest()));
              var o := JsonParser.ReadString(t, old(CurrentValue()));
              ok == o.ok && Did(o, old(errors), old(nodes))
    {
      hide Unescape, JsonParser.UpToZero;
      SameTop();
      var r := DecodeString(JsonParser.Inner(text));
      if r.Err? {
        ok := AddError(r.message);
      } else {
        ok := StoreValue(Str(Some(JsonParser.UpToZero(r.value))));
      }
    }

    /** readObject, after its opening brace. */
    method ReadObject() returns (ok: bool)
      requires Valid() && nodes != []
      modifies this`current, this`errors, this`nodes
      ensures var o := JsonParser.ReadMembers(settings, old(Rest()), [], "");
              ok == o.ok && Did(o, old(errors), old(nodes))
      decreases |document| - current, 3
    {
      hide JsonParser.ReadMembers;
      var name := "";
      SetCurrentValue(Object([]));
      ghost var o := JsonParser.ReadMembers(settings, Rest(), [], "");
      while true
        invariant Valid() && errors == old(errors) && nodes != [] && CurrentValue().Object?
        invariant nodes[..|nodes| - 1] == old(nodes)[..|old(nodes)| - 1]
        invariant JsonParser.ReadMembers(settings, Rest(), CurrentValue().entries, name) == o
        invariant current >= old(current)
        decreases |document| - current
      {
        var more;
        more, ok, name := ReadMember(name);
        if !more {
          return;
        }
      }
    }

    /** One turn of the loop in readObject: whether it goes on, or else what is returned. */
    method ReadMember(name0: string) returns (more: bool, ok: bool, name: string)
      requires Valid() && nodes != [] && CurrentValue().Object?
      modifies this`current, this`errors, this`nodes
      ensures var o := JsonParser.ReadMembers(settings, old(Rest()), old(CurrentValue()).entries, name0);
              if more then
                && Valid() && errors == old(errors) && nodes != [] && CurrentValue().Object? && current > old(current)
                && nodes[..|nodes| - 1] == old(nodes)[..|old(nodes)| - 1]
                && JsonParser.ReadMembers(settings, Rest(), CurrentValue().entries, name) == o
              else ok == o.ok && Did(o, old(errors), old(nodes))
      decreases |document| - current, 2
    {
      hide JsonParser.ReadValue, JsonParser.MemberName, JsonParser.MemberEnd, JsonParser.UpToZero, Lookup, Store,
           JsonToken.Recover;
      more, ok, name := ReadMemberName(name0);
      if !more {
        return;
      }
      ok := ReadChild(Name(JsonParser.UpToZero(name)));
      if !ok {
        ok := RecoverFromError(JsonToken.ObjectEnd);
        more := false;
        return;
      }
      more, ok := ReadMemberEnd();
    }

    method ReadMemberName(name0: string) returns (more: bool, ok: bool, name: string)
      requires Valid() && nodes != [] && CurrentValue().Object?
      modifies this`current, this`errors
      ensures var st := JsonParser.MemberName(old(Rest()), CurrentValue().entries, name0);
              Stepped(st, more, ok, old(errors), nodes) && (more ==> name == st.name)
    {
      hide JsonToken.ReadToken, JsonToken.ReadPastComments, JsonToken.Recover, Unescape;
      SameTop();
      ok, more, name := true, false, name0;
      var type_, text := ReadPastComments();
      if type_ == JsonToken.ObjectEnd && name == "" {
        return;
      }
      name := "";
      if type_ != JsonToken.StringToken {
        ok := AddErrorAndRecover(MissingMember, JsonToken.ObjectEnd);
        return;
      }
      var r := DecodeString(JsonParser.Inner(text));
      if r.Err? {
        ok := AddErrorAndRecover(r.message, JsonToken.ObjectEnd);
        return;
      }
      name := r.value;
      var colon, _ := ReadToken();
      if colon != JsonToken.MemberSeparator {
        ok := AddErrorAndRecover(MissingColon, JsonToken.ObjectEnd);
        return;
      }
      more := true;
    }

    method ReadMemberEnd() returns (more: bool, ok: bool)
      requires Valid() && nodes != [] && CurrentValue().Object?
      modifies this`current, this`errors
      ensures Stepped(JsonParser.MemberEnd(old(Rest()), CurrentValue().entries), more, ok, old(errors), nodes)
    {
      hide JsonToken.ReadToken, JsonToken.ReadPastComments, JsonToken.Recover;
      SameTop();
      ok, more := true, false;
      var comma, _ := ReadToken();
      if comma != JsonToken.ObjectEnd && comma != JsonToken.ArraySeparator && comma != JsonToken.Comment {
        ok := AddErrorAndRecover(MissingComma, JsonToken.ObjectEnd);
        return;
      }
      if comma == JsonToken.Comment {
        var last, _ := ReadPastComments();
        comma := last;
      }
      more := comma != JsonToken.ObjectEnd;
    }

    method AddErrorAndRecover(message: Message, skipUntilToken: Type) returns (ok: bool)
      requires Valid()
      modifies this`current, this`errors
      ensures Valid() && !ok && errors == old(errors) + [message] &&
              Rest() == JsonToken.Recover(old(Rest()), skipUntilToken)
    {
      ok := AddError(message);
      ok := RecoverFromError(skipUntilToken);
    }

    /** A child of the current node: pushed, read, and written back. */
    method ReadChild(key: Key) returns (ok: bool)
      requires Valid() && nodes != [] && (CurrentValue().Object? || CurrentValue().Array?)
      modifies this`current, this`errors, this`nodes
      ensures var v := old(CurrentValue());
              var o := JsonParser.ReadValue(settings, old(Rest()), Lookup(v.entries, key));
              var stored := Store(v.entries, key, o.value);
              var parent := if v.Object? then Object(stored) else Array(stored);
              ok == o.ok && Did(o.(value := parent), old(errors), old(nodes))
      decreases |document| - current, 1
    {
      hide JsonParser.ReadValue, Lookup, Store;
      ghost var before := nodes;
      Push(Lookup(CurrentValue().entries, key));
      ok := ReadValue();
      var child := Pop();
      assert nodes == before;
      var v := CurrentValue();
      var stored := Store(v.entries, key, child);
      SetCurrentValue(if v.Object? then Object(stored) else Array(stored));
    }

    /** readArray, after its opening bracket. */
    method ReadArray() returns (ok: bool)
      requires Valid() && nodes != []
      modifies this`current, this`errors, this`nodes
      ensures var u := JsonToken.SkipSpaces(old(Rest()));
              var o := if JsonToken.Peek(u) == ']'
                       then JsonParser.Outcome(true, Array([]), [], JsonToken.ReadToken(u).rest)
                       else JsonParser.ReadElements(settings, u, [], 0);
              ok == o.ok && Did(o, old(errors), old(nodes))
      decreases |document| - current, 4
    {
      hide JsonParser.ReadElements, JsonToken.SkipSpaces, JsonToken.ReadToken, JsonToken.Peek;
      SetCurrentValue(Array([]));
      ghost var before := nodes;
      assert before[..|before| - 1] == old(nodes)[..|old(nodes)| - 1];
      SkipSpaces();
      var c := CurrentChar();
      if c == ']' {
        var _, _ := ReadToken();
        return true;
      }
      ok := ReadElements();
    }

    method ReadElements() returns (ok: bool)
      requires Valid() && nodes != [] && CurrentValue() == Array([])
      modifies this`current, this`errors, this`nodes
      ensures var o := JsonParser.ReadElements(settings, old(Rest()), [], 0);
              ok == o.ok && Did(o, old(errors), old(nodes))
      decreases |document| - current, 3
    {
      hide JsonParser.ReadElements;
      var index := 0;
      ghost var o := JsonParser.ReadElements(settings, Rest(), [], 0);
      while true
        invariant Valid() && errors == old(errors) && nodes != [] && CurrentValue().Array?
        invariant nodes[..|nodes| - 1] == old(nodes)[..|old(nodes)| - 1]
        invariant JsonParser.ReadElements(settings, Rest(), CurrentValue().entries, index) == o
        invariant current >= old(current)
        decreases |document| - current
      {
        var more;
        more, ok := ReadElement(index);
        if !more {
          return;
        }
        index := index + 1;
      }
    }

    /** One turn of the loop in readArray. */
    method ReadElement(index: nat) returns (more: bool, ok: bool)
      requires Valid() && nodes != [] && CurrentValue().Array?
      modifies this`current, this`errors, this`nodes
      ensures var o := JsonParser.ReadElements(settings, old(Rest()), old(CurrentValue()).entries, index);
              if more then
                && Valid() && errors == old(errors) && nodes != [] && CurrentValue().Array? && current > old(current)
                && nodes[..|nodes| - 1] == old(nodes)[..|old(nodes)| - 1]
                && JsonParser.ReadElements(settings, Rest(), CurrentValue().entries, index + 1) == o
              else ok == o.ok && Did(o, old(errors), old(nodes))
      decreases |document| - current, 2
    {
      hide JsonParser.ReadValue, JsonParser.ElementEnd, Lookup, Store, JsonToken.Recover;
      ok := ReadChild(Index(index));
      if !ok {
        ok := RecoverFromError(JsonToken.ArrayEnd);
        more := false;
        return;
      }
      more, ok := ReadElementEnd();
    }

    method ReadElementEnd() returns (more: bool, ok: bool)
      requires Valid() && nodes != [] && CurrentValue().Array?
      modifies this`current, this`errors
      ensures Stepped(JsonParser.ElementEnd(old(Rest()), CurrentValue().entries), more, ok, old(errors), nodes)
    {
      hide JsonToken.ReadPastComments, JsonToken.Recover;
      SameTop();
      more, ok := false, true;
      var type_, _ := ReadPastComments();
      if type_ != JsonToken.ArraySeparator && type_ != JsonToken.ArrayEnd {
        ok := AddErrorAndRecover(MissingBracket, JsonToken.ArrayEnd);
        return;
      }
      more := type_ != JsonToken.ArrayEnd;
    }

    method Parse(text: string, root: Value) returns (ok: bool, value: Value)
      modifies this
      ensures Valid() && document == text
      ensures ok <==> errors == []
      ensures var o := JsonParser.Parse(settings, text, root);
              ok == o.ok && value == o.value && errors == o.errors && Rest() == o.rest && |nodes| == 1
    {
      hide JsonParser.ReadValue, JsonParser.FirstToken;
      document, current, errors := text, 0, [];
      nodes := [root];
      assert Rest() == text;
      ok := ReadValue();
      var _, _ := SkipCommentTokens();
      value := CurrentValue();
      if settings.strictRoot && !value.Array? && !value.Object? {
        ok := AddError(BadRoot);
      }
    }
  }

  lemma UnescapeNothing()
    ensures Unescape("") == Ok("")
  {
  }

  lemma Nothing(r: Result<string>)
    ensures Before("", r) == r
  {
    if r.Ok? { assert "" + r.value == r.value; }
  }

  lemma BeforeBefore(a: string, b: string, r: Result<string>)
    ensures Before(a, Before(b, r)) == Before(a + b, r)
  {
    if r.Ok? { assert a + (b + r.value) == a + b + r.value; }
  }

  function HexNumber(ds: seq<int>): int {
    if ds == [] then 0 else HexNumber(ds[..|ds| - 1]) * 16 + ds[|ds| - 1]
  }

  lemma HexSnoc(ds: seq<int>, d: int)
    ensures HexNumber(ds + [d]) == HexNumber(ds) * 16 + d
  {
    assert (ds + [d])[..|ds|] == ds;
  }

  lemma HexFour(ds: seq<int>)
    requires |ds| == 4
    ensures HexNumber(ds) == ds[0] * 0x1000 + ds[1] * 0x100 + ds[2] * 0x10 + ds[3]
  {
    HexSnoc([], ds[0]);
    HexSnoc([ds[0]], ds[1]);
    HexSnoc([ds[0], ds[1]], ds[2]);
    HexSnoc([ds[0], ds[1], ds[2]], ds[3]);
    assert ds == [ds[0], ds[1], ds[2]] + [ds[3]];
    assert [] + [ds[0]] == [ds[0]] && [ds[0]] + [ds[1]] == [ds[0], ds[1]] &&
           [ds[0], ds[1]] + [ds[2]] == [ds[0], ds[1], ds[2]];
  }
}
