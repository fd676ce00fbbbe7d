/** Strings of lib/json/jsoncpp.cpp: quoting by the writers, and decoding by the reader. A character is a
    byte. */
module JsonString {
  import opened Wrappers

  datatype Message =
    | EmptyEscape | BadEscape | FourDigitsExpected | HexDigitExpected | SixCharactersExpected | LowSurrogateExpected
    | NotANumber | ValueExpected | MissingColon | MissingComma | MissingMember | MissingBracket | BadRoot

  datatype Result<T> = Ok(value: T) | Err(message: Message)

  const BACKSPACE: char := 8 as char
  const FORM_FEED: char := 12 as char

  // ----- UTF-8 -----

  const MAX_CODE_POINT: nat := 0x10FFFF

  function Byte(n: int): char
    requires 0 <= n < 256
  {
    n as char
  }

  /** codePointToUTF8. The masks and shifts are remainders and quotients. */
  function Utf8(cp: nat): string {
    if cp <= 0x7F then [Byte(cp)]
    else if cp <= 0x7FF then [Byte(0xC0 + cp / 0x40 % 0x20), Byte(0x80 + cp % 0x40)]
    else if cp <= 0xFFFF then
      [Byte(0xE0 + cp / 0x1000 % 0x10), Byte(0x80 + cp / 0x40 % 0x40), Byte(0x80 + cp % 0x40)]
    else if cp <= 0x10FFFF then
      [Byte(0xF0 + cp / 0x4_0000 % 8), Byte(0x80 + cp / 0x1000 % 0x40), Byte(0x80 + cp / 0x40 % 0x40),
       Byte(0x80 + cp % 0x40)]
    else ""
  }

  predicate Continues(c: char) {
    0x80 <= c as int <= 0xBF
  }

  function Six(c: char): int {
    c as int - 0x80
  }

  /** The code point that starts a text, and the number of its bytes: section 3 of RFC 3629, surrogates
      included and overlong forms refused. */
  function FirstCodePoint(s: string): Option<(int, nat)> {
    if s == "" then None
    else
      var b := s[0] as int;
      if b <= 0x7F then Some((b, 1))
      else if 0xC2 <= b <= 0xDF && |s| >= 2 && Continues(s[1]) then Some(((b - 0xC0) * 0x40 + Six(s[1]), 2))
      else if 0xE0 <= b <= 0xEF && |s| >= 3 && Continues(s[1]) && Continues(s[2]) then
        var cp := (b - 0xE0) * 0x1000 + Six(s[1]) * 0x40 + Six(s[2]);
        if cp >= 0x800 then Some((cp, 3)) else None
      else if 0xF0 <= b <= 0xF4 && |s| >= 4 && Continues(s[1]) && Continues(s[2]) && Continues(s[3]) then
        var cp := (b - 0xF0) * 0x4_0000 + Six(s[1]) * 0x1000 + Six(s[2]) * 0x40 + Six(s[3]);
        if 0x10000 <= cp <= MAX_CODE_POINT then Some((cp, 4)) else None
      else None
  }

  lemma TwoBytes(cp: nat)
    requires 0x80 <= cp <= 0x7FF
    ensures 2 <= cp / 0x40 % 0x20 == cp / 0x40 && cp == cp / 0x40 * 0x40 + cp % 0x40
  {
  }

  lemma ThreeBytes(cp: nat)
    requires 0x800 <= cp <= 0xFFFF
    ensures cp / 0x1000 % 0x10 == cp / 0x1000 && cp == cp / 0x1000 * 0x1000 + cp / 0x40 % 0x40 * 0x40 + cp % 0x40
  {
    assert cp / 0x40 / 0x40 == cp / 0x1000;
  }

  lemma FourBytes(cp: nat)
    requires 0x10000 <= cp <= MAX_CODE_POINT
    ensures cp / 0x4_0000 % 8 == cp / 0x4_0000 <= 4
    ensures cp == cp / 0x4_0000 * 0x4_0000 + cp / 0x1000 % 0x40 * 0x1000 + cp / 0x40 % 0x40 * 0x40 + cp % 0x40
  {
    assert cp / 0x40 / 0x40 == cp / 0x1000;
    assert cp / 0x1000 / 0x40 == cp / 0x4_0000;
  }

  predicate Tail(n: int) {
    0x80 <= n <= 0xBF
  }

  lemma Read2(x: int, y: int, behind: string)
    requires 0xC2 <= x <= 0xDF && Tail(y)
    ensures FirstCodePoint([Byte(x), Byte(y)] + behind) == Some(((x - 0xC0) * 0x40 + (y - 0x80), 2))
  {
    var s := [Byte(x), Byte(y)] + behind;
    assert s[0] == Byte(x) && s[1] == Byte(y);
  }

  lemma Read3(x: int, y: int, z: int, behind: string)
    requires 0xE0 <= x <= 0xEF && Tail(y) && Tail(z) && (x - 0xE0) * 0x1000 + (y - 0x80) * 0x40 + (z - 0x80) >= 0x800
    ensures FirstCodePoint([Byte(x), Byte(y), Byte(z)] + behind) ==
            Some(((x - 0xE0) * 0x1000 + (y - 0x80) * 0x40 + (z - 0x80), 3))
  {
    var s := [Byte(x), Byte(y), Byte(z)] + behind;
    assert s[0] == Byte(x) && s[1] == Byte(y) && s[2] == Byte(z);
  }

  lemma Read4(x: int, y: int, z: int, w: int, behind: string)
    requires 0xF0 <= x <= 0xF4 && Tail(y) && Tail(z) && Tail(w)
    requires 0x10000 <= (x - 0xF0) * 0x4_0000 + (y - 0x80) * 0x1000 + (z - 0x80) * 0x40 + (w - 0x80) <= MAX_CODE_POINT
    ensures FirstCodePoint([Byte(x), Byte(y), Byte(z), Byte(w)] + behind) ==
            Some(((x - 0xF0) * 0x4_0000 + (y - 0x80) * 0x1000 + (z - 0x80) * 0x40 + (w - 0x80), 4))
  {
    var s := [Byte(x), Byte(y), Byte(z), Byte(w)] + behind;
    assert s[0] == Byte(x) && s[1] == Byte(y) && s[2] == Byte(z) && s[3] == Byte(w);
  }

  lemma Utf8Read2(cp: int, behind: string)
    requires 0x80 <= cp <= 0x7FF
    ensures FirstCodePoint(Utf8(cp) + behind) == Some((cp, 2))
  {
    hide FirstCodePoint, Byte;
    TwoBytes(cp);
    Read2(0xC0 + cp / 0x40 % 0x20, 0x80 + cp % 0x40, behind);
  }

  lemma Utf8Read3(cp: int, behind: string)
    requires 0x800 <= cp <= 0xFFFF
    ensures FirstCodePoint(Utf8(cp) + behind) == Some((cp, 3))
  {
    hide FirstCodePoint, Byte;
    ThreeBytes(cp);
    Read3(0xE0 + cp / 0x1000 % 0x10, 0x80 + cp / 0x40 % 0x40, 0x80 + cp % 0x40, behind);
  }

  lemma Utf8Read4(cp: int, behind: string)
    requires 0x10000 <= cp <= MAX_CODE_POINT
    ensures FirstCodePoint(Utf8(cp) + behind) == Some((cp, 4))
  {
    hide FirstCodePoint, Byte;
    FourBytes(cp);
    Read4(0xF0 + cp / 0x4_0000 % 8, 0x80 + cp / 0x1000 % 0x40, 0x80 + cp / 0x40 % 0x40, 0x80 + cp % 0x40, behind);
  }

  /** Every code point is written so that it can be read back, whatever follows. */
  lemma Utf8IsRead(cp: nat, behind: string)
    requires cp <= MAX_CODE_POINT
    ensures FirstCodePoint(Utf8(cp) + behind) == Some((cp, |Utf8(cp)|))
  {
    if cp <= 0x7F {
      assert (Utf8(cp) + behind)[0] == Byte(cp);
    } else if cp <= 0x7FF {
      Utf8Read2(cp, behind);
    } else if cp <= 0xFFFF {
      Utf8Read3(cp, behind);
    } else {
      Utf8Read4(cp, behind);
    }
  }

  // ----- Quoting -----

  /** In ]0, 32[ */
  predicate IsControl(c: char) {
    0 < c as int <= 0x1F
  }

  function HexChar(d: nat): char
    requires d < 16
  {
    if d < 10 then ('0' as int + d) as char else ('A' as int + d - 10) as char
  }

  function HexText(n: nat): (s: string)
    requires n <= 0xFFFF
    ensures |s| == 4
  {
    [HexChar(n / 0x1000), HexChar(n / 0x100 % 16), HexChar(n / 16 % 16), HexChar(n % 16)]
  }

  function Escaped(c: char): string {
    if c == '"' then "\\\""
    else if c == '\\' then "\\\\"
    else if c == BACKSPACE then "\\b"
    else if c == FORM_FEED then "\\f"
    else if c == '\n' then "\\n"
    else if c == '\r' then "\\r"
    else if c == '\t' then "\\t"
    else if IsControl(c) then "\\u" + HexText(c as int)
    else [c]
  }

  function EscapedAll(s: string): string {
    if s == "" then "" else Escaped(s[0]) + EscapedAll(s[1..])
  }

  function Quoted(s: string): string {
    "\"" + EscapedAll(s) + "\""
  }

  lemma {:induction false} EscapedSnoc(s: string, c: char)
    ensures EscapedAll(s + [c]) == EscapedAll(s) + Escaped(c)
    decreases |s|
  {
    if s == "" {
      assert s + [c] == [c] && [c][1..] == "";
      assert Escaped(c) + "" == Escaped(c) == "" + Escaped(c);
    } else {
      assert (s + [c])[0] == s[0] && (s + [c])[1..] == s[1..] + [c];
      EscapedSnoc(s[1..], c);
      hide Escaped;
      assert Escaped(s[0]) + (EscapedAll(s[1..]) + Escaped(c)) == Escaped(s[0]) + EscapedAll(s[1..]) + Escaped(c);
    }
  }

  lemma {:induction false} NothingToEscape(s: string)
    requires forall i :: 0 <= i < |s| ==> Escaped(s[i]) == [s[i]]
    ensures EscapedAll(s) == s
    decreases |s|
  {
    if s != "" {
      NothingToEscape(s[1..]);
      assert [s[0]] + s[1..] == s;
    }
  }

  predicate Special(c: char) {
    c == '"' || c == '\\' || c == BACKSPACE || c == FORM_FEED || c == '\n' || c == '\r' || c == '\t'
  }

  /** valueToQuotedString: a text without special characters is copied, any other is walked. */
  method ValueToQuotedString(value: Option<string>) returns (result: string)
    ensures result == if value.None? then "" else Quoted(value.value)
  {
    if value.None? {
      return "";
    }
    var plain := NeedsNoEscape(value.value);
    if plain {
      return "\"" + value.value + "\"";
    }
    result := Walk(value.value);
  }

  method NeedsNoEscape(s: string) returns (plain: bool)
    ensures plain ==> EscapedAll(s) == s
  {
    plain := true;
    for k := 0 to |s|
      invariant plain ==> forall i :: 0 <= i < k ==> Escaped(s[i]) == [s[i]]
    {
      if Special(s[k]) || IsControl(s[k]) {
        plain := false;
      }
    }
    if plain {
      NothingToEscape(s);
    }
  }

  method Walk(s: string) returns (result: string)
    ensures result == Quoted(s)
  {
    hide Escaped;
    result := "\"";
    for k := 0 to |s|
      invariant result == "\"" + EscapedAll(s[..k])
    {
      EscapedSnoc(s[..k], s[k]);
      assert s[..k + 1] == s[..k] + [s[k]];
      hide EscapedAll;
      var piece := EscapeOne(s[k]);
      assert "\"" + EscapedAll(s[..k]) + piece == "\"" + (EscapedAll(s[..k]) + piece);
      result := result + piece;
    }
    assert s[..|s|] == s;
    result := result + "\"";
  }

  method EscapeOne(c: char) returns (piece: string)
    ensures piece == Escaped(c)
  {
    match c {
      case '"' => piece := "\\\"";
      case '\\' => piece := "\\\\";
      case '\n' => piece := "\\n";
      case '\r' => piece := "\\r";
      case '\t' => piece := "\\t";
      case _ =>
        if c == BACKSPACE {
          piece := "\\b";
        } else if c == FORM_FEED {
          piece := "\\f";
        } else if IsControl(c) {
          piece := "\\u" + HexText(c as int);
        } else {
          piece := [c];
        }
    }
  }

  // ----- Decoding -----

  function HexValue(c: char): (r: Option<int>)
    ensures r.Some? ==> 0 <= r.value < 16
  {
    if '0' <= c <= '9' then Some(c as int - '0' as int)
    else if 'a' <= c <= 'f' then Some(c as int - 'a' as int + 10)
    else if 'A' <= c <= 'F' then Some(c as int - 'A' as int + 10)
    else None
  }

  /** Four hexadecimal digits. */
  function Hex4(t: string): (r: Result<nat>)
    ensures r.Ok? ==> |t| >= 4 && r.value <= 0xFFFF
  {
    if |t| < 4 then Err(FourDigitsExpected)
    else
      match (HexValue(t[0]), HexValue(t[1]), HexValue(t[2]), HexValue(t[3]))
      case (Some(a), Some(b), Some(c), Some(d)) => Ok(a * 0x1000 + b * 0x100 + c * 0x10 + d)
      case _ => Err(HexDigitExpected)
  }

  predicate HighSurrogate(u: nat) {
    0xD800 <= u <= 0xDBFF
  }

  function Combine(high: nat, low: nat): nat {
    0x10000 + high % 0x400 * 0x400 + low % 0x400
  }

  /** The code point of an escape, after its \\u, and how many characters it takes. The second half of a
      pair may be any four digits. */
  function CodePoint(t: string): (r: Result<(nat, nat)>)
    ensures r.Ok? ==> r.value.0 <= MAX_CODE_POINT && 4 <= r.value.1 <= |t|
  {
    match Hex4(t)
    case Err(m) => Err(m)
    case Ok(u) =>
      if !HighSurrogate(u) then Ok((u, 4))
      else
        var rest := t[4..];
        if |rest| < 6 then Err(SixCharactersExpected)
        else if rest[0] != '\\' || rest[1] != 'u' then Err(LowSurrogateExpected)
        else
          match Hex4(rest[2..])
          case Err(m) => Err(m)
          case Ok(low) => Ok((Combine(u, low), 10))
  }

  function SimpleEscape(c: char): Option<char> {
    match c
    case '"' => Some('"')
    case '/' => Some('/')
    case '\\' => Some('\\')
    case 'b' => Some(BACKSPACE)
    case 'f' => Some(FORM_FEED)
    case 'n' => Some('\n')
    case 'r' => Some('\r')
    case 't' => Some('\t')
    case _ => None
  }

  function Before(s: string, r: Result<string>): Result<string> {
    match r
    case Ok(t) => Ok(s + t)
    case Err(m) => Err(m)
  }

  /** The text between two quotes, decoded. */
  function Unescape(t: string): Result<string>
    decreases |t|
  {
    if t == "" || t[0] == '"' then Ok("")
    else if t[0] != '\\' then Before([t[0]], Unescape(t[1..]))
    else if |t| == 1 then Err(EmptyEscape)
    else if t[1] == 'u' then
      match CodePoint(t[2..])
      case Err(m) => Err(m)
      case Ok((cp, n)) => Before(Utf8(cp), Unescape(t[2 + n..]))
    else
      match SimpleEscape(t[1])
      case None => Err(BadEscape)
      case Some(c) => Before([c], Unescape(t[2..]))
  }

  // ----- Decoding undoes quoting -----

  lemma HexTextIsRead(n: nat, behind: string)
    requires n <= 0xFFFF
    ensures Hex4(HexText(n) + behind) == Ok(n)
  {
    var t := HexText(n) + behind;
    assert t[0] == HexChar(n / 0x1000) && t[1] == HexChar(n / 0x100 % 16) && t[2] == HexChar(n / 16 % 16) &&
           t[3] == HexChar(n % 16);
    HexCharIsRead(n / 0x1000);
    HexCharIsRead(n / 0x100 % 16);
    HexCharIsRead(n / 16 % 16);
    HexCharIsRead(n % 16);
    hide HexChar, HexValue;
    assert n / 16 / 16 == n / 0x100 && n / 0x100 / 16 == n / 0x1000;
  }

  lemma HexCharIsRead(d: nat)
    requires d < 16
    ensures HexValue(HexChar(d)) == Some(d)
  {
  }

  lemma EscapedIsRead(c: char, behind: string)
    requires c != '\0'
    ensures Unescape(Escaped(c) + behind) == Before([c], Unescape(behind))
  {
    var t := Escaped(c) + behind;
    if Special(c) {
      assert t[0] == '\\' && t[2..] == behind;
    } else if IsControl(c) {
      var h := HexText(c as int);
      assert t[0] == '\\' && t[1] == 'u' && t[2..] == h + behind && t[6..] == behind;
      HexTextIsRead(c as int, behind);
    } else {
      assert t[0] == c && t[1..] == behind;
    }
  }

  /** Every text without a zero is decoded to itself. */
  lemma {:induction false} UnescapeIsInverse(s: string)
    requires '\0' !in s
    ensures Unescape(EscapedAll(s)) == Ok(s)
    decreases |s|
  {
    if s != "" {
      UnescapeIsInverse(s[1..]);
      EscapedIsRead(s[0], EscapedAll(s[1..]));
      assert [s[0]] + s[1..] == s;
    }
  }
}
