/** What decodeString of lib/json/jsoncpp.cpp makes of the text of a string, described piece by piece. */
module JsonEscape {
  import opened Wrappers
  import opened JsonString

  // ----- Hexadecimal digits -----

  const LOWER: string := "0123456789abcdef"
  const UPPER: string := "0123456789ABCDEF"

  predicate IsHexDigit(c: char, d: int) {
    0 <= d < 16 && (c == LOWER[d] || c == UPPER[d])
  }

  /** The digits of both cases have their values, and no other character has one. */
  lemma HexValueMeans(c: char, d: int)
    ensures HexValue(c) == Some(d) <==> IsHexDigit(c, d)
  {
  }

  /** Printed digits are upper case. */
  lemma HexCharIs(d: nat)
    requires d < 16
    ensures HexChar(d) == UPPER[d]
  {
  }

  /** The i-th of four places, the highest first. */
  function Place(n: nat, i: nat): nat {
    match i
    case 0 => n / 0x1000
    case 1 => n / 0x100 % 16
    case 2 => n / 0x10 % 16
    case _ => n % 16
  }

  /** Four digits, in any mixture of cases. */
  predicate SpellsHex(h: string, n: nat) {
    && |h| == 4 && IsHexDigit(h[0], Place(n, 0)) && IsHexDigit(h[1], Place(n, 1))
    && IsHexDigit(h[2], Place(n, 2)) && IsHexDigit(h[3], Place(n, 3))
  }

  lemma Hex4Means(t: string, n: nat)
    ensures Hex4(t) == Ok(n) <==> |t| >= 4 && SpellsHex(t[..4], n)
  {
    if |t| >= 4 {
      if SpellsHex(t[..4], n) {
        SpelledIsHex4(t, n);
      }
      if Hex4(t) == Ok(n) {
        Hex4IsSpelled(t, n);
      }
    }
    hide Hex4, SpellsHex;
  }

  lemma SpelledIsHex4(t: string, n: nat)
    requires |t| >= 4 && SpellsHex(t[..4], n)
    ensures Hex4(t) == Ok(n)
  {
    PlaceValues(n);
    hide IsHexDigit, Place;
    HexValueMeans(t[0], Place(n, 0));
    HexValueMeans(t[1], Place(n, 1));
    HexValueMeans(t[2], Place(n, 2));
    HexValueMeans(t[3], Place(n, 3));
    hide HexValue;
  }

  lemma Hex4IsSpelled(t: string, n: nat)
    requires Hex4(t) == Ok(n)
    ensures SpellsHex(t[..4], n)
  {
    var a, b, c, d := Hex4Digits(t, n);
    Places(n, a, b, c, d);
    hide IsHexDigit, HexValue, Hex4, Place;
    HexValueMeans(t[0], a);
    HexValueMeans(t[1], b);
    HexValueMeans(t[2], c);
    HexValueMeans(t[3], d);
  }

  lemma Hex4Digits(t: string, n: nat) returns (a: int, b: int, c: int, d: int)
    requires Hex4(t) == Ok(n)
    ensures |t| >= 4 && HexValue(t[0]) == Some(a) && HexValue(t[1]) == Some(b)
    ensures HexValue(t[2]) == Some(c) && HexValue(t[3]) == Some(d)
    ensures n == a * 0x1000 + b * 0x100 + c * 0x10 + d
  {
    a, b, c, d := HexValue(t[0]).value, HexValue(t[1]).value, HexValue(t[2]).value, HexValue(t[3]).value;
  }

  lemma PlaceValues(n: nat)
    ensures n == Place(n, 0) * 0x1000 + Place(n, 1) * 0x100 + Place(n, 2) * 0x10 + Place(n, 3)
  {
    assert n / 0x1000 == n / 0x100 / 16 && n / 0x100 == n / 0x10 / 16;
  }

  lemma Places(n: nat, a: int, b: int, c: int, d: int)
    requires 0 <= a < 16 && 0 <= b < 16 && 0 <= c < 16 && 0 <= d < 16 && n == a * 0x1000 + b * 0x100 + c * 0x10 + d
    ensures Place(n, 0) == a && Place(n, 1) == b && Place(n, 2) == c && Place(n, 3) == d
  {
    assert n / 0x10 == a * 0x100 + b * 0x10 + c;
    assert n / 0x100 == a * 0x10 + b;
  }

  // ----- What is printed -----

  /** A printed string has no control characters, as section 7 of RFC 8259 demands. */
  lemma {:induction false} PrintedIsClean(s: string)
    requires '\0' !in s
    ensures forall i :: 0 <= i < |EscapedAll(s)| ==> EscapedAll(s)[i] as int >= 0x20
    decreases |s|
  {
    if s != "" {
      PrintedIsClean(s[1..]);
      EscapedIsClean(s[0]);
      hide Escaped;
    }
  }

  lemma EscapedIsClean(c: char)
    requires c != '\0'
    ensures forall i :: 0 <= i < |Escaped(c)| ==> Escaped(c)[i] as int >= 0x20
  {
    if IsControl(c) {
      HexTextIsClean(c as int);
    }
    hide HexText;
  }

  lemma HexTextIsClean(n: nat)
    requires n <= 0xFFFF
    ensures forall i :: 0 <= i < |HexText(n)| ==> HexText(n)[i] as int >= 0x20
  {
  }

  // ----- Pieces -----

  datatype Piece = Plain(c: char) | Short(c: char) | Basic(h: string, u: nat) | Pair(h: string, u: nat, l: string,
                                                                                     low: nat)

  /** The eight escapes of one letter, and the codes of what they stand for. */
  function ShortCode(c: char): nat {
    match c
    case '"' => 34
    case '/' => 47
    case '\\' => 92
    case 'b' => 8
    case 'f' => 12
    case 'n' => 10
    case 'r' => 13
    case 't' => 9
    case _ => 0
  }

  predicate PieceOk(p: Piece) {
    match p
    case Plain(c) => c != '"' && c != '\\'
    case Short(c) => c in "\"/\\bfnrt"
    case Basic(h, u) => SpellsHex(h, u) && !(0xD800 <= u <= 0xDBFF)
    case Pair(h, u, l, low) => SpellsHex(h, u) && 0xD800 <= u <= 0xDBFF && SpellsHex(l, low)
  }

  /** The code point of an escape or of a pair; only the low ten bits of the second one are looked at. */
  function CodeOf(p: Piece): (cp: nat)
    requires PieceOk(p) && (p.Basic? || p.Pair?)
    ensures cp <= MAX_CODE_POINT
  {
    if p.Basic? then p.u else 0x10000 + (p.u - 0xD800) * 0x400 + p.low % 0x400
  }

  function PieceMeans(p: Piece): string
    requires PieceOk(p)
  {
    match p
    case Plain(c) => [c]
    case Short(c) => [ShortCode(c) as char]
    case _ => Utf8(CodeOf(p))
  }

  /** The text of a piece, followed by s. */
  function PieceFront(p: Piece, s: string): string {
    match p
    case Plain(c) => [c] + s
    case Short(c) => ['\\', c] + s
    case Basic(h, _) => "\\u" + (h + s)
    case Pair(h, _, l, _) => "\\u" + (h + ("\\u" + (l + s)))
  }

  predicate PiecesOk(ps: seq<Piece>) {
    forall i :: 0 <= i < |ps| ==> PieceOk(ps[i])
  }

  function Front(ps: seq<Piece>, s: string): string {
    if ps == [] then s else PieceFront(ps[0], Front(ps[1..], s))
  }

  function Meaning(ps: seq<Piece>): string
    requires PiecesOk(ps)
  {
    if ps == [] then "" else PieceMeans(ps[0]) + Meaning(ps[1..])
  }

  // ----- Pieces are decoded -----

  lemma CombineMeans(u: nat, low: nat)
    requires 0xD800 <= u <= 0xDBFF
    ensures Combine(u, low) == 0x10000 + (u - 0xD800) * 0x400 + low % 0x400
  {
    assert u % 0x400 == u - 0xD800;
  }

  lemma BasicIsRead(h: string, u: nat, s: string)
    requires SpellsHex(h, u) && !HighSurrogate(u)
    ensures CodePoint(h + s) == Ok((u, 4))
  {
    assert (h + s)[..4] == h;
    Hex4Means(h + s, u);
    hide Hex4, SpellsHex;
  }

  lemma PairIsRead(h: string, u: nat, l: string, low: nat, s: string)
    requires SpellsHex(h, u) && HighSurrogate(u) && SpellsHex(l, low)
    ensures CodePoint(h + ("\\u" + (l + s))) == Ok((Combine(u, low), 10))
  {
    var rest := "\\u" + (l + s);
    var body := h + rest;
    assert body[..4] == h && body[4..] == rest && rest[2..] == l + s && (l + s)[..4] == l;
    Hex4Means(body, u);
    Hex4Means(l + s, low);
    hide Hex4, SpellsHex, Combine;
  }

  lemma CodePointIsRead(p: Piece, s: string)
    requires PieceOk(p) && (p.Basic? || p.Pair?)
    ensures CodePoint(PieceFront(p, s)[2..]) == Ok((CodeOf(p), if p.Basic? then 4 else 10))
  {
    hide CodePoint, SpellsHex;
    var body := PieceFront(p, s)[2..];
    if p.Basic? {
      assert body == p.h + s;
      BasicIsRead(p.h, p.u, s);
    } else {
      assert body == p.h + ("\\u" + (p.l + s));
      PairIsRead(p.h, p.u, p.l, p.low, s);
      CombineMeans(p.u, p.low);
      hide Combine;
    }
  }

  lemma PieceIsDecoded(p: Piece, s: string)
    requires PieceOk(p)
    ensures Unescape(PieceFront(p, s)) == Before(PieceMeans(p), Unescape(s))
  {
    var t := PieceFront(p, s);
    match p {
      case Plain(c) => assert t[1..] == s;
      case Short(c) =>
        assert t[2..] == s;
        assert SimpleEscape(c) == Some(ShortCode(c) as char);
      case _ => CodeIsDecoded(p, s);
    }
    hide Unescape;
  }

  lemma CodeIsDecoded(p: Piece, s: string)
    requires PieceOk(p) && (p.Basic? || p.Pair?)
    ensures Unescape(PieceFront(p, s)) == Before(Utf8(CodeOf(p)), Unescape(s))
  {
    CodePointIsRead(p, s);
    EscapeShape(p, s);
    hide CodePoint, Utf8, PieceOk, CodeOf, PieceFront;
  }

  lemma EscapeShape(p: Piece, s: string)
    requires PieceOk(p) && (p.Basic? || p.Pair?)
    ensures var t, n := PieceFront(p, s), if p.Basic? then 4 else 10;
            |t| >= 2 + n && t[0] == '\\' && t[1] == 'u' && t[2 + n..] == s
  {
    assert |p.h| == 4 && (p.Pair? ==> |p.l| == 4);
    hide PieceOk;
    if p.Basic? {
      Dropped("\\u", p.h, s);
    } else {
      var rest := "\\u" + (p.l + s);
      Dropped("\\u", p.h, rest);
      Dropped("\\u", p.l, s);
      assert PieceFront(p, s)[12..] == PieceFront(p, s)[6..][6..];
    }
  }

  lemma Dropped(a: string, b: string, s: string)
    ensures (a + (b + s))[|a| + |b|..] == s
  {
  }

  /** What ends the text of a string: nothing, or a quote. */
  predicate IsEnd(s: string) {
    s == "" || s[0] == '"'
  }

  lemma {:induction false} PiecesAreDecoded(ps: seq<Piece>, s: string)
    requires PiecesOk(ps) && IsEnd(s)
    ensures Unescape(Front(ps, s)) == Ok(Meaning(ps))
    decreases |ps|
  {
    if ps != [] {
      PieceIsDecoded(ps[0], Front(ps[1..], s));
      PiecesAreDecoded(ps[1..], s);
      hide Unescape, PieceMeans, PieceFront, PieceOk;
    }
  }

  // ----- What is decoded consists of pieces -----

  lemma CodePointIsPiece(t: string) returns (p: Piece)
    requires |t| >= 2 && t[0] == '\\' && t[1] == 'u' && CodePoint(t[2..]).Ok?
    ensures PieceOk(p) && (p.Basic? || p.Pair?)
    ensures t == PieceFront(p, t[2 + CodePoint(t[2..]).value.1..]) && CodePoint(t[2..]).value.0 == CodeOf(p)
  {
    var body := t[2..];
    var u := Hex4(body).value;
    Hex4Means(body, u);
    assert t == "\\u" + body && body == body[..4] + body[4..];
    if !HighSurrogate(u) {
      p := Basic(body[..4], u);
      assert t[6..] == body[4..];
    } else {
      var rest := body[4..];
      var low := Hex4(rest[2..]).value;
      Hex4Means(rest[2..], low);
      CombineMeans(u, low);
      p := Pair(body[..4], u, rest[2..][..4], low);
      assert rest == "\\u" + rest[2..] && rest[2..] == rest[2..][..4] + rest[2..][4..];
      assert t[12..] == rest[2..][4..];
    }
    hide Hex4, SpellsHex;
  }

  lemma FirstIsPiece(t: string) returns (p: Piece, s: string)
    requires Unescape(t).Ok? && !IsEnd(t)
    ensures PieceOk(p) && t == PieceFront(p, s) && Unescape(s).Ok? && |s| < |t|
  {
    if t[0] != '\\' {
      p, s := Plain(t[0]), t[1..];
    } else if t[1] == 'u' {
      p := CodePointIsPiece(t);
      s := t[2 + CodePoint(t[2..]).value.1..];
      hide CodePoint, Utf8, PieceFront;
    } else {
      p, s := Short(t[1]), t[2..];
      assert t == [t[0], t[1]] + t[2..];
    }
  }

  lemma {:induction false} DecodedIsPieces(t: string) returns (ps: seq<Piece>, s: string)
    requires Unescape(t).Ok?
    ensures PiecesOk(ps) && IsEnd(s) && t == Front(ps, s)
    decreases |t|
  {
    hide Unescape, PieceFront, PieceOk;
    if IsEnd(t) {
      ps, s := [], t;
    } else {
      var p, rest := FirstIsPiece(t);
      var more;
      more, s := DecodedIsPieces(rest);
      ps := [p] + more;
      assert ps[1..] == more;
    }
  }

  /** A text is decoded exactly when it consists of pieces, and then to what they mean. */
  lemma DecodesExactlyPieces(t: string, d: string)
    ensures Unescape(t) == Ok(d) <==>
            exists ps, s :: PiecesOk(ps) && IsEnd(s) && t == Front(ps, s) && d == Meaning(ps)
  {
    if Unescape(t).Ok? {
      var ps, s := DecodedIsPieces(t);
      PiecesAreDecoded(ps, s);
    }
    hide Unescape, Front, Meaning, PiecesOk;
    forall ps, s | PiecesOk(ps) && IsEnd(s) && t == Front(ps, s) ensures Unescape(t) == Ok(Meaning(ps)) {
      PiecesAreDecoded(ps, s);
    }
  }

  /** t is an escape for cp, or for a code point beyond the basic plane two, in any mixture of cases. */
  predicate Escapes(t: string, cp: nat) {
    if cp <= 0xFFFF then |t| == 6 && t[..2] == "\\u" && SpellsHex(t[2..], cp) && !HighSurrogate(cp)
    else
      && cp <= MAX_CODE_POINT && |t| == 12
      && t[..2] == "\\u" && SpellsHex(t[2..6], 0xD800 + (cp - 0x10000) / 0x400)
      && t[6..8] == "\\u" && SpellsHex(t[8..], 0xDC00 + (cp - 0x10000) % 0x400)
  }

  lemma CodePointEscapeIsRead(cp: nat, t: string)
    requires Escapes(t, cp)
    ensures cp <= MAX_CODE_POINT && Unescape(t) == Ok(Utf8(cp))
  {
    var p := EscapeIsPiece(cp, t);
    hide PieceFront, Unescape, PieceOk, Escapes;
    PieceIsDecoded(p, "");
    NothingIsDecoded();
    assert Utf8(cp) + "" == Utf8(cp);
  }

  lemma EscapeIsPiece(cp: nat, t: string) returns (p: Piece)
    requires Escapes(t, cp)
    ensures PieceOk(p) && (p.Basic? || p.Pair?) && CodeOf(p) == cp && t == PieceFront(p, "")
  {
    hide SpellsHex;
    if cp <= 0xFFFF {
      p := Basic(t[2..], cp);
    } else {
      var high, low := 0xD800 + (cp - 0x10000) / 0x400, 0xDC00 + (cp - 0x10000) % 0x400;
      p := Pair(t[2..6], high, t[8..], low);
      LowTenBits(cp - 0x10000);
      assert t == t[..2] + (t[2..6] + (t[6..8] + (t[8..] + "")));
    }
  }

  lemma LowTenBits(n: nat)
    ensures (0xDC00 + n % 0x400) % 0x400 == n % 0x400
  {
  }

  lemma NothingIsDecoded()
    ensures Unescape("") == Ok("")
  {
  }
}
