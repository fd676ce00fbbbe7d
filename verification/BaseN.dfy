/** The base-16/32/64 codec of lib/util/basen.h: bytes regrouped into 4, 5 or 6 bits, with bits carried
    from byte to byte, against its meaning on bit strings (sections 4, 6 and 8 of RFC 4648). */
module BaseN {
  import opened Wrappers

  // ----- Bytes as bits, highest first -----

  lemma BitShr(v: bv8, k: nat, i: nat)
    requires k <= 8 && i < 8
    ensures Bit(v >> k, i) == (i >= k && Bit(v, i - k))
  {
    match k {
      case 0 => case 1 => case 2 => case 3 => case 4 => case 5 => case 6 => case 7 => case 8 =>
    }
  }

  lemma BitShl(v: bv8, k: nat, i: nat)
    requires k <= 8 && i < 8
    ensures Bit(v << k, i) == (i + k < 8 && Bit(v, i + k))
  {
    match k {
      case 0 => case 1 => case 2 => case 3 => case 4 => case 5 => case 6 => case 7 => case 8 =>
    }
  }

  lemma BitLogic(a: bv8, b: bv8, i: nat)
    requires i < 8
    ensures Bit(a & b, i) == (Bit(a, i) && Bit(b, i))
    ensures Bit(a | b, i) == (Bit(a, i) || Bit(b, i))
    ensures Bit(!a, i) == !Bit(a, i)
    ensures Bit(0xff, i) && !Bit(0, i)
  {
  }

  lemma SameBits(a: bv8, b: bv8)
    requires ByteBits(a) == ByteBits(b)
    ensures a == b
  {
    var x, y := ByteBits(a), ByteBits(b);
    assert x[0] == y[0] && x[1] == y[1] && x[2] == y[2] && x[3] == y[3];
    assert x[4] == y[4] && x[5] == y[5] && x[6] == y[6] && x[7] == y[7];
    assert Bit(a, 0) == Bit(b, 0) && Bit(a, 1) == Bit(b, 1) && Bit(a, 2) == Bit(b, 2) && Bit(a, 3) == Bit(b, 3);
    assert Bit(a, 4) == Bit(b, 4) && Bit(a, 5) == Bit(b, 5) && Bit(a, 6) == Bit(b, 6) && Bit(a, 7) == Bit(b, 7);
  }

  function Shl(v: bv8, k: nat): bv8
    requires k <= 8
  {
    v << k
  }

  function Shr(v: bv8, k: nat): bv8
    requires k <= 8
  {
    v >> k
  }

  function OrByte(a: bv8, b: bv8): bv8 {
    a | b
  }

  /** v & ~(0xff << count): the count lowest bits. */
  function LowBits(v: bv8, count: nat): bv8
    requires count <= 8
  {
    v & !(0xff << count)
  }

  lemma BitLow(v: bv8, count: nat, i: nat)
    requires count <= 8 && i < 8
    ensures Bit(LowBits(v, count), i) == (i + count >= 8 && Bit(v, i))
  {
    var mask := 0xff << count;
    BitLogic(v, !mask, i);
    BitLogic(mask, 0, i);
    BitShl(0xff, count, i);
    if i + count < 8 {
      BitLogic(0, 0, i + count);
    }
    hide Bit;
  }

  lemma BitOfShl(v: bv8, k: nat, i: nat)
    requires k <= 8 && i < 8
    ensures Bit(Shl(v, k), i) == (i + k < 8 && Bit(v, i + k))
  {
    BitShl(v, k, i);
    hide Bit;
  }

  lemma BitOfShr(v: bv8, k: nat, i: nat)
    requires k <= 8 && i < 8
    ensures Bit(Shr(v, k), i) == (i >= k && Bit(v, i - k))
  {
    BitShr(v, k, i);
    hide Bit;
  }

  lemma BitOfOr(a: bv8, b: bv8, i: nat)
    requires i < 8
    ensures Bit(OrByte(a, b), i) == (Bit(a, i) || Bit(b, i))
  {
    BitLogic(a, b, i);
    hide Bit;
  }

  /** The bit string of x, extended with zeros. */
  predicate BitAt(x: seq<bv8>, p: nat) {
    p / 8 < |x| && Bit(x[p / 8], p % 8)
  }

  lemma BitAtByte(x: seq<bv8>, k: nat, m: nat)
    requires m < 8
    ensures BitAt(x, 8 * k + m) == (k < |x| && Bit(x[k], m))
  {
    hide Bit;
  }

  // ----- Extracting groups -----

  function ExtractPartialBits(value: bv8, start: nat, count: nat): bv8
    requires start + count < 8
  {
    LowBits(Shr(value, 8 - count - start), count)
  }

  function ExtractOverlappingBits(previous: bv8, next: bv8, start: nat, count: nat): bv8
    requires start < 8 <= start + count && count <= 8
  {
    var inNext := count - (8 - start);
    var t1 := Shl(previous, inNext);
    var t2 := LowBits(Shr(next, 8 - inNext), inNext);
    LowBits(OrByte(t1, t2), count)
  }

  /** Both extract a run of bits, right-aligned in a byte. */
  lemma PartialBit(value: bv8, start: nat, count: nat, i: nat)
    requires start + count < 8 && i < 8
    ensures Bit(ExtractPartialBits(value, start, count), i) == (i >= 8 - count && Bit(value, start + (i - (8 - count))))
  {
    hide Bit, LowBits, Shr;
    var k := 8 - count - start;
    BitOfShr(value, k, i);
    BitLow(Shr(value, k), count, i);
  }

  lemma OverlappingBit(previous: bv8, next: bv8, start: nat, count: nat, i: nat)
    requires start < 8 <= start + count && count <= 8 && i < 8
    ensures Bit(ExtractOverlappingBits(previous, next, start, count), i) ==
            (i >= 8 - count &&
             var j := start + (i - (8 - count)); if j < 8 then Bit(previous, j) else Bit(next, j - 8))
  {
    hide Bit, LowBits, Shr, Shl, OrByte;
    var inNext := count - (8 - start);
    var t1, shifted := Shl(previous, inNext), Shr(next, 8 - inNext);
    var t2 := LowBits(shifted, inNext);
    BitOfShl(previous, inNext, i);
    BitOfShr(next, 8 - inNext, i);
    BitLow(shifted, inNext, i);
    BitOfOr(t1, t2, i);
    BitLow(OrByte(t1, t2), count, i);
  }

  // ----- The three alphabets -----

  const INVALID: nat := 255

  datatype Traits = Base16 | Base32 | Base64
  {
    function GroupLength(): (g: nat)
      ensures 4 <= g <= 6
    {
      match this
      case Base16 => 4
      case Base32 => 5
      case Base64 => 6
    }

    function Size(): nat {
      match this
      case Base16 => 16
      case Base32 => 32
      case Base64 => 64
    }

    /** The dictionary, eight symbols a row. */
    function Encode(index: nat): char
      requires index < Size()
    {
      var column := index % 8;
      match (this, index / 8)
      case (Base16, 0) => "01234567"[column]
      case (Base16, _) => "89ABCDEF"[column]
      case (Base32, 0) => "ABCDEFGH"[column]
      case (Base32, 1) => "IJKLMNOP"[column]
      case (Base32, 2) => "QRSTUVWX"[column]
      case (Base32, _) => "YZ234567"[column]
      case (Base64, 0) => "ABCDEFGH"[column]
      case (Base64, 1) => "IJKLMNOP"[column]
      case (Base64, 2) => "QRSTUVWX"[column]
      case (Base64, 3) => "YZabcdef"[column]
      case (Base64, 4) => "ghijklmn"[column]
      case (Base64, 5) => "opqrstuv"[column]
      case (Base64, 6) => "wxyz0123"[column]
      case (Base64, _) => "456789+/"[column]
    }

    function Decode(c: char): (value: nat)
      ensures value < Size() || value == INVALID
    {
      match this
      case Base16 =>
        if '0' <= c <= '9' then c as int - '0' as int
        else if 'A' <= c <= 'F' then c as int - 'A' as int + 10
        else INVALID
      case Base32 =>
        if 'A' <= c <= 'Z' then c as int - 'A' as int
        else if '2' <= c <= '7' then c as int - '2' as int + 26
        else INVALID
      case Base64 =>
        if 'A' <= c <= 'Z' then c as int - 'A' as int
        else if 'a' <= c <= 'z' then c as int - 'a' as int + 26
        else if '0' <= c <= '9' then c as int - '0' as int + 52
        else if c == '+' then 62
        else if c == '/' then 63
        else INVALID
    }

    lemma AlphabetBase16(index: nat)
      requires index < 16 && Base16?
      ensures Decode(Encode(index)) == index
    {
    }

    lemma AlphabetBase32(index: nat)
      requires index < 32 && Base32?
      ensures Decode(Encode(index)) == index
    {
    }

    lemma LowBase64(index: nat)
      requires index < 32 && Base64?
      ensures Decode(Encode(index)) == index
    {
    }

    lemma HighBase64(index: nat)
      requires 32 <= index < 64 && Base64?
      ensures Decode(Encode(index)) == index
    {
    }

    /** The alphabets of sections 4, 6 and 8 of RFC 4648, by ranges. */
    lemma AlphabetIs(index: nat)
      requires index < Size()
      ensures var c := Encode(index) as int;
              match this
              case Base16 => c == if index < 10 then '0' as int + index else 'A' as int + (index - 10)
              case Base32 => c == if index < 26 then 'A' as int + index else '2' as int + (index - 26)
              case Base64 =>
                c == if index < 26 then 'A' as int + index
                     else if index < 52 then 'a' as int + (index - 26)
                     else if index < 62 then '0' as int + (index - 52)
                     else if index == 62 then '+' as int
                     else '/' as int
    {
      SymbolRoundTrip(index);
      hide Encode;
    }

    lemma DecodeIsInjective(c: char, d: char)
      requires Decode(c) == Decode(d) != INVALID
      ensures c == d
    {
    }

    /** The characters that are decoded are the symbols, each to its index. */
    lemma DecodesExactlySymbols(c: char)
      ensures Decode(c) != INVALID <==> exists index: nat :: index < Size() && Encode(index) == c
      ensures Decode(c) != INVALID ==> Encode(Decode(c)) == c
    {
      if Decode(c) != INVALID {
        SymbolRoundTrip(Decode(c));
        DecodeIsInjective(c, Encode(Decode(c)));
      }
      if index: nat :| index < Size() && Encode(index) == c {
        SymbolRoundTrip(index);
      }
      hide Encode;
    }

    /** Decoding a symbol gives its index back; no symbol is a space or the padding. */
    lemma SymbolRoundTrip(index: nat)
      requires index < Size()
      ensures Decode(Encode(index)) == index && Encode(index) != '=' && !IsSpace(Encode(index))
    {
      hide Encode;
      if Base16? {
        AlphabetBase16(index);
      } else if Base32? {
        AlphabetBase32(index);
      } else if index < 32 {
        LowBase64(index);
      } else {
        HighBase64(index);
      }
      assert Decode('=') == INVALID;
      if IsSpace(Encode(index)) {
        SpaceIsInvalid(this, Encode(index));
      }
    }
  }

  // ----- Bit strings as numbers -----

  /** The number a bit string denotes. */
  function Index(bits: Bits): nat {
    if bits == [] then 0 else 2 * Index(bits[..|bits| - 1]) + (if bits[|bits| - 1] then 1 else 0)
  }

  function ByteOf(bits: Bits): bv8
    requires |bits| == 8
  {
    (if bits[0] then 0x80 else 0) | (if bits[1] then 0x40 else 0) |
    (if bits[2] then 0x20 else 0) | (if bits[3] then 0x10 else 0) |
    (if bits[4] then 0x08 else 0) | (if bits[5] then 0x04 else 0) |
    (if bits[6] then 0x02 else 0) | (if bits[7] then 0x01 else 0)
  }

  lemma ByteOfBits(bits: Bits)
    requires |bits| == 8
    ensures ByteBits(ByteOf(bits)) == bits
  {
    var b := ByteOf(bits);
    assert Bit(b, 0) == bits[0] && Bit(b, 1) == bits[1] && Bit(b, 2) == bits[2] && Bit(b, 3) == bits[3];
    assert Bit(b, 4) == bits[4] && Bit(b, 5) == bits[5] && Bit(b, 6) == bits[6] && Bit(b, 7) == bits[7];
    hide Bit, ByteOf;
  }

  function Digit(on: bool): nat {
    if on then 1 else 0
  }

  lemma ByteDigits(v: bv8)
    ensures v as nat == 128 * Digit(Bit(v, 0)) + 64 * Digit(Bit(v, 1)) + 32 * Digit(Bit(v, 2)) + 16 * Digit(Bit(v, 3)) +
                        8 * Digit(Bit(v, 4)) + 4 * Digit(Bit(v, 5)) + 2 * Digit(Bit(v, 6)) + Digit(Bit(v, 7))
  {
  }

  lemma IndexOfPrefix(b: Bits, k: nat)
    requires k < |b|
    ensures Index(b[..k + 1]) == 2 * Index(b[..k]) + Digit(b[k])
  {
    assert b[..k + 1][..k] == b[..k];
  }

  lemma IndexOfFour(b: Bits, k: nat)
    requires k + 4 <= |b|
    ensures Index(b[..k + 4]) ==
            16 * Index(b[..k]) + 8 * Digit(b[k]) + 4 * Digit(b[k + 1]) + 2 * Digit(b[k + 2]) + Digit(b[k + 3])
  {
    hide Index, Digit;
    IndexOfPrefix(b, k);
    IndexOfPrefix(b, k + 1);
    IndexOfPrefix(b, k + 2);
    IndexOfPrefix(b, k + 3);
  }

  lemma IndexOfEight(b: Bits)
    requires |b| == 8
    ensures Index(b) == 128 * Digit(b[0]) + 64 * Digit(b[1]) + 32 * Digit(b[2]) + 16 * Digit(b[3]) +
                        8 * Digit(b[4]) + 4 * Digit(b[5]) + 2 * Digit(b[6]) + Digit(b[7])
  {
    assert Index([]) == 0 && b[..8] == b && b[..0] == [];
    hide Index, Digit;
    IndexOfFour(b, 0);
    IndexOfFour(b, 4);
  }

  lemma ByteIndex(v: bv8)
    ensures v as nat == Index(ByteBits(v))
  {
    hide Index, Bit, Digit;
    ByteDigits(v);
    IndexOfEight(ByteBits(v));
  }

  lemma {:induction false} LeadingZeros(k: nat, bits: Bits)
    ensures Index(Zeros(k) + bits) == Index(bits)
    decreases |bits|, k
  {
    if bits == [] {
      if k > 0 {
        assert (Zeros(k) + bits)[..k - 1] == Zeros(k - 1) + [];
        LeadingZeros(k - 1, []);
      }
    } else {
      assert (Zeros(k) + bits)[..k + |bits| - 1] == Zeros(k) + bits[..|bits| - 1];
      LeadingZeros(k, bits[..|bits| - 1]);
    }
  }

  function Power2(n: nat): nat {
    if n == 0 then 1 else 2 * Power2(n - 1)
  }

  lemma {:induction false} IndexBound(bits: Bits)
    ensures Index(bits) < Power2(|bits|)
  {
    if bits != [] {
      IndexBound(bits[..|bits| - 1]);
    }
  }

  lemma GroupIndex(t: Traits, group: Bits)
    requires |group| == t.GroupLength()
    ensures Index(group) < t.Size()
  {
    IndexBound(group);
    assert Power2(4) == 16 && Power2(5) == 32 && Power2(6) == 64;
  }

  /** A group of bits and the byte that holds it, right-aligned. */
  lemma GroupByte(t: Traits, group: Bits, v: bv8)
    requires |group| == t.GroupLength()
    requires forall i :: 0 <= i < 8 ==> Bit(v, i) == (i >= 8 - t.GroupLength() && group[i - (8 - t.GroupLength())])
    ensures v as nat == Index(group)
  {
    hide Index, Bit;
    ByteIndex(v);
    LeadingZeros(8 - t.GroupLength(), group);
    assert ByteBits(v) == Zeros(8 - t.GroupLength()) + group;
  }

  // ----- Encoding -----

  function DataLength(t: Traits, n: nat): nat {
    (8 * n + t.GroupLength() - 1) / t.GroupLength()
  }

  /** The i-th group of the input. */
  function Group(t: Traits, x: seq<bv8>, i: nat): (group: Bits)
    ensures |group| == t.GroupLength()
    ensures forall m :: 0 <= m < t.GroupLength() ==> group[m] == BitAt(x, i * t.GroupLength() + m)
  {
    seq(t.GroupLength(), m requires 0 <= m => BitAt(x, i * t.GroupLength() + m))
  }

  /** The number of characters, padding included: the data characters, up to a multiple of 8 bits. */
  function EncodedLength(t: Traits, n: nat): nat {
    match t
    case Base16 => 2 * n
    case Base32 => (n + 4) / 5 * 8
    case Base64 => (n + 2) / 3 * 4
  }

  function Symbol(t: Traits, x: seq<bv8>, i: nat): char {
    GroupIndex(t, Group(t, x, i));
    t.Encode(Index(Group(t, x, i)))
  }

  /** out is the encoding of x: a symbol for every group, then padding. */
  ghost predicate IsEncoding(t: Traits, x: seq<bv8>, out: string) {
    && |out| == EncodedLength(t, |x|) >= DataLength(t, |x|)
    && (forall i :: 0 <= i < DataLength(t, |x|) ==> out[i] == Symbol(t, x, i))
    && (forall i :: DataLength(t, |x|) <= i < |out| ==> out[i] == '=')
  }

  lemma GroupFrom(t: Traits, x: seq<bv8>, i: nat, k: nat, start: nat, m: nat)
    requires i * t.GroupLength() == 8 * k + start && m < t.GroupLength() && start < 8
    ensures Group(t, x, i)[m] ==
            if start + m < 8 then k < |x| && Bit(x[k], start + m) else k + 1 < |x| && Bit(x[k + 1], start + m - 8)
  {
    hide Bit, BitAt;
    if start + m < 8 {
      BitAtByte(x, k, start + m);
    } else {
      BitAtByte(x, k + 1, start + m - 8);
    }
  }

  /** extract_partial_bits, or with the backlog extract_overlapping_bits, cuts out the next group. */
  lemma PartialGroup(t: Traits, x: seq<bv8>, i: nat, k: nat, start: nat)
    requires k < |x| && start + t.GroupLength() < 8 && i * t.GroupLength() == 8 * k + start
    ensures ExtractPartialBits(x[k], start, t.GroupLength()) as nat == Index(Group(t, x, i))
  {
    var g, group := t.GroupLength(), Group(t, x, i);
    hide Index, Bit, BitAt, Group, ExtractPartialBits;
    var v := ExtractPartialBits(x[k], start, g);
    forall m | 0 <= m < 8 ensures Bit(v, m) == (m >= 8 - g && group[m - (8 - g)]) {
      PartialBit(x[k], start, g, m);
      if m >= 8 - g {
        GroupFrom(t, x, i, k, start, m - (8 - g));
      }
    }
    GroupByte(t, group, v);
  }

  lemma OverlappingGroup(t: Traits, x: seq<bv8>, i: nat, k: nat, start: nat, next: bv8)
    requires k < |x| && start < 8 <= start + t.GroupLength() && i * t.GroupLength() == 8 * k + start
    requires next == if k + 1 < |x| then x[k + 1] else 0
    ensures ExtractOverlappingBits(x[k], next, start, t.GroupLength()) as nat == Index(Group(t, x, i))
  {
    var g, group := t.GroupLength(), Group(t, x, i);
    hide Index, Bit, BitAt, Group, ExtractOverlappingBits;
    var v := ExtractOverlappingBits(x[k], next, start, g);
    forall m | 0 <= m < 8 ensures Bit(v, m) == (m >= 8 - g && group[m - (8 - g)]) {
      OverlappingBit(x[k], next, start, g, m);
      if m >= 8 - g {
        var j := m - (8 - g);
        GroupFrom(t, x, i, k, start, j);
        if start + j >= 8 {
          BitLogic(0, 0, start + j - 8);
        }
      }
    }
    GroupByte(t, group, v);
  }

  lemma SymbolIs(t: Traits, x: seq<bv8>, i: nat, v: bv8)
    requires v as nat == Index(Group(t, x, i))
    ensures v as nat < t.Size() && t.Encode(v as nat) == Symbol(t, x, i)
  {
    GroupIndex(t, Group(t, x, i));
  }

  lemma DataLengthIs(t: Traits, n: nat, k: nat)
    requires k * t.GroupLength() >= 8 * n && (k > 0 ==> (k - 1) * t.GroupLength() < 8 * n)
    ensures k == DataLength(t, n)
  {
    var g := t.GroupLength();
    assert k > 0 ==> (k - 1) * g == k * g - g;
    if g == 4 {
    } else if g == 5 {
    } else {
      assert g == 6;
    }
  }

  /** How many '=' bring the bit position back to a byte boundary. */
  function PadSteps(g: nat, start: nat): nat {
    if g == 5 then 3 * start % 8 else if g == 6 then start / 2 else if start == 0 then 0 else 1
  }

  lemma PadStep(t: Traits, start: nat)
    requires 0 < start < 8 && (t.Base16? ==> start == 4) && (t.Base64? ==> start % 2 == 0)
    ensures PadSteps(t.GroupLength(), (start + t.GroupLength()) % 8) + 1 == PadSteps(t.GroupLength(), start)
  {
  }

  lemma PaddedBy4(d: nat, n: nat, start: nat)
    requires d * 4 == 8 * n + start && start < 4
    ensures start == 0 && d == 2 * n
  {
  }

  lemma PaddedBy5(d: nat, n: nat, start: nat)
    requires d * 5 == 8 * n + start && start < 5
    ensures d + 3 * start % 8 == (n + 4) / 5 * 8
  {
    if start == 0 {
    } else if start == 1 {
    } else if start == 2 {
    } else if start == 3 {
    } else {
      assert start == 4;
    }
  }

  lemma PaddedBy6(d: nat, n: nat, start: nat)
    requires d * 6 == 8 * n + start && start < 6
    ensures start % 2 == 0 && d + start / 2 == (n + 2) / 3 * 4
  {
  }

  lemma PaddedLength(t: Traits, n: nat, start: nat)
    requires DataLength(t, n) * t.GroupLength() == 8 * n + start && start < t.GroupLength()
    ensures (t.Base16? ==> start == 0) && (t.Base64? ==> start % 2 == 0)
    ensures DataLength(t, n) + PadSteps(t.GroupLength(), start) == EncodedLength(t, n)
  {
    var d := DataLength(t, n);
    match t {
      case Base16 => PaddedBy4(d, n, start);
      case Base32 => PaddedBy5(d, n, start);
      case Base64 => PaddedBy6(d, n, start);
    }
  }

  lemma NextProduct(k: nat, g: nat)
    ensures (k + 1) * g == k * g + g
  {
  }

  /** The data characters; startBit is where the last group ended in its byte. */
  method EncodeData(t: Traits, input: seq<bv8>) returns (out: string, startBit: nat)
    ensures |out| == DataLength(t, |input|) && |out| * t.GroupLength() == 8 * |input| + startBit &&
            startBit < t.GroupLength()
    ensures forall i :: 0 <= i < |out| ==> out[i] == Symbol(t, input, i)
  {
    hide Index, Group, DataLength, Symbol, Traits.Encode, ExtractPartialBits, ExtractOverlappingBits;
    var g, n := t.GroupLength(), |input|;
    var iter := 0;
    var hasBacklog := false;
    var backlog: bv8 := 0;
    out, startBit := "", 0;
    ghost var pos := 0;
    while hasBacklog || iter != n
      invariant 0 <= iter <= n && 0 <= startBit < 8
      invariant hasBacklog ==> iter > 0 && backlog == input[iter - 1] && startBit + g >= 8
      invariant pos == 8 * (if hasBacklog then iter - 1 else iter) + startBit == |out| * g
      invariant if |out| == 0 then pos == 0 else pos - g < 8 * n
      invariant forall i :: 0 <= i < |out| ==> out[i] == Symbol(t, input, i)
      decreases 8 * n + 8 - pos, if hasBacklog then 0 else 1
    {
      if !hasBacklog {
        if startBit + g < 8 {
          PartialGroup(t, input, |out|, iter, startBit);
          NextProduct(|out|, g);
          var v := ExtractPartialBits(input[iter], startBit, g);
          SymbolIs(t, input, |out|, v);
          out := out + [t.Encode(v as nat)];
          startBit := startBit + g;
          pos := pos + g;
        } else {
          backlog := input[iter];
          iter := iter + 1;
          hasBacklog := true;
        }
      } else {
        var next := if iter == n then 0 else input[iter];
        OverlappingGroup(t, input, |out|, iter - 1, startBit, next);
        NextProduct(|out|, g);
        var v := ExtractOverlappingBits(backlog, next, startBit, g);
        SymbolIs(t, input, |out|, v);
        out := out + [t.Encode(v as nat)];
        hasBacklog := false;
        startBit := (startBit + g) % 8;
        pos := pos + g;
      }
    }
    if |out| > 0 {
      NextProduct(|out| - 1, g);
    }
    DataLengthIs(t, n, |out|);
  }

  method Encode(t: Traits, input: seq<bv8>) returns (out: string)
    ensures IsEncoding(t, input, out)
  {
    hide Symbol, PadSteps;
    var g, n := t.GroupLength(), |input|;
    var startBit;
    out, startBit := EncodeData(t, input);
    ghost var data := out;
    PaddedLength(t, n, startBit);
    while startBit != 0
      invariant 0 <= startBit < 8 && data <= out
      invariant (t.Base16? ==> startBit == 0) && (t.Base64? ==> startBit % 2 == 0)
      invariant |out| + PadSteps(g, startBit) == EncodedLength(t, n)
      invariant forall i :: |data| <= i < |out| ==> out[i] == '='
      decreases PadSteps(g, startBit)
    {
      PadStep(t, startBit);
      out := out + "=";
      startBit := (startBit + g) % 8;
    }
    NoPadding(g);
  }

  lemma NoPadding(g: nat)
    ensures PadSteps(g, 0) == 0
  {
  }

  // ----- Decoding -----

  /** The group held by a byte, right-aligned. */
  function GroupOf(t: Traits, v: bv8): (bits: Bits)
    ensures |bits| == t.GroupLength()
    ensures forall j :: 0 <= j < t.GroupLength() ==> bits[j] == Bit(v, 8 - t.GroupLength() + j)
  {
    seq(t.GroupLength(), j requires 0 <= j => Bit(v, 8 - t.GroupLength() + j))
  }

  /** The bits a character stands for; characters outside the alphabet stand for none. */
  function SymbolBits(t: Traits, c: char): (bits: Bits) {
    if t.Decode(c) == INVALID then [] else GroupOf(t, t.Decode(c) as bv8)
  }

  function TextBits(t: Traits, text: string): Bits {
    if text == "" then [] else TextBits(t, text[..|text| - 1]) + SymbolBits(t, text[|text| - 1])
  }

  /** out holds the whole bytes of the bits of the text. */
  ghost predicate IsDecoding(t: Traits, text: string, out: seq<bv8>) {
    var bits := TextBits(t, text);
    |out| == |bits| / 8 && forall p :: 0 <= p < 8 * |out| ==> BitAt(out, p) == bits[p]
  }

  predicate IsSpace(c: char) {
    c == ' ' || '\t' as int <= c as int <= '\r' as int
  }

  lemma SpaceIsInvalid(t: Traits, c: char)
    requires IsSpace(c)
    ensures t.Decode(c) == INVALID
  {
  }

  /** The bits read so far are the bytes written and, in the buffer, the `cur` bits behind them. */
  ghost predicate Holds(bits: Bits, out: seq<bv8>, buffer: bv8, cur: nat) {
    && cur <= 8 && |bits| == 8 * |out| + cur
    && (forall p :: 0 <= p < 8 * |out| ==> BitAt(out, p) == bits[p])
    && (forall m :: 0 <= m < 8 ==> Bit(buffer, m) == (m < cur && bits[8 * |out| + m]))
  }

  lemma HighBitsClear(t: Traits, k: nat, m: nat)
    requires k < t.Size() && m < 8 - t.GroupLength()
    ensures !Bit(k as bv8, m)
  {
    var v := k as bv8;
    assert v as nat == k;
    assert v < 64 && (t.Base16? ==> v < 16) && (t.Base32? ==> v < 32);
  }

  /** The buffer takes over the run [from, from + len) of v's bits, behind its first cur bits. */
  lemma TakesRun(bits: Bits, out: seq<bv8>, buffer: bv8, cur: nat, v: bv8, moved: bv8, run: Bits)
    requires Holds(bits, out, buffer, cur) && cur + |run| <= 8
    requires forall m :: 0 <= m < 8 ==> Bit(moved, m) == (cur <= m < cur + |run| && run[m - cur])
    ensures Holds(bits + run, out, OrByte(buffer, moved), cur + |run|)
  {
    hide Bit, OrByte, BitAt;
    forall m | 0 <= m < 8 ensures Bit(OrByte(buffer, moved), m) == (Bit(buffer, m) || Bit(moved, m)) {
      BitOfOr(buffer, moved, m);
    }
  }

  lemma Flush(bits: Bits, out: seq<bv8>, buffer: bv8)
    requires Holds(bits, out, buffer, 8)
    ensures Holds(bits, out + [buffer], 0, 0)
  {
    forall m | 0 <= m < 8 ensures !Bit(0, m) {
      BitLogic(0, 0, m);
    }
    hide Bit, BitAt;
    var out' := out + [buffer];
    forall p | 0 <= p < 8 * |out'| ensures BitAt(out', p) == bits[p] {
      var k, m := p / 8, p % 8;
      BitAtByte(out', k, m);
      BitAtByte(out, k, m);
      assert p == 8 * k + m;
    }
  }

  /** Where the bits of a group of g bits go when it is shifted: behind the first cur bits of this
      byte, or, what does not fit, to the front of the next one. */
  lemma ShiftedInto(g: nat, v: bv8, cur: nat, m: nat)
    requires 4 <= g <= 6 && cur < 8 && m < 8 && forall i :: 0 <= i < 8 - g ==> !Bit(v, i)
    ensures cur + g <= 8 ==> Bit(Shl(v, 8 - cur - g), m) == (cur <= m < cur + g && Bit(v, 8 - g + (m - cur)))
    ensures cur + g > 8 ==> Bit(Shr(v, cur + g - 8), m) == (cur <= m && Bit(v, 8 - g + (m - cur)))
    ensures cur + g > 8 ==> Bit(Shl(v, 16 - cur - g), m) == (m < cur + g - 8 && Bit(v, m + 16 - cur - g))
  {
    hide Bit, Shl, Shr;
    if cur + g <= 8 {
      BitOfShl(v, 8 - cur - g, m);
    } else {
      BitOfShr(v, cur + g - 8, m);
      BitOfShl(v, 16 - cur - g, m);
    }
  }

  /** The whole group fits behind the first cur bits. */
  lemma Fits(t: Traits, bits: Bits, out: seq<bv8>, buffer: bv8, cur: nat, k: nat)
    requires k < t.Size() && cur + t.GroupLength() <= 8 && Holds(bits, out, buffer, cur)
    ensures Holds(bits + GroupOf(t, k as bv8), out,
                  OrByte(buffer, Shl(k as bv8, 8 - cur - t.GroupLength())), cur + t.GroupLength())
  {
    hide Bit, Shl, OrByte, Holds, GroupOf;
    var g, v := t.GroupLength(), k as bv8;
    var run, moved := GroupOf(t, v), Shl(v, 8 - cur - g);
    forall i | 0 <= i < 8 - g ensures !Bit(v, i) {
      HighBitsClear(t, k, i);
    }
    forall m | 0 <= m < 8 ensures Bit(moved, m) == (cur <= m < cur + |run| && run[m - cur]) {
      ShiftedInto(g, v, cur, m);
    }
    TakesRun(bits, out, buffer, cur, v, moved, run);
  }

  lemma Rejoin<T>(s: seq<T>, t: seq<T>, k: nat)
    requires k <= |t|
    ensures s + t[..k] + t[k..] == s + t
  {
  }

  /** value >> bits_in_next_byte fills the current byte, value << (8 - bits_in_next_byte) starts the next. */
  lemma Spans(t: Traits, bits: Bits, out: seq<bv8>, buffer: bv8, cur: nat, k: nat)
    requires k < t.Size() && cur < 8 < cur + t.GroupLength() && Holds(bits, out, buffer, cur)
    ensures var inNext := t.GroupLength() - (8 - cur);
            var full := OrByte(buffer, Shr(k as bv8, inNext));
            Holds(bits + GroupOf(t, k as bv8), out + [full], OrByte(0, Shl(k as bv8, 8 - inNext)), inNext)
  {
    hide Bit, Shl, Shr, OrByte, Holds, GroupOf;
    var v, inNext := k as bv8, t.GroupLength() - (8 - cur);
    var run := GroupOf(t, v);
    var here, there := run[..8 - cur], run[8 - cur..];
    var moved, rest := Shr(v, inNext), Shl(v, 8 - inNext);
    forall i | 0 <= i < 8 - t.GroupLength() ensures !Bit(v, i) {
      HighBitsClear(t, k, i);
    }
    forall m | 0 <= m < 8 ensures Bit(moved, m) == (cur <= m < cur + |here| && here[m - cur]) {
      ShiftedInto(t.GroupLength(), v, cur, m);
      assert cur <= m ==> here[m - cur] == run[m - cur];
    }
    TakesRun(bits, out, buffer, cur, v, moved, here);
    Flush(bits + here, out, OrByte(buffer, moved));
    forall m | 0 <= m < 8 ensures Bit(rest, m) == (0 <= m < |there| && there[m]) {
      ShiftedInto(t.GroupLength(), v, cur, m);
      assert m < |there| ==> there[m] == run[8 - cur + m];
    }
    TakesRun(bits + here, out + [OrByte(buffer, moved)], 0, 0, v, rest, there);
    Rejoin(bits, run, 8 - cur);
  }

  /** One symbol of the alphabet. */
  method DecodeSymbol(t: Traits, value: nat, out: seq<bv8>, buffer: bv8, cur: nat, ghost bits: Bits)
    returns (out': seq<bv8>, buffer': bv8, cur': nat)
    requires value < t.Size() && cur < 8 && Holds(bits, out, buffer, cur)
    ensures cur' < 8 && Holds(bits + GroupOf(t, value as bv8), out', buffer', cur')
  {
    hide Bit, Shl, Shr, OrByte, Holds, GroupOf;
    var g, v := t.GroupLength(), value as bv8;
    out' := out;
    var inCurrent := (if cur + g < 8 then cur + g else 8) - cur;
    if inCurrent == g {
      Fits(t, bits, out, buffer, cur, value);
      buffer' := OrByte(buffer, Shl(v, 8 - cur - g));
      cur' := cur + g;
      if cur' == 8 {
        Flush(bits + GroupOf(t, v), out, buffer');
        out' := out + [buffer'];
        buffer' := 0;
        cur' := 0;
      }
    } else {
      Spans(t, bits, out, buffer, cur, value);
      var inNext := g - inCurrent;
      buffer' := OrByte(buffer, Shr(v, inNext));
      out' := out + [buffer'];
      buffer' := 0;
      buffer' := OrByte(buffer', Shl(v, 8 - inNext));
      cur' := inNext;
    }
  }

  method Decode(t: Traits, text: string) returns (out: seq<bv8>)
    ensures IsDecoding(t, text, out)
  {
    hide Bit, Holds, Traits.Decode, GroupOf, IsDecoding;
    var cur := 0;
    var buffer: bv8 := 0;
    out := [];
    StartsEmpty();
    for k := 0 to |text|
      invariant cur < 8 && Holds(TextBits(t, text[..k]), out, buffer, cur)
    {
      assert text[..k + 1][..k] == text[..k];
      ghost var bits := TextBits(t, text[..k]);
      assert bits + [] == bits;
      if IsSpace(text[k]) {
        SpaceIsInvalid(t, text[k]);
        continue;
      }
      var value := t.Decode(text[k]);
      if value == INVALID {
        continue;
      }
      out, buffer, cur := DecodeSymbol(t, value, out, buffer, cur, bits);
    }
    assert text[..|text|] == text;
    EndsDecoding(t, text, out, buffer, cur);
  }

  lemma StartsEmpty()
    ensures Holds([], [], 0, 0)
  {
  }

  lemma EndsDecoding(t: Traits, text: string, out: seq<bv8>, buffer: bv8, cur: nat)
    requires cur < 8 && Holds(TextBits(t, text), out, buffer, cur)
    ensures IsDecoding(t, text, out)
  {
    hide Bit, BitAt, TextBits;
  }

  // ----- The round trip -----

  lemma {:induction false} TextBitsConcat(t: Traits, a: string, b: string)
    ensures TextBits(t, a + b) == TextBits(t, a) + TextBits(t, b)
  {
    hide SymbolBits;
    if b == "" {
      assert a + b == a;
    } else {
      assert (a + b)[..|a + b| - 1] == a + b[..|b| - 1];
      TextBitsConcat(t, a, b[..|b| - 1]);
    }
  }

  lemma {:induction false} JunkHasNoBits(t: Traits, junk: string)
    requires forall i :: 0 <= i < |junk| ==> t.Decode(junk[i]) == INVALID
    ensures TextBits(t, junk) == []
  {
    if junk != "" {
      JunkHasNoBits(t, junk[..|junk| - 1]);
    }
  }

  /** Whitespace and other characters outside the alphabet can stand anywhere. */
  lemma JunkIsIgnored(t: Traits, a: string, junk: string, b: string, out: seq<bv8>)
    requires forall i :: 0 <= i < |junk| ==> t.Decode(junk[i]) == INVALID
    ensures IsDecoding(t, a + junk + b, out) <==> IsDecoding(t, a + b, out)
  {
    JunkHasNoBits(t, junk);
    TextBitsConcat(t, a + junk, b);
    TextBitsConcat(t, a, junk);
    TextBitsConcat(t, a, b);
    hide TextBits, BitAt;
    assert TextBits(t, a) + [] == TextBits(t, a);
  }

  /** The bits of a data character are the group it was made from. */
  lemma SymbolHasGroup(t: Traits, x: seq<bv8>, i: nat)
    ensures SymbolBits(t, Symbol(t, x, i)) == Group(t, x, i)
  {
    var group := Group(t, x, i);
    hide Index, Group, Bit, BitAt, Traits.Encode, Traits.Decode;
    GroupIndex(t, group);
    t.SymbolRoundTrip(Index(group));
    var padded := Zeros(8 - t.GroupLength()) + group;
    ByteOfBits(padded);
    hide ByteOf;
    var w := ByteOf(padded);
    forall i | 0 <= i < 8 ensures Bit(w, i) == (i >= 8 - t.GroupLength() && group[i - (8 - t.GroupLength())]) {
      assert ByteBits(w)[i] == padded[i];
    }
    GroupByte(t, group, w);
    assert w as nat == Index(group) && (w as nat) as bv8 == w;
    hide GroupOf;
    forall j | 0 <= j < t.GroupLength() ensures GroupOf(t, w)[j] == group[j] {
      assert padded[8 - t.GroupLength() + j] == group[j];
    }
  }

  /** bits is the beginning of the bit string of x. */
  ghost predicate Begins(bits: Bits, x: seq<bv8>) {
    forall q :: 0 <= q < |bits| ==> bits[q] == BitAt(x, q)
  }

  lemma BeginsLonger(t: Traits, bits: Bits, x: seq<bv8>, i: nat)
    requires Begins(bits, x) && |bits| == i * t.GroupLength()
    ensures Begins(bits + Group(t, x, i), x)
  {
    hide BitAt;
    var group := Group(t, x, i);
    forall q | 0 <= q < |bits + group| ensures (bits + group)[q] == BitAt(x, q) {
      if q >= |bits| {
        var m := q - |bits|;
        assert group[m] == BitAt(x, i * t.GroupLength() + m);
      }
    }
  }

  lemma {:induction false} DataBits(t: Traits, x: seq<bv8>, text: string, k: nat)
    requires k <= |text| && forall i :: 0 <= i < k ==> text[i] == Symbol(t, x, i)
    ensures |TextBits(t, text[..k])| == k * t.GroupLength() && Begins(TextBits(t, text[..k]), x)
    decreases k
  {
    if k > 0 {
      hide Begins, Symbol, SymbolBits, Group;
      DataBits(t, x, text, k - 1);
      assert text[..k][..k - 1] == text[..k - 1];
      SymbolHasGroup(t, x, k - 1);
      NextProduct(k - 1, t.GroupLength());
      BeginsLonger(t, TextBits(t, text[..k - 1]), x, k - 1);
    }
  }

  lemma DataFillsBytes(t: Traits, n: nat)
    ensures 8 * n <= DataLength(t, n) * t.GroupLength() < 8 * n + 8
  {
    var d := DataLength(t, n);
    match t {
      case Base16 => assert d * 4 == d * t.GroupLength();
      case Base32 => assert d * 5 == d * t.GroupLength();
      case Base64 => assert d * 6 == d * t.GroupLength();
    }
  }

  lemma SameBytes(x: seq<bv8>, y: seq<bv8>)
    requires |x| == |y| && forall p :: 0 <= p < 8 * |x| ==> BitAt(x, p) == BitAt(y, p)
    ensures x == y
  {
    hide Bit, BitAt;
    forall k | 0 <= k < |x| ensures x[k] == y[k] {
      forall m | 0 <= m < 8 ensures Bit(x[k], m) == Bit(y[k], m) {
        BitAtByte(x, k, m);
        BitAtByte(y, k, m);
        assert BitAt(x, 8 * k + m) == BitAt(y, 8 * k + m);
      }
      SameBits(x[k], y[k]);
    }
  }

  /** Decoding an encoding gives the input back, for every alphabet and every input. */
  lemma RoundTrip(t: Traits, x: seq<bv8>, text: string, out: seq<bv8>)
    requires IsEncoding(t, x, text) && IsDecoding(t, text, out)
    ensures out == x
  {
    hide Bit, BitAt, Symbol, SymbolBits, TextBits, DataLength, EncodedLength;
    var d := DataLength(t, |x|);
    var pad := text[d..];
    DataBits(t, x, text, d);
    JunkHasNoBits(t, pad);
    TextBitsConcat(t, text[..d], pad);
    assert text == text[..d] + pad;
    assert TextBits(t, text[..d]) + [] == TextBits(t, text[..d]);
    DataFillsBytes(t, |x|);
    SameBytes(out, x);
  }
}
