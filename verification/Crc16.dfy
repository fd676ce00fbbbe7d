/** The table-driven CRC of lib/util/crc16.cpp against polynomial division over GF(2).

    A polynomial is its sequence of coefficients, highest power first. */
module Crc16 {
  import opened Wrappers

  // ----- The code -----

  function Column(i: bv8, c0: bv16, c1: bv16, c2: bv16, c3: bv16, c4: bv16, c5: bv16, c6: bv16, c7: bv16): bv16 {
    var c := i & 7;
    if c == 0 then c0 else if c == 1 then c1 else if c == 2 then c2 else if c == 3 then c3
    else if c == 4 then c4 else if c == 5 then c5 else if c == 6 then c6 else c7
  }

  /** crc16tab, row by row. */
  function Table(i: bv8): bv16 {
    match i >> 3
    case 0x00 => Column(i, 0x0000, 0x1021, 0x2042, 0x3063, 0x4084, 0x50a5, 0x60c6, 0x70e7)
    case 0x01 => Column(i, 0x8108, 0x9129, 0xa14a, 0xb16b, 0xc18c, 0xd1ad, 0xe1ce, 0xf1ef)
    case 0x02 => Column(i, 0x1231, 0x0210, 0x3273, 0x2252, 0x52b5, 0x4294, 0x72f7, 0x62d6)
    case 0x03 => Column(i, 0x9339, 0x8318, 0xb37b, 0xa35a, 0xd3bd, 0xc39c, 0xf3ff, 0xe3de)
    case 0x04 => Column(i, 0x2462, 0x3443, 0x0420, 0x1401, 0x64e6, 0x74c7, 0x44a4, 0x5485)
    case 0x05 => Column(i, 0xa56a, 0xb54b, 0x8528, 0x9509, 0xe5ee, 0xf5cf, 0xc5ac, 0xd58d)
    case 0x06 => Column(i, 0x3653, 0x2672, 0x1611, 0x0630, 0x76d7, 0x66f6, 0x5695, 0x46b4)
    case 0x07 => Column(i, 0xb75b, 0xa77a, 0x9719, 0x8738, 0xf7df, 0xe7fe, 0xd79d, 0xc7bc)
    case 0x08 => Column(i, 0x48c4, 0x58e5, 0x6886, 0x78a7, 0x0840, 0x1861, 0x2802, 0x3823)
    case 0x09 => Column(i, 0xc9cc, 0xd9ed, 0xe98e, 0xf9af, 0x8948, 0x9969, 0xa90a, 0xb92b)
    case 0x0a => Column(i, 0x5af5, 0x4ad4, 0x7ab7, 0x6a96, 0x1a71, 0x0a50, 0x3a33, 0x2a12)
    case 0x0b => Column(i, 0xdbfd, 0xcbdc, 0xfbbf, 0xeb9e, 0x9b79, 0x8b58, 0xbb3b, 0xab1a)
    case 0x0c => Column(i, 0x6ca6, 0x7c87, 0x4ce4, 0x5cc5, 0x2c22, 0x3c03, 0x0c60, 0x1c41)
    case 0x0d => Column(i, 0xedae, 0xfd8f, 0xcdec, 0xddcd, 0xad2a, 0xbd0b, 0x8d68, 0x9d49)
    case 0x0e => Column(i, 0x7e97, 0x6eb6, 0x5ed5, 0x4ef4, 0x3e13, 0x2e32, 0x1e51, 0x0e70)
    case 0x0f => Column(i, 0xff9f, 0xefbe, 0xdfdd, 0xcffc, 0xbf1b, 0xaf3a, 0x9f59, 0x8f78)
    case 0x10 => Column(i, 0x9188, 0x81a9, 0xb1ca, 0xa1eb, 0xd10c, 0xc12d, 0xf14e, 0xe16f)
    case 0x11 => Column(i, 0x1080, 0x00a1, 0x30c2, 0x20e3, 0x5004, 0x4025, 0x7046, 0x6067)
    case 0x12 => Column(i, 0x83b9, 0x9398, 0xa3fb, 0xb3da, 0xc33d, 0xd31c, 0xe37f, 0xf35e)
    case 0x13 => Column(i, 0x02b1, 0x1290, 0x22f3, 0x32d2, 0x4235, 0x5214, 0x6277, 0x7256)
    case 0x14 => Column(i, 0xb5ea, 0xa5cb, 0x95a8, 0x8589, 0xf56e, 0xe54f, 0xd52c, 0xc50d)
    case 0x15 => Column(i, 0x34e2, 0x24c3, 0x14a0, 0x0481, 0x7466, 0x6447, 0x5424, 0x4405)
    case 0x16 => Column(i, 0xa7db, 0xb7fa, 0x8799, 0x97b8, 0xe75f, 0xf77e, 0xc71d, 0xd73c)
    case 0x17 => Column(i, 0x26d3, 0x36f2, 0x0691, 0x16b0, 0x6657, 0x7676, 0x4615, 0x5634)
    case 0x18 => Column(i, 0xd94c, 0xc96d, 0xf90e, 0xe92f, 0x99c8, 0x89e9, 0xb98a, 0xa9ab)
    case 0x19 => Column(i, 0x5844, 0x4865, 0x7806, 0x6827, 0x18c0, 0x08e1, 0x3882, 0x28a3)
    case 0x1a => Column(i, 0xcb7d, 0xdb5c, 0xeb3f, 0xfb1e, 0x8bf9, 0x9bd8, 0xabbb, 0xbb9a)
    case 0x1b => Column(i, 0x4a75, 0x5a54, 0x6a37, 0x7a16, 0x0af1, 0x1ad0, 0x2ab3, 0x3a92)
    case 0x1c => Column(i, 0xfd2e, 0xed0f, 0xdd6c, 0xcd4d, 0xbdaa, 0xad8b, 0x9de8, 0x8dc9)
    case 0x1d => Column(i, 0x7c26, 0x6c07, 0x5c64, 0x4c45, 0x3ca2, 0x2c83, 0x1ce0, 0x0cc1)
    case 0x1e => Column(i, 0xef1f, 0xff3e, 0xcf5d, 0xdf7c, 0xaf9b, 0xbfba, 0x8fd9, 0x9ff8)
    case _ => Column(i, 0x6e17, 0x7e36, 0x4e55, 0x5e74, 0x2e93, 0x3eb2, 0x0ed1, 0x1ef0)
  }

  /** The loop body. Only the low byte of the index survives the mask, so whether `char` is
      signed does not matter. */
  function ByteStep(crc: bv16, byte: bv8): bv16 {
    ((crc << 8) & 0xFFFF) ^ Table(TableIndex(crc, byte))
  }

  function TableIndex(crc: bv16, byte: bv8): bv8 {
    (((crc >> 8) ^ (byte as bv16)) & 0x00FF) as bv8
  }

  method ComputeCrc16(buf: seq<bv8>, len: int) returns (crc: bv16)
    requires len <= |buf|
    ensures WordBits(crc) == Crc(if len < 0 then [] else buf[..len])
  {
    hide ByteStep, ByteBits, FeedBits, TopBits;
    crc := 0;
    var counter := 0;
    TopBitsZero(16);
    CrcOfNothing();
    while counter < len
      invariant 0 <= counter <= |buf| && (counter == 0 || counter <= len)
      invariant WordBits(crc) == Crc(buf[..counter])
    {
      ByteStepFeedsBits(crc, buf[counter]);
      CrcAppend(buf[..counter], buf[counter]);
      assert buf[..counter + 1] == buf[..counter] + [buf[counter]];
      crc := ByteStep(crc, buf[counter]);
      counter := counter + 1;
    }
  }

  // ----- Bits -----

  predicate Top(w: bv16) {
    w & 0x8000 != 0
  }

  function Double(w: bv16): bv16 {
    w << 1
  }

  /** The n highest bits of a word. */
  function TopBits(w: bv16, n: nat): (bits: Bits)
    ensures |bits| == n
    decreases n
  {
    if n == 0 then [] else [Top(w)] + TopBits(Double(w), n - 1)
  }

  function WordBits(w: bv16): (bits: Bits)
    ensures |bits| == 16
  {
    TopBits(w, 16)
  }

  function MessageBits(buf: seq<bv8>): (bits: Bits)
    ensures |bits| == 8 * |buf|
  {
    if buf == [] then [] else ByteBits(buf[0]) + MessageBits(buf[1..])
  }

  function Xor(a: Bits, b: Bits): (c: Bits)
    requires |a| == |b|
    ensures |c| == |a| && forall i :: 0 <= i < |a| ==> c[i] == (a[i] != b[i])
  {
    seq(|a|, i requires 0 <= i < |a| => a[i] != b[i])
  }

  // ----- Polynomials over GF(2) -----

  /** x^16 + x^12 + x^5 + 1 */
  const POLY: Bits := [true, false, false, false, true, false, false, false,
                       false, false, false, true, false, false, false, false, true]

  /** q * POLY, by shift and add. */
  function TimesPoly(q: Bits): (product: Bits)
    ensures |product| == |q| + 16
  {
    if q == [] then Zeros(16)
    else Xor(TopTerm(q[0], |q|), [false] + TimesPoly(q[1..]))
  }

  function TopTerm(on: bool, n: nat): (term: Bits)
    requires n > 0
    ensures |term| == n + 16
  {
    if on then POLY + Zeros(n - 1) else Zeros(n + 16)
  }

  /** message * x^16 == quotient * POLY + remainder, the remainder of degree below 16. */
  ghost predicate Divides(message: Bits, quotient: Bits, remainder: Bits) {
    |quotient| == |message| && |remainder| == 16 &&
    message + Zeros(16) == Compose(quotient, remainder)
  }

  // ----- The bit-serial register -----

  type Register = r: Bits | |r| == 16 witness Zeros(16)

  /** Multiplication by x modulo POLY. */
  function Shift(r: Register): Register {
    Xor(r[1..] + [false], if r[0] then POLY[1..] else Zeros(16))
  }

  function FeedBit(r: Register, bit: bool): Register {
    Shift([r[0] != bit] + r[1..])
  }

  function FeedBits(r: Register, bits: Bits): Register
    decreases bits
  {
    if bits == [] then r else FeedBits(FeedBit(r, bits[0]), bits[1..])
  }

  function ShiftBy(n: nat, r: Register): Register
    decreases n
  {
    if n == 0 then r else ShiftBy(n - 1, Shift(r))
  }

  function Crc(buf: seq<bv8>): Register {
    FeedBits(Zeros(16), MessageBits(buf))
  }

  // ----- The register computes the remainder -----

  function Quotient(r: Register, bits: Bits): (q: Bits)
    ensures |q| == |bits|
    decreases bits
  {
    if bits == [] then []
    else [r[0] != bits[0]] + Quotient(FeedBit(r, bits[0]), bits[1..])
  }

  /** The dividend left when `bits` are still to come and the register holds `r`. */
  function Dividend(r: Register, bits: Bits): (d: Bits)
    ensures |d| == |bits| + 16
  {
    Xor(r + Zeros(|bits|), bits + Zeros(16))
  }

  lemma DividendAt(r: Register, bits: Bits, i: nat)
    requires i < |bits| + 16
    ensures Dividend(r, bits)[i] == ((i < 16 && r[i]) != (i < |bits| && bits[i]))
  {
    assert (r + Zeros(|bits|))[i] == (i < 16 && r[i]);
    assert (bits + Zeros(16))[i] == (i < |bits| && bits[i]);
  }

  lemma TopTermAt(on: bool, n: nat, i: nat)
    requires n > 0 && i < n + 16
    ensures TopTerm(on, n)[i] == (on && i < 17 && POLY[i])
  {
  }

  lemma FeedBitAt(r: Register, b: bool, k: nat)
    requires k < 16
    ensures FeedBit(r, b)[k] == ((k < 15 && r[k + 1]) != ((r[0] != b) && POLY[k + 1]))
  {
    var s := [r[0] != b] + r[1..];
    assert (s[1..] + [false])[k] == (k < 15 && r[k + 1]);
    assert POLY[1..][k] == POLY[k + 1];
  }

  lemma DividendStepAt(r: Register, bits: Bits, i: nat)
    requires bits != [] && i < |bits| + 16
    ensures Dividend(r, bits)[i] ==
            (TopTerm(r[0] != bits[0], |bits|)[i] != ([false] + Dividend(FeedBit(r, bits[0]), bits[1..]))[i])
  {
    DividendAt(r, bits, i);
    TopTermAt(r[0] != bits[0], |bits|, i);
    var s, rest := FeedBit(r, bits[0]), bits[1..];
    if i > 0 {
      DividendAt(s, rest, i - 1);
      if i <= 16 {
        FeedBitAt(r, bits[0], i - 1);
      }
    }
    hide Dividend, TopTerm, FeedBit;
  }

  lemma DividendStep(r: Register, bits: Bits)
    requires bits != []
    ensures Dividend(r, bits) ==
            Xor(TopTerm(r[0] != bits[0], |bits|), [false] + Dividend(FeedBit(r, bits[0]), bits[1..]))
  {
    hide Dividend, TopTerm, FeedBit;
    var top := TopTerm(r[0] != bits[0], |bits|);
    var rest := [false] + Dividend(FeedBit(r, bits[0]), bits[1..]);
    forall i | 0 <= i < |bits| + 16
      ensures Dividend(r, bits)[i] == (top[i] != rest[i])
    {
      DividendStepAt(r, bits, i);
    }
  }

  lemma XorFalse(a: Bits, b: Bits)
    requires |a| == |b|
    ensures [false] + Xor(a, b) == Xor([false] + a, [false] + b)
  {
  }

  lemma XorAssociates(a: Bits, b: Bits, c: Bits)
    requires |a| == |b| == |c|
    ensures Xor(a, Xor(b, c)) == Xor(Xor(a, b), c)
  {
  }

  lemma XorCancels(a: Bits, b: Bits, c: Bits)
    requires |a| == |b| == |c|
    ensures Xor(a, b) == Xor(a, c) <==> b == c
  {
    if Xor(a, b) == Xor(a, c) {
      forall i | 0 <= i < |a| ensures b[i] == c[i] {
        assert Xor(a, b)[i] == Xor(a, c)[i];
      }
    }
  }

  /** q * POLY + rest, with the rest as low as its length says. */
  function Compose(q: Bits, rest: Register): (d: Bits)
    ensures |d| == |q| + 16
  {
    Xor(TimesPoly(q), Zeros(|q|) + rest)
  }

  lemma ComposeStep(q: Bits, rest: Register)
    requires q != []
    ensures Compose(q, rest) == Xor(TopTerm(q[0], |q|), [false] + Compose(q[1..], rest))
  {
    var low := Zeros(|q| - 1) + rest;
    assert Zeros(|q|) + rest == [false] + low;
    XorFalse(TimesPoly(q[1..]), low);
    XorAssociates(TopTerm(q[0], |q|), [false] + TimesPoly(q[1..]), [false] + low);
  }

  lemma {:induction false} RegisterDivides(r: Register, bits: Bits)
    ensures Dividend(r, bits) == Compose(Quotient(r, bits), FeedBits(r, bits))
    decreases bits
  {
    if bits == [] {
      assert Dividend(r, bits) == r == Compose([], r);
    } else {
      RegisterDivides(FeedBit(r, bits[0]), bits[1..]);
      DividendStep(r, bits);
      ComposeStep(Quotient(r, bits), FeedBits(r, bits));
    }
  }

  /** crc16 is a remainder of message * x^16 modulo POLY ... */
  lemma CrcIsRemainder(buf: seq<bv8>)
    ensures Divides(MessageBits(buf), Quotient(Zeros(16), MessageBits(buf)), Crc(buf))
  {
    var bits := MessageBits(buf);
    RegisterDivides(Zeros(16), bits);
    assert Dividend(Zeros(16), bits) == bits + Zeros(16);
  }

  lemma ComposeNothing(a: Register)
    ensures Compose([], a) == a
  {
    forall i | 0 <= i < 16 ensures Compose([], a)[i] == a[i] {
      assert ([] + a)[i] == a[i];
    }
  }

  lemma ComposeTop(q: Bits, a: Register)
    requires |q| > 0
    ensures Compose(q, a)[0] == q[0]
  {
    ComposeStep(q, a);
    hide Compose;
    assert TopTerm(q[0], |q|)[0] == q[0];
  }

  lemma ComposeCancels(q: Bits, q': Bits, a: Register, a': Register)
    requires |q| == |q'| > 0 && Compose(q, a) == Compose(q', a')
    ensures q[0] == q'[0] && Compose(q[1..], a) == Compose(q'[1..], a')
  {
    ComposeStep(q, a);
    ComposeStep(q', a');
    ComposeTop(q, a);
    ComposeTop(q', a');
    var b, b' := Compose(q[1..], a), Compose(q'[1..], a');
    hide Compose;
    XorCancels(TopTerm(q[0], |q|), [false] + b, [false] + b');
    assert ([false] + b)[1..] == b && ([false] + b')[1..] == b';
  }

  lemma {:induction false} DivisionIsUnique(q: Bits, q': Bits, a: Register, a': Register)
    requires |q| == |q'|
    requires Compose(q, a) == Compose(q', a')
    ensures q == q' && a == a'
    decreases q
  {
    hide Compose;
    if q == [] {
      ComposeNothing(a);
      ComposeNothing(a');
      assert q' == [];
    } else {
      ComposeCancels(q, q', a, a');
      DivisionIsUnique(q[1..], q'[1..], a, a');
      assert q == [q[0]] + q[1..] && q' == [q'[0]] + q'[1..];
    }
  }

  /** ... and the only one: no other word satisfies the division equation. */
  lemma CrcIsTheRemainder(buf: seq<bv8>, quotient: Bits, remainder: Bits)
    ensures Divides(MessageBits(buf), quotient, remainder) <==>
            quotient == Quotient(Zeros(16), MessageBits(buf)) && remainder == Crc(buf)
  {
    CrcIsRemainder(buf);
    if Divides(MessageBits(buf), quotient, remainder) {
      DivisionIsUnique(quotient, Quotient(Zeros(16), MessageBits(buf)), remainder, Crc(buf));
    }
  }

  // ----- Linearity -----

  lemma ShiftIsLinear(a: Register, b: Register)
    ensures Shift(Xor(a, b)) == Xor(Shift(a), Shift(b))
  {
  }

  lemma {:induction false} ShiftByIsLinear(n: nat, a: Register, b: Register)
    ensures ShiftBy(n, Xor(a, b)) == Xor(ShiftBy(n, a), ShiftBy(n, b))
    decreases n
  {
    if n > 0 {
      ShiftIsLinear(a, b);
      ShiftByIsLinear(n - 1, Shift(a), Shift(b));
    }
  }

  lemma XorHeads(r: Register, s: Register, x: bool, y: bool)
    ensures [Xor(r, s)[0] != (x != y)] + Xor(r, s)[1..] == Xor([r[0] != x] + r[1..], [s[0] != y] + s[1..])
  {
    var a, b := [r[0] != x] + r[1..], [s[0] != y] + s[1..];
    var c := [Xor(r, s)[0] != (x != y)] + Xor(r, s)[1..];
    forall k | 0 <= k < 16 ensures c[k] == (a[k] != b[k]) {
      if k > 0 {
        assert a[k] == r[k] && b[k] == s[k] && c[k] == Xor(r, s)[k];
      }
    }
  }

  lemma FeedBitIsLinear(r: Register, s: Register, x: bool, y: bool)
    ensures FeedBit(Xor(r, s), x != y) == Xor(FeedBit(r, x), FeedBit(s, y))
  {
    var r', s' := [r[0] != x] + r[1..], [s[0] != y] + s[1..];
    hide Shift;
    ShiftIsLinear(r', s');
    XorHeads(r, s, x, y);
  }

  lemma {:induction false} FeedIsLinear(r: Register, s: Register, a: Bits, b: Bits)
    requires |a| == |b|
    ensures FeedBits(Xor(r, s), Xor(a, b)) == Xor(FeedBits(r, a), FeedBits(s, b))
    decreases a
  {
    if a != [] {
      hide Shift, FeedBit;
      FeedBitIsLinear(r, s, a[0], b[0]);
      assert Xor(a, b)[1..] == Xor(a[1..], b[1..]);
      FeedIsLinear(FeedBit(r, a[0]), FeedBit(s, b[0]), a[1..], b[1..]);
    }
  }

  // ----- The table is eight steps of the register -----

  /** The top bit of v is fed; the rest of it moves up. */
  lemma ShiftOfSum(r: Register, v: Register)
    ensures Shift(Xor(r, v)) == Xor(FeedBit(r, v[0]), v[1..] + [false])
  {
    var a, b := Shift(Xor(r, v)), FeedBit(r, v[0]);
    forall k | 0 <= k < 16 ensures a[k] == (b[k] != (v[1..] + [false])[k]) {
      var p := if r[0] != v[0] then POLY[1..] else Zeros(16);
      assert a[k] == ((Xor(r, v)[1..] + [false])[k] != p[k]);
      assert b[k] == ((r[1..] + [false])[k] != p[k]);
    }
  }

  /** Up to 16 bits can be added to the register at once and shifted through afterwards. */
  lemma {:induction false} FeedIsShift(r: Register, bits: Bits)
    requires |bits| <= 16
    ensures FeedBits(r, bits) == ShiftBy(|bits|, Xor(r, Padded(bits)))
    decreases bits
  {
    if bits == [] {
      assert Xor(r, Padded([])) == r;
    } else {
      ShiftOfSum(r, Padded(bits));
      PaddedTail(bits);
      FeedIsShift(FeedBit(r, bits[0]), bits[1..]);
      hide Shift, FeedBit, Padded, Xor;
    }
  }

  function Padded(bits: Bits): (r: Register)
    requires |bits| <= 16
  {
    bits + Zeros(16 - |bits|)
  }

  lemma PaddedTail(bits: Bits)
    requires 0 < |bits| <= 16
    ensures Padded(bits)[1..] + [false] == Padded(bits[1..]) && Padded(bits)[0] == bits[0]
  {
  }

  lemma ShiftLowBits(n: nat, low: Bits)
    requires 0 < n && n + |low| <= 16
    ensures Shift(Zeros(n) + low + Zeros(16 - n - |low|)) == Zeros(n - 1) + low + Zeros(16 - n + 1 - |low|)
  {
    var r := Zeros(n) + low + Zeros(16 - n - |low|);
    assert !r[0];
    assert Shift(r) == r[1..] + [false];
    hide Shift;
    assert r[1..] + [false] == Zeros(n - 1) + low + Zeros(16 - n + 1 - |low|);
  }

  /** Bits that never reach the top are only moved. */
  lemma {:induction false} LowBitsShift(n: nat, low: Bits)
    requires n + |low| <= 16
    ensures ShiftBy(n, Zeros(n) + low + Zeros(16 - n - |low|)) == low + Zeros(16 - |low|)
    decreases n
  {
    if n == 0 {
      assert Zeros(0) + low + Zeros(16 - |low|) == low + Zeros(16 - |low|);
    } else {
      ShiftLowBits(n, low);
      hide Shift;
      LowBitsShift(n - 1, low);
    }
  }

  function ShiftWord(w: bv16): bv16 {
    if w & 0x8000 != 0 then (w << 1) ^ 0x1021 else w << 1
  }

  function ShiftWord8(w: bv16): bv16 {
    ShiftWord(ShiftWord(ShiftWord(ShiftWord(ShiftWord(ShiftWord(ShiftWord(ShiftWord(w))))))))
  }

  lemma TableRows0(i: bv8)
    requires i < 0x10
    ensures Table(i) == ShiftWord8((i as bv16) << 8)
  {
    if i < 0x08 {
      assert Table(i) == Column(i, 0x0000, 0x1021, 0x2042, 0x3063, 0x4084, 0x50a5, 0x60c6, 0x70e7);
    } else {
      assert Table(i) == Column(i, 0x8108, 0x9129, 0xa14a, 0xb16b, 0xc18c, 0xd1ad, 0xe1ce, 0xf1ef);
    }
  }

  lemma TableRows1(i: bv8)
    requires 0x10 <= i < 0x20
    ensures Table(i) == ShiftWord8((i as bv16) << 8)
  {
  }

  lemma TableRows2(i: bv8)
    requires 0x20 <= i < 0x40
    ensures Table(i) == ShiftWord8((i as bv16) << 8)
  {
  }

  lemma TableRows3(i: bv8)
    requires 0x40 <= i < 0x60
    ensures Table(i) == ShiftWord8((i as bv16) << 8)
  {
  }

  lemma TableRows4(i: bv8)
    requires 0x60 <= i < 0x80
    ensures Table(i) == ShiftWord8((i as bv16) << 8)
  {
  }

  lemma TableRows5(i: bv8)
    requires 0x80 <= i < 0xA0
    ensures Table(i) == ShiftWord8((i as bv16) << 8)
  {
  }

  lemma TableRows6(i: bv8)
    requires 0xA0 <= i < 0xC0
    ensures Table(i) == ShiftWord8((i as bv16) << 8)
  {
  }

  lemma TableRows7(i: bv8)
    requires 0xC0 <= i < 0xE0
    ensures Table(i) == ShiftWord8((i as bv16) << 8)
  {
  }

  lemma TableRows8(i: bv8)
    requires 0xE0 <= i
    ensures Table(i) == ShiftWord8((i as bv16) << 8)
  {
  }

  lemma TableIsEightShifts(i: bv8)
    ensures Table(i) == ShiftWord8((i as bv16) << 8)
  {
    hide Table, ShiftWord8;
    if i < 0x10 {
      TableRows0(i);
    } else if i < 0x20 {
      TableRows1(i);
    } else if i < 0x40 {
      TableRows2(i);
    } else if i < 0x60 {
      TableRows3(i);
    } else if i < 0x80 {
      TableRows4(i);
    } else if i < 0xA0 {
      TableRows5(i);
    } else if i < 0xC0 {
      TableRows6(i);
    } else if i < 0xE0 {
      TableRows7(i);
    } else {
      TableRows8(i);
    }
  }

  predicate IsXor(a: bv16, b: bv16, c: bv16) {
    c == a ^ b
  }

  lemma XorStep(a: bv16, b: bv16, c: bv16)
    requires IsXor(a, b, c)
    ensures IsXor(Double(a), Double(b), Double(c)) && Top(c) == (Top(a) != Top(b))
  {
  }

  lemma XorCons(x: bool, a: Bits, y: bool, b: Bits)
    requires |a| == |b|
    ensures Xor([x] + a, [y] + b) == [x != y] + Xor(a, b)
  {
  }

  lemma {:induction false} TopBitsXor(a: bv16, b: bv16, c: bv16, n: nat)
    requires IsXor(a, b, c)
    ensures TopBits(c, n) == Xor(TopBits(a, n), TopBits(b, n))
    decreases n
  {
    hide Top, Double, IsXor;
    if n > 0 {
      XorStep(a, b, c);
      TopBitsXor(Double(a), Double(b), Double(c), n - 1);
      XorCons(Top(a), TopBits(Double(a), n - 1), Top(b), TopBits(Double(b), n - 1));
      hide Xor;
    }
  }

  function DoubleBy(k: nat, w: bv16): bv16
    decreases k
  {
    if k == 0 then w else DoubleBy(k - 1, Double(w))
  }

  lemma {:induction false} TopBitsAt(w: bv16, n: nat, k: nat)
    requires k < n
    ensures TopBits(w, n)[k] == Top(DoubleBy(k, w))
    decreases n
  {
    hide Top, Double;
    if k > 0 {
      TopBitsAt(Double(w), n - 1, k - 1);
    }
  }

  function Up(w: bv16, k: nat): bv16
    requires k < 8
  {
    w << k
  }

  lemma DoubleOnce(w: bv16, k: nat)
    requires 0 < k < 8
    ensures Up(Double(w), k - 1) == Up(w, k)
  {
    match k {
      case 1 => case 2 => case 3 => case 4 => case 5 => case 6 => case 7 =>
    }
  }

  lemma {:induction false} DoubleByIsUp(k: nat, w: bv16)
    requires k < 8
    ensures DoubleBy(k, w) == Up(w, k)
  {
    if k == 0 {
      assert w << 0 == w;
    } else {
      hide Double, Up;
      DoubleByIsUp(k - 1, Double(w));
      DoubleOnce(w, k);
    }
  }

  lemma BitOfByte(b: bv8, k: nat)
    requires k < 8
    ensures Top(Up((b as bv16) << 8, k)) == Bit(b, k)
  {
    match k {
      case 0 => case 1 => case 2 => case 3 => case 4 => case 5 => case 6 => case 7 =>
    }
  }

  /** The bits of a byte are the highest of a word that starts with it. */
  lemma ByteIsTop(b: bv8)
    ensures ByteBits(b) == TopBits((b as bv16) << 8, 8)
  {
    hide TopBits, Top, Bit, DoubleBy, Up;
    var w := (b as bv16) << 8;
    forall k | 0 <= k < 8 ensures TopBits(w, 8)[k] == ByteBits(b)[k] {
      TopBitsAt(w, 8, k);
      DoubleByIsUp(k, w);
      BitOfByte(b, k);
    }
  }

  lemma {:induction false} TopBitsSplit(w: bv16, k: nat, n: nat)
    ensures TopBits(w, k + n) == TopBits(w, k) + TopBits(DoubleBy(k, w), n)
    decreases k
  {
    hide Top, Double;
    if k == 0 {
      assert TopBits(w, 0) == [];
    } else {
      TopBitsSplit(Double(w), k - 1, n);
    }
  }

  lemma DoubleBy8(w: bv16)
    ensures DoubleBy(8, w) == Double8(w)
  {
    hide Double;
    var w1 := Double(w);
    var w2 := Double(w1);
    var w3 := Double(w2);
    var w4 := Double(w3);
    var w5 := Double(w4);
    var w6 := Double(w5);
    var w7 := Double(w6);
    assert DoubleBy(4, w4) == DoubleBy(3, w5) == DoubleBy(2, w6) == DoubleBy(1, w7) == DoubleBy(0, Double(w7));
    assert DoubleBy(8, w) == DoubleBy(7, w1) == DoubleBy(6, w2) == DoubleBy(5, w3) == DoubleBy(4, w4);
  }

  function Double8(w: bv16): bv16 {
    Double(Double(Double(Double(Double(Double(Double(Double(w))))))))
  }

  lemma Double8Is(w: bv16)
    ensures Double8(w) == w << 8
  {
  }

  lemma {:induction false} DoubleByAdd(j: nat, k: nat, w: bv16)
    ensures DoubleBy(j + k, w) == DoubleBy(k, DoubleBy(j, w))
    decreases j
  {
    hide Double;
    if j > 0 {
      DoubleByAdd(j - 1, k, Double(w));
    }
  }

  lemma DoubleBy16(w: bv16)
    ensures DoubleBy(16, w) == 0
  {
    DoubleByAdd(8, 8, w);
    DoubleBy8(w);
    DoubleBy8(Double8(w));
    Double8Is(w);
    Double8Is(w << 8);
    assert (w << 8) << 8 == 0;
  }

  lemma WordBitsDouble(w: bv16)
    ensures WordBits(Double(w)) == WordBits(w)[1..] + [false]
    ensures WordBits(w)[0] == Top(w)
  {
    DoubleBy16(w);
    assert DoubleBy(15, Double(w)) == 0;
    assert TopBits(w, 16) == [Top(w)] + TopBits(Double(w), 15);
    NoTopBit();
    hide TopBits, DoubleBy, Double, Top;
    TopBitsSplit(Double(w), 15, 1);
  }

  lemma NoTopBit()
    ensures TopBits(0, 1) == [false]
  {
    assert TopBits(0, 1) == [Top(0)] + TopBits(Double(0), 0);
    assert !Top(0);
  }

  lemma PolyLowBits()
    ensures TopBits(0x2100, 8) == [false, false, true, false, false, false, false, true]
  {
    assert TopBits(0x8000, 1) == [true] + TopBits(Double(0x8000), 0);
    assert TopBits(0x4000, 2) == [false] + TopBits(0x8000, 1);
    assert TopBits(0x2000, 3) == [false] + TopBits(0x4000, 2);
    assert TopBits(0x1000, 4) == [false] + TopBits(0x2000, 3);
    assert TopBits(0x0800, 5) == [false] + TopBits(0x1000, 4);
    assert TopBits(0x8400, 6) == [true] + TopBits(0x0800, 5);
    assert TopBits(0x4200, 7) == [false] + TopBits(0x8400, 6);
    assert TopBits(0x2100, 8) == [false] + TopBits(0x4200, 7);
  }

  lemma PolyBits()
    ensures WordBits(0x1021) == POLY[1..]
  {
    PolyLowBits();
    assert TopBits(0x1080, 9) == [false] + TopBits(0x2100, 8);
    assert TopBits(0x0840, 10) == [false] + TopBits(0x1080, 9);
    assert TopBits(0x0420, 11) == [false] + TopBits(0x0840, 10);
    assert TopBits(0x0210, 12) == [false] + TopBits(0x0420, 11);
    assert TopBits(0x8108, 13) == [true] + TopBits(0x0210, 12);
    assert TopBits(0x4084, 14) == [false] + TopBits(0x8108, 13);
    assert TopBits(0x2042, 15) == [false] + TopBits(0x4084, 14);
    assert TopBits(0x1021, 16) == [false] + TopBits(0x2042, 15);
  }

  lemma ShiftWordBits(w: bv16)
    ensures WordBits(ShiftWord(w)) == Shift(WordBits(w))
  {
    WordBitsDouble(w);
    PolyBits();
    if Top(w) {
      assert IsXor(Double(w), 0x1021, ShiftWord(w));
      TopBitsXor(Double(w), 0x1021, ShiftWord(w), 16);
    } else {
      assert ShiftWord(w) == Double(w);
      assert Xor(WordBits(Double(w)), Zeros(16)) == WordBits(Double(w));
    }
  }

  lemma {:induction false} TopBitsZero(n: nat)
    ensures TopBits(0, n) == Zeros(n)
    decreases n
  {
    if n > 0 {
      assert Double(0) == 0 && !Top(0);
      TopBitsZero(n - 1);
    }
  }

  lemma WordBitsDouble8(w: bv16)
    ensures WordBits(w) == TopBits(w, 8) + TopBits(Double8(w), 8)
    ensures WordBits(Double8(w)) == TopBits(Double8(w), 8) + Zeros(8)
  {
    hide Double8, Double, Top;
    TopBitsSplit(w, 8, 8);
    TopBitsSplit(Double8(w), 8, 8);
    DoubleByAdd(8, 8, w);
    DoubleBy8(w);
    DoubleBy16(w);
    TopBitsZero(8);
  }

  lemma LowByteIsBelow(lo: bv16)
    requires lo & 0xFF00 == 0
    ensures TopBits(lo, 8) == Zeros(8)
  {
    var l1 := Double(lo);
    var l2 := Double(l1);
    var l3 := Double(l2);
    var l4 := Double(l3);
    var l5 := Double(l4);
    var l6 := Double(l5);
    var l7 := Double(l6);
    assert !Top(lo) && !Top(l1) && !Top(l2) && !Top(l3) && !Top(l4) && !Top(l5) && !Top(l6) && !Top(l7);
    hide Top, Double;
    assert TopBits(l7, 1) == [false] + TopBits(Double(l7), 0);
    assert TopBits(l4, 4) == [false] + ([false] + ([false] + TopBits(l7, 1)));
    assert TopBits(lo, 8) == [false] + ([false] + ([false] + ([false] + TopBits(l4, 4))));
  }

  lemma HighPart(a: bv16, b: bv16, x: bv16, hi: bv16, lo: bv16)
    requires IsXor(a, b, x) && IsXor(hi, lo, x) && TopBits(lo, 8) == Zeros(8)
    ensures TopBits(hi, 8) == Xor(TopBits(a, 8), TopBits(b, 8))
  {
    hide IsXor, Top, Double;
    TopBitsXor(a, b, x, 8);
    TopBitsXor(hi, lo, x, 8);
    assert Xor(TopBits(hi, 8), Zeros(8)) == TopBits(hi, 8);
  }

  lemma IndexParts(crc: bv16, b: bv8) returns (x: bv16, hi: bv16, lo: bv16)
    ensures IsXor(crc, (b as bv16) << 8, x) && IsXor(hi, lo, x) && TopBits(lo, 8) == Zeros(8)
    ensures hi == (TableIndex(crc, b) as bv16) << 8
  {
    x, hi, lo := crc ^ ((b as bv16) << 8), (TableIndex(crc, b) as bv16) << 8, crc & 0x00FF;
    assert IsXor(hi, lo, x) && lo & 0xFF00 == 0;
    hide TableIndex, IsXor, TopBits;
    LowByteIsBelow(lo);
  }

  lemma TableIndexBits(crc: bv16, b: bv8)
    ensures ByteBits(TableIndex(crc, b)) == Xor(TopBits(crc, 8), ByteBits(b))
  {
    hide TableIndex, IsXor, TopBits, ByteBits;
    ByteIsTop(b);
    ByteIsTop(TableIndex(crc, b));
    var x, hi, lo := IndexParts(crc, b);
    HighPart(crc, (b as bv16) << 8, x, hi, lo);
  }

  lemma ShiftWord8Bits(w: bv16)
    ensures WordBits(ShiftWord8(w)) == ShiftBy(8, WordBits(w))
  {
    hide ShiftWord, Shift, WordBits;
    var w1 := ShiftWord(w);
    var w2 := ShiftWord(w1);
    var w3 := ShiftWord(w2);
    var w4 := ShiftWord(w3);
    var w5 := ShiftWord(w4);
    var w6 := ShiftWord(w5);
    var w7 := ShiftWord(w6);
    ShiftWordBits(w);
    ShiftWordBits(w1);
    ShiftWordBits(w2);
    ShiftWordBits(w3);
    ShiftWordBits(w4);
    ShiftWordBits(w5);
    ShiftWordBits(w6);
    ShiftWordBits(w7);
    assert ShiftBy(4, WordBits(w4)) == ShiftBy(3, WordBits(w5)) == ShiftBy(2, WordBits(w6)) == ShiftBy(1, WordBits(w7))
        == ShiftBy(0, WordBits(ShiftWord(w7)));
    assert ShiftBy(8, WordBits(w)) == ShiftBy(7, WordBits(w1)) == ShiftBy(6, WordBits(w2)) == ShiftBy(5, WordBits(w3))
        == ShiftBy(4, WordBits(w4));
  }

  /** A table entry is eight shifts of its index. */
  lemma TableBits(i: bv8)
    ensures WordBits(Table(i)) == ShiftBy(8, ByteBits(i) + Zeros(8))
  {
    hide ByteBits;
    var w := (i as bv16) << 8;
    ByteIsTop(i);
    TableIsEightShifts(i);
    ShiftWord8Bits(w);
    WordBitsDouble8(w);
    Double8Is(w);
    assert w << 8 == 0;
    TopBitsZero(8);
  }

  /** Eight bits at once: the low byte moves up, the high byte is replaced by the shifts of the index. */
  lemma FeedEight(r: Register, byte: Bits)
    requires |byte| == 8
    ensures FeedBits(r, byte) == Xor(r[8..] + Zeros(8), ShiftBy(8, Xor(r[..8], byte) + Zeros(8)))
  {
    hide Shift;
    var index, low := Xor(r[..8], byte), r[8..];
    FeedIsShift(r, byte);
    ShiftByIsLinear(8, index + Zeros(8), Zeros(8) + low);
    assert Xor(r, byte + Zeros(8)) == Xor(index + Zeros(8), Zeros(8) + low);
    LowBitsShift(8, low);
    assert Zeros(8) + low + Zeros(0) == Zeros(8) + low;
    XorCommutes(low + Zeros(8), ShiftBy(8, index + Zeros(8)));
  }

  lemma XorCommutes(a: Bits, b: Bits)
    requires |a| == |b|
    ensures Xor(a, b) == Xor(b, a)
  {
  }

  lemma ByteStepIsXor(crc: bv16, b: bv8)
    ensures IsXor(Double8(crc), Table(TableIndex(crc, b)), ByteStep(crc, b))
  {
    Double8Is(crc);
    hide Table;
  }

  /** One table step is eight register steps. */
  lemma ByteStepFeedsBits(crc: bv16, b: bv8)
    ensures WordBits(ByteStep(crc, b)) == FeedBits(WordBits(crc), ByteBits(b))
  {
    hide Top, Double, Double8, Table, TableIndex, ByteStep, IsXor, Shift, TopBits;
    var i := TableIndex(crc, b);
    ByteStepIsXor(crc, b);
    TopBitsXor(Double8(crc), Table(i), ByteStep(crc, b), 16);
    WordBitsDouble8(crc);
    TableBits(i);
    TableIndexBits(crc, b);
    FeedEight(WordBits(crc), ByteBits(b));
    assert WordBits(crc)[..8] == TopBits(crc, 8) && WordBits(crc)[8..] == TopBits(Double8(crc), 8);
  }

  // ----- Feeding in pieces -----

  lemma {:induction false} FeedConcat(r: Register, a: Bits, b: Bits)
    ensures FeedBits(r, a + b) == FeedBits(FeedBits(r, a), b)
    decreases a
  {
    if a == [] {
      assert a + b == b;
    } else {
      hide FeedBit;
      assert (a + b)[1..] == a[1..] + b;
      FeedConcat(FeedBit(r, a[0]), a[1..], b);
    }
  }

  lemma {:induction false} MessageBitsConcat(a: seq<bv8>, b: seq<bv8>)
    ensures MessageBits(a + b) == MessageBits(a) + MessageBits(b)
  {
    if a == [] {
      assert a + b == b;
    } else {
      hide ByteBits;
      assert (a + b)[1..] == a[1..] + b;
      MessageBitsConcat(a[1..], b);
    }
  }

  lemma CrcAppend(a: seq<bv8>, b: bv8)
    ensures Crc(a + [b]) == FeedBits(Crc(a), ByteBits(b))
  {
    hide ByteBits, FeedBit;
    MessageBitsConcat(a, [b]);
    assert MessageBits([b]) == ByteBits(b) + MessageBits([]) == ByteBits(b);
    FeedConcat(Zeros(16), MessageBits(a), ByteBits(b));
  }

  lemma CrcOfNothing()
    ensures Crc([]) == Zeros(16)
  {
  }

  // ----- Consequences -----

  function XorBytes(a: seq<bv8>, b: seq<bv8>): (c: seq<bv8>)
    requires |a| == |b|
    ensures |c| == |a| && forall i :: 0 <= i < |a| ==> IsXorByte(a[i], b[i], c[i])
  {
    seq(|a|, i requires 0 <= i < |a| => a[i] ^ b[i])
  }

  predicate IsXorByte(a: bv8, b: bv8, c: bv8) {
    c == a ^ b
  }

  lemma ByteBitsXor(a: bv8, b: bv8, c: bv8)
    requires IsXorByte(a, b, c)
    ensures ByteBits(c) == Xor(ByteBits(a), ByteBits(b))
  {
    ByteIsTop(a);
    ByteIsTop(b);
    ByteIsTop(c);
    assert IsXor((a as bv16) << 8, (b as bv16) << 8, (c as bv16) << 8);
    hide ByteBits, IsXorByte, IsXor, TopBits;
    TopBitsXor((a as bv16) << 8, (b as bv16) << 8, (c as bv16) << 8, 8);
  }

  lemma {:induction false} MessageBitsXor(a: seq<bv8>, b: seq<bv8>)
    requires |a| == |b|
    ensures MessageBits(XorBytes(a, b)) == Xor(MessageBits(a), MessageBits(b))
  {
    if a != [] {
      hide ByteBits, IsXorByte, XorBytes;
      var c := XorBytes(a, b);
      TailOfXor(a, b);
      MessageBitsXor(a[1..], b[1..]);
      ByteBitsXor(a[0], b[0], c[0]);
      XorConcat(ByteBits(a[0]), MessageBits(a[1..]), ByteBits(b[0]), MessageBits(b[1..]));
    }
  }

  lemma XorConcat(a: Bits, a': Bits, b: Bits, b': Bits)
    requires |a| == |b| && |a'| == |b'|
    ensures Xor(a + a', b + b') == Xor(a, b) + Xor(a', b')
  {
  }

  lemma TailOfXor(a: seq<bv8>, b: seq<bv8>)
    requires |a| == |b| > 0
    ensures XorBytes(a, b)[1..] == XorBytes(a[1..], b[1..])
  {
  }

  /** crc16 is linear on messages of equal length. */
  lemma CrcIsLinear(a: seq<bv8>, b: seq<bv8>)
    requires |a| == |b|
    ensures Crc(XorBytes(a, b)) == Xor(Crc(a), Crc(b))
  {
    MessageBitsXor(a, b);
    FeedIsLinear(Zeros(16), Zeros(16), MessageBits(a), MessageBits(b));
    assert Xor(Zeros(16), Zeros(16)) == Zeros(16);
  }

  lemma NoHighBits(lo: bv16)
    requires TopBits(lo, 8) == Zeros(8)
    ensures lo & 0xFF00 == 0
  {
    var l1 := Double(lo);
    var l2 := Double(l1);
    var l3 := Double(l2);
    var l4 := Double(l3);
    var l5 := Double(l4);
    var l6 := Double(l5);
    var l7 := Double(l6);
    assert !Top(lo) && !Top(l1) && !Top(l2) && !Top(l3) && !Top(l4) && !Top(l5) && !Top(l6) && !Top(l7) by {
      hide Top, Double;
      var bits := TopBits(lo, 8);
      assert TopBits(l4, 4) == [Top(l4)] + ([Top(l5)] + ([Top(l6)] + TopBits(l7, 1)));
      assert TopBits(l7, 1) == [Top(l7)] + [];
      assert bits == [Top(lo)] + ([Top(l1)] + ([Top(l2)] + ([Top(l3)] + TopBits(l4, 4))));
      assert !bits[0] && !bits[1] && !bits[2] && !bits[3] && !bits[4] && !bits[5] && !bits[6] && !bits[7];
    }
  }

  lemma XorWithItself(a: Bits)
    ensures Xor(a, a) == Zeros(|a|)
  {
  }

  lemma NoBits(x: bv16)
    requires WordBits(x) == Zeros(16)
    ensures TopBits(x, 8) == Zeros(8) && TopBits(Double8(x), 8) == Zeros(8)
  {
    WordBitsDouble8(x);
    hide WordBits, TopBits, Double8;
    assert TopBits(x, 8) == WordBits(x)[..8] && Zeros(16)[..8] == Zeros(8);
    assert TopBits(Double8(x), 8) == WordBits(x)[8..] && Zeros(16)[8..] == Zeros(8);
  }

  lemma XorIs(v: bv16, w: bv16) returns (x: bv16)
    ensures IsXor(v, w, x) && x == v ^ w
  {
    x := v ^ w;
  }

  /** Different words have different bits, and so have different bytes. */
  lemma WordBitsInjective(v: bv16, w: bv16)
    requires WordBits(v) == WordBits(w)
    ensures v == w
  {
    hide IsXor, Double, Top, Double8;
    var x := XorIs(v, w);
    TopBitsXor(v, w, x, 16);
    hide TopBits;
    XorWithItself(WordBits(v));
    NoBits(x);
    NoHighBits(x);
    NoHighBits(Double8(x));
    LowPartOfXor(v, w, x);
  }

  lemma LowPartOfXor(v: bv16, w: bv16, x: bv16)
    requires x == v ^ w && x & 0xFF00 == 0 && Double8(x) & 0xFF00 == 0
    ensures v == w
  {
  }

  lemma ByteXorIs(a: bv8, b: bv8) returns (c: bv8)
    ensures IsXorByte(a, b, c) && (((c as bv16) << 8) & 0xFF00 == 0 ==> a == b)
  {
    c := a ^ b;
  }

  lemma ByteBitsInjective(a: bv8, b: bv8)
    requires ByteBits(a) == ByteBits(b)
    ensures a == b
  {
    hide IsXorByte, TopBits;
    var c := ByteXorIs(a, b);
    ByteBitsXor(a, b, c);
    XorWithItself(ByteBits(a));
    ByteIsTop(c);
    NoHighBits((c as bv16) << 8);
  }

  lemma {:induction false} MessageBitsInjective(a: seq<bv8>, b: seq<bv8>)
    requires |a| == |b| && MessageBits(a) == MessageBits(b)
    ensures a == b
    decreases |a|
  {
    if a != [] {
      hide ByteBits;
      var m, n := MessageBits(a), MessageBits(b);
      assert m[..8] == ByteBits(a[0]) && n[..8] == ByteBits(b[0]) && m[8..] == MessageBits(a[1..]) &&
             n[8..] == MessageBits(b[1..]);
      ByteBitsInjective(a[0], b[0]);
      MessageBitsInjective(a[1..], b[1..]);
      assert a == [a[0]] + a[1..] && b == [b[0]] + b[1..];
    }
  }

  function HighByte(w: bv16): bv8 {
    (w >> 8) as bv8
  }

  function LowByte(w: bv16): bv8 {
    (w & 0x00FF) as bv8
  }

  lemma ByteParts(w: bv16)
    ensures TableIndex(w, 0) == HighByte(w) && (LowByte(w) as bv16) << 8 == Double8(w)
  {
  }

  lemma ZeroByte()
    ensures ByteBits(0) == Zeros(8)
  {
    ByteIsTop(0);
    assert (0 as bv8 as bv16) << 8 == 0;
    TopBitsZero(8);
  }

  lemma LowByteBits(w: bv16)
    ensures ByteBits(LowByte(w)) == TopBits(Double8(w), 8)
  {
    hide TopBits, TableIndex, HighByte, LowByte, Double8, ByteBits;
    ByteParts(w);
    ByteIsTop(LowByte(w));
  }

  lemma HighByteBits(w: bv16)
    ensures ByteBits(HighByte(w)) == TopBits(w, 8)
  {
    hide TopBits, ByteBits, TableIndex, HighByte, LowByte, Double8;
    ByteParts(w);
    ZeroByte();
    TableIndexBits(w, 0);
    assert Xor(TopBits(w, 8), Zeros(8)) == TopBits(w, 8);
  }

  lemma WordIsTwoBytes(w: bv16)
    ensures WordBits(w) == ByteBits(HighByte(w)) + ByteBits(LowByte(w))
  {
    hide TopBits, WordBits, ByteBits, HighByte, LowByte, Double8;
    WordBitsDouble8(w);
    HighByteBits(w);
    LowByteBits(w);
  }

  /** A message followed by its own CRC, high byte first, has CRC zero. */
  lemma CrcOfCodeword(buf: seq<bv8>, w: bv16)
    requires WordBits(w) == Crc(buf)
    ensures Crc(buf + [HighByte(w), LowByte(w)]) == WordBits(0)
  {
    assert WordBits(0) == Zeros(16) by { TopBitsZero(16); }
    hide ByteBits, FeedBit, WordBits, HighByte, LowByte, TopBits;
    WordIsTwoBytes(w);
    var crc, hi, lo := Crc(buf), HighByte(w), LowByte(w);
    CrcAppend(buf, hi);
    CrcAppend(buf + [hi], lo);
    assert buf + [hi, lo] == buf + [hi] + [lo];
    FeedConcat(crc, ByteBits(hi), ByteBits(lo));
    FeedOwnBits(crc);
  }

  /** Feeding the register its own contents clears it. */
  lemma FeedOwnBits(r: Register)
    ensures FeedBits(r, r) == Zeros(16)
  {
    FeedIsShift(r, r);
    assert Xor(r, r + Zeros(0)) == Zeros(16);
    ShiftByZero(16);
  }

  lemma {:induction false} ShiftByZero(n: nat)
    ensures ShiftBy(n, Zeros(16)) == Zeros(16)
    decreases n
  {
    if n > 0 {
      assert Shift(Zeros(16)) == Zeros(16);
      ShiftByZero(n - 1);
    }
  }

  lemma ShiftKeepsNonZero(r: Register)
    requires Shift(r) == Zeros(16)
    ensures r == Zeros(16)
  {
    assert Shift(r)[15] == r[0];
    forall i | 0 <= i < 16 ensures !r[i] {
      if i > 0 {
        assert Shift(r)[i - 1] == r[i];
      }
    }
  }

  lemma {:induction false} FeedZeros(r: Register, n: nat)
    ensures FeedBits(r, Zeros(n)) == Zeros(16) <==> r == Zeros(16)
    decreases n
  {
    if n > 0 {
      assert Zeros(n)[0] == false && Zeros(n)[1..] == Zeros(n - 1);
      FeedZero(r);
      ShiftOfZero();
      hide Shift, FeedBit, Zeros;
      FeedZeros(Shift(r), n - 1);
      if Shift(r) == Zeros(16) {
        ShiftKeepsNonZero(r);
      }
    }
  }

  lemma FeedZero(r: Register)
    ensures FeedBit(r, false) == Shift(r)
  {
    assert [r[0] != false] + r[1..] == r;
  }

  lemma ShiftOfZero()
    ensures Shift(Zeros(16)) == Zeros(16)
  {
  }

  /** The lowest set coefficient of q survives in q * POLY, because POLY ends in 1. */
  lemma {:induction false} LowestTerm(q: Bits, p: nat)
    requires p < |q| && q[p] && forall i :: p < i < |q| ==> !q[i]
    ensures TimesPoly(q)[p + 16]
  {
    if p == 0 {
      TimesPolyZero(q[1..]);
    } else {
      LowestTerm(q[1..], p - 1);
    }
  }

  lemma {:induction false} TimesPolyZero(q: Bits)
    requires forall i :: 0 <= i < |q| ==> !q[i]
    ensures TimesPoly(q) == Zeros(|q| + 16)
  {
    if q != [] {
      TimesPolyZero(q[1..]);
    }
  }

  lemma LastSet(q: Bits, k: nat) returns (p: nat)
    requires k < |q| && q[k]
    ensures p < |q| && q[p] && forall i :: p < i < |q| ==> !q[i]
  {
    p := k;
    for n := k + 1 to |q|
      invariant p < n && q[p] && forall i :: p < i < n ==> !q[i]
    {
      if q[n] {
        p := n;
      }
    }
  }

  lemma NoShortMultiple(q: Bits, w: Bits, k: nat)
    requires |q| == |w| <= 16 && k < |w| && w[k]
    ensures TimesPoly(q) != w + Zeros(16)
  {
    if j :| 0 <= j < |q| && q[j] {
      var p := LastSet(q, j);
      LowestTerm(q, p);
      assert TimesPoly(q)[p + 16] != (w + Zeros(16))[p + 16];
    } else {
      TimesPolyZero(q);
      assert TimesPoly(q)[k] != (w + Zeros(16))[k];
    }
  }

  /** A non-zero word of at most 16 bits leaves a non-zero register. */
  lemma ShortWord(w: Bits, k: nat)
    requires k < |w| <= 16 && w[k]
    ensures FeedBits(Zeros(16), w) != Zeros(16)
  {
    hide FeedBit, TimesPoly;
    var q := Quotient(Zeros(16), w);
    RegisterDivides(Zeros(16), w);
    assert Dividend(Zeros(16), w) == w + Zeros(16);
    assert Compose(q, Zeros(16)) == TimesPoly(q) by {
      assert Zeros(|q|) + Zeros(16) == Zeros(|q| + 16);
    }
    NoShortMultiple(q, w, k);
  }

  lemma BurstLeavesMark(d: Bits, start: nat, k: nat)
    requires start <= k < |d| && d[k]
    requires forall i :: 0 <= i < |d| && !(start <= i < start + 16) ==> !d[i]
    ensures FeedBits(Zeros(16), d) != Zeros(16)
  {
    hide FeedBits;
    var end := if start + 16 < |d| then start + 16 else |d|;
    var w := d[start..end];
    assert d == Zeros(start) + w + Zeros(|d| - end) by {
      hide *;
    }
    FeedConcat(Zeros(16), Zeros(start) + w, Zeros(|d| - end));
    FeedConcat(Zeros(16), Zeros(start), w);
    FeedZeros(Zeros(16), start);
    ShortWord(w, k - start);
    FeedZeros(FeedBits(Zeros(16), w), |d| - end);
  }

  /** Two messages of equal length that differ, and only within 16 consecutive bits, have
      different CRCs. */
  lemma BurstIsDetected(a: seq<bv8>, b: seq<bv8>, start: nat)
    requires |a| == |b| && a != b
    requires forall i :: 0 <= i < 8 * |a| && !(start <= i < start + 16) ==> MessageBits(a)[i] == MessageBits(b)[i]
    ensures Crc(a) != Crc(b)
  {
    if MessageBits(a) == MessageBits(b) {
      MessageBitsInjective(a, b);
    }
    hide FeedBits, MessageBits;
    var d := Xor(MessageBits(a), MessageBits(b));
    var k :| 0 <= k < |d| && d[k];
    BurstLeavesMark(d, start, k);
    FeedIsLinear(Zeros(16), Zeros(16), MessageBits(a), MessageBits(b));
    assert Xor(Zeros(16), Zeros(16)) == Zeros(16);
    XorOfEquals(Crc(a), Crc(b));
  }

  lemma XorOfEquals(a: Register, b: Register)
    ensures a == b ==> Xor(a, b) == Zeros(16)
  {
  }
}
