/** Printing and reading of JSON numbers in lib/json/jsoncpp.cpp. LargestInt and LargestUInt have 64 bits
    and Int has 32; signed negation and conversion wrap around as in two's complement. */
module JsonNumber {
  import opened Wrappers
  import opened Decimal
  import opened JsonValue

  const MAX_INT: int := 0x7FFF_FFFF
  const MAX_LARGEST_UINT: int := 0xFFFF_FFFF_FFFF_FFFF
  const MIN_LARGEST_INT: int := -0x8000_0000_0000_0000
  const MAX_LARGEST_INT: int := 0x7FFF_FFFF_FFFF_FFFF

  function ToUnsigned(n: int): int {
    n % (MAX_LARGEST_UINT + 1)
  }

  function ToSigned(n: int): int {
    if ToUnsigned(n) <= MAX_LARGEST_INT then ToUnsigned(n) else ToUnsigned(n) - (MAX_LARGEST_UINT + 1)
  }

  // ----- Decimal numerals -----

  function IntNumeral(n: int): string {
    if n < 0 then "-" + Numeral(-n) else Numeral(n)
  }

  lemma LargestFits()
    ensures MAX_LARGEST_UINT < Pow10(20)
  {
    assert Pow10(5) == 100000;
    assert Pow10(10) == 100000 * Pow10(5);
    assert Pow10(15) == 100000 * Pow10(10);
    assert Pow10(20) == 100000 * Pow10(15);
  }

  // ----- Printing -----

  const BUFFER_SIZE: nat := 3 * 8 + 1

  /** The buffer with these digits and a zero in front of `current`. */
  ghost predicate Filled(buffer: seq<char>, was: seq<char>, digits: string, current: nat) {
    && |buffer| == |was| && |digits| < current <= |was|
    && buffer == was[..current - 1 - |digits|] + digits + ['\0'] + was[current..]
  }

  lemma FilledMore(buffer: seq<char>, was: seq<char>, digits: string, current: nat, x: char)
    requires Filled(buffer, was, digits, current) && |digits| + 1 < current
    ensures Filled(buffer[current - 2 - |digits| := x], was, [x] + digits, current)
  {
    var c := current - 2 - |digits|;
    assert was[..c + 1] == was[..c] + [was[c]];
    assert was[..c + 1] + digits + ['\0'] + was[current..] == was[..c] + [was[c]] + (digits + ['\0'] + was[current..]);
    assert buffer[c := x] == was[..c] + [x] + (digits + ['\0'] + was[current..]);
  }

  lemma FilledSlices(buffer: seq<char>, was: seq<char>, digits: string, current: nat)
    requires Filled(buffer, was, digits, current)
    ensures var c := current - 1 - |digits|;
            && buffer[c..current - 1] == digits && buffer[current - 1] == '\0'
            && buffer[..c] == was[..c] && buffer[current..] == was[current..]
  {
  }

  /** uintToString: digits are written from the end of the buffer backwards. */
  method UIntToString(value: nat, buffer: array<char>, current: nat) returns (c: nat)
    requires value <= MAX_LARGEST_UINT && BUFFER_SIZE <= current <= buffer.Length
    modifies buffer
    ensures current - 21 <= c < current
    ensures buffer[c..current - 1] == Numeral(value) && buffer[current - 1] == '\0'
    ensures buffer[..c] == old(buffer[..c]) && buffer[current..] == old(buffer[current..])
  {
    ghost var was := buffer[..];
    LargestFits();
    NumeralLength(value, 20);
    c := current - 1;
    buffer[c] := '\0';
    var rest := value;
    ghost var done := "";
    assert Filled(buffer[..], was, "", current);
    assert Numeral(rest) + done == Numeral(value);
    hide Numeral, Filled;
    while true
      invariant 0 <= rest <= MAX_LARGEST_UINT && Numeral(value) == Numeral(rest) + done && |Numeral(value)| <= 20
      invariant c == current - 1 - |done| && Filled(buffer[..], was, done, current)
      decreases rest
    {
      ghost var d := DigitChar(rest % 10);
      LastDigit(rest, done);
      FilledMore(buffer[..], was, done, current, d);
      c := c - 1;
      buffer[c] := DigitChar(rest % 10);
      done := [d] + done;
      rest := rest / 10;
      if rest == 0 {
        break;
      }
    }
    FilledSlices(buffer[..], was, done, current);
    assert buffer[c..current - 1] == buffer[..][c..current - 1] && buffer[current..] == buffer[..][current..];
    assert buffer[..c] == buffer[..][..c] && was[..c] == old(buffer[..c]) && was[current..] == old(buffer[current..]);
  }

  /** One more character in front of those that end at `end`. */
  method PutChar(buffer: array<char>, c: nat, end: nat, x: char)
    requires c < end < buffer.Length
    modifies buffer
    ensures buffer[c..end] == [x] + old(buffer[c + 1..end]) && buffer[end..] == old(buffer[end..])
  {
    buffer[c] := x;
  }

  /** The digits from the last one on. */
  lemma LastDigit(n: nat, done: string)
    ensures Numeral(n) + done == (if n / 10 == 0 then "" else Numeral(n / 10)) + ([DigitChar(n % 10)] + done)
    ensures |Numeral(n)| > 0
  {
    var front, d := if n < 10 then "" else Numeral(n / 10), [DigitChar(n % 10)];
    assert Numeral(n) == front + d;
    hide Numeral, DigitChar, AllDigits;
    assert n / 10 == 0 <==> n < 10;
    assert front + d + done == front + (d + done);
  }

  /** Negation wraps at the least integer, and the conversion wraps it back. */
  lemma Magnitude(value: int)
    requires MIN_LARGEST_INT <= value < 0
    ensures ToUnsigned(ToSigned(-value)) == -value
  {
  }

  /** valueToString(LargestInt) */
  method IntToString(value: int) returns (s: string)
    requires MIN_LARGEST_INT <= value <= MAX_LARGEST_INT
    ensures s == IntNumeral(value)
  {
    var buffer := new char[BUFFER_SIZE];
    var magnitude := if value < 0 then ToSigned(-value) else value;
    MagnitudeOf(value);
    NumeralHasNoZero(value);
    hide ToSigned, ToUnsigned, Numeral;
    var current := UIntToString(ToUnsigned(magnitude), buffer, BUFFER_SIZE);
    if value < 0 {
      current := current - 1;
      PutChar(buffer, current, BUFFER_SIZE - 1, '-');
    }
    assert buffer[current..BUFFER_SIZE - 1] == IntNumeral(value);
    hide IntNumeral;
    s := CString(buffer, current);
  }

  lemma MagnitudeOf(value: int)
    requires MIN_LARGEST_INT <= value <= MAX_LARGEST_INT
    ensures ToUnsigned(if value < 0 then ToSigned(-value) else value) == if value < 0 then -value else value
  {
    if value < 0 {
      Magnitude(value);
    }
  }

  lemma NumeralHasNoZero(n: int)
    ensures '\0' !in IntNumeral(n)
  {
    var digits := Numeral(if n < 0 then -n else n);
    assert forall i :: 0 <= i < |digits| ==> IsDigit(digits[i]);
    hide Numeral;
  }

  /** valueToString(LargestUInt) */
  method UIntToText(value: int) returns (s: string)
    requires 0 <= value <= MAX_LARGEST_UINT
    ensures s == IntNumeral(value)
  {
    var buffer := new char[BUFFER_SIZE];
    var current := UIntToString(value, buffer, BUFFER_SIZE);
    s := CString(buffer, current);
  }

  /** The zero-terminated string at a position of the buffer. */
  method CString(buffer: array<char>, start: nat) returns (s: string)
    requires start < buffer.Length && buffer[buffer.Length - 1] == '\0'
    ensures s <= buffer[start..] && |s| < buffer.Length - start && buffer[start + |s|] == '\0'
    ensures '\0' !in s
    ensures '\0' !in buffer[start..buffer.Length - 1] ==> s == buffer[start..buffer.Length - 1]
  {
    var end := start;
    while buffer[end] != '\0'
      invariant start <= end < buffer.Length
      invariant '\0' !in buffer[start..end]
      decreases buffer.Length - end
    {
      end := end + 1;
    }
    s := buffer[start..end];
    if end < buffer.Length - 1 {
      assert buffer[start..buffer.Length - 1][end - start] == '\0';
    }
  }

  // ----- Reading -----

  /** The characters that readNumber collects. */
  predicate NumChar(c: char) {
    IsDigit(c) || c == '.' || c == 'e' || c == 'E' || c == '+' || c == '-'
  }

  /** What readToken delivers as a number. */
  predicate IsNumberToken(t: string) {
    t != "" && (IsDigit(t[0]) || t[0] == '-') && forall i :: 0 <= i < |t| ==> NumChar(t[i])
  }

  predicate RealChar(t: string, i: nat)
    requires i < |t|
  {
    t[i] == '.' || t[i] == 'e' || t[i] == 'E' || t[i] == '+' || (t[i] == '-' && i != 0)
  }

  predicate LooksReal(t: string) {
    exists i :: 0 <= i < |t| && RealChar(t, i)
  }

  function Digits(t: string): string
    requires t != ""
  {
    if t[0] == '-' then t[1..] else t
  }

  lemma DigitsAreDigits(t: string)
    requires IsNumberToken(t) && !LooksReal(t)
    ensures AllDigits(Digits(t))
  {
    forall i | 0 <= i < |t| && !IsDigit(t[i]) ensures i == 0 && t[i] == '-' {
      assert !RealChar(t, i) && NumChar(t[i]);
    }
  }

  /** The number denoted by an optional minus sign and digits. */
  function TokenNumber(t: string): int
    requires IsNumberToken(t) && !LooksReal(t)
  {
    DigitsAreDigits(t);
    var n: int := Denoted(Digits(t));
    if t[0] == '-' then -n else n
  }

  predicate Fits(n: int) {
    MIN_LARGEST_INT <= n <= MAX_LARGEST_UINT
  }

  /** How an integer is stored. */
  function IntegerValue(n: int): Value {
    if n <= MAX_INT then Int(n) else UInt(n)
  }

  /** A number that is read by sscanf, which is a parameter. */
  function ScannedValue(t: string, scan: string -> Option<real>): Option<Value> {
    match scan(t)
    case None => None
    case Some(r) => Some(Real(r))
  }

  /** Integers in the range of the two 64-bit types keep their value; the rest is read as a real. */
  function NumberValue(t: string, scan: string -> Option<real>): Option<Value>
    requires IsNumberToken(t)
  {
    if !LooksReal(t) && Fits(TokenNumber(t)) then Some(IntegerValue(TokenNumber(t))) else ScannedValue(t, scan)
  }

  lemma {:induction false} DenotedGrows(digits: string, k: nat)
    requires k <= |digits| && AllDigits(digits)
    ensures Denoted(digits) >= Denoted(digits[..k])
    ensures k < |digits| ==> Denoted(digits) >= 10 * Denoted(digits[..k])
    decreases |digits|
  {
    if k == |digits| {
      assert digits[..k] == digits;
    } else {
      var front := digits[..|digits| - 1];
      assert front[..k] == digits[..k];
      DenotedGrows(front, k);
    }
  }

  /** The check before a digit is added: it refuses exactly when the whole number is too large. */
  lemma TooLarge(digits: string, k: nat, max: nat)
    requires k < |digits| && max >= 10 && AllDigits(digits)
    requires Denoted(digits[..k]) >= max / 10
    requires Denoted(digits[..k]) > max / 10 || k + 1 != |digits| || DigitValue(digits[k]) > max % 10
    ensures Denoted(digits) > max
  {
    var value, next := Denoted(digits[..k]), Denoted(digits[..k + 1]);
    assert digits[..k + 1] == digits[..k] + [digits[k]];
    DenotedSnoc(digits[..k], digits[k]);
    DenotedGrows(digits, k + 1);
    assert max == max / 10 * 10 + max % 10;
  }

  /** The loop over the digits of a token: value never exceeds maxIntegerValue, and it is given up exactly
      when the number does. */
  method Accumulate(t: string, start: nat, maxIntegerValue: nat) returns (fits: bool, value: nat)
    requires start <= |t| && AllDigits(t[start..]) && maxIntegerValue >= 10
    ensures fits <==> Denoted(t[start..]) <= maxIntegerValue
    ensures fits ==> value == Denoted(t[start..])
  {
    var current := start;
    var threshold := maxIntegerValue / 10;
    value := 0;
    ghost var digits := t[start..];
    while current < |t|
      invariant start <= current <= |t|
      invariant value == Denoted(digits[..current - start])
      invariant value <= maxIntegerValue
    {
      var c := t[current];
      ghost var k := current - start;
      assert c == digits[k];
      if !IsDigit(c) {
        assert false; // no token holds such a character here
      }
      assert digits[..k + 1] == digits[..k] + [c];
      DenotedSnoc(digits[..k], c);
      current := current + 1;
      var digit := DigitValue(c);
      if value >= threshold {
        if value > threshold || current != |t| || digit > maxIntegerValue % 10 {
          TooLarge(digits, k, maxIntegerValue);
          return false, value;
        }
      }
      hide Denoted;
      value := value * 10 + digit;
    }
    assert digits[..|t| - start] == digits;
    fits := true;
  }

  method DecodeNumber(t: string, scan: string -> Option<real>) returns (r: Option<Value>)
    requires IsNumberToken(t)
    ensures r == NumberValue(t, scan)
  {
    var isDouble := LooksLikeReal(t);
    if isDouble {
      return ScannedValue(t, scan);
    }
    hide LooksReal, IsNumberToken, TokenNumber, Fits;
    r := DecodeInteger(t, scan);
  }

  /** The least 64-bit integer is its own negative, and as an unsigned number its magnitude. */
  lemma LeastIntNegated()
    ensures ToUnsigned(ToSigned(-MIN_LARGEST_INT)) == -MIN_LARGEST_INT
  {
  }

  lemma Negated(value: int)
    requires 0 <= value <= -MIN_LARGEST_INT
    ensures ToSigned(-ToSigned(value)) == -value
  {
  }

  method DecodeInteger(t: string, scan: string -> Option<real>) returns (r: Option<Value>)
    requires IsNumberToken(t) && !LooksReal(t)
    ensures r == if Fits(TokenNumber(t)) then Some(IntegerValue(TokenNumber(t))) else ScannedValue(t, scan)
  {
    DigitsAreDigits(t);
    LeastIntNegated();
    hide LooksReal, IsNumberToken, Denoted, AllDigits, ToSigned, ToUnsigned;
    var isNegative := t[0] == '-';
    var start := if isNegative then 1 else 0;
    assert t[start..] == Digits(t);
    var maxIntegerValue := if isNegative then ToUnsigned(ToSigned(-MIN_LARGEST_INT)) else MAX_LARGEST_UINT;
    var fits, value := Accumulate(t, start, maxIntegerValue);
    if !fits {
      return ScannedValue(t, scan);
    }
    if isNegative {
      Negated(value);
      r := Some(Int(ToSigned(-ToSigned(value))));
    } else if value <= MAX_INT {
      r := Some(Int(value));
    } else {
      r := Some(UInt(value));
    }
  }

  method LooksLikeReal(t: string) returns (isDouble: bool)
    ensures isDouble == LooksReal(t)
  {
    isDouble := false;
    for inspect := 0 to |t|
      invariant isDouble == exists i :: 0 <= i < inspect && RealChar(t, i)
    {
      isDouble := isDouble || RealChar(t, inspect);
    }
  }

  /** Reading undoes printing, for every integer of either type. */
  lemma PrintedIntegerIsRead(n: int, scan: string -> Option<real>)
    requires Fits(n)
    ensures IsNumberToken(IntNumeral(n)) && NumberValue(IntNumeral(n), scan) == Some(IntegerValue(n))
  {
    var magnitude: nat := if n < 0 then -n else n;
    var t, digits := IntNumeral(n), Numeral(magnitude);
    NumeralDenotes(magnitude);
    hide Numeral, Denoted;
    assert t == if n < 0 then ['-'] + digits else digits;
    NumeralToken(t, digits);
    assert t[0] == '-' <==> n < 0 by { assert IsDigit(digits[0]); }
  }

  lemma NumeralToken(t: string, digits: string)
    requires digits != "" && AllDigits(digits) && (t == digits || t == ['-'] + digits)
    ensures IsNumberToken(t) && !LooksReal(t) && Digits(t) == digits
  {
    assert IsDigit(digits[0]);
    if t == digits {
      assert forall i :: 0 <= i < |t| ==> IsDigit(t[i]);
    } else {
      assert forall i :: 1 <= i < |t| ==> t[i] == digits[i - 1] && IsDigit(t[i]);
    }
  }
}
