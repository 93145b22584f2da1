/** Numbers in resource scripts: text to little-endian two's complement, and numbers to text. Words have
    32 bits, as `unsigned long` has on the tool's hosts. */
module NumericValues {
  import opened Bytes

  datatype DataType = L_BYTE | L_WORD | L_LONG

  function Size(t: DataType): nat {
    match t
    case L_BYTE => 1
    case L_WORD => 2
    case L_LONG => 4
  }

  /** The values that a type has, from 0. */
  function Range(t: DataType): nat {
    match t
    case L_BYTE => 0x100
    case L_WORD => 0x1_0000
    case L_LONG => 0x1_0000_0000
  }

  const WORDS: nat := 0x1_0000_0000

  /** The remainder of an integer that a type keeps. */
  function Kept(t: DataType, x: int): nat {
    match t
    case L_BYTE => x % 0x100
    case L_WORD => x % 0x1_0000
    case L_LONG => x % 0x1_0000_0000
  }

  /** A type has the values from 0 that it keeps whole. */
  lemma RangeIsKept(t: DataType, value: nat)
    ensures value < Range(t) <==> Kept(t, value) == value
  {
  }

  // Digits

  function DigitOf(c: char): Option<nat> {
    if '0' <= c <= '9' then Some((c - '0') as nat)
    else if 'a' <= c <= 'f' then Some((c - 'a') as nat + 10)
    else if 'A' <= c <= 'F' then Some((c - 'A') as nat + 10)
    else None
  }

  /** The sixteen digits, the letters among them in either case. */
  lemma DigitExactlyIf(c: char, d: nat)
    ensures DigitOf(c) == Some(d) <==> d < 16 && (c == "0123456789abcdef"[d] || c == "0123456789ABCDEF"[d])
  {
  }

  predicate Digits(s: string, base: nat) {
    forall i :: 0 <= i < |s| ==> DigitOf(s[i]).Some? && DigitOf(s[i]).value < base
  }

  lemma DigitsExactlyIf(s: string)
    ensures Digits(s, 10) <==> forall i :: 0 <= i < |s| ==> '0' <= s[i] <= '9'
    ensures Digits(s, 16) <==> forall i :: 0 <= i < |s| ==> '0' <= s[i] <= '9' || 'a' <= s[i] <= 'f' || 'A' <= s[i] <= 'F'
  {
  }

  /** The number that digits stand for, however many there are. */
  function Value(s: string, base: nat): nat
    requires Digits(s, base)
  {
    if s == "" then 0 else Value(s[..|s| - 1], base) * base + DigitOf(s[|s| - 1]).value
  }

  // What a source says

  /** A source has a prefix for base 16, a hyphen, both or none, and then digits. */
  datatype Source = Source(base: nat, negative: bool, digits: string)

  function Parsed(s: string): Source {
    var hex := |s| >= 2 && s[0] == '0' && s[1] == 'x';
    var rest := if hex then s[2..] else s;
    var negative := |rest| >= 1 && rest[0] == '-';
    Source(if hex then 16 else 10, negative, if negative then rest[1..] else rest)
  }

  /** What is taken off a source before its digits. */
  lemma PrefixesAreTaken(digits: string)
    ensures Parsed("-" + digits) == Source(10, true, digits) && Parsed("0x-" + digits) == Source(16, true, digits)
    ensures digits == "" || digits[0] != '-' ==> Parsed("0x" + digits) == Source(16, false, digits)
    ensures (digits == "" || digits[0] != '-') && !("0x" <= digits) ==> Parsed(digits) == Source(10, false, digits)
  {
    assert ("-" + digits)[1..] == digits && ("0x" + digits)[2..] == digits;
    assert ("0x-" + digits)[2..] == "-" + digits;
  }

  predicate InRange(t: DataType, negative: bool, value: nat) {
    if negative then value <= Range(t) / 2 else value < Range(t)
  }

  /** Without a hyphen a number may take all the bits of its type; with one it may go down to the lowest
      that has a sign bit. */
  lemma InRangeExactlyIf(t: DataType, value: nat)
    ensures InRange(t, false, value) <==> value <= (match t case L_BYTE => 255 case L_WORD => 65535 case L_LONG => 4294967295)
    ensures InRange(t, true, value) <==> value <= (match t case L_BYTE => 128 case L_WORD => 32768 case L_LONG => 2147483648)
  {
  }

  /** The octets of a number, in two's complement. */
  function Stored(t: DataType, negative: bool, value: nat): seq<Byte> {
    LittleEndian(Size(t), Kept(t, if negative then -(value as int) else value as int))
  }

  lemma ValueNext(s: string, i: nat, base: nat)
    requires Digits(s, base) && i < |s|
    ensures Digits(s[..i], base) && Digits(s[..i + 1], base)
    ensures Value(s[..i + 1], base) == Value(s[..i], base) * base + DigitOf(s[i]).value
  {
    assert s[..i + 1][..i] == s[..i];
  }

  /** Remainders can be taken at every digit. */
  lemma WrapsOn(value: nat, base: nat, digit: nat)
    requires base == 10 || base == 16
    ensures (value % WORDS * base + digit) % WORDS == (value * base + digit) % WORDS
  {
    if base == 10 {
      assert value * 10 + digit == value % WORDS * 10 + digit + value / WORDS * 10 * WORDS;
      Multiple(value % WORDS * 10 + digit, value / WORDS * 10);
    } else {
      assert value * 16 + digit == value % WORDS * 16 + digit + value / WORDS * 16 * WORDS;
      Multiple(value % WORDS * 16 + digit, value / WORDS * 16);
    }
  }

  lemma {:induction false} Multiple(a: nat, k: nat)
    ensures (a + k * WORDS) % WORDS == a % WORDS
  {
    if k > 0 {
      Multiple(a, k - 1);
      assert a + k * WORDS == a + (k - 1) * WORDS + WORDS;
    }
  }

  class NumericValue {
    const kind: DataType
    const data: array<Byte>

    ghost predicate Valid()
      reads this
    {
      data.Length == Size(kind)
    }

    constructor (kind: DataType)
      ensures Valid() && this.kind == kind && fresh(data)
    {
      this.kind, data := kind, new Byte[Size(kind)];
    }

    /** Stores the octets of a word, from the highest that the type has. */
    method PutBytes(value: Word)
      requires Valid()
      modifies data
      ensures data[..] == LittleEndian(Size(kind), Kept(kind, value))
    {
      if kind == L_LONG {
        data[3] := value / 0x100_0000;
        data[2] := value / 0x1_0000 % 0x100;
      }
      if kind == L_LONG || kind == L_WORD {
        data[1] := value / 0x100 % 0x100;
      }
      data[0] := value % 0x100;
      assert data[..] == Octets(kind, value);
      OctetsAre(kind, value);
    }

    method StoreValue(value: Word) returns (ok: bool)
      requires Valid()
      modifies data
      ensures ok <==> value < Range(kind)
      ensures ok ==> data[..] == LittleEndian(Size(kind), value)
    {
      hide LittleEndian;
      RangeIsKept(kind, value);
      ok := match kind
        case L_BYTE => value <= 0xFF
        case L_WORD => value <= 0xFFFF
        case L_LONG => true;
      if ok {
        PutBytes(value);
      }
    }

    /** Converts decimal or, after `0x`, hexadecimal text. A number of more than 32 bits is reported,
        but it is not refused for that: what is left of it in 32 bits is. */
    method ConvertToNatural(source: string) returns (r: Outcome)
      requires Valid() && |source| < 10000
      modifies data
      ensures var p := Parsed(source);
              if !Digits(p.digits, p.base) then r == Refused
              else
                var value := Value(p.digits, p.base);
                && (r.Converted? <==> InRange(kind, p.negative, value % WORDS))
                && (r.Converted? ==> (r.reported <==> value >= WORDS) && data[..] == Stored(kind, p.negative, value))
    {
      hide LittleEndian, Value;
      ghost var p := Parsed(source);
      var at, hex, negative := 0, false, false;
      if |source| >= 2 && source[0] == '0' && source[1] == 'x' {
        hex, at := true, 2;
      }
      if at < |source| && source[at] == '-' {
        negative, at := true, at + 1;
      }
      var ok, value, reported := ReadDigits(source[at..], if hex then 16 else 10);
      if !ok || !(if negative then value <= Range(kind) / 2 else value < Range(kind)) {
        return Refused;
      }
      ok := StoreValue(value);
      WrappedStored(kind, negative, Value(p.digits, p.base));
      if negative {
        PutBytes((WORDS - value) % WORDS);
      }
      r := Converted(reported);
    }
  }

  datatype Outcome = Refused | Converted(reported: bool)

  /** The tests for a number of more than 32 bits, before each digit is added. */
  predicate TooBig(value: Word, base: nat, digit: nat) {
    if base == 16 then value >= 0x1000_0000 else value > 429496729 || (value == 429496729 && digit > 5)
  }

  lemma TooBigExactlyIf(value: nat, base: nat, digit: nat)
    requires (base == 10 || base == 16) && digit < base
    ensures value * base + digit >= WORDS <==> value >= WORDS || TooBig(value % WORDS, base, digit)
  {
  }

  /** The value of digits as far as 32 bits hold it, and whether there were more. */
  method ReadDigits(digits: string, base: nat) returns (ok: bool, value: Word, reported: bool)
    requires base == 10 || base == 16
    ensures ok <==> Digits(digits, base)
    ensures ok ==> value == Value(digits, base) % WORDS && (reported <==> Value(digits, base) >= WORDS)
  {
    hide Value, TooBig;
    value, reported := 0, false;
    NoDigits(digits[..0], base);
    for i := 0 to |digits|
      invariant Digits(digits[..i], base)
      invariant value == Value(digits[..i], base) % WORDS && (reported <==> Value(digits[..i], base) >= WORDS)
    {
      var digit := DigitOf(digits[i]);
      if digit.None? || digit.value >= base {
        return false, 0, false;
      }
      assert digits[..i + 1][..i] == digits[..i] && digits[..i + 1][..i + 1] == digits[..i + 1];
      ValueNext(digits[..i + 1], i, base);
      WrapsOn(Value(digits[..i], base), base, digit.value);
      TooBigExactlyIf(Value(digits[..i], base), base, digit.value);
      if TooBig(value, base, digit.value) {
        reported := true;
      }
      value := (value * base + digit.value) % WORDS;
    }
    assert digits[..|digits|] == digits;
    ok := true;
  }

  lemma NoDigits(s: string, base: nat)
    requires s == ""
    ensures Digits(s, base) && Value(s, base) == 0
  {
  }

  /** What is stored of a number does not depend on more than 32 bits of it. */
  lemma WrappedStored(t: DataType, negative: bool, value: nat)
    ensures Stored(t, negative, value) ==
            LittleEndian(Size(t), Kept(t, if negative then (WORDS - value % WORDS) % WORDS else value % WORDS))
  {
    hide LittleEndian;
    var k, low := value / WORDS, value % WORDS;
    var x: int := if negative then -(value as int) else value as int;
    var y := if negative then (WORDS - low) % WORDS else low;
    assert x - y == (if !negative then k else if low == 0 then -k else -k - 1) * WORDS;
    SameRemainder(t, x, y, if !negative then k else if low == 0 then -k else -k - 1);
  }

  lemma SameRemainder(t: DataType, x: int, y: nat, k: int)
    requires x - y == k * WORDS
    ensures Kept(t, x) == Kept(t, y)
  {
    SameLow(x, y, k * 0x100_0000);
    SameHalf(x, y, k * 0x1_0000);
    SameWhole(x, y, k);
  }

  lemma SameLow(x: int, y: int, k: int)
    requires x - y == 0x100 * k
    ensures x % 0x100 == y % 0x100
  {
  }

  lemma SameHalf(x: int, y: int, k: int)
    requires x - y == 0x1_0000 * k
    ensures x % 0x1_0000 == y % 0x1_0000
  {
  }

  lemma SameWhole(x: int, y: int, k: int)
    requires x - y == 0x1_0000_0000 * k
    ensures x % 0x1_0000_0000 == y % 0x1_0000_0000
  {
  }

  function Octets(t: DataType, value: Word): seq<Byte> {
    match t
    case L_BYTE => [value % 0x100]
    case L_WORD => [value % 0x100, value / 0x100 % 0x100]
    case L_LONG => [value % 0x100, value / 0x100 % 0x100, value / 0x1_0000 % 0x100, value / 0x100_0000]
  }

  lemma OctetsAre(t: DataType, value: Word)
    ensures Octets(t, value) == LittleEndian(Size(t), Kept(t, value))
  {
    hide LittleEndian;
    OneOctet(value % 0x100);
    HalfOf(value % 0x1_0000);
    LowHigh(value);
    HalfOf(value / 0x1_0000);
    TwoOctets(value % 0x1_0000, value);
    assert value / 0x1_0000 / 0x100 == value / 0x100_0000;
  }

  lemma TwoOctets(half: CodeUnit, value: Word)
    requires half == value % 0x1_0000
    ensures half % 0x100 == value % 0x100 && half / 0x100 == value / 0x100 % 0x100
  {
    assert value == value / 0x1_0000 * 0x100 * 0x100 + half;
  }

  lemma OneOctet(value: Byte)
    ensures LittleEndian(1, value) == [value]
  {
    assert LittleEndian(1, value) == [value % 0x100] + LittleEndian(0, value / 0x100);
  }

  // Numbers as text

  function DigitChar(d: nat): char
    requires d < 10
  {
    '0' + d as char
  }

  function Decimal(n: nat): (s: string)
    ensures s != ""
  {
    if n < 10 then [DigitChar(n)] else Decimal(n / 10) + [DigitChar(n % 10)]
  }

  lemma DigitBack(d: nat)
    requires d < 10
    ensures DigitOf(DigitChar(d)) == Some(d)
  {
  }

  /** Decimal digits stand for the number. */
  lemma {:induction false} DecimalValue(n: nat)
    ensures Digits(Decimal(n), 10) && Value(Decimal(n), 10) == n
    ensures forall i :: 0 <= i < |Decimal(n)| ==> '0' <= Decimal(n)[i] <= '9'
  {
    DigitBack(n % 10);
    if n < 10 {
      NoDigits([DigitChar(n)][..0], 10);
    } else {
      DecimalValue(n / 10);
      var s := Decimal(n);
      assert s[..|s| - 1] == Decimal(n / 10);
    }
  }

  lemma {:induction false} DecimalLength(n: nat, length: nat)
    requires length > 0 && n < Power10(length)
    ensures |Decimal(n)| <= length
    decreases length
  {
    if n >= 10 {
      DecimalLength(n / 10, length - 1);
    }
  }

  function Power10(n: nat): nat {
    if n == 0 then 1 else 10 * Power10(n - 1)
  }

  lemma TenDigits(n: nat)
    requires n < 0x8000_0000
    ensures |Decimal(n)| <= 10
  {
    assert Power10(5) == 10_0000;
    assert Power10(10) == 10_0000 * Power10(5);
    DecimalLength(n, 10);
  }

  lemma ZeroDigit()
    ensures Decimal(0) == "0"
  {
  }

  /** The last digit of what is left is the next to be written. */
  lemma DigitsLeft(x: nat, decimal: string, pv: nat)
    requires x > 0 && pv < |decimal| && Decimal(x) == decimal[..|decimal| - pv]
    ensures decimal[|decimal| - 1 - pv] == DigitChar(x % 10)
    ensures if x / 10 > 0 then pv + 1 < |decimal| && Decimal(x / 10) == decimal[..|decimal| - pv - 1] else pv + 1 == |decimal|
  {
    hide DigitChar;
    var n := |decimal| - pv;
    assert decimal[n - 1] == decimal[..n][n - 1];
    if x >= 10 {
      assert decimal[..n - 1] == decimal[..n][..n - 1] == Decimal(x / 10);
    }
  }

  function Text(n: int): string {
    if n < 0 then "-" + Decimal(-n) else Decimal(n)
  }

  /** Writes the digits of a number from the last to the first into one buffer and turns them round
      into another. Ten digits are enough for 32 bits, and twelve places for a hyphen and an end. */
  method Ltoa(source: int) returns (text: string)
    requires -0x8000_0000 < source < 0x8000_0000
    ensures text == Text(source)
  {
    hide Decimal, DigitChar;
    var v, r := new char[10], new char[12];
    var x: nat := if source < 0 then -source else source;
    ghost var decimal := Decimal(x);
    TenDigits(x);
    var pv: nat := 0;
    if x == 0 {
      v[0] := '0';
      pv := 1;
      ZeroDigit();
    } else {
      assert decimal[..|decimal| - 0] == decimal;
      while x > 0
        invariant pv <= |decimal| && (x > 0 ==> pv < |decimal| && Decimal(x) == decimal[..|decimal| - pv])
        invariant x == 0 ==> pv == |decimal|
        invariant forall k :: 0 <= k < pv ==> v[k] == decimal[|decimal| - 1 - k]
      {
        DigitsLeft(x, decimal, pv);
        v[pv] := DigitChar(x % 10);
        pv := pv + 1;
        x := x / 10;
      }
    }
    var pr := 0;
    if source < 0 {
      r[0] := '-';
      pr := 1;
    }
    ghost var from := pr;
    while pv > 0
      invariant pv <= |decimal| && pr == from + |decimal| - pv
      invariant forall k :: 0 <= k < |decimal| ==> v[k] == decimal[|decimal| - 1 - k]
      invariant forall k :: from <= k < pr ==> r[k] == decimal[k - from]
      invariant from == 1 ==> r[0] == '-'
    {
      pv := pv - 1;
      r[pr] := v[pv];
      pr := pr + 1;
    }
    text := r[..pr];
    assert text[from..] == decimal;
    assert text == text[..from] + text[from..];
  }

  lemma TextIsParsed(n: int)
    ensures Parsed(Text(n)) == Source(10, n < 0, Decimal(if n < 0 then -n else n))
  {
    hide Decimal;
    var d := Decimal(if n < 0 then -n else n);
    DecimalValue(if n < 0 then -n else n);
    assert n < 0 ==> Text(n)[1..] == d;
  }

  /** A number that is written as text and converted again is stored as its two's complement, in every
      type that it is in the range of. */
  method WriteAndConvert(n: int, value: NumericValue) returns (r: Outcome)
    requires -0x8000_0000 < n < 0x8000_0000 && value.Valid()
    modifies value.data
    ensures r == if 0 <= n + Range(value.kind) / 2 && n < Range(value.kind) then Converted(false) else Refused
    ensures r.Converted? ==> value.data[..] == LittleEndian(Size(value.kind), Kept(value.kind, n))
  {
    hide Decimal, LittleEndian, Parsed, Text, Value;
    var text := Ltoa(n);
    TextIsParsed(n);
    DecimalValue(if n < 0 then -n else n);
    TextLength(n);
    r := value.ConvertToNatural(text);
  }

  lemma TextLength(n: int)
    requires -0x8000_0000 < n < 0x8000_0000
    ensures |Text(n)| <= 11
  {
    TenDigits(if n < 0 then -n else n);
  }
}
