// Integers as text: uintToString and valueToString on one side, the digit loop of
// Reader::decodeNumber on the other, with 64-bit wrap-around written out.

module JsonNumber {
  import opened JsonValue

  const TWO_31: int := 0x8000_0000
  const TWO_63: int := 0x8000_0000_0000_0000
  const TWO_64: int := 0x1_0000_0000_0000_0000

  // uintToStringBufferSize for a 64-bit LargestUInt: 3 * 8 + 1
  const BUFFER_SIZE: nat := 25

  // Conversions to the 64-bit types keep the low 64 bits.
  function ToUInt64(n: int): nat { n % TWO_64 }

  function ToInt64(n: int): int {
    if n % TWO_64 < TWO_63 then n % TWO_64 else n % TWO_64 - TWO_64
  }

  predicate IsDigit(c: char) { '0' <= c <= '9' }

  function DigitChar(d: nat): char
    requires d < 10
  {
    ('0' as int + d) as char
  }

  function DigitValue(c: char): nat
    requires IsDigit(c)
  {
    c as int - '0' as int
  }

  predicate AllDigits(s: string) {
    forall i :: 0 <= i < |s| ==> IsDigit(s[i])
  }

  // The usual decimal notation.
  function Decimal(n: nat): string {
    if n < 10 then [DigitChar(n)] else Decimal(n / 10) + [DigitChar(n % 10)]
  }

  function IntegerText(i: int): string {
    if i < 0 then "-" + Decimal(-i) else Decimal(i)
  }

  // The value of a digit string, read from position i with `acc` already accumulated.
  function Horner(s: string, i: nat, acc: nat): nat
    requires i <= |s| && AllDigits(s)
    decreases |s| - i
  {
    if i == |s| then acc else Horner(s, i + 1, acc * 10 + DigitValue(s[i]))
  }

  // ---------------------------------------------------------------- writing

  lemma {:induction false} DecimalShape(n: nat)
    ensures AllDigits(Decimal(n)) && |Decimal(n)| > 0
    decreases n
  {
    if n >= 10 { DecimalShape(n / 10); }
  }

  lemma {:induction false} DecimalLength(n: nat, bound: nat, digits: nat)
    requires 0 < digits <= 20
    requires bound == Pow10(digits) && n < bound
    ensures |Decimal(n)| <= digits
    decreases digits
  {
    if n >= 10 { DecimalLength(n / 10, bound / 10, digits - 1); }
  }

  function Pow10(k: nat): nat {
    if k == 0 then 1 else 10 * Pow10(k - 1)
  }

  lemma DecimalFits(n: nat)
    requires n < TWO_64
    ensures |Decimal(n)| <= 20
  {
    assert Pow10(10) == 1_00000_00000;
    assert Pow10(20) == 1_00000_00000_00000_00000;
    DecimalLength(n, Pow10(20), 20);
  }

  // uintToString fills the buffer backwards from `end`, terminating NUL first. It
  // returns the position of the first digit, never below the start of the buffer.
  method UintToString(value: nat, buffer: array<char>, end: nat) returns (current: nat)
    requires value < TWO_64
    requires BUFFER_SIZE <= end <= buffer.Length
    modifies buffer
    ensures end - 21 <= current < end
    ensures buffer[end - 1] == '\0'
    ensures buffer[current..end - 1] == Decimal(value)
    ensures forall i :: 0 <= i < buffer.Length && !(current <= i < end) ==> buffer[i] == old(buffer[i])
  {
    DecimalFits(value);
    hide Decimal;
    var v := value;
    current := end - 1;
    buffer[current] := '\0';
    ghost var done := "";
    DecimalStep(v, done);
    while true
      invariant 0 <= current == end - 1 - |done| && done == buffer[current..end - 1]
      invariant Decimal(v) + done == Decimal(value)
      invariant buffer[end - 1] == '\0'
      invariant forall i :: 0 <= i < buffer.Length && !(current <= i < end) ==> buffer[i] == old(buffer[i])
      decreases v
    {
      DecimalStep(v, done);
      current := current - 1;
      buffer[current] := DigitChar(v % 10);
      done := [DigitChar(v % 10)] + done;
      assert buffer[current..end - 1] == done;
      v := v / 10;
      if v == 0 { break; }
    }
  }

  // The last digit of a number, in front of the digits already written.
  lemma {:induction false} DecimalStep(v: nat, done: string)
    ensures |Decimal(v)| > 0 && (done == "" ==> Decimal(v) + done == Decimal(v))
    ensures Decimal(v) + done == (if v / 10 == 0 then "" else Decimal(v / 10)) + ([DigitChar(v % 10)] + done)
    ensures v / 10 == 0 ==> Decimal(v) + done == [DigitChar(v % 10)] + done
  {
    if v < 10 {
      assert v / 10 == 0 && v % 10 == v;
    } else {
      assert v / 10 != 0;
    }
  }

  // Negating the least int64 wraps to itself, and casting it still gives its magnitude.
  lemma NegationKeepsMagnitude(value: int)
    requires -TWO_63 <= value < 0
    ensures ToUInt64(ToInt64(-value)) == -value
  {
  }

  // valueToString( LargestInt ): the negation may wrap, the digits still come out right.
  method ValueToString(value: int) returns (text: string)
    requires -TWO_63 <= value < TWO_63
    ensures text == IntegerText(value)
  {
    var buffer := new char[BUFFER_SIZE];
    var isNegative := value < 0;
    if isNegative { NegationKeepsMagnitude(value); }
    var magnitude := ToUInt64(if isNegative then ToInt64(-value) else value);
    assert magnitude == if isNegative then -value else value;
    var current := UintToString(magnitude, buffer, BUFFER_SIZE);
    if isNegative {
      ghost var digits := buffer[current..BUFFER_SIZE - 1];
      current := current - 1;
      buffer[current] := '-';
      assert buffer[current..BUFFER_SIZE - 1] == ['-'] + buffer[current + 1..BUFFER_SIZE - 1];
      assert buffer[current + 1..BUFFER_SIZE - 1] == digits;
    }
    text := buffer[current..BUFFER_SIZE - 1];
  }

  // valueToString( LargestUInt )
  method UnsignedToString(value: nat) returns (text: string)
    requires value < TWO_64
    ensures text == IntegerText(value)
  {
    var buffer := new char[BUFFER_SIZE];
    var current := UintToString(value, buffer, BUFFER_SIZE);
    text := buffer[current..BUFFER_SIZE - 1];
  }

  // ---------------------------------------------------------------- reading

  datatype Digits = Exact(value: nat) | TooBig | BadDigit

  // The largest magnitude that decodeNumber accepts for a sign.
  function MaxMagnitude(negative: bool): nat {
    if negative then TWO_63 else TWO_64 - 1
  }

  // The digit loop: `value` is the 64-bit accumulator, `limit` the largest magnitude
  // without its last digit.
  function DecodeDigits(s: string, i: nat, value: nat, limit: Limit): Digits
    requires i <= |s|
    decreases |s| - i
  {
    if i == |s| then Exact(value)
    else if !IsDigit(s[i]) then BadDigit
    else if value >= limit.threshold && (i + 1 != |s| || DigitValue(s[i]) > limit.lastDigit) then TooBig
    else DecodeDigits(s, i + 1, ToUInt64(value * 10 + DigitValue(s[i])), limit)
  }

  // The largest magnitude for a sign, split as threshold and lastDigitThreshold.
  datatype Limit = Limit(threshold: nat, lastDigit: nat)

  function LimitFor(negative: bool): Limit {
    Limit(MaxMagnitude(negative) / 10, MaxMagnitude(negative) % 10)
  }

  // A token is read as a double when it has a mark that integers do not have.
  predicate LooksDouble(s: string) {
    exists i :: 0 <= i < |s| && DoubleMark(s, i)
  }

  predicate DoubleMark(s: string, i: nat)
    requires i < |s|
  {
    s[i] == '.' || s[i] == 'e' || s[i] == 'E' || s[i] == '+' || (s[i] == '-' && i != 0)
  }

  datatype Outcome = Integer(value: Value) | AsDouble | NotNumber

  predicate Negative(s: string) { s != "" && s[0] == '-' }

  function Magnitude(s: string): string {
    if Negative(s) then s[1..] else s
  }

  // How decodeNumber types the accumulated magnitude.
  function TypedInteger(negative: bool, value: nat): Value {
    if negative then Int(ToInt64(-ToInt64(value)))
    else if value < TWO_31 then Int(value)
    else UInt(value)
  }

  // decodeNumber, up to the call of decodeDouble
  function DecodeInteger(s: string): Outcome {
    if LooksDouble(s) then AsDouble
    else
      match DecodeDigits(Magnitude(s), 0, 0, LimitFor(Negative(s)))
      case Exact(value) => Integer(TypedInteger(Negative(s), value))
      case TooBig => AsDouble
      case BadDigit => NotNumber
  }

  // ------------------------------------------------------------- exactness

  predicate IsIntegerText(s: string) {
    AllDigits(Magnitude(s))
  }

  function Signed(negative: bool, m: int): int { if negative then -m else m }

  function Meaning(s: string): int
    requires IsIntegerText(s)
  {
    Signed(Negative(s), Horner(Magnitude(s), 0, 0))
  }

  predicate InRange(n: int) { -TWO_63 <= n < TWO_64 }

  // The type an integer comes back with.
  function Canonical(n: int): Value {
    if n < TWO_31 then Int(n) else UInt(n)
  }

  // All but the last digit of a digit string, as a number.
  function Prefix(s: string): nat
    requires AllDigits(s)
  {
    if s == "" then 0 else Horner(s[..|s| - 1], 0, 0)
  }

  // The guard of the loop compares the accumulator with `>=` and then looks only at the
  // last digit, so it misses tokens that have one digit too many and a small last digit.
  predicate GuardMisses(s: string)
    requires IsIntegerText(s)
  {
    var limit := LimitFor(Negative(s));
    var m := Magnitude(s);
    m != "" && Slips(limit, Prefix(m), DigitValue(m[|m| - 1]))
  }

  predicate Slips(limit: Limit, prefix: nat, lastDigit: nat) {
    limit.threshold < prefix < 10 * limit.threshold && lastDigit <= limit.lastDigit
  }

  lemma {:induction false} HornerGrows(s: string, i: nat, acc: nat)
    requires i <= |s| && AllDigits(s)
    ensures Horner(s, i, acc) >= acc
    ensures i < |s| ==> Horner(s, i, acc) >= 10 * acc
    decreases |s| - i
  {
    if i < |s| { HornerGrows(s, i + 1, acc * 10 + DigitValue(s[i])); }
  }

  // The last digit contributes last.
  lemma {:induction false} HornerLast(s: string, i: nat, acc: nat)
    requires i < |s| && AllDigits(s)
    ensures Horner(s, i, acc) == 10 * Horner(s[..|s| - 1], i, acc) + DigitValue(s[|s| - 1])
    decreases |s| - i
  {
    if i + 1 < |s| { HornerLast(s, i + 1, acc * 10 + DigitValue(s[i])); }
  }

  // What the loop returns for a number m whose digits but the last denote p.
  function Verdict(limit: Limit, m: nat, p: nat, lastDigit: nat): Digits {
    if m <= 10 * limit.threshold + limit.lastDigit then Exact(m)
    else if Slips(limit, p, lastDigit) then Exact(ToUInt64(m))
    else TooBig
  }

  // From any reachable accumulator the loop's result depends only on the number denoted.
  lemma {:induction false} DecodeDigitsMeaning(s: string, i: nat, value: nat, limit: Limit)
    requires i < |s| && AllDigits(s)
    requires limit == LimitFor(true) || limit == LimitFor(false)
    requires value < 10 * limit.threshold
    ensures DecodeDigits(s, i, value, limit) ==
            Verdict(limit, Horner(s, i, value), Horner(s[..|s| - 1], i, value), DigitValue(s[|s| - 1]))
    decreases |s| - i
  {
    HornerLast(s, i, value);
    var d := DigitValue(s[i]);
    if i + 1 == |s| {
      LastDigit(s, i, value, limit);
    } else if value >= limit.threshold {
      HornerGrows(s[..|s| - 1], i, value);
    } else {
      assert ToUInt64(value * 10 + d) == value * 10 + d;
      DecodeDigitsMeaning(s, i + 1, value * 10 + d, limit);
    }
  }

  lemma LastDigit(s: string, i: nat, value: nat, limit: Limit)
    requires i + 1 == |s| && AllDigits(s)
    requires limit == LimitFor(true) || limit == LimitFor(false)
    requires value < 10 * limit.threshold
    ensures DecodeDigits(s, i, value, limit) == Verdict(limit, value * 10 + DigitValue(s[i]), value, DigitValue(s[i]))
  {
    var m := value * 10 + DigitValue(s[i]);
    if m <= 10 * limit.threshold + limit.lastDigit {
      assert ToUInt64(m) == m;
    }
  }

  lemma LimitIs(negative: bool)
    ensures var limit := LimitFor(negative);
            && 10 * limit.threshold + limit.lastDigit == MaxMagnitude(negative)
            && limit.threshold > 0 && limit.lastDigit <= 9
  {
  }

  lemma TypedIsCanonical(negative: bool, m: nat)
    requires m <= MaxMagnitude(negative)
    ensures TypedInteger(negative, m) == Canonical(Signed(negative, m))
  {
    hide ToInt64;
    if negative {
      if m == TWO_63 {
        LeastInteger();
      } else {
        FitsInt64(m);
        FitsInt64(0 - m);
      }
    }
  }

  lemma FitsInt64(n: int)
    requires -TWO_63 <= n < TWO_63
    ensures ToInt64(n) == n
  {
    if n < 0 { assert n % TWO_64 == n + TWO_64; } else { assert n % TWO_64 == n; }
  }

  lemma LeastInteger()
    ensures ToInt64(TWO_63) == -TWO_63
  {
    assert TWO_63 % TWO_64 == TWO_63;
  }

  lemma SlipWraps(limit: Limit, n: nat, p: nat, d: nat)
    requires n == 10 * p + d && Slips(limit, p, d) && limit.lastDigit <= 9
    ensures Verdict(limit, n, p, d) == Exact(ToUInt64(n))
  {
    hide ToUInt64;
  }

  // The verdict by the range of the number, whose digits are p and then d.
  lemma VerdictInRange(negative: bool, m: nat, p: nat, d: nat)
    requires m == 10 * p + d && d <= 9
    ensures var n, limit := Signed(negative, m), LimitFor(negative);
            var v := Verdict(limit, m, p, d);
            && (InRange(n) ==> v == Exact(m) && TypedInteger(negative, m) == Canonical(n) && !Slips(limit, p, d))
            && (!InRange(n) ==> if Slips(limit, p, d) then v.Exact? else v == TooBig)
  {
    hide LimitFor, TypedInteger, Canonical, ToUInt64;
    LimitIs(negative);
    if m <= MaxMagnitude(negative) { TypedIsCanonical(negative, m); }
  }

  // An integer token whose value fits is decoded to exactly that value; one that does not
  // fit falls back to a double, unless the guard misses it and the accumulator wraps.
  // So decoding is faithful exactly when the guard does not miss.
  lemma DecodeFaithfulIffGuardHolds(s: string)
    requires IsIntegerText(s)
    ensures InRange(Meaning(s)) ==> DecodeInteger(s) == Integer(Canonical(Meaning(s)))
    ensures
      !GuardMisses(s) <==>
      DecodeInteger(s) == (if InRange(Meaning(s)) then Integer(Canonical(Meaning(s))) else AsDouble)
  {
    hide LooksDouble, Verdict, Slips, InRange, TypedInteger, Canonical, LimitFor;
    IntegerTextNotDouble(s);
    var m, limit := Magnitude(s), LimitFor(Negative(s));
    if m != "" {
      hide DecodeDigits, Horner;
      var d := DigitValue(m[|m| - 1]);
      LimitIs(Negative(s));
      DecodeDigitsMeaning(m, 0, 0, limit);
      HornerLast(m, 0, 0);
      VerdictInRange(Negative(s), Horner(m, 0, 0), Prefix(m), d);
    } else {
      ZeroIsInRange();
    }
  }

  lemma ZeroIsInRange()
    ensures InRange(0) && Canonical(0) == Int(0) == TypedInteger(true, 0) == TypedInteger(false, 0)
  {
  }

  lemma IntegerTextNotDouble(s: string)
    requires IsIntegerText(s)
    ensures !LooksDouble(s)
  {
    forall i | 0 <= i < |s|
      ensures !DoubleMark(s, i)
    {
      if Negative(s) && i != 0 {
        assert IsDigit(Magnitude(s)[i - 1]);
      }
    }
  }

  // A concrete miss: the decimal notation of 2^64 + 4 is read as the integer 4.
  lemma GuardMissExample()
    ensures
      var s := Decimal(TWO_64 + 4);
      && IsIntegerText(s) && Meaning(s) == TWO_64 + 4
      && GuardMisses(s) && DecodeInteger(s) == Integer(Int(4))
  {
    var n := TWO_64 + 4;
    UnsignedMiss(n, Decimal(n));
  }

  // The same for the digits of any number with that property.
  lemma DigitsSlip(s: string, n: nat, p: nat, d: nat)
    requires s != "" && AllDigits(s) && Horner(s, 0, 0) == n && Prefix(s) == p && DigitValue(s[|s| - 1]) == d
    requires n == 10 * p + d && TWO_64 / 10 < p < 10 * (TWO_64 / 10) && d <= 5
    ensures IsIntegerText(s) && Meaning(s) == n && GuardMisses(s)
    ensures DecodeInteger(s) == Integer(TypedInteger(false, ToUInt64(n)))
  {
    hide LooksDouble, DecodeDigits, Horner, Verdict, TypedInteger, ToUInt64;
    assert IsDigit(s[0]);
    IntegerTextNotDouble(s);
    LimitIs(false);
    DecodeDigitsMeaning(s, 0, 0, LimitFor(false));
    SlipWraps(LimitFor(false), n, p, d);
  }

  // The digits of a number, those but the last, and the last one.
  lemma DecimalSplits(n: nat)
    requires n >= 10
    ensures var s := Decimal(n);
            && s != "" && AllDigits(s) && Horner(s, 0, 0) == n
            && Prefix(s) == n / 10 && DigitValue(s[|s| - 1]) == n % 10
  {
    HornerOfDecimal(n);
    HornerOfDecimal(n / 10);
    var s := Decimal(n);
    assert s == Decimal(n / 10) + [DigitChar(n % 10)] && s[..|s| - 1] == Decimal(n / 10);
    hide Decimal, Horner;
  }

  // Every number from 2^64 whose last digit is small wraps, up to ten times the threshold.
  lemma UnsignedMiss(n: nat, s: string)
    requires TWO_64 / 10 < n / 10 < 10 * (TWO_64 / 10) && n % 10 <= 5
    requires s == Decimal(n)
    ensures IsIntegerText(s) && Meaning(s) == n && GuardMisses(s)
    ensures DecodeInteger(s) == Integer(TypedInteger(false, ToUInt64(n)))
  {
    hide Decimal, Horner, DecodeInteger, TypedInteger, ToUInt64, GuardMisses, Meaning;
    DecimalSplits(n);
    DigitsSlip(s, n, n / 10, n % 10);
  }

  // A lone minus sign is accepted and read as zero.
  lemma LoneMinusIsZero()
    ensures DecodeInteger("-") == Integer(Int(0))
  {
    IntegerTextNotDouble("-");
  }

  // ------------------------------------------------------------ round trip

  lemma {:induction false} HornerOfDecimal(n: nat)
    ensures AllDigits(Decimal(n)) && Horner(Decimal(n), 0, 0) == n
    decreases n
  {
    DecimalShape(n);
    if n >= 10 {
      HornerOfDecimal(n / 10);
      var s := Decimal(n);
      assert s[..|s| - 1] == Decimal(n / 10);
      HornerLast(s, 0, 0);
    } else {
      assert Horner(Decimal(n), 1, n) == n;
    }
  }

  // decodeNumber undoes valueToString on every int64 and uint64.
  lemma NumberRoundTrip(n: int)
    requires InRange(n)
    ensures DecodeInteger(IntegerText(n)) == Integer(Canonical(n))
  {
    var s := IntegerText(n);
    HornerOfDecimal(if n < 0 then -n else n);
    assert n < 0 ==> s[1..] == Decimal(-n);
    assert n >= 0 ==> IsDigit(s[0]);
    DecodeFaithfulIffGuardHolds(s);
  }

  // No digit is a sign, a letter or punctuation, so the text is one number token.
  lemma IntegerTextShape(n: int)
    ensures
      var s := IntegerText(n);
      && s != ""
      && (IsDigit(s[0]) || s[0] == '-')
      && forall i :: 1 <= i < |s| ==> IsDigit(s[i])
  {
    DecimalShape(if n < 0 then -n else n);
  }
}
