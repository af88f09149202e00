/**
 * The integer parser used to read a placeholder's argument index: `int.TryParse`
 * with the default integer style (leading and trailing white space allowed, a
 * leading sign allowed, nothing else), fixed to the invariant culture's `+` and
 * `-` signs. The result must fit a 32-bit signed integer.
 *
 * The parser is a left-to-right scanner over the characters `s[lo..hi]`, the
 * way the runtime's own number parser walks a span.
 */
module IntParsing {
  import opened Wrappers

  const Int32Min: int := -0x8000_0000
  const Int32Max: int := 0x7FFF_FFFF

  /** White space as the number parser sees it: U+0009 to U+000D and U+0020. */
  predicate IsWhite(c: char) {
    c == ' ' || '\t' <= c <= '\r'
  }

  predicate IsDigit(c: char) {
    '0' <= c <= '9'
  }

  predicate AllDigits(s: string) {
    forall i :: 0 <= i < |s| ==> IsDigit(s[i])
  }

  function DigitValue(c: char): (d: nat)
    requires IsDigit(c)
    ensures d < 10
  {
    c as int - '0' as int
  }

  function DigitChar(d: nat): (c: char)
    requires d < 10
    ensures IsDigit(c) && DigitValue(c) == d
  {
    ('0' as int + d) as char
  }

  /** `acc` followed by the decimal digits of `s`, read most significant first. */
  function Horner(acc: nat, s: string): nat
    requires AllDigits(s)
    decreases |s|
  {
    if s == [] then acc else Horner(10 * acc + DigitValue(s[0]), s[1..])
  }

  /** The value of a string of decimal digits. */
  function DecimalValue(s: string): nat
    requires AllDigits(s)
  {
    Horner(0, s)
  }

  /** Appending a digit multiplies the value read so far by ten and adds the digit. */
  lemma {:induction false} HornerSnoc(acc: nat, s: string, c: char)
    requires AllDigits(s) && IsDigit(c)
    ensures AllDigits(s + [c])
    ensures Horner(acc, s + [c]) == 10 * Horner(acc, s) + DigitValue(c)
    decreases |s|
  {
    if s == [] {
      assert [] + [c] == [c];
    } else {
      assert (s + [c])[1..] == s[1..] + [c];
      HornerSnoc(10 * acc + DigitValue(s[0]), s[1..], c);
    }
  }

  /** The shortest decimal spelling of `n`. */
  function Decimal(n: nat): (s: string)
    ensures |s| >= 1
    decreases n
  {
    if n < 10 then [DigitChar(n)] else Decimal(n / 10) + [DigitChar(n % 10)]
  }

  /**
   * The decimal spelling of `n` is made of digits, begins with `0` only when
   * `n` is 0, and reads back as `n`.
   */
  lemma {:induction false} DecimalRoundTrip(n: nat)
    ensures AllDigits(Decimal(n))
    ensures Decimal(n)[0] == '0' ==> n == 0
    ensures DecimalValue(Decimal(n)) == n
    decreases n
  {
    if n < 10 {
      assert Horner(0, [DigitChar(n)]) == Horner(n, []);
    } else {
      DecimalRoundTrip(n / 10);
      HornerSnoc(0, Decimal(n / 10), DigitChar(n % 10));
    }
  }

  /** Where the scanner is: before the number, just after its sign, among its digits, or after it. */
  datatype Phase = Leading | AfterSign | InDigits | Trailing

  /** The parsed value, kept only when it fits 32 bits. */
  function Finish(negative: bool, magnitude: nat): (r: Option<int>)
    ensures r.Some? <==> (if negative then magnitude <= -Int32Min else magnitude <= Int32Max)
    ensures r.Some? ==> r.value == if negative then -(magnitude as int) else magnitude
  {
    var v: int := if negative then -(magnitude as int) else magnitude;
    if Int32Min <= v <= Int32Max then Some(v) else None
  }

  /**
   * Scans `s[i..hi]` in `phase`, having read the sign `negative` and the digits
   * worth `magnitude` so far.
   */
  function Scan(s: string, i: nat, hi: nat, phase: Phase, negative: bool, magnitude: nat): (r: Option<int>)
    requires i <= hi <= |s|
    ensures r.Some? ==> Int32Min <= r.value <= Int32Max
    decreases hi - i
  {
    if i == hi then
      if phase == InDigits || phase == Trailing then Finish(negative, magnitude) else None
    else
      var c := s[i];
      match phase
      case Leading =>
        if IsWhite(c) then Scan(s, i + 1, hi, Leading, negative, magnitude)
        else if c == '-' then Scan(s, i + 1, hi, AfterSign, true, 0)
        else if c == '+' then Scan(s, i + 1, hi, AfterSign, false, 0)
        else if IsDigit(c) then Scan(s, i + 1, hi, InDigits, false, DigitValue(c))
        else None
      case AfterSign =>
        if IsDigit(c) then Scan(s, i + 1, hi, InDigits, negative, DigitValue(c)) else None
      case InDigits =>
        if IsDigit(c) then Scan(s, i + 1, hi, InDigits, negative, 10 * magnitude + DigitValue(c))
        else if IsWhite(c) then Scan(s, i + 1, hi, Trailing, negative, magnitude)
        else None
      case Trailing =>
        if IsWhite(c) then Scan(s, i + 1, hi, Trailing, negative, magnitude) else None
  }

  /**
   * `int.TryParse` applied to the span `s[lo..hi]`: `Some(v)` when it is
   * optional white space, an optional sign, one or more ASCII digits and
   * optional white space, with a value in the 32-bit signed range.
   */
  function ParseInt32(s: string, lo: nat, hi: nat): (r: Option<int>)
    requires lo <= hi <= |s|
    ensures r.Some? ==> Int32Min <= r.value <= Int32Max
  {
    Scan(s, lo, hi, Leading, false, 0)
  }
}
