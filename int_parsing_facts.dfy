/**
 * An independent statement of what the integer parser accepts: trim the white
 * space at both ends of the span, take an optional sign, and read what is
 * left as one or more decimal digits. The scanner of `IntParsing` is proved
 * to agree with it on every span, and the facts the expander relies on are
 * drawn from it.
 */
module IntParsingFacts {
  import opened Wrappers
  import opened IntParsing

  predicate IsSign(c: char) {
    c == '+' || c == '-'
  }

  /** Where `s[lo..hi]` starts once its leading white space is dropped. */
  function TrimmedStart(s: string, lo: nat, hi: nat): (a: nat)
    requires lo <= hi <= |s|
    ensures lo <= a <= hi
    ensures forall k :: lo <= k < a ==> IsWhite(s[k])
    ensures a < hi ==> !IsWhite(s[a])
    decreases hi - lo
  {
    if lo < hi && IsWhite(s[lo]) then TrimmedStart(s, lo + 1, hi) else lo
  }

  /** Where `s[lo..hi]` ends once its trailing white space is dropped. */
  function TrimmedEnd(s: string, lo: nat, hi: nat): (b: nat)
    requires lo <= hi <= |s|
    ensures lo <= b <= hi
    ensures forall k :: b <= k < hi ==> IsWhite(s[k])
    ensures lo < b ==> !IsWhite(s[b - 1])
    decreases hi - lo
  {
    if lo < hi && IsWhite(s[hi - 1]) then TrimmedEnd(s, lo, hi - 1) else hi
  }

  /** What `int.TryParse` with the default integer style makes of the span `s[lo..hi]`. */
  function ParseReference(s: string, lo: nat, hi: nat): Option<int>
    requires lo <= hi <= |s|
  {
    var a := TrimmedStart(s, lo, hi);
    var b := TrimmedEnd(s, a, hi);
    var negative := a < b && s[a] == '-';
    var d := if a < b && IsSign(s[a]) then a + 1 else a;
    if d < b && AllDigits(s[d..b]) then Finish(negative, DecimalValue(s[d..b])) else None
  }

  /** Dropping the first character of a span: how the end of its trimmed form moves. */
  lemma {:induction false} TrimmedEndStep(s: string, i: nat, hi: nat)
    requires i < hi <= |s|
    ensures !IsWhite(s[i]) ==> TrimmedEnd(s, i, hi) == TrimmedEnd(s, i + 1, hi)
    ensures IsWhite(s[i]) ==>
      TrimmedEnd(s, i, hi) == if TrimmedEnd(s, i + 1, hi) == i + 1 then i else TrimmedEnd(s, i + 1, hi)
    decreases hi - i
  {
    if IsWhite(s[hi - 1]) && i + 1 < hi {
      TrimmedEndStep(s, i, hi - 1);
    }
  }

  /** `AllDigits` of a non-empty string is its first digit and the digits of the rest. */
  lemma AllDigitsCons(c: char, r: string)
    ensures AllDigits([c] + r) <==> IsDigit(c) && AllDigits(r)
  {
    if IsDigit(c) && AllDigits(r) {
      forall k | 0 <= k < |r| + 1 ensures IsDigit(([c] + r)[k]) {
        if 0 < k {
          assert ([c] + r)[k] == r[k - 1];
        }
      }
    } else if IsDigit(c) {
      var k :| 0 <= k < |r| && !IsDigit(r[k]);
      assert ([c] + r)[k + 1] == r[k];
    } else {
      assert ([c] + r)[0] == c;
    }
  }

  /** The span `s[i..b]` split into its first character and the rest. */
  lemma SplitFirst(s: string, i: nat, b: nat, acc: nat)
    requires i < b <= |s|
    ensures s[i..b] == [s[i]] + s[i + 1..b]
    ensures AllDigits(s[i..b]) <==> IsDigit(s[i]) && AllDigits(s[i + 1..b])
    ensures AllDigits(s[i..b]) ==> Horner(acc, s[i..b]) == Horner(10 * acc + DigitValue(s[i]), s[i + 1..b])
  {
    assert s[i..b] == [s[i]] + s[i + 1..b];
    AllDigitsCons(s[i], s[i + 1..b]);
    assert s[i..b][1..] == s[i + 1..b];
  }

  /** The scanner after the number: only white space may follow. */
  lemma {:induction false} ScanTrailing(s: string, i: nat, hi: nat, negative: bool, magnitude: nat)
    requires i <= hi <= |s|
    ensures Scan(s, i, hi, Trailing, negative, magnitude) ==
      if TrimmedEnd(s, i, hi) == i then Finish(negative, magnitude) else None
    decreases hi - i
  {
    if i < hi {
      TrimmedEndStep(s, i, hi);
      if IsWhite(s[i]) {
        ScanTrailing(s, i + 1, hi, negative, magnitude);
      }
    }
  }

  /** The scanner among the digits: the rest of the span, less its trailing white space, must be digits. */
  lemma {:induction false} ScanDigits(s: string, i: nat, hi: nat, negative: bool, magnitude: nat)
    requires i <= hi <= |s|
    ensures var b := TrimmedEnd(s, i, hi);
      Scan(s, i, hi, InDigits, negative, magnitude) ==
        if AllDigits(s[i..b]) then Finish(negative, Horner(magnitude, s[i..b])) else None
    decreases hi - i
  {
    if i < hi {
      TrimmedEndStep(s, i, hi);
      var b := TrimmedEnd(s, i, hi);
      if b > i {
        SplitFirst(s, i, b, magnitude);
      }
      if IsDigit(s[i]) {
        ScanDigits(s, i + 1, hi, negative, 10 * magnitude + DigitValue(s[i]));
      } else if IsWhite(s[i]) {
        ScanTrailing(s, i + 1, hi, negative, magnitude);
      }
    }
  }

  /** The scanner just after a sign: one or more digits must follow, then only white space. */
  lemma ScanAfterSign(s: string, i: nat, hi: nat, negative: bool)
    requires i <= hi <= |s|
    ensures var b := TrimmedEnd(s, i, hi);
      Scan(s, i, hi, AfterSign, negative, 0) ==
        if i < b && AllDigits(s[i..b]) then Finish(negative, DecimalValue(s[i..b])) else None
  {
    if i < hi {
      TrimmedEndStep(s, i, hi);
      var b := TrimmedEnd(s, i, hi);
      if b > i {
        SplitFirst(s, i, b, 0);
      }
      if IsDigit(s[i]) {
        ScanDigits(s, i + 1, hi, negative, DigitValue(s[i]));
      }
    }
  }

  /** The scanner before the number agrees with the reference on the rest of the span. */
  lemma {:induction false} ScanLeading(s: string, i: nat, hi: nat)
    requires i <= hi <= |s|
    ensures Scan(s, i, hi, Leading, false, 0) == ParseReference(s, i, hi)
    decreases hi - i
  {
    if i < hi {
      var c := s[i];
      if IsWhite(c) {
        ScanLeading(s, i + 1, hi);
      } else {
        TrimmedEndStep(s, i, hi);
        var b := TrimmedEnd(s, i, hi);
        SplitFirst(s, i, b, 0);
        if IsSign(c) {
          ScanAfterSign(s, i + 1, hi, c == '-');
        } else if IsDigit(c) {
          ScanDigits(s, i + 1, hi, false, DigitValue(c));
        }
      }
    }
  }

  /** The parser accepts exactly what the reference accepts, with the same value. */
  lemma ParseInt32Reference(s: string, lo: nat, hi: nat)
    requires lo <= hi <= |s|
    ensures ParseInt32(s, lo, hi) == ParseReference(s, lo, hi)
  {
    ScanLeading(s, lo, hi);
  }

  /** Leading white space `s[lo..a]` before a character that is not white is skipped. */
  lemma {:induction false} TrimmedStartAt(s: string, lo: nat, a: nat, hi: nat)
    requires lo <= a < hi <= |s|
    requires forall k :: lo <= k < a ==> IsWhite(s[k])
    requires !IsWhite(s[a])
    ensures TrimmedStart(s, lo, hi) == a
    decreases a - lo
  {
    if lo < a {
      TrimmedStartAt(s, lo + 1, a, hi);
    }
  }

  /** Trailing white space `s[b..hi]` after a character that is not white is dropped. */
  lemma {:induction false} TrimmedEndAt(s: string, lo: nat, b: nat, hi: nat)
    requires lo < b <= hi <= |s|
    requires forall k :: b <= k < hi ==> IsWhite(s[k])
    requires !IsWhite(s[b - 1])
    ensures TrimmedEnd(s, lo, hi) == b
    decreases hi - b
  {
    if b < hi {
      TrimmedEndAt(s, lo, b, hi - 1);
    }
  }

  /**
   * Every spelling the parser is meant to accept is accepted: white space
   * `s[lo..a]`, an optional sign `s[a..d]`, the digits `s[d..b]` and white
   * space `s[b..hi]` parse to the signed value of the digits, when it fits.
   */
  lemma ParseSpelled(s: string, lo: nat, a: nat, d: nat, b: nat, hi: nat)
    requires lo <= a <= d < b <= hi <= |s|
    requires forall k :: lo <= k < a ==> IsWhite(s[k])
    requires d == a || (d == a + 1 && IsSign(s[a]))
    requires AllDigits(s[d..b])
    requires forall k :: b <= k < hi ==> IsWhite(s[k])
    ensures ParseInt32(s, lo, hi) == Finish(d == a + 1 && s[a] == '-', DecimalValue(s[d..b]))
  {
    ParseInt32Reference(s, lo, hi);
    assert s[a] == s[d..b][0] || IsSign(s[a]);
    TrimmedStartAt(s, lo, a, hi);
    assert s[b - 1] == s[d..b][b - 1 - d];
    TrimmedEndAt(s, a, b, hi);
  }

  /** The decimal spelling of an index in range, with nothing around it, parses back to the index. */
  lemma ParseDecimal(s: string, lo: nat, hi: nat, n: nat)
    requires lo <= hi <= |s| && s[lo..hi] == Decimal(n)
    requires n <= Int32Max
    ensures ParseInt32(s, lo, hi) == Some(n)
  {
    DecimalRoundTrip(n);
    assert s[lo] == Decimal(n)[0];
    ParseSpelled(s, lo, lo, lo, hi, hi);
  }

  /** A span without a digit is rejected: this covers the empty span and one of white space only. */
  lemma ParseNeedsDigit(s: string, lo: nat, hi: nat)
    requires lo <= hi <= |s|
    requires forall k :: lo <= k < hi ==> !IsDigit(s[k])
    ensures ParseInt32(s, lo, hi) == None
  {
    ParseInt32Reference(s, lo, hi);
    var a := TrimmedStart(s, lo, hi);
    var b := TrimmedEnd(s, a, hi);
    var d := if a < b && IsSign(s[a]) then a + 1 else a;
    if d < b {
      assert s[d..b][0] == s[d];
    }
  }

  /**
   * A span holding a character that is neither white space, a digit nor a
   * sign is rejected: a `:` format specifier or a second `{` makes the
   * placeholder invalid.
   */
  lemma ParseRejectsForeign(s: string, lo: nat, hi: nat, k: nat)
    requires lo <= k < hi <= |s|
    requires !IsWhite(s[k]) && !IsDigit(s[k]) && !IsSign(s[k])
    ensures ParseInt32(s, lo, hi) == None
  {
    ParseInt32Reference(s, lo, hi);
    var a := TrimmedStart(s, lo, hi);
    var b := TrimmedEnd(s, a, hi);
    var d := if a < b && IsSign(s[a]) then a + 1 else a;
    assert a <= k < b;
    if d < b {
      assert s[d..b][k - d] == s[k];
    }
  }
}
