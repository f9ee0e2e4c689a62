/** printnum and strtol: writing a number and reading it back. */
module Numbers {

  const TWO_63: int := 0x8000_0000_0000_0000
  const TWO_64: int := 0x1_0000_0000_0000_0000

  /** A long: 64 bits, two's complement. */
  function Long(v: int): int {
    (v + TWO_63) % TWO_64 - TWO_63
  }

  const DIGITS: string := "0123456789abcdef"

  // ----- printnum -----

  /** The digits of a number, most significant first. */
  function Digits(num: nat, base: nat): string
    requires 2 <= base <= 16
  {
    (if num >= base then Digits(num / base, base) else "") + [DIGITS[num % base]]
  }

  function Pad(n: int, padc: char): string {
    seq(if n > 0 then n else 0, i => padc)
  }

  /** The digits, with padding on the left up to the width. */
  function Padded(num: nat, base: nat, width: int, padc: char): string
    requires 2 <= base <= 16
  {
    Pad(width - |Digits(num, base)|, padc) + Digits(num, base)
  }

  lemma {:induction false} Shrinks(n: nat, base: nat)
    requires 2 <= base <= n
    ensures 0 <= n / base < n && n == base * (n / base) + n % base
  {
    Halved(n / base, base, n % base);
  }

  lemma {:induction false} Halved(q: nat, base: nat, r: nat)
    requires 2 <= base <= base * q + r && r < base
    ensures q < base * q + r
  {
    if q > 0 {
      assert base * q == 2 * q + (base - 2) * q;
    }
  }

  lemma {:induction false} PaddedStep(num: nat, base: nat, width: int, padc: char)
    requires 2 <= base <= 16
    ensures Padded(num, base, width, padc)
            == (if num >= base then Padded(num / base, base, width - 1, padc) else Pad(width - 1, padc))
               + [DIGITS[num % base]]
  {
  }

  /** putch and putdat: characters go to the end of a text. */
  class Output {
    var text: string

    constructor ()
      ensures text == ""
    {
      text := "";
    }

    method Put(c: char)
      modifies this
      ensures text == old(text) + [c]
    {
      text := text + [c];
    }

    /** The padding before the first digit. */
    method PadOut(width: int, padc: char)
      modifies this
      ensures text == old(text) + Pad(width - 1, padc)
    {
      var w := width - 1;
      while w > 0
        invariant (w >= 0 || w == width - 1) && w <= width - 1
        invariant text == old(text) + Pad(width - 1 - w, padc)
      {
        Put(padc);
        w := w - 1;
      }
    }

    /** printnum, for the bases in which it ends: see PrintNumEnds. */
    method PrintNum(num: nat, base: nat, width: int, padc: char)
      requires 2 <= base <= 16 && num < TWO_64
      modifies this
      ensures text == old(text) + Padded(num, base, width, padc)
      decreases num
    {
      var mod := num % base;
      PaddedStep(num, base, width, padc);
      if num >= base {
        Shrinks(num, base);
        PrintNum(num / base, base, width - 1, padc);
      } else {
        PadOut(width, padc);
      }
      Put(DIGITS[mod]);
    }
  }

  // ----- when printnum ends -----

  /** The number that printnum is given in its k-th nested call. */
  function Nested(num: nat, base: nat, k: nat): nat
    requires base > 0
  {
    if k == 0 then num else Nested(num, base, k - 1) / base
  }

  lemma {:induction false} NestedFalls(num: nat, base: nat, k: nat)
    requires base >= 2
    ensures Nested(num, base, k) < base || Nested(num, base, k) + k <= num
  {
    if k > 0 {
      NestedFalls(num, base, k - 1);
      QuotientFalls(Nested(num, base, k - 1), base);
    }
  }

  lemma {:induction false} QuotientFalls(n: nat, base: nat)
    requires base >= 2
    ensures n / base < base || n / base < n
    ensures n < base ==> n / base < base
  {
    if n >= base {
      Shrinks(n, base);
    } else {
      SmallQuotient(n / base, base, n);
    }
  }

  lemma {:induction false} SmallQuotient(q: nat, base: nat, n: nat)
    requires n < base && q == n / base
    ensures q < base
  {
  }

  lemma {:induction false} NestedSame(num: nat, k: nat)
    ensures Nested(num, 1, k) == num
  {
    if k > 0 {
      NestedSame(num, k - 1);
    }
  }

  /** printnum calls itself until the number is below the base.  In base 1, which its description allows, every
      call is given the same number, so only 0 is ever printed. */
  lemma {:induction false} PrintNumEnds(num: nat, base: nat)
    requires base > 0
    ensures (exists k: nat :: Nested(num, base, k) < base) <==> base >= 2 || num == 0
  {
    if base >= 2 {
      NestedFalls(num, base, num + 1);
      assert Nested(num, base, num + 1) < base;
    } else {
      assert num == 0 ==> Nested(num, base, 0) < base;
      forall k: nat
        ensures Nested(num, base, k) == num
      {
        NestedSame(num, k);
      }
    }
  }

  // ----- strtol -----

  /** The value of a digit or letter, at least 36 for other characters. */
  function Digit(c: char): nat {
    if '0' <= c <= '9' then c as int - '0' as int
    else if 'a' <= c <= 'z' then c as int - 'a' as int + 10
    else if 'A' <= c <= 'Z' then c as int - 'A' as int + 10
    else 36
  }

  /** The number that digits stand for. */
  function Value(s: string, base: nat): nat {
    if s == "" then 0 else Value(s[..|s| - 1], base) * base + Digit(s[|s| - 1])
  }

  /** The first place from p on with no digit of the base; the end of the text is a zero byte. */
  function DigitsEnd(s: string, p: nat, base: nat): (q: nat)
    requires p <= |s|
    ensures p <= q <= |s| && (q < |s| ==> Digit(s[q]) >= base)
    ensures forall i :: p <= i < q ==> Digit(s[i]) < base
    decreases |s| - p
  {
    if p < |s| && Digit(s[p]) < base then DigitsEnd(s, p + 1, base) else p
  }

  function BlanksEnd(s: string): (q: nat)
    ensures q <= |s| && (q < |s| ==> s[q] !in {' ', '\t'})
    ensures forall i :: 0 <= i < q ==> s[i] in {' ', '\t'}
  {
    if s != "" && s[0] in {' ', '\t'} then 1 + BlanksEnd(s[1..]) else 0
  }

  /** Where the digits start, and in which base, for a number whose sign is behind p. */
  function Prefix(s: string, p: nat, base: nat): (nat, nat)
    requires p <= |s|
  {
    if base in {0, 16} && p + 1 < |s| && s[p] == '0' && s[p + 1] == 'x' then (p + 2, 16)
    else if base == 0 && p < |s| && s[p] == '0' then (p + 1, 8)
    else if base == 0 then (p, 10)
    else (p, base)
  }

  /** What a text means: the number, and where its reading ends. */
  function Parsed(s: string, base: nat): (int, nat)
    requires base == 0 || 2 <= base <= 36
  {
    var p := BlanksEnd(s);
    var neg := p < |s| && s[p] == '-';
    ParsedFrom(s, if p < |s| && s[p] in {'+', '-'} then p + 1 else p, neg, base)
  }

  /** The same for the part behind the sign. */
  function ParsedFrom(s: string, p: nat, neg: bool, base: nat): (int, nat)
    requires p <= |s| && (base == 0 || 2 <= base <= 36)
  {
    var (start, b) := Prefix(s, p, base);
    var end := DigitsEnd(s, start, b);
    var v: int := Value(s[start..end], b);
    (Long(if neg then -v else v), end)
  }

  /** strtol, on a text without zero bytes.  Signed overflow, which C leaves open, wraps round. */
  method StrToL(s: string, base: nat) returns (val: int, end: nat)
    requires base == 0 || 2 <= base <= 36
    ensures (val, end) == Parsed(s, base)
  {
    var p := SkipBlanks(s);
    var neg := false;
    if p < |s| && s[p] == '+' {
      p := p + 1;
    } else if p < |s| && s[p] == '-' {
      p, neg := p + 1, true;
    }
    val, end := ReadNumber(s, p, neg, base);
  }

  /** The part of strtol behind the sign. */
  method ReadNumber(s: string, p: nat, neg: bool, base: nat) returns (val: int, end: nat)
    requires p <= |s| && (base == 0 || 2 <= base <= 36)
    ensures (val, end) == ParsedFrom(s, p, neg, base)
  {
    var start, b := SkipPrefix(s, p, base);
    val, end := ReadDigits(s, start, b);
    if neg {
      NegateWraps(Value(s[start..end], b));
      val := Long(-val);
    }
  }

  /** The prefixes of octal and hexadecimal numbers. */
  method SkipPrefix(s: string, p: nat, base: nat) returns (start: nat, b: nat)
    requires p <= |s| && (base == 0 || 2 <= base <= 36)
    ensures (start, b) == Prefix(s, p, base) && start <= |s| && 2 <= b <= 36
  {
    start, b := p, base;
    if (base == 0 || base == 16) && p + 1 < |s| && s[p] == '0' && s[p + 1] == 'x' {
      start, b := p + 2, 16;
    } else if base == 0 && p < |s| && s[p] == '0' {
      start, b := p + 1, 8;
    } else if base == 0 {
      b := 10;
    }
  }

  lemma {:induction false} ValueNext(s: string, p: nat, end: nat, base: nat)
    requires p <= end < |s|
    ensures Value(s[p..end + 1], base) == Value(s[p..end], base) * base + Digit(s[end])
  {
    assert s[p..end + 1][..end - p] == s[p..end];
  }

  method SkipBlanks(s: string) returns (p: nat)
    ensures p == BlanksEnd(s)
  {
    p := 0;
    while p < |s| && (s[p] == ' ' || s[p] == '\t')
      invariant p <= |s| && BlanksEnd(s) == p + BlanksEnd(s[p..])
    {
      assert s[p..][1..] == s[p + 1..];
      p := p + 1;
    }
  }

  /** The digits' loop of strtol. */
  method ReadDigits(s: string, p: nat, base: nat) returns (val: int, end: nat)
    requires p <= |s| && 2 <= base <= 36
    ensures end == DigitsEnd(s, p, base) && val == Long(Value(s[p..end], base))
  {
    val, end := 0, p;
    while end < |s|
      invariant p <= end <= |s| && DigitsEnd(s, p, base) == DigitsEnd(s, end, base)
      invariant val == Long(Value(s[p..end], base))
    {
      var dig := Digit(s[end]);
      if dig >= base {
        return;
      }
      ValueNext(s, p, end, base);
      StepWraps(Value(s[p..end], base), base, dig);
      val := Long(val * base + dig);
      end := end + 1;
    }
  }

  // ----- wrapping -----

  lemma {:induction false} Wraps(v: int, k: int)
    ensures Long(v + k * TWO_64) == Long(v)
  {
    assert (v + TWO_63 + k * TWO_64) % TWO_64 == (v + TWO_63) % TWO_64;
  }

  lemma {:induction false} Unwrap(v: int) returns (k: int)
    ensures Long(v) == v + k * TWO_64
  {
    k := -((v + TWO_63) / TWO_64);
  }

  lemma {:induction false} StepWraps(v: int, base: nat, dig: nat)
    ensures Long(Long(v) * base + dig) == Long(v * base + dig)
  {
    var k := Unwrap(v);
    assert Long(v) * base + dig == v * base + dig + (k * base) * TWO_64;
    Wraps(v * base + dig, k * base);
  }

  lemma {:induction false} NegateWraps(v: int)
    ensures Long(-Long(v)) == Long(-v)
  {
    var k := Unwrap(v);
    Wraps(-v, -k);
  }

  // ----- writing and reading back -----

  /** A digit as printnum writes it. */
  predicate LowerDigit(c: char, base: nat) {
    Digit(c) < base && ('0' <= c <= '9' || 'a' <= c <= 'f')
  }

  lemma {:induction false} DigitWritten(d: nat, base: nat)
    requires d < base <= 16
    ensures Digit(DIGITS[d]) == d && LowerDigit(DIGITS[d], base)
  {
    if d < 10 {
      TenDigits(d);
    } else {
      assert d == 10 || d == 11 || d == 12 || d == 13 || d == 14 || d == 15;
    }
  }

  lemma {:induction false} TenDigits(d: nat)
    requires d < 10
    ensures DIGITS[d] as int == '0' as int + d
  {
    assert d == 0 || d == 1 || d == 2 || d == 3 || d == 4 || d == 5 || d == 6 || d == 7 || d == 8 || d == 9;
  }

  lemma {:induction false} ValueOfMore(d: string, r: nat, base: nat)
    requires r < base <= 16
    ensures Value(d + [DIGITS[r]], base) == Value(d, base) * base + r
  {
    DigitWritten(r, base);
    assert (d + [DIGITS[r]])[..|d|] == d;
  }

  lemma {:induction false} LowerMore(d: string, r: nat, base: nat)
    requires r < base <= 16 && forall i :: 0 <= i < |d| ==> LowerDigit(d[i], base)
    ensures forall i :: 0 <= i < |d| + 1 ==> LowerDigit((d + [DIGITS[r]])[i], base)
  {
    DigitWritten(r, base);
  }

  /** The digits have the value of the number, are digits of the base, and start with no zero they could
      spare. */
  lemma {:induction false} DigitsMean(n: nat, base: nat)
    requires 2 <= base <= 16
    ensures Value(Digits(n, base), base) == n && Digits(n, base) != ""
    ensures forall i :: 0 <= i < |Digits(n, base)| ==> LowerDigit(Digits(n, base)[i], base)
    ensures n > 0 ==> Digits(n, base)[0] != '0'
    decreases n
  {
    var r := n % base;
    if n >= base {
      var d := Digits(n / base, base);
      Shrinks(n, base);
      QuotientPositive(n, base);
      DigitsMean(n / base, base);
      ValueOfMore(d, r, base);
      LowerMore(d, r, base);
    } else {
      OneDigit(n, base);
    }
  }

  lemma {:induction false} OneDigit(n: nat, base: nat)
    requires 2 <= base <= 16 && n < base
    ensures Digits(n, base) == [DIGITS[n]] && Value([DIGITS[n]], base) == n
    ensures LowerDigit(DIGITS[n], base) && (n > 0 ==> DIGITS[n] != '0')
  {
    DigitWritten(n, base);
    SmallRemainder(n, base);
    assert [DIGITS[n]] == "" + [DIGITS[n]];
    ValueOfMore("", n, base);
    ZeroTimes(base);
  }

  lemma {:induction false} SmallRemainder(n: nat, base: nat)
    requires n < base
    ensures n % base == n
  {
  }

  lemma {:induction false} ZeroTimes(base: nat)
    ensures Value("", base) * base == 0
  {
  }

  lemma {:induction false} QuotientPositive(n: nat, base: nat)
    requires 0 < base <= n
    ensures n / base > 0
  {
    assert n == base * (n / base) + n % base;
  }

  lemma {:induction false} AllDigits(s: string, p: nat, base: nat)
    requires p <= |s| && forall i :: p <= i < |s| ==> Digit(s[i]) < base
    ensures DigitsEnd(s, p, base) == |s|
    decreases |s| - p
  {
    if p < |s| {
      AllDigits(s, p + 1, base);
    }
  }

  lemma {:induction false} ZerosWorthless(k: nat, s: string, base: nat)
    ensures Value(Pad(k, '0') + s, base) == Value(s, base)
  {
    var all := Pad(k, '0') + s;
    if s != "" {
      assert all[..|all| - 1] == Pad(k, '0') + s[..|s| - 1];
      ZerosWorthless(k, s[..|s| - 1], base);
    } else if k > 0 {
      assert all[..|all| - 1] == Pad(k - 1, '0') + "";
      ZerosWorthless(k - 1, "", base);
    } else {
      assert all == "";
    }
  }

  lemma {:induction false} BlanksSkipped(k: nat, s: string)
    requires s != "" && s[0] !in {' ', '\t'}
    ensures BlanksEnd(Pad(k, ' ') + s) == k
  {
    var all := Pad(k, ' ') + s;
    if k > 0 {
      assert all[1..] == Pad(k - 1, ' ') + s;
      BlanksSkipped(k - 1, s);
    } else {
      assert all == s;
    }
  }

  lemma {:induction false} LongFits(n: nat)
    requires n < TWO_63
    ensures Long(n) == n
  {
  }

  /** From a place where only digits follow, strtol reads them all. */
  lemma {:induction false} DigitsParsed(s: string, base: nat)
    requires 2 <= base <= 16 && BlanksEnd(s) < |s|
    requires forall i :: BlanksEnd(s) <= i < |s| ==> LowerDigit(s[i], base)
    ensures Parsed(s, base) == (Long(Value(s[BlanksEnd(s)..], base)), |s|)
  {
    AllDigits(s, BlanksEnd(s), base);
    assert s[BlanksEnd(s)..|s|] == s[BlanksEnd(s)..];
  }

  lemma {:induction false} BlankPadded(w: int, d: string, base: nat)
    requires 2 <= base <= 16 && d != "" && forall i :: 0 <= i < |d| ==> LowerDigit(d[i], base)
    ensures Parsed(Pad(w, ' ') + d, base) == (Long(Value(d, base)), |Pad(w, ' ') + d|)
  {
    var k: nat := if w > 0 then w else 0;
    var s := Pad(k, ' ') + d;
    assert Pad(w, ' ') + d == s && LowerDigit(d[0], base);
    BlanksSkipped(k, d);
    assert s[k..] == d;
    DigitsParsed(s, base);
  }

  lemma {:induction false} ZeroPadded(w: int, d: string, base: nat)
    requires 2 <= base <= 16 && d != "" && forall i :: 0 <= i < |d| ==> LowerDigit(d[i], base)
    ensures Parsed(Pad(w, '0') + d, base) == (Long(Value(d, base)), |Pad(w, '0') + d|)
  {
    var k: nat := if w > 0 then w else 0;
    var s := Pad(k, '0') + d;
    assert Pad(w, '0') + d == s && LowerDigit('0', base) && LowerDigit(s[0], base);
    assert s != "" && s[0] !in {' ', '\t'};
    assert BlanksEnd(s) == 0;
    assert s[0..] == s;
    ZerosWorthless(k, d, base);
    DigitsParsed(s, base);
  }

  /** On the left of the digits there are only padding characters, as many as bring the text up to the width. */
  lemma {:induction false} PaddedMeans(n: nat, base: nat, width: int, padc: char)
    requires 2 <= base <= 16
    ensures var text, d := Padded(n, base, width, padc), Digits(n, base);
            && |text| == (if width > |d| then width else |d|) && text[|text| - |d|..] == d
            && forall i :: 0 <= i < |text| - |d| ==> text[i] == padc
  {
  }

  /** Reading what printnum wrote in the same base gives the number and uses up the text, whether it is padded
      with blanks or zeros; the text is as long as the width asks, or as the digits need. */
  lemma {:induction false} RoundTrip(n: nat, base: nat, width: int, padc: char)
    requires 2 <= base <= 16 && n < TWO_63 && padc in {' ', '0'}
    ensures Parsed(Padded(n, base, width, padc), base) == (n, |Padded(n, base, width, padc)|)
    ensures |Padded(n, base, width, padc)| == if width > |Digits(n, base)| then width else |Digits(n, base)|
  {
    var d := Digits(n, base);
    DigitsMean(n, base);
    LongFits(n);
    if padc == ' ' {
      BlankPadded(width - |d|, d, base);
    } else {
      ZeroPadded(width - |d|, d, base);
    }
  }

  // ----- signs and prefixes -----

  /** How a text may name its base: given to strtol as b, with this prefix, digits of the base follow. */
  predicate Prefixed(prefix: string, base: nat, b: nat) {
    || (prefix == "" && b == base)
    || (prefix == "0x" && base == 16 && b in {0, 16})
    || (prefix == "0" && base == 8 && b == 0)
    || (prefix == "" && base == 10 && b == 0)
  }

  lemma {:induction false} PrefixRead(s: string, p: nat, prefix: string, d: string, base: nat, b: nat)
    requires 2 <= base <= 16 && Prefixed(prefix, base, b) && p <= |s| && s[p..] == prefix + d && d != ""
    requires forall i :: 0 <= i < |d| ==> LowerDigit(d[i], base)
    requires prefix == "" && b == 0 ==> d[0] != '0'
    ensures Prefix(s, p, b) == (p + |prefix|, base) && p + |prefix| <= |s| && s[p + |prefix|..] == d
  {
    assert |s| == p + |prefix| + |d|;
    assert forall i :: 0 <= i < |prefix| + |d| ==> s[p + i] == (prefix + d)[i];
    assert s[p] == (prefix + d)[0];
    assert |prefix + d| > 1 ==> s[p + 1] == (prefix + d)[1];
  }

  lemma {:induction false} BlanksThen(w: nat, rest: string)
    requires rest != "" && rest[0] !in {' ', '\t'}
    ensures BlanksEnd(Pad(w, ' ') + rest) == w && (Pad(w, ' ') + rest)[w..] == rest
  {
    BlanksSkipped(w, rest);
  }

  function Signed(n: int, neg: bool): int {
    if neg then -n else n
  }

  lemma {:induction false} SignedFits(n: nat, neg: bool)
    requires n < TWO_63
    ensures Long(Signed(n, neg)) == Signed(n, neg)
  {
  }

  lemma {:induction false} DigitsFrom(s: string, start: nat, d: string, base: nat)
    requires start <= |s| && s[start..] == d && forall i :: 0 <= i < |d| ==> LowerDigit(d[i], base)
    ensures DigitsEnd(s, start, base) == |s| && s[start..|s|] == d
  {
    assert forall i :: start <= i < |s| ==> s[i] == s[start..][i - start];
    AllDigits(s, start, base);
  }

  /** A prefix and digits that strtol, given b, is to read as n: digits of the base that the prefix names. */
  ghost predicate LiteralIs(prefix: string, d: string, n: nat, base: nat, b: nat) {
    && 2 <= base <= 16 && Prefixed(prefix, base, b) && n < TWO_63 && d != "" && Value(d, base) == n
    && (forall i :: 0 <= i < |d| ==> LowerDigit(d[i], base)) && (prefix == "" && b == 0 ==> d[0] != '0')
  }

  /** LiteralIs, in a form that is only unfolded where LiteralIs is mentioned. */
  ghost predicate Literal(prefix: string, d: string, n: nat, base: nat, b: nat) {
    forall x {:trigger LiteralIs(prefix, x, n, base, b)} :: x == d ==> LiteralIs(prefix, x, n, base, b)
  }

  lemma {:induction false} LiteralStarts(prefix: string, d: string, n: nat, base: nat, b: nat)
    requires Literal(prefix, d, n, base, b)
    ensures prefix + d != "" && (prefix + d)[0] !in {' ', '\t', '+', '-'} && (b == 0 || 2 <= b <= 36)
  {
    assert LiteralIs(prefix, d, n, base, b);
    assert prefix != "" ==> (prefix + d)[0] == '0';
    assert LowerDigit(d[0], base);
  }

  /** The part behind the sign is read as v, to the end, in a form that is only unfolded where it is read. */
  ghost predicate ReadsFrom(s: string, p: nat, neg: bool, b: nat, v: int) {
    forall q: nat {:trigger ParsedFrom(s, q, neg, b)} ::
      q == p && q <= |s| && (b == 0 || 2 <= b <= 36) ==> ParsedFrom(s, q, neg, b) == (v, |s|)
  }

  lemma {:induction false} ParsedDigits(s: string, p: nat, neg: bool, prefix: string, d: string, n: nat, base: nat,
                                        b: nat)
    requires Literal(prefix, d, n, base, b) && p <= |s| && s[p..] == prefix + d && (b == 0 || 2 <= b <= 36)
    ensures ReadsFrom(s, p, neg, b, Signed(n, neg))
  {
    assert LiteralIs(prefix, d, n, base, b);
    PrefixRead(s, p, prefix, d, base, b);
    DigitsFrom(s, p + |prefix|, d, base);
    FromParts(s, p, neg, b, p + |prefix|, base, |s|);
    SignedFits(n, neg);
  }

  lemma {:induction false} FromParts(s: string, p: nat, neg: bool, b: nat, start: nat, base: nat, end: nat)
    requires p <= |s| && (b == 0 || 2 <= b <= 36) && Prefix(s, p, b) == (start, base) && start <= |s|
    requires DigitsEnd(s, start, base) == end
    ensures ParsedFrom(s, p, neg, b) == (Long(Signed(Value(s[start..end], base), neg)), end)
  {
  }

  lemma {:induction false} SignRead(s: string, w: nat, sign: string, b: nat)
    requires (b == 0 || 2 <= b <= 36) && BlanksEnd(s) == w < |s| && w + |sign| <= |s|
    requires if sign == "" then s[w] !in {'+', '-'} else sign in {"+", "-"} && s[w] == sign[0]
    ensures Parsed(s, b) == ParsedFrom(s, w + |sign|, sign == "-", b)
  {
  }

  /** Behind blanks and a sign. */
  lemma {:induction false} SignedThen(s: string, w: nat, sign: string, more: string, b: nat, v: int)
    requires (b == 0 || 2 <= b <= 36) && s == Pad(w, ' ') + (sign + more) && sign in {"", "+", "-"} && more != ""
    requires more[0] !in {' ', '\t', '+', '-'} && ReadsFrom(s, w + |sign|, sign == "-", b, v)
    ensures Parsed(s, b) == (v, |s|)
  {
    assert sign == "" ==> (sign + more)[0] == more[0];
    assert sign != "" ==> (sign + more)[0] == sign[0];
    BlanksThen(w, sign + more);
    Behind(s, w, sign, more);
    SignRead(s, w, sign, b);
  }

  lemma {:induction false} LiteralBehind(s: string, w: nat, sign: string, prefix: string, d: string, n: nat, base: nat,
                                         b: nat)
    requires Literal(prefix, d, n, base, b) && sign in {"", "+", "-"} && s == Pad(w, ' ') + (sign + (prefix + d))
    ensures (b == 0 || 2 <= b <= 36) && ReadsFrom(s, w + |sign|, sign == "-", b, Signed(n, sign == "-"))
    ensures prefix + d != "" && (prefix + d)[0] !in {' ', '\t', '+', '-'}
  {
    LiteralStarts(prefix, d, n, base, b);
    assert s[w..] == sign + (prefix + d);
    Behind(s, w, sign, prefix + d);
    ParsedDigits(s, w + |sign|, sign == "-", prefix, d, n, base, b);
  }

  /** Blanks, a sign and a prefix in front of the digits of a number: strtol finds the base that the prefix names, or
      the one it is given, reads the number, negated behind a minus, and uses up the text. */
  lemma {:induction false} LiteralRead(w: nat, sign: string, prefix: string, n: nat, base: nat, b: nat)
    requires 2 <= base <= 16 && Prefixed(prefix, base, b) && sign in {"", "+", "-"} && n < TWO_63
    requires prefix == "" && b == 0 ==> n > 0
    ensures var s := Pad(w, ' ') + (sign + (prefix + Digits(n, base)));
            Parsed(s, b) == (Signed(n, sign == "-"), |s|)
  {
    var d := Digits(n, base);
    DigitsMean(n, base);
    var s := Pad(w, ' ') + (sign + (prefix + d));
    LiteralBehind(s, w, sign, prefix, d, n, base, b);
    SignedThen(s, w, sign, prefix + d, b, Signed(n, sign == "-"));
  }

  lemma {:induction false} Behind(s: string, w: nat, sign: string, more: string)
    requires w <= |s| && s[w..] == sign + more
    ensures w + |sign| <= |s| && s[w + |sign|..] == more && (sign + more != "" ==> w < |s| && s[w] == (sign + more)[0])
  {
    assert (sign + more)[|sign|..] == more && s[w..][|sign|..] == s[w + |sign|..];
  }
}
