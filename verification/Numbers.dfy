/** Numbers as text: digits written back to front into a buffer, and digits read with an overflow test
    that never computes the value that would overflow. */
module Numbers {
  import opened Basics

  const MAX: nat := 0xFFFF_FFFF_FFFF_FFFF

  /** The digits are 0 to 9 and the letters from a on. */
  function Digit(d: nat, upper: bool): char
    requires d < 36
  {
    if d < 10 then '0' + d as char else if upper then 'A' + (d - 10) as char else 'a' + (d - 10) as char
  }

  /** The value of a digit or letter. */
  function DigitOf(c: char): Option<nat> {
    if '0' <= c <= '9' then Some((c - '0') as nat)
    else if 'a' <= c <= 'z' then Some((c - 'a') as nat + 10)
    else if 'A' <= c <= 'Z' then Some((c - 'A') as nat + 10)
    else None
  }

  predicate IsDigit(c: char, base: nat) { DigitOf(c).Some? && DigitOf(c).v < base }

  lemma DigitOfDigit(d: nat, upper: bool)
    requires d < 36
    ensures DigitOf(Digit(d, upper)) == Some(d)
  {}

  predicate AllDigits(s: string, base: nat) { forall i :: 0 <= i < |s| ==> IsDigit(s[i], base) }

  /** The number a string of digits stands for. */
  function Value(s: string, base: nat): nat
    requires AllDigits(s, base)
  {
    if s == "" then 0 else Value(s[..|s| - 1], base) * base + DigitOf(s[|s| - 1]).v
  }

  /** The digits of a number, most significant first. */
  function Text(n: nat, base: nat, upper: bool): (s: string)
    requires 2 <= base <= 36
    ensures s != ""
  {
    if n < base then [Digit(n, upper)] else Smaller(n, base); Text(n / base, base, upper) + [Digit(n % base, upper)]
  }

  lemma Smaller(n: nat, base: nat)
    requires 2 <= base <= n
    ensures 0 < n / base < n
  {
    Parts(n, n / base, base, n % base);
  }

  lemma Parts(n: nat, q: nat, base: nat, r: nat)
    requires n == q * base + r && r < base && 2 <= base <= n
    ensures 0 < q < n
  {
    Double(q, base);
    assert q == 0 ==> q * base == 0;
  }

  lemma Double(q: nat, base: nat)
    requires base >= 2
    ensures q * base >= 2 * q
  {
    assert q * (base - 2) >= 0;
  }

  lemma ValueLast(s: string, c: char, base: nat)
    requires AllDigits(s, base) && IsDigit(c, base)
    ensures AllDigits(s + [c], base) && Value(s + [c], base) == Value(s, base) * base + DigitOf(c).v
  {
    assert (s + [c])[..|s|] == s;
  }

  lemma Rejoined(n: nat, base: nat)
    requires base > 0
    ensures n / base * base + n % base == n
  {}

  /** The digits of a number stand for it. */
  lemma {:induction false} ValueText(n: nat, base: nat, upper: bool)
    requires 2 <= base <= 36
    ensures AllDigits(Text(n, base, upper), base) && Value(Text(n, base, upper), base) == n
  {
    DigitOfDigit(n % base, upper);
    TextLast(n, base, upper);
    Rejoined(n, base);
    if n < base {
      ValueLast("", Digit(n % base, upper), base);
      assert "" + Text(n, base, upper) == Text(n, base, upper);
    } else {
      ValueText(n / base, base, upper);
      hide Text, Value, Digit;
      ValueLast(Text(n / base, base, upper), Digit(n % base, upper), base);
    }
  }

  // ----- writing -----

  function Pow(b: nat, e: nat): nat { if e == 0 then 1 else b * Pow(b, e - 1) }

  /** A number below `base` to the `k` has at most `k` digits. */
  lemma {:induction false} TextLength(n: nat, base: nat, upper: bool, k: nat)
    requires 2 <= base <= 36 && k > 0 && n < Pow(base, k)
    ensures |Text(n, base, upper)| <= k
    decreases k
  {
    if n >= base {
      Smaller(n, base);
      assert k > 1;
      QuotientBelow(n, base, Pow(base, k - 1));
      TextLength(n / base, base, upper, k - 1);
    }
  }

  lemma QuotientBelow(n: nat, base: nat, p: nat)
    requires base > 0 && n < base * p
    ensures n / base < p
  {
    Scaled(p, n / base, base);
  }

  lemma Scaled(p: nat, q: nat, base: nat)
    ensures p <= q ==> base * p <= q * base
  {
    if p <= q { assert (q - p) * base >= 0; }
  }

  lemma {:induction false} PowGrows(b: nat, e: nat)
    requires b >= 2
    ensures Pow(b, e) >= Pow(2, e)
  {
    if e > 0 {
      PowGrows(b, e - 1);
      assert b * Pow(b, e - 1) >= 2 * Pow(b, e - 1) by { assert (b - 2) * Pow(b, e - 1) >= 0; }
    }
  }

  lemma {:induction false} PowAdd(b: nat, x: nat, y: nat)
    ensures Pow(b, x + y) == Pow(b, x) * Pow(b, y)
  {
    if x > 0 {
      PowAdd(b, x - 1, y);
      assert b * (Pow(b, x - 1) * Pow(b, y)) == (b * Pow(b, x - 1)) * Pow(b, y);
    }
  }

  lemma Pow64()
    ensures Pow(2, 64) == MAX + 1
  {
    assert Pow(2, 4) == 2 * Pow(2, 3) == 4 * Pow(2, 2) == 16;
    PowAdd(2, 4, 4);
    PowAdd(2, 8, 8);
    PowAdd(2, 16, 16);
    PowAdd(2, 32, 32);
  }

  /** The buffer that the digits go to, with a terminator in front of the first. */
  const MAXNBUF: nat := 65

  ghost function Reversed(s: string): (r: string)
    ensures |r| == |s|
  {
    seq(|s|, i requires 0 <= i < |s| => s[|s| - 1 - i])
  }

  lemma ReversedPrepend(c: char, s: string)
    ensures Reversed([c] + s) == Reversed(s) + [c]
  {}

  lemma FitsBuffer(n: nat, base: nat, upper: bool)
    requires 2 <= base <= 36 && n <= MAX
    ensures |Text(n, base, upper)| <= 64
  {
    Pow64();
    PowGrows(base, 64);
    TextLength(n, base, upper, 64);
  }

  /** The last digit, and the digits of the rest, of which there are none for a single digit. */
  lemma TextLast(n: nat, base: nat, upper: bool)
    requires 2 <= base <= 36
    ensures n < base ==> n / base == 0 && n % base == n && Text(n, base, upper) == [Digit(n % base, upper)]
    ensures n >= base ==>
            0 < n / base < n && Text(n, base, upper) == Text(n / base, base, upper) + [Digit(n % base, upper)]
  {
    if n >= base { Smaller(n, base); }
  }

  /** Writes the digits of `num` behind a terminator, least significant first, and never beyond the
      buffer; `p` is the place of the last, which is the first of the text. */
  method Ksprintn(nbuf: array<char>, num0: nat, base: nat, upper: bool) returns (p: nat)
    requires 2 <= base <= 36 && num0 <= MAX && nbuf.Length >= MAXNBUF
    modifies nbuf
    ensures p < nbuf.Length && nbuf[0] == '\0' && nbuf[1..p + 1] == Reversed(Text(num0, base, upper))
  {
    FitsBuffer(num0, base, upper);
    hide Text;
    p := 0;
    nbuf[0] := '\0';
    var num := num0;
    ghost var done := "";
    assert Text(num0, base, upper) + done == Text(num0, base, upper);
    while true
      invariant 0 <= num && p == |done| && nbuf[0] == '\0' && |Text(num0, base, upper)| <= 64
      invariant Text(num0, base, upper) == Text(num, base, upper) + done && nbuf[1..p + 1] == Reversed(done)
      decreases num
    {
      TextLast(num, base, upper);
      var c := Digit(num % base, upper);
      ReversedPrepend(c, done);
      assert num >= base ==>
             (Text(num / base, base, upper) + [c]) + done == Text(num / base, base, upper) + ([c] + done);
      p := p + 1;
      nbuf[p] := c;
      assert nbuf[1..p + 1] == nbuf[1..p] + [c];
      done := [c] + done;
      num := num / base;
      if num == 0 { break; }
    }
  }

  lemma {:induction false} NoTerminator(n: nat, base: nat, upper: bool)
    requires 2 <= base <= 36
    ensures '\0' !in Text(n, base, upper)
  {
    TextLast(n, base, upper);
    if n >= base { NoTerminator(n / base, base, upper); }
  }

  /** The buffer read back to front up to the terminator. */
  method Emit(nbuf: array<char>, p0: nat, ghost text: string) returns (out: string)
    requires p0 < nbuf.Length && nbuf[0] == '\0' && nbuf[1..p0 + 1] == Reversed(text) && '\0' !in text
    ensures out == text
  {
    var p: nat := p0;
    out := "";
    assert forall i :: 0 < i <= p0 ==> nbuf[i] == nbuf[1..p0 + 1][i - 1] == text[p0 - i];
    while nbuf[p] != '\0'
      invariant p <= p0 == |text| && out == text[..p0 - p]
      decreases p
    {
      out := out + [nbuf[p]];
      p := p - 1;
    }
  }

  /** What is printed for a number is its text. */
  method Print(num: nat, base: nat, upper: bool) returns (out: string)
    requires 2 <= base <= 36 && num <= MAX
    ensures out == Text(num, base, upper)
  {
    var nbuf := new char[MAXNBUF];
    var p := Ksprintn(nbuf, num, base, upper);
    NoTerminator(num, base, upper);
    hide Text, Reversed;
    out := Emit(nbuf, p, Text(num, base, upper));
  }

  // ----- reading -----

  function CharAt(s: string, i: nat): char { if i < |s| then s[i] else '\0' }

  /** White space of the character table, which counts the no-break space of ISO/IEC 8859-1. */
  predicate Space(c: char) {
    c == ' ' || c == '\t' || c == '\n' || c == '\r' || c == 11 as char || c == 12 as char || c == 160 as char
  }

  /** The first place from `i` on that does not hold white space. */
  function AfterSpace(s: string, i: nat): (r: nat)
    requires i <= |s|
    ensures i <= r <= |s|
    decreases |s| - i
  {
    if i < |s| && Space(s[i]) then AfterSpace(s, i + 1) else i
  }

  /** Sign, place of the first digit, and base. */
  datatype Start = Start(neg: bool, at: nat, base: nat)

  predicate HexPrefix(s: string, i: nat, base: nat) {
    (base == 0 || base == 16) && CharAt(s, i) == '0' && (CharAt(s, i + 1) == 'x' || CharAt(s, i + 1) == 'X')
  }

  function Begin(s: string, base: nat): (r: Start)
    requires base == 0 || 2 <= base <= 36
    ensures 2 <= r.base <= 36 && r.at <= |s|
  {
    var i := AfterSpace(s, 0);
    var neg := CharAt(s, i) == '-';
    var j := if neg || CharAt(s, i) == '+' then i + 1 else i;
    if HexPrefix(s, j, base) then Start(neg, j + 2, 16)
    else Start(neg, j, if base != 0 then base else if CharAt(s, j) == '0' then 8 else 10)
  }

  /** The first place from `i` on that does not hold a digit. */
  function DigitsEnd(s: string, i: nat, base: nat): (r: nat)
    requires i <= |s|
    ensures i <= r <= |s| && AllDigits(s[i..r], base) && (r < |s| ==> !IsDigit(s[r], base))
    decreases |s| - i
  {
    if i < |s| && IsDigit(s[i], base) then assert s[i..] == [s[i]] + s[i + 1..]; DigitsEnd(s, i + 1, base) else i
  }

  lemma ValueNext(s: string, i: nat, j: nat, base: nat)
    requires i <= j < |s| && AllDigits(s[i..j], base) && IsDigit(s[j], base)
    ensures AllDigits(s[i..j + 1], base) && Value(s[i..j + 1], base) == Value(s[i..j], base) * base + DigitOf(s[j]).v
  {
    assert s[i..j + 1][..j - i] == s[i..j] && s[i..j + 1][j - i] == s[j];
  }

  /** The test against the quotient and the remainder says exactly whether the next value is too large. */
  lemma CutoffExact(acc: nat, c: nat, base: nat, limit: nat)
    requires 2 <= base <= 36 && c < base
    ensures acc * base + c > limit <==> acc > limit / base || (acc == limit / base && c > limit % base)
  {
    var (q, r) := (limit / base, limit % base);
    assert limit == q * base + r && r < base;
    if acc > q { assert acc * base >= (q + 1) * base by { Scaled(q + 1, acc, base); } }
    if acc < q { assert (acc + 1) * base <= q * base by { Scaled(acc + 1, q, base); } }
  }

  datatype Parsed = Parsed(value: int, end: nat, range: bool)

  /** The number the digits stand for, and where they end; the end is 0 without digits. */
  ghost function Subject(s: string, base: nat): (nat, nat)
    requires base == 0 || 2 <= base <= 36
  {
    var b := Begin(s, base);
    var e := DigitsEnd(s, b.at, b.base);
    (Value(s[b.at..e], b.base), if e > b.at then e else 0)
  }

  /** What reading means: the value if it can be represented, negated modulo 2 to the 64 after a minus,
      and the largest value if it cannot. */
  ghost function Meaning(s: string, base: nat): Parsed
    requires base == 0 || 2 <= base <= 36
  {
    var (v, end) := Subject(s, base);
    Parsed(if v > MAX then MAX else if Begin(s, base).neg && v > 0 then MAX + 1 - v else v, end, v > MAX)
  }

  const LEAST: int := -0x8000_0000_0000_0000

  const MOST: int := 0x7FFF_FFFF_FFFF_FFFF

  /** The same for a signed result: the value if it can be represented, else the bound on its side. */
  ghost function SignedMeaning(s: string, base: nat): Parsed
    requires base == 0 || 2 <= base <= 36
  {
    var (v, end) := Subject(s, base);
    var x := if Begin(s, base).neg then 0 - v else v;
    Parsed(if x < LEAST then LEAST else if x > MOST then MOST else x, end, !(LEAST <= x <= MOST))
  }

  /** White space, sign, prefix and base. */
  method ReadStart(s: string, base: nat) returns (neg: bool, i: nat, b: nat)
    requires base == 0 || 2 <= base <= 36
    ensures Begin(s, base) == Start(neg, i, b)
  {
    i := 0;
    while i < |s| && Space(s[i])
      invariant i <= |s| && AfterSpace(s, i) == AfterSpace(s, 0)
    {
      i := i + 1;
    }
    neg := CharAt(s, i) == '-';
    if neg || CharAt(s, i) == '+' { i := i + 1; }
    b := base;
    if HexPrefix(s, i, base) {
      i := i + 2;
      b := 16;
    }
    if b == 0 { b := if CharAt(s, i) == '0' then 8 else 10; }
  }

  /** The digits from `i` on: `any` is 0 without a digit, negative when the value is above `limit`. */
  method ReadDigits(s: string, i: nat, base: nat, limit: nat) returns (acc: nat, any: int, j: nat)
    requires i <= |s| && 2 <= base <= 36
    ensures j == DigitsEnd(s, i, base) && (any == 0 <==> j == i) && (any < 0 <==> Value(s[i..j], base) > limit)
    ensures any >= 0 ==> acc == Value(s[i..j], base)
  {
    hide IsDigit;
    var cutoff, cutlim := limit / base, limit % base;
    acc, any, j := 0, 0, i;
    assert s[i..i] == "";
    while j < |s| && IsDigit(s[j], base)
      invariant i <= j <= |s| && AllDigits(s[i..j], base) && DigitsEnd(s, j, base) == DigitsEnd(s, i, base)
      invariant (any == 0 <==> j == i) && (any < 0 <==> Value(s[i..j], base) > limit)
                && (any >= 0 ==> acc == Value(s[i..j], base))
    {
      DigitBelow(s[j], base);
      var c := DigitOf(s[j]).v;
      ValueNext(s, i, j, base);
      Grows(Value(s[i..j], base), base, c);
      CutoffExact(acc, c, base, limit);
      if any < 0 || acc > cutoff || (acc == cutoff && c > cutlim) {
        any := -1;
      } else {
        any := 1;
        acc := acc * base + c;
      }
      j := j + 1;
    }
  }

  method StrToULL(s: string, base: int) returns (r: Parsed)
    ensures base == 0 || 2 <= base <= 36 ==> r == Meaning(s, base)
    ensures !(base == 0 || 2 <= base <= 36) ==> r == Parsed(0, 0, false)
  {
    hide IsDigit, DigitOf, Begin, Value;
    if base < 0 || base == 1 || base > 36 { return Parsed(0, 0, false); }
    var neg, i, b := ReadStart(s, base);
    var acc, any, j := ReadDigits(s, i, b, MAX);
    var v := if any < 0 then MAX else if neg && acc > 0 then MAX + 1 - acc else acc;
    r := Parsed(v, if any != 0 then j else 0, any < 0);
  }

  method StrToLL(s: string, base: int) returns (r: Parsed)
    ensures base == 0 || 2 <= base <= 36 ==> r == SignedMeaning(s, base)
    ensures !(base == 0 || 2 <= base <= 36) ==> r == Parsed(0, 0, false)
  {
    hide IsDigit, DigitOf, Begin, Value;
    if base < 0 || base == 1 || base > 36 { return Parsed(0, 0, false); }
    var neg, i, b := ReadStart(s, base);
    var acc, any, j := ReadDigits(s, i, b, if neg then -LEAST else MOST);
    var v: int := acc;
    if any < 0 {
      v := if neg then LEAST else MOST;
    } else if neg {
      v := -v;
    }
    r := Parsed(v, if any != 0 then j else 0, any < 0);
  }

  lemma DigitBelow(c: char, base: nat)
    requires IsDigit(c, base)
    ensures DigitOf(c).Some? && DigitOf(c).v < base
  {}

  lemma Grows(v: nat, base: nat, c: nat)
    requires base >= 2
    ensures v * base + c >= v
  {
    Double(v, base);
  }

  // ----- round trip -----

  lemma {:induction false} EndOfDigits(s: string, i: nat, base: nat)
    requires i <= |s| && AllDigits(s[i..], base)
    ensures DigitsEnd(s, i, base) == |s|
    decreases |s| - i
  {
    if i < |s| {
      assert s[i] == s[i..][0] && s[i + 1..] == s[i..][1..];
      EndOfDigits(s, i + 1, base);
    }
  }

  lemma {:induction false} FirstDigit(n: nat, base: nat, upper: bool)
    requires 2 <= base <= 36
    ensures var s := Text(n, base, upper);
            !Space(s[0]) && s[0] != '-' && s[0] != '+' && (s[0] == '0' ==> n == 0 && |s| == 1)
  {
    if n >= base {
      Smaller(n, base);
      FirstDigit(n / base, base, upper);
    }
  }

  /** The text of a number, with a minus in front or without, is read as a whole and as that number. */
  lemma SubjectText(n: nat, base: nat, upper: bool, minus: bool)
    requires 2 <= base <= 36
    ensures var s := (if minus then "-" else "") + Text(n, base, upper);
            Subject(s, base) == (n, |s|) && Begin(s, base).neg == minus
  {
    var t := Text(n, base, upper);
    var (s, i) := ((if minus then "-" else "") + t, if minus then 1 else 0);
    ValueText(n, base, upper);
    FirstDigit(n, base, upper);
    hide Text, Value;
    assert s[i..] == t && s[i..|s|] == t && s[i] == t[0];
    hide IsDigit;
    EndOfDigits(s, i, base);
    assert AfterSpace(s, 0) == 0 && !HexPrefix(s, i, base);
    assert Begin(s, base) == Start(minus, i, base);
  }

  /** For every 64-bit number and every base, reading the text written gives the number, the whole text
      consumed and no range error. */
  lemma RoundTrip(n: nat, base: nat, upper: bool)
    requires n <= MAX && 2 <= base <= 36
    ensures Meaning(Text(n, base, upper), base) == Parsed(n, |Text(n, base, upper)|, false)
  {
    hide Text, Subject, Begin;
    SubjectText(n, base, upper, false);
    assert "" + Text(n, base, upper) == Text(n, base, upper);
  }

  /** A signed number as printed: a minus in front of the digits. */
  function SignedText(n: int, base: nat, upper: bool): string
    requires 2 <= base <= 36
  {
    if n < 0 then "-" + Text(-n, base, upper) else "" + Text(n, base, upper)
  }

  /** The same for every signed 64-bit number. */
  lemma SignedRoundTrip(n: int, base: nat, upper: bool)
    requires LEAST <= n <= MOST && 2 <= base <= 36
    ensures SignedMeaning(SignedText(n, base, upper), base) == Parsed(n, |SignedText(n, base, upper)|, false)
  {
    hide Text, Subject, Begin;
    SubjectText(if n < 0 then -n else n, base, upper, n < 0);
  }

  /** Where the sign ends. */
  ghost function Unsigned(s: string): nat {
    var i := AfterSpace(s, 0);
    if CharAt(s, i) == '-' || CharAt(s, i) == '+' then i + 1 else i
  }

  /** The first `e` characters are of the form that section 7.22.1.4 of ISO/IEC 9899:2011 expects: white
      space, a sign, and digits, which in base 16 may have a prefix and must have one where it decides the
      base. */
  ghost predicate Expected(s: string, base: nat, e: nat) {
    var i := Unsigned(s);
    var b := if base != 0 then base else if CharAt(s, i) == '0' then 8 else 10;
    && i < e <= |s|
    && (AllDigits(s[i..e], b) || (HexPrefix(s, i, base) && i + 2 < e && AllDigits(s[i + 2..e], 16)))
  }

  /** `e` ends the longest start of the expected form; without one it is 0. */
  ghost predicate Longest(s: string, base: nat, e: nat) {
    (e == 0 || Expected(s, base, e)) && forall k | e < k <= |s| :: !Expected(s, base, k)
  }

  /** The prefix with no digit behind it. */
  ghost predicate Dangling(s: string, base: nat) {
    HexPrefix(s, Unsigned(s), base) && !IsDigit(CharAt(s, Unsigned(s) + 2), 16)
  }

  /** The end reported is that of the longest start of the expected form, unless a hexadecimal prefix has
      no digit behind it: then none is reported, although the 0 is of the form. */
  lemma EndExact(s: string, base: nat)
    requires base == 0 || 2 <= base <= 36
    ensures Longest(s, base, Meaning(s, base).end) <==> !Dangling(s, base)
  {
    var (i, b) := (Unsigned(s), Begin(s, base));
    if Dangling(s, base) {
      assert Expected(s, base, i + 1) && Meaning(s, base).end == 0;
    } else if HexPrefix(s, i, base) {
      PrefixedLongest(s, base);
    } else {
      PlainLongest(s, base);
    }
  }

  lemma PrefixedLongest(s: string, base: nat)
    requires base == 0 || 2 <= base <= 36
    requires HexPrefix(s, Unsigned(s), base) && !Dangling(s, base)
    ensures Longest(s, base, Meaning(s, base).end)
  {
    var i := Unsigned(s);
    var e := DigitsEnd(s, i + 2, 16);
    assert i + 2 < e && Expected(s, base, e);
    forall k | e < k <= |s|
      ensures !Expected(s, base, k)
    {
      assert s[i..k][1] == s[i + 1] && s[i + 2..k][e - i - 2] == s[e];
    }
  }

  lemma PlainLongest(s: string, base: nat)
    requires base == 0 || 2 <= base <= 36
    requires !HexPrefix(s, Unsigned(s), base)
    ensures Longest(s, base, Meaning(s, base).end)
  {
    var (i, b) := (Unsigned(s), Begin(s, base));
    var e := DigitsEnd(s, i, b.base);
    assert e > i ==> Expected(s, base, e);
    forall k | e < k <= |s|
      ensures !Expected(s, base, k)
    {
      assert s[i..k][e - i] == s[e];
    }
    assert forall k | 0 < k <= i :: !Expected(s, base, k);
  }

  lemma DanglingInput()
    ensures Dangling("0x", 16) && Meaning("0x", 16).end == 0 && Expected("0x", 16, 1)
  {
    assert AfterSpace("0x", 0) == 0;
  }
}
