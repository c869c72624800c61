/** What the number parsers make of every text: told by the parts of the text and the worth of its digits,
    by their codes in ASCII and their places. */
module NumberForms {
  import opened Basics
  import opened Numbers

  /** The worth of a digit or letter. */
  predicate Worth(c: char, d: nat) {
    (d < 10 && c as int == 48 + d) || (10 <= d < 36 && (c as int == 97 + (d - 10) || c as int == 65 + (d - 10)))
  }

  lemma WorthIs(c: char, d: nat)
    ensures DigitOf(c) == Some(d) <==> Worth(c, d)
  {}

  /** Blank, tabulator, line feed, vertical tabulator, form feed, carriage return, no-break space. */
  predicate White(c: char) { c as int in {32, 9, 10, 11, 12, 13, 160} }

  lemma WhiteIs(c: char)
    ensures Space(c) <==> White(c)
  {}

  /** Digits `ds`, the most significant first. */
  function PlaceSum(ds: seq<nat>, base: nat): nat {
    if ds == [] then 0 else ds[0] * Pow(base, |ds| - 1) + PlaceSum(ds[1..], base)
  }

  ghost predicate Spells(s: string, ds: seq<nat>, base: nat) {
    |s| == |ds| && forall i :: 0 <= i < |s| ==> Worth(s[i], ds[i]) && ds[i] < base
  }

  lemma SpellsDigits(s: string, ds: seq<nat>, base: nat)
    requires Spells(s, ds, base)
    ensures AllDigits(s, base)
  {
    forall i | 0 <= i < |s| ensures IsDigit(s[i], base) {
      WorthIs(s[i], ds[i]);
    }
  }

  /** The last place counts once, the others `base` times as much as without it. */
  lemma {:induction false} LastPlace(ds: seq<nat>, d: nat, base: nat)
    ensures PlaceSum(ds + [d], base) == PlaceSum(ds, base) * base + d
  {
    if ds == [] {
      assert ds + [d] == [d] && [d][1..] == [] && Pow(base, 0) == 1;
    } else {
      var (n, p) := (|ds|, Pow(base, |ds| - 1));
      assert (ds + [d])[1..] == ds[1..] + [d] && (ds + [d])[0] == ds[0];
      LastPlace(ds[1..], d, base);
      assert Pow(base, n) == base * p;
      Regroup(ds[0], base, p, PlaceSum(ds[1..], base));
    }
  }

  lemma Regroup(a: nat, base: nat, p: nat, x: nat)
    ensures a * (base * p) + x * base == (a * p + x) * base
  {
    assert a * (base * p) == a * p * base;
  }

  /** The value of a string of digits is the sum of its digits by their places. */
  lemma {:induction false} ValuePlaces(s: string, ds: seq<nat>, base: nat)
    requires Spells(s, ds, base)
    ensures AllDigits(s, base) && Value(s, base) == PlaceSum(ds, base)
  {
    SpellsDigits(s, ds, base);
    if s != "" {
      var n := |s| - 1;
      ValuePlaces(s[..n], ds[..n], base);
      WorthIs(s[n], ds[n]);
      assert ds == ds[..n] + [ds[n]];
      LastPlace(ds[..n], ds[n], base);
      hide PlaceSum, Worth;
    }
  }

  /** A digit as printed, letters in the case asked for. */
  predicate Printed(c: char, upper: bool) {
    48 <= c as int <= 57 || (if upper then 65 <= c as int <= 90 else 97 <= c as int <= 122)
  }

  /** What is printed has digits in the case asked for and no zero in front; with its value, that is all
      there is to say of it. */
  lemma {:induction false} TextPrinted(n: nat, base: nat, upper: bool)
    requires 2 <= base <= 36
    ensures var s := Text(n, base, upper);
            (forall i :: 0 <= i < |s| ==> Printed(s[i], upper)) && (n > 0 ==> s[0] != '0') && (n == 0 ==> s == "0")
  {
    TextLast(n, base, upper);
    hide Text;
    if n >= base { TextPrinted(n / base, base, upper); }
  }

  // ----- texts -----

  /** White space, a sign, a prefix, digits and what follows them. */
  datatype Form = Form(white: string, sign: string, prefix: string, digits: string, rest: string)

  function Written(f: Form): string { f.white + f.sign + f.prefix + f.digits + f.rest }

  function End(f: Form): nat { |f.white| + |f.sign| + |f.prefix| + |f.digits| }

  /** The base that counts: 16 behind a prefix, the one asked for, or for base 0 that of the first digit. */
  function BaseOf(f: Form, base: nat): nat {
    if f.prefix != "" then 16 else if base != 0 then base else if "0" <= f.digits then 8 else 10
  }

  ghost predicate OfForm(f: Form, base: nat, ds: seq<nat>) {
    && (forall i :: 0 <= i < |f.white| ==> White(f.white[i]))
    && f.sign in {"", "+", "-"} && f.prefix in {"", "0x", "0X"} && (f.prefix != "" ==> base == 0 || base == 16)
    && f.digits != "" && Spells(f.digits, ds, BaseOf(f, base))
    && (f.rest != "" ==> forall d: nat :: Worth(f.rest[0], d) ==> d >= BaseOf(f, base))
    && (f.prefix == "" && (base == 0 || base == 16) && f.digits == "0" ==> !("x" <= f.rest) && !("X" <= f.rest))
  }

  lemma {:induction false} AfterWhite(s: string, i: nat, k: nat)
    requires i <= k <= |s| && (forall j :: i <= j < k ==> White(s[j])) && (k < |s| ==> !White(s[k]))
    ensures AfterSpace(s, i) == k
    decreases k - i
  {
    hide Space, White;
    if i < k {
      WhiteIs(s[i]);
      AfterWhite(s, i + 1, k);
    } else if k < |s| {
      WhiteIs(s[k]);
    }
  }

  lemma {:induction false} AfterDigits(s: string, i: nat, k: nat, base: nat)
    requires i <= k <= |s| && AllDigits(s[i..k], base) && (k < |s| ==> !IsDigit(s[k], base))
    ensures DigitsEnd(s, i, base) == k
    decreases k - i
  {
    hide IsDigit;
    if i < k {
      assert s[i] == s[i..k][0] && s[i + 1..k] == s[i..k][1..];
      AfterDigits(s, i + 1, k, base);
    }
  }

  /** Where the parts lie. */
  lemma PartsAt(f: Form)
    ensures var (s, i, j) := (Written(f), |f.white|, |f.white| + |f.sign|);
            var (at, e) := (j + |f.prefix|, End(f));
            && e <= |s| && s[..i] == f.white && s[i..j] == f.sign && s[j..at] == f.prefix
            && s[at..e] == f.digits && s[e..] == f.rest
  {}

  /** What lies at the sign. */
  lemma SignAt(f: Form, d: nat)
    requires f.digits != "" && Worth(f.digits[0], d) && f.sign in {"", "+", "-"} && f.prefix in {"", "0x", "0X"}
    ensures var (s, i) := (Written(f), |f.white|);
            i < |s| && !White(s[i]) && (s[i] == '-' <==> f.sign == "-") && (s[i] == '+' <==> f.sign == "+")
  {
    var (s, i) := (Written(f), |f.white|);
    assert s[i] == if f.sign != "" then f.sign[0] else if f.prefix != "" then f.prefix[0] else f.digits[0];
  }

  /** A prefix is seen exactly where there is one. */
  lemma PrefixAt(f: Form, base: nat, ds: seq<nat>)
    requires (base == 0 || 2 <= base <= 36) && OfForm(f, base, ds)
    ensures HexPrefix(Written(f), |f.white| + |f.sign|, base) <==> f.prefix != ""
    ensures f.prefix == "" ==> (CharAt(Written(f), |f.white| + |f.sign|) == '0' <==> "0" <= f.digits)
  {
    var (s, j) := (Written(f), |f.white| + |f.sign|);
    if f.prefix != "" {
      assert s[j] == f.prefix[0] && s[j + 1] == f.prefix[1];
    } else {
      assert s[j] == f.digits[0];
      if |f.digits| > 1 {
        assert s[j + 1] == f.digits[1] && Worth(f.digits[1], ds[1]);
      } else if f.rest != "" {
        assert s[j + 1] == f.rest[0] && f.digits == [f.digits[0]];
      }
    }
  }

  /** The parser finds sign, place of the digits and base. */
  lemma BeginForm(f: Form, base: nat, ds: seq<nat>)
    requires (base == 0 || 2 <= base <= 36) && OfForm(f, base, ds)
    ensures Begin(Written(f), base) == Start(f.sign == "-", End(f) - |f.digits|, BaseOf(f, base))
  {
    hide Written, Worth, White, AfterSpace, HexPrefix;
    var (s, i) := (Written(f), |f.white|);
    SignAt(f, ds[0]);
    PrefixAt(f, base, ds);
    PartsAt(f);
    forall k | 0 <= k < i ensures White(s[k]) {
      assert s[k] == s[..i][k] == f.white[k];
    }
    AfterWhite(s, 0, i);
  }

  /** For every text of the form: the digits are read to their end, for the number that their worth and
      their places make. */
  lemma SubjectForm(f: Form, base: nat, ds: seq<nat>)
    requires (base == 0 || 2 <= base <= 36) && OfForm(f, base, ds)
    ensures Subject(Written(f), base) == (PlaceSum(ds, BaseOf(f, base)), End(f))
  {
    hide Written, Worth, Spells, White, Begin, PlaceSum, Value, IsDigit, BaseOf;
    var (s, b, at, e) := (Written(f), BaseOf(f, base), End(f) - |f.digits|, End(f));
    BeginForm(f, base, ds);
    PartsAt(f);
    ValuePlaces(f.digits, ds, b);
    if f.rest != "" { NotDigit(f.rest[0], b); }
    assert e < |s| ==> s[e] == s[e..][0];
    AfterDigits(s, at, e, b);
  }

  lemma NotDigit(c: char, base: nat)
    requires forall d: nat :: Worth(c, d) ==> d >= base
    ensures !IsDigit(c, base)
  {
    if DigitOf(c).Some? { WorthIs(c, DigitOf(c).v); }
  }

  /** What the unsigned and the signed parser answer for it: the number, negated modulo 2 to the 64 and as it
      is after a minus, or the bound that it is beyond. */
  lemma ReadsForm(f: Form, base: nat, ds: seq<nat>)
    requires (base == 0 || 2 <= base <= 36) && OfForm(f, base, ds)
    ensures var (v, neg) := (PlaceSum(ds, BaseOf(f, base)), f.sign == "-");
            Meaning(Written(f), base) ==
            if v > 0xFFFF_FFFF_FFFF_FFFF then Parsed(0xFFFF_FFFF_FFFF_FFFF, End(f), true)
            else Parsed(if neg && v > 0 then 0x1_0000_0000_0000_0000 - v else v, End(f), false)
    ensures var v := PlaceSum(ds, BaseOf(f, base)) * if f.sign == "-" then -1 else 1;
            SignedMeaning(Written(f), base) ==
            if v < -0x8000_0000_0000_0000 then Parsed(-0x8000_0000_0000_0000, End(f), true)
            else if v > 0x7FFF_FFFF_FFFF_FFFF then Parsed(0x7FFF_FFFF_FFFF_FFFF, End(f), true)
            else Parsed(v, End(f), false)
  {
    SubjectForm(f, base, ds);
    BeginForm(f, base, ds);
    hide Written, OfForm, Begin, Subject, PlaceSum;
  }

  lemma {:induction false} BeforeSpace(s: string, i: nat)
    requires i <= |s|
    ensures var k := AfterSpace(s, i); (forall j :: i <= j < k ==> White(s[j]))
    decreases |s| - i
  {
    hide Space, White;
    if i < |s| && Space(s[i]) {
      WhiteIs(s[i]);
      BeforeSpace(s, i + 1);
    }
  }

  /** The worths of some digits. */
  lemma WorthsOf(s: string, base: nat) returns (ds: seq<nat>)
    requires AllDigits(s, base)
    ensures Spells(s, ds, base)
  {
    ds := seq(|s|, i requires 0 <= i < |s| => DigitOf(s[i]).v);
    forall i | 0 <= i < |s| ensures Worth(s[i], ds[i]) && ds[i] < base {
      WorthIs(s[i], ds[i]);
    }
  }

  lemma AtLeast(c: char, base: nat)
    requires !IsDigit(c, base)
    ensures forall d: nat :: Worth(c, d) ==> d >= base
  {
    forall d: nat | Worth(c, d) ensures d >= base { WorthIs(c, d); }
  }

  lemma Joined(s: string, i: nat, j: nat, at: nat, e: nat)
    requires i <= j <= at <= e <= |s|
    ensures s == Written(Form(s[..i], s[i..j], s[j..at], s[at..e], s[e..]))
  {}

  lemma Slices(s: string, i: nat)
    requires i <= |s|
    ensures s[i..i] == "" && (i + 1 <= |s| ==> s[i..i + 1] == [s[i]])
    ensures i + 2 <= |s| ==> s[i..i + 2] == [s[i], s[i + 1]]
  {}

  /** What the parser passes over is a sign. */
  lemma SignPart(s: string)
    ensures var (i, j) := (AfterSpace(s, 0), Unsigned(s)); i <= j <= |s| && s[i..j] in {"", "+", "-"}
  {
    hide AfterSpace;
    Slices(s, AfterSpace(s, 0));
  }

  /** And a prefix. */
  lemma PrefixPart(s: string, base: nat)
    requires base == 0 || 2 <= base <= 36
    ensures var (j, b) := (Unsigned(s), Begin(s, base));
            && j <= b.at <= |s| && s[j..b.at] in {"", "0x", "0X"} && (s[j..b.at] != "" <==> HexPrefix(s, j, base))
            && (s[j..b.at] != "" ==> b.base == 16)
            && (s[j..b.at] == "" ==>
                  b.at == j && b.base == if base != 0 then base else if CharAt(s, j) == '0' then 8 else 10)
  {
    hide AfterSpace;
    var j := Unsigned(s);
    SignPart(s);
    Slices(s, j);
    if HexPrefix(s, j, base) {
      assert Begin(s, base).at == j + 2 && s[j..j + 2] == [s[j], s[j + 1]];
    } else {
      assert Begin(s, base).at == j;
    }
  }

  /** A text in which digits are found is of the form. */
  lemma FormOf(s: string, base: nat) returns (f: Form, ds: seq<nat>)
    requires base == 0 || 2 <= base <= 36
    requires var b := Begin(s, base); DigitsEnd(s, b.at, b.base) > b.at
    ensures OfForm(f, base, ds) && s == Written(f)
  {
    hide Worth, White, Spells, AfterSpace, IsDigit, AllDigits, DigitsEnd, Begin, Unsigned, Written;
    var (i, j, b) := (AfterSpace(s, 0), Unsigned(s), Begin(s, base));
    var e := DigitsEnd(s, b.at, b.base);
    SignPart(s);
    PrefixPart(s, base);
    f := Form(s[..i], s[i..j], s[j..b.at], s[b.at..e], s[e..]);
    Joined(s, i, j, b.at, e);
    BeforeSpace(s, 0);
    ds := WorthsOf(f.digits, b.base);
    if e < |s| { AtLeast(s[e], b.base); }
    assert f.digits[0] == s[b.at] && (e < |s| ==> f.rest[0] == s[e]);
    assert "0" <= f.digits <==> s[b.at] == '0';
    assert BaseOf(f, base) == b.base;
  }

  /** Any other text is no number: nothing is read, for the value 0. */
  lemma ReadsNothing(s: string, base: nat)
    requires (base == 0 || 2 <= base <= 36) && forall f, ds :: OfForm(f, base, ds) ==> s != Written(f)
    ensures Meaning(s, base) == Parsed(0, 0, false) && SignedMeaning(s, base) == Parsed(0, 0, false)
  {
    hide OfForm, Written, Begin;
    var b := Begin(s, base);
    if DigitsEnd(s, b.at, b.base) > b.at {
      var f, ds := FormOf(s, base);
    }
    assert s[b.at..b.at] == "";
  }
}
