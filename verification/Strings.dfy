/** Scanning and copying strings a word at a time. An address is an index into memory; a word is read
    from an aligned address, lowest byte first. */
module Strings {
  import opened Basics

  type Byte = b: bv64 | b <= 0xFF

  type Memory = seq<Byte>

  /** Non-zero when some byte of the word is zero. */
  function HasZero(x: bv64): bv64 { (x - 0x0101_0101_0101_0101) & !x & 0x8080_8080_8080_8080 }

  /** A byte below the bytes of `t`. */
  function Cons(a: Byte, t: bv64): bv64 { a | (t << 8) }

  function Join(a: Byte, b: Byte, c: Byte, d: Byte, e: Byte, f: Byte, g: Byte, h: Byte): bv64 {
    Cons(a, Cons(b, Cons(c, Cons(d, Cons(e, Cons(f, Cons(g, Cons(h, 0))))))))
  }

  /** A byte in every place of a word. */
  function Repeat(x: Byte): bv64 { 0x0101_0101_0101_0101 * x }

  lemma RepeatIs(x: Byte)
    ensures Repeat(x) == Join(x, x, x, x, x, x, x, x)
  {}

  /** The trick is exact: the result is zero if and only if no byte is zero. */
  lemma HasZeroIs(a: Byte, b: Byte, c: Byte, d: Byte, e: Byte, f: Byte, g: Byte, h: Byte)
    ensures HasZero(Join(a, b, c, d, e, f, g, h)) == 0 <==>
            a != 0 && b != 0 && c != 0 && d != 0 && e != 0 && f != 0 && g != 0 && h != 0
  {}

  function Xor(a: Byte, x: Byte): (r: Byte)
    ensures r == 0 <==> a == x
  {
    a ^ x
  }

  function XorWord(t: bv64, u: bv64): bv64 { t ^ u }

  lemma XorCons(a: Byte, t: bv64, x: Byte, u: bv64, v: bv64)
    requires XorWord(t, u) == v
    ensures XorWord(Cons(a, t), Cons(x, u)) == Cons(Xor(a, x), v)
  {}

  lemma XorNone()
    ensures XorWord(0, 0) == 0
  {}

  lemma XorJoin(a: Byte, b: Byte, c: Byte, d: Byte, e: Byte, f: Byte, g: Byte, h: Byte, x: Byte)
    ensures XorWord(Join(a, b, c, d, e, f, g, h), Join(x, x, x, x, x, x, x, x)) ==
            Join(Xor(a, x), Xor(b, x), Xor(c, x), Xor(d, x), Xor(e, x), Xor(f, x), Xor(g, x), Xor(h, x))
  {
    hide Cons, Xor, XorWord;
    XorNone();
    var (t7, u7, v7) := (Cons(h, 0), Cons(x, 0), Cons(Xor(h, x), 0));
    XorCons(h, 0, x, 0, 0);
    var (t6, u6, v6) := (Cons(g, t7), Cons(x, u7), Cons(Xor(g, x), v7));
    XorCons(g, t7, x, u7, v7);
    var (t5, u5, v5) := (Cons(f, t6), Cons(x, u6), Cons(Xor(f, x), v6));
    XorCons(f, t6, x, u6, v6);
    var (t4, u4, v4) := (Cons(e, t5), Cons(x, u5), Cons(Xor(e, x), v5));
    XorCons(e, t5, x, u5, v5);
    var (t3, u3, v3) := (Cons(d, t4), Cons(x, u4), Cons(Xor(d, x), v4));
    XorCons(d, t4, x, u4, v4);
    var (t2, u2, v2) := (Cons(c, t3), Cons(x, u3), Cons(Xor(c, x), v3));
    XorCons(c, t3, x, u3, v3);
    var (t1, u1, v1) := (Cons(b, t2), Cons(x, u2), Cons(Xor(b, x), v2));
    XorCons(b, t2, x, u2, v2);
    XorCons(a, t1, x, u1, v1);
  }

  /** Against a byte in every place: zero if and only if no byte is that byte. */
  lemma HasByteIs(a: Byte, b: Byte, c: Byte, d: Byte, e: Byte, f: Byte, g: Byte, h: Byte, x: Byte)
    ensures HasZero(XorWord(Join(a, b, c, d, e, f, g, h), Join(x, x, x, x, x, x, x, x))) == 0 <==>
            a != x && b != x && c != x && d != x && e != x && f != x && g != x && h != x
  {
    hide HasZero, Join, Xor, XorWord;
    XorJoin(a, b, c, d, e, f, g, h, x);
    HasZeroIs(Xor(a, x), Xor(b, x), Xor(c, x), Xor(d, x), Xor(e, x), Xor(f, x), Xor(g, x), Xor(h, x));
  }

  function WordAt(m: Memory, a: nat): bv64
    requires a + 8 <= |m|
  {
    Join(m[a], m[a + 1], m[a + 2], m[a + 3], m[a + 4], m[a + 5], m[a + 6], m[a + 7])
  }

  /** None of the `n` bytes from `a` on is `x`. */
  ghost predicate Without(m: Memory, a: nat, n: nat, x: Byte)
    requires a + n <= |m|
  {
    forall i :: a <= i < a + n ==> m[i] != x
  }

  lemma WordZero(m: Memory, a: nat)
    requires a + 8 <= |m|
    ensures HasZero(WordAt(m, a)) == 0 <==> Without(m, a, 8, 0)
  {
    HasZeroIs(m[a], m[a + 1], m[a + 2], m[a + 3], m[a + 4], m[a + 5], m[a + 6], m[a + 7]);
    hide HasZero, Join;
  }

  lemma WordByte(m: Memory, a: nat, x: Byte)
    requires a + 8 <= |m|
    ensures HasZero(XorWord(WordAt(m, a), Repeat(x))) == 0 <==> Without(m, a, 8, x)
  {
    hide HasZero, Join, Repeat, XorWord;
    RepeatIs(x);
    HasByteIs(m[a], m[a + 1], m[a + 2], m[a + 3], m[a + 4], m[a + 5], m[a + 6], m[a + 7], x);
  }

  // ----- searching -----

  /** `r` is the first address from `s` on that holds a zero byte or `c`. */
  ghost predicate FirstOf(m: Memory, s: nat, c: Byte, r: nat) {
    s <= r < |m| && (m[r] == 0 || m[r] == c) && Without(m, s, r - s, 0) && Without(m, s, r - s, c)
  }

  /** A terminated string starts at `s`; the word its end is in lies in memory. */
  ghost predicate Terminated(m: Memory, s: nat) { |m| % 8 == 0 && exists t: nat :: s <= t < |m| && m[t] == 0 }

  /** The first zero byte. */
  method StrLen(m: Memory, s: nat) returns (n: nat)
    requires Terminated(m, s)
    ensures FirstOf(m, s, 0, s + n)
  {
    ghost var t: nat :| s <= t < |m| && m[t] == 0;
    n := 0;
    while m[s + n] != 0
      invariant s + n <= t && Without(m, s, n, 0)
      decreases t - n
    {
      n := n + 1;
    }
  }

  /** The first zero byte or `c`: byte by byte up to a word boundary, then by words, then byte by byte
      in the word that has one. */
  method StrChrNul(m: Memory, s: nat, c: Byte) returns (r: nat)
    requires Terminated(m, s)
    ensures FirstOf(m, s, c, r)
  {
    hide HasZero, WordAt, Repeat;
    ghost var t: nat :| s <= t < |m| && m[t] == 0;
    if c == 0 {
      var n := StrLen(m, s);
      return s + n;
    }
    r := s;
    while r % 8 != 0
      invariant s <= r <= t && Without(m, s, r - s, 0) && Without(m, s, r - s, c)
      decreases t - r
    {
      if m[r] == 0 || m[r] == c { return; }
      r := r + 1;
    }
    r := SkipWords(m, s, r, c, t);
    while m[r] != 0 && m[r] != c
      invariant s <= r <= t && Without(m, s, r - s, 0) && Without(m, s, r - s, c)
      decreases t - r
    {
      r := r + 1;
    }
  }

  /** The words from the aligned address `a` on that hold neither a zero byte nor `c`. */
  method SkipWords(m: Memory, ghost s: nat, a: nat, c: Byte, ghost t: nat) returns (r: nat)
    requires |m| % 8 == 0 && s <= a <= t < |m| && m[t] == 0 && a % 8 == 0 && Without(m, s, a - s, 0)
             && Without(m, s, a - s, c)
    ensures s <= r <= t && Without(m, s, r - s, 0) && Without(m, s, r - s, c)
  {
    hide HasZero, WordAt, Repeat, XorWord;
    r := a;
    var k := Repeat(c);
    WholeWord(|m|, r, t);
    WordZero(m, r);
    WordByte(m, r, c);
    while HasZero(WordAt(m, r)) == 0 && HasZero(XorWord(WordAt(m, r), k)) == 0
      invariant s <= r <= t && r % 8 == 0 && r + 8 <= |m| && Without(m, s, r - s, 0) && Without(m, s, r - s, c)
      decreases t - r
    {
      WordZero(m, r);
      WordByte(m, r, c);
      assert r + 8 <= t;
      r := r + 8;
      WholeWord(|m|, r, t);
    }
  }

  /** The word of an address in memory lies in memory. */
  lemma WholeWord(n: nat, r: nat, t: nat)
    requires n % 8 == 0 && r % 8 == 0 && r <= t < n
    ensures r + 8 <= n
  {}

  // ----- copying -----

  /** The first `i` bytes have been copied, none of them zero; the byte behind them may have been touched. */
  ghost predicate Copied(m: Memory, s: nat, d0: Memory, d: Memory, i: nat) {
    && s + i < |m| && i < |d| == |d0| && d[..i] == m[s..s + i] && Without(m, s, i, 0) && d[i + 1..] == d0[i + 1..]
  }

  lemma CopiedOne(m: Memory, s: nat, d0: Memory, d: Memory, i: nat, t: nat)
    requires Copied(m, s, d0, d, i) && s + i <= t < |m| && m[t] == 0
    ensures Copied(m, s, d0, d[i := m[s + i]], i)
    ensures m[s + i] != 0 && i + 1 < |d| ==> s + i < t && Copied(m, s, d0, d[i := m[s + i]], i + 1)
  {
    var d' := d[i := m[s + i]];
    assert d'[..i] == d[..i] && d'[i + 1..] == d[i + 1..];
    if m[s + i] != 0 && i + 1 < |d| {
      assert d'[..i + 1] == d'[..i] + [m[s + i]] && m[s..s + i + 1] == m[s..s + i] + [m[s + i]];
      assert d'[i + 2..] == d'[i + 1..][1..] && d0[i + 2..] == d0[i + 1..][1..];
    }
  }

  /** Byte by byte until the room or the string ends, or, if asked to, at a word boundary. */
  method CopyBytes(m: Memory, s: nat, dst: array<Byte>, i0: nat, room: nat, align: bool, ghost d0: Memory,
                   ghost t: nat) returns (i: nat)
    requires Copied(m, s, d0, dst[..], i0) && i0 <= room < dst.Length && s + i0 <= t < |m| && m[t] == 0
    modifies dst
    ensures i0 <= i <= room && s + i <= t && Copied(m, s, d0, dst[..], i)
    ensures i == room || m[s + i] == 0 || (align && (s + i) % 8 == 0)
  {
    hide Copied;
    i := i0;
    while i < room && !(align && (s + i) % 8 == 0)
      invariant i0 <= i <= room && s + i <= t && Copied(m, s, d0, dst[..], i)
    {
      CopiedOne(m, s, d0, dst[..], i, t);
      ghost var d := dst[..];
      dst[i] := m[s + i];
      assert dst[..] == d[i := m[s + i]];
      if dst[i] == 0 { break; }
      i := i + 1;
    }
  }

  lemma CopiedWord(m: Memory, s: nat, d0: Memory, d: Memory, i: nat, t: nat, d': Memory)
    requires Copied(m, s, d0, d, i) && s + i + 8 <= |m| && i + 8 < |d| == |d'| && Without(m, s + i, 8, 0)
             && s + i <= t < |m| && m[t] == 0
    requires d' == d[..i] + m[s + i..s + i + 8] + d[i + 8..]
    ensures s + i + 8 <= t && Copied(m, s, d0, d', i + 8)
  {
    assert d'[..i + 8] == d[..i] + m[s + i..s + i + 8] && m[s..s + (i + 8)] == m[s..s + i] + m[s + i..s + i + 8];
    assert d'[i + 9..] == d[i + 1..][8..] && d0[i + 9..] == d0[i + 1..][8..];
    forall j | s <= j < s + (i + 8) ensures m[j] != 0 {}
  }

  /** By words, while eight bytes of room are left and the word has no zero byte. */
  method CopyWords(m: Memory, s: nat, dst: array<Byte>, i0: nat, room: nat, ghost d0: Memory, ghost t: nat)
      returns (i: nat)
    requires |m| % 8 == 0 && Copied(m, s, d0, dst[..], i0) && i0 <= room < dst.Length && s + i0 <= t < |m| && m[t] == 0
             && (s + i0) % 8 == 0
    modifies dst
    ensures i0 <= i <= room && s + i <= t && Copied(m, s, d0, dst[..], i)
  {
    hide Copied, HasZero, WordAt;
    i := i0;
    WholeWord(|m|, s + i, t);
    while room - i >= 8 && HasZero(WordAt(m, s + i)) == 0
      invariant i0 <= i <= room && s + i <= t && s + i + 8 <= |m| && (s + i) % 8 == 0 && Copied(m, s, d0, dst[..], i)
      decreases room - i
    {
      WordZero(m, s + i);
      ghost var d := dst[..];
      forall j | 0 <= j < 8 { dst[i + j] := m[s + i + j]; }
      assert dst[..] == d[..i] + m[s + i..s + i + 8] + d[i + 8..];
      CopiedWord(m, s, d0, d, i, t, dst[..]);
      i := i + 8;
      WholeWord(|m|, s + i, t);
    }
  }

  /** Bytes up to a word boundary, then words, then bytes again; words only where both addresses are
      equally far from a boundary. */
  method CopyString(m: Memory, s: nat, dst: array<Byte>, da: nat, room: nat, ghost t: nat) returns (i: nat)
    requires |m| % 8 == 0 && room < dst.Length && s <= t < |m| && m[t] == 0
    modifies dst
    ensures i <= room && s + i <= t && Copied(m, s, old(dst[..]), dst[..], i)
    ensures i == room || m[s + i] == 0
  {
    ghost var d0 := dst[..];
    assert Copied(m, s, d0, dst[..], 0);
    hide Copied;
    i := 0;
    if s % 8 == da % 8 {
      i := CopyBytes(m, s, dst, i, room, true, d0, t);
      if i < room && m[s + i] != 0 {
        i := CopyWords(m, s, dst, i, room, d0, t);
      }
    }
    i := CopyBytes(m, s, dst, i, room, false, d0, t);
  }

  /** Copies as much of the string at `s` as fits into `n` bytes with a terminator; the length of the
      string is returned in any case. `da` is the address of the destination. */
  method StrLCpy(m: Memory, s: nat, dst: array<Byte>, da: nat, n: nat) returns (r: nat)
    requires Terminated(m, s) && n <= dst.Length
    modifies dst
    ensures FirstOf(m, s, 0, s + r)
    ensures n == 0 ==> dst[..] == old(dst[..])
    ensures n > 0 ==> var k := Min(n - 1, r);
              s + k <= |m| && dst[..k] == m[s..s + k] && dst[k] == 0 && dst[k + 1..] == old(dst[k + 1..])
  {
    ghost var t: nat :| s <= t < |m| && m[t] == 0;
    ghost var d0 := dst[..];
    var i := 0;
    if n > 0 {
      hide Copied;
      i := CopyString(m, s, dst, da, n - 1, t);
      CopiedDone(m, s, d0, dst[..], i);
      dst[i] := 0;
    }
    var rest := StrLen(m, s + i);
    LengthIs(m, s, i, rest);
    r := i + rest;
  }

  lemma CopiedDone(m: Memory, s: nat, d0: Memory, d: Memory, i: nat)
    requires Copied(m, s, d0, d, i)
    ensures s + i < |m| && i < |d| == |d0| && d[..i] == m[s..s + i] && d[i + 1..] == d0[i + 1..] && Without(m, s, i, 0)
  {}

  lemma LengthIs(m: Memory, s: nat, i: nat, rest: nat)
    requires s + i <= |m| && Without(m, s, i, 0) && FirstOf(m, s + i, 0, s + i + rest)
    ensures FirstOf(m, s, 0, s + (i + rest))
  {}
}
