/** The exchange of two adjacent blocks of an argument vector, in place, by cycles: as many cycles as
    the greatest common divisor of the block lengths. */
module Permute {

  // ----- greatest common divisor -----

  function Gcd(a: nat, b: nat): nat
    requires b > 0
    decreases b
  {
    if a % b == 0 then b else Gcd(b, a % b)
  }

  /** Euclid's loop. */
  method ComputeGcd(a0: nat, b0: nat) returns (b: nat)
    requires b0 > 0
    ensures b == Gcd(a0, b0)
  {
    var a: nat := a0;
    b := b0;
    var c: nat := a % b;
    while c != 0
      invariant b > 0 && c == a % b && Gcd(a, b) == Gcd(a0, b0)
      decreases c
    {
      a := b;
      b := c;
      c := a % b;
    }
  }

  lemma Combine(k: int, b: int, c: int, u: int, v: int)
    ensures v * (k * b + c) + (u - k * v) * b == u * b + v * c
  {}

  lemma Distribute(k: int, p: int, q: int, g: int)
    ensures k * (p * g) + q * g == (k * p + q) * g
  {}

  lemma Division(a: nat, b: nat)
    requires b > 0
    ensures a / b >= 0 && 0 <= a % b < b && a == a / b * b + a % b
  {}

  lemma BezoutStep(a: nat, b: nat, k: nat, c: nat, g: nat, p: nat, q: nat, u: int, v: int)
    requires a == k * b + c && b == p * g && c == q * g && u * b + v * c == g
    ensures k * p + q >= 0 && a == (k * p + q) * g && v * a + (u - k * v) * b == g
  {
    Distribute(k, p, q, g);
    Combine(k, b, c, u, v);
  }

  /** The result divides both numbers and is a combination of them. */
  lemma {:induction false} Bezout(a: nat, b: nat) returns (p: nat, q: nat, u: int, v: int)
    requires b > 0
    ensures Gcd(a, b) > 0 && a == p * Gcd(a, b) && b == q * Gcd(a, b)
    ensures u * a + v * b == Gcd(a, b)
    decreases b
  {
    var (k, c) := (a / b, a % b);
    Division(a, b);
    if c == 0 {
      p, q, u, v := k, 1, 0, 1;
    } else {
      var p', q', u', v' := Bezout(b, c);
      BezoutStep(a, b, k, c, Gcd(b, c), p', q', u', v');
      p, q, u, v := k * p' + q', p', v', u' - k * v';
    }
  }

  /** It is the greatest: every common divisor divides it. */
  lemma GcdGreatest(a: nat, b: nat, d: nat, i: nat, j: nat) returns (k: int)
    requires b > 0 && a == d * i && b == d * j
    ensures Gcd(a, b) == d * k
  {
    var p, q, u, v := Bezout(a, b);
    k := u * i + v * j;
    Swap(u, d, i);
    Swap(v, d, j);
    assert d * (u * i) + d * (v * j) == d * (u * i + v * j);
  }

  // ----- cycles -----

  /** The place to which the element at `x` of a stretch of `len` goes: `m` further on, wrapping around. */
  function Hop(len: nat, m: nat, x: nat): (r: nat)
    requires x < len && m < len
    ensures r < len
  {
    if x + m < len then x + m else x + m - len
  }

  /** The place after `k` hops from `x`. */
  function At(len: nat, m: nat, x: nat, k: nat): (r: nat)
    requires x < len && m < len
    ensures r < len
  {
    if k == 0 then x else Hop(len, m, At(len, m, x, k - 1))
  }

  lemma {:induction false} AtIs(len: nat, m: nat, x: nat, k: nat) returns (t: nat)
    requires x < len && m < len
    ensures x + k * m == At(len, m, x, k) + t * len
  {
    if k == 0 {
      t := 0;
    } else {
      var t' := AtIs(len, m, x, k - 1);
      assert k * m == (k - 1) * m + m;
      t := if At(len, m, x, k - 1) + m < len then t' else t' + 1;
      assert (t' + 1) * len == t' * len + len;
    }
  }

  /** Shift and stretch as multiples `mq` and `lq` of `g`, with `g` a combination of the two. */
  datatype Cycle = Cycle(len: nat, m: nat, g: nat, lq: nat, mq: nat, w: int, z: int)

  ghost predicate Ratios(c: Cycle) {
    c.len == c.lq * c.g && c.m == c.mq * c.g && c.w * c.m == c.g + c.z * c.len
  }

  ghost predicate Fits(c: Cycle) { 0 < c.m < c.len && c.g > 0 && c.lq > 0 && Ratios(c) }

  /** Places with the same remainder form one cycle. */
  function Class(c: Cycle, x: nat): (r: nat)
    requires c.g > 0
    ensures r < c.g
  {
    x % c.g
  }

  lemma Scaled(a: int, b: int, g: nat)
    requires a < b && g > 0
    ensures a * g < b * g
  {
    assert (b - a) * g == (b - a - 1) * g + g;
    assert b * g == a * g + (b - a) * g;
  }

  lemma Cancel(a: int, b: int, g: nat)
    requires a * g == b * g && g > 0
    ensures a == b
  {
    if a < b { Scaled(a, b, g); }
    if b < a { Scaled(b, a, g); }
  }

  /** A multiple of `n` strictly between `-n` and `n` is zero. */
  lemma Small(n: nat, t: int)
    requires n > 0 && 0 - n < t * n < n
    ensures t == 0
  {
    if t != 0 { AtLeast(t, n); }
  }

  lemma Positive(a: nat, n: nat)
    ensures a * n >= 0
  {}

  lemma AtLeast(t: int, n: nat)
    requires t != 0
    ensures t * n >= n || t * n <= 0 - n
  {
    if t > 0 {
      Diff(t, 1, n);
      Positive(t - 1, n);
    } else {
      Diff(0 - t, 1, n);
      Positive(0 - t - 1, n);
    }
  }

  /** Fewer than `lq` hops never lead back. */
  lemma NoReturn(c: Cycle, x: nat, j: nat, k: nat)
    requires Fits(c) && x < c.len && j < k < j + c.lq
    ensures At(c.len, c.m, x, j) != At(c.len, c.m, x, k)
  {
    var s := AtIs(c.len, c.m, x, j);
    var t := AtIs(c.len, c.m, x, k);
    if At(c.len, c.m, x, j) == At(c.len, c.m, x, k) {
      var (d, y) := (k - j, t - s);
      Diff(k, j, c.m);
      Diff(t, s, c.len);
      Multiple(c, d, y);
    }
  }

  lemma Product(w: int, y: int, z: int, d: int, m: int, len: int, g: int)
    requires d * m == y * len && w * m == g + z * len
    ensures d * g == (w * y - z * d) * len
  {
    assert w * (d * m) == d * (w * m);
    assert d * (g + z * len) == d * g + (z * d) * len;
    assert w * (y * len) == (w * y) * len;
  }

  /** The stretch divides no smaller multiple of the shift than `lq` times it. */
  lemma Multiple(c: Cycle, d: nat, y: int)
    requires Fits(c) && 0 < d < c.lq
    ensures d * c.m != y * c.len
  {
    if d * c.m == y * c.len {
      var e := c.w * y - c.z * d;
      Product(c.w, y, c.z, d, c.m, c.len, c.g);
      assert e * (c.lq * c.g) == (e * c.lq) * c.g;
      Cancel(d, e * c.lq, c.g);
      Small(c.lq, e);
    }
  }

  lemma Swap(a: int, b: int, c: int)
    ensures a * (b * c) == b * (a * c)
  {}

  /** After `lq` hops every place is back where it was. */
  lemma Return(c: Cycle, x: nat)
    requires Fits(c) && x < c.len
    ensures At(c.len, c.m, x, c.lq) == x
  {
    var t := AtIs(c.len, c.m, x, c.lq);
    Swap(c.lq, c.mq, c.g);
    Diff(t, c.mq, c.len);
    Small(c.len, t - c.mq);
  }

  lemma Diff(s: int, t: int, n: int)
    ensures (s - t) * n == s * n - t * n
  {}

  /** Hops keep the remainder modulo `g`. */
  lemma SameClass(c: Cycle, x: nat, k: nat)
    requires Fits(c) && x < c.len
    ensures Class(c, At(c.len, c.m, x, k)) == Class(c, x)
  {
    var t := AtIs(c.len, c.m, x, k);
    var d := t * c.lq - k * c.mq;
    Diff(t * c.lq, k * c.mq, c.g);
    Assoc(t, c.lq, c.g);
    Assoc(k, c.mq, c.g);
    Remainder(At(c.len, c.m, x, k), x, c.g, d);
  }

  lemma Assoc(a: int, b: int, c: int)
    ensures (a * b) * c == a * (b * c)
  {}

  lemma Remainder(x: int, y: int, g: nat, d: int)
    requires g > 0 && y == x + d * g
    ensures x % g == y % g
  {
    var e := y / g - x / g - d;
    Diff(y / g - x / g, d, g);
    Diff(y / g, x / g, g);
    assert e * g == x % g - y % g;
    Small(g, e);
  }

  /** Every place of the same class is reached. */
  lemma Reached(c: Cycle, x: nat, y: nat) returns (k: nat)
    requires Fits(c) && x < c.len && y < c.len && Class(c, x) == Class(c, y)
    ensures k < c.lq && At(c.len, c.m, x, k) == y
  {
    var d := y / c.g - x / c.g;
    Diff(y / c.g, x / c.g, c.g);
    assert y == x + d * c.g;
    var dw := d * c.w;
    k := dw % c.lq;
    ReachedAt(c, x, y, d, dw / c.lq, k);
  }

  lemma ReachedAt(c: Cycle, x: nat, y: nat, d: int, h: int, k: nat)
    requires Fits(c) && x < c.len && y < c.len && y == x + d * c.g && d * c.w == h * c.lq + k
    ensures At(c.len, c.m, x, k) == y
  {
    var t := AtIs(c.len, c.m, x, k);
    Walk(c, d, h, k);
    Diff(d * c.z - h * c.mq, t, c.len);
    Small(c.len, d * c.z - h * c.mq - t);
  }

  lemma Walk(c: Cycle, d: int, h: int, k: int)
    requires Fits(c) && d * c.w == h * c.lq + k
    ensures k * c.m == d * c.g + (d * c.z - h * c.mq) * c.len
  {
    Assoc(d, c.w, c.m);
    assert d * (c.g + c.z * c.len) == d * c.g + d * (c.z * c.len);
    Assoc(d, c.z, c.len);
    Diff(d * c.w, h * c.lq, c.m);
    Assoc(h, c.lq, c.m);
    Swap(c.lq, c.mq, c.g);
    Assoc(h, c.mq, c.len);
    Diff(d * c.z, h * c.mq, c.len);
  }

  /** The cycle structure of the exchange of blocks of `n` and `m` elements. */
  lemma CycleOf(n: nat, m: nat) returns (c: Cycle)
    requires n > 0 && m > 0
    ensures Fits(c) && c.len == n + m && c.m == m && c.g == Gcd(n, m) && c.lq == (n + m) / c.g && n % c.g == 0
  {
    var p, q, u, v := Bezout(n, m);
    var g := Gcd(n, m);
    Diff(p + q, q, g);
    Combination(u, v, n, m);
    c := Cycle(n + m, m, g, p + q, q, v - u, 0 - u);
    Remainder(0, n, g, p);
    Quotient(n + m, g, p + q);
  }

  lemma Combination(u: int, v: int, n: int, m: int)
    ensures (v - u) * m == u * n + v * m + (0 - u) * (n + m)
  {}

  lemma Quotient(x: nat, g: nat, q: nat)
    requires g > 0 && x == q * g
    ensures x / g == q
  {
    var e := x / g - q;
    Diff(x / g, q, g);
    Small(g, e);
  }

  // ----- the exchange -----

  /** The blocks `s[a..b]` and `s[b..c]` exchanged. */
  function Exchanged<T>(s: seq<T>, a: nat, b: nat, c: nat): (r: seq<T>)
    requires a <= b <= c <= |s|
    ensures |r| == |s|
  {
    s[..a] + s[b..c] + s[a..b] + s[c..]
  }

  /** `t` is `s` with the first `i` classes of places moved on by a hop. */
  ghost predicate Moved<T>(c: Cycle, a: nat, i: nat, s: seq<T>, t: seq<T>)
    requires Fits(c) && a + c.len <= |s| == |t|
  {
    && (forall p :: 0 <= p < |s| && !(a <= p < a + c.len) ==> t[p] == s[p])
    && (forall y: nat :: y < c.len && Class(c, y) < i ==> t[a + Hop(c.len, c.m, y)] == s[a + y])
    && (forall y: nat :: y < c.len && Class(c, y) >= i ==> t[a + y] == s[a + y])
  }

  /** The place after `k` hops holds its own element or, once reached, the one from a hop before. */
  ghost predicate Filled<T>(c: Cycle, a: nat, x: nat, j: nat, s: seq<T>, t: seq<T>, k: nat)
    requires Fits(c) && x < c.len && a + c.len <= |s| == |t|
  {
    k > 0 && t[a + At(c.len, c.m, x, k)] == s[a + At(c.len, c.m, x, if k <= j then k - 1 else k)]
  }

  /** `t` after `j` swaps of the cycle that starts at `x`; its first place holds the element on its way. */
  ghost predicate InCycle<T>(c: Cycle, a: nat, x: nat, j: nat, s: seq<T>, t0: seq<T>, t: seq<T>)
    requires Fits(c) && x < c.len && a + c.len <= |s| == |t0| == |t| && j <= c.lq
  {
    && (forall p :: 0 <= p < |t| && !(a <= p < a + c.len) ==> t[p] == t0[p])
    && (forall y: nat :: y < c.len && Class(c, y) != Class(c, x) ==> t[a + y] == t0[a + y])
    && t[a + x] == s[a + At(c.len, c.m, x, if j == c.lq then j - 1 else j)]
    && (forall k :: 1 <= k < c.lq ==> Filled(c, a, x, j, s, t, k))
  }

  lemma CycleStart<T>(c: Cycle, a: nat, x: nat, i: nat, s: seq<T>, t: seq<T>)
    requires Fits(c) && a + c.len <= |s| == |t| && Moved(c, a, i, s, t) && x < c.len && Class(c, x) == i
    ensures InCycle(c, a, x, 0, s, t, t)
  {
    hide Ratios, Class;
    AtZero(c.len, c.m, x);
    hide At;
    forall k | 1 <= k < c.lq ensures Filled(c, a, x, 0, s, t, k) {
      SameClass(c, x, k);
    }
  }

  lemma CycleStep<T>(c: Cycle, a: nat, x: nat, j: nat, s: seq<T>, t0: seq<T>, t: seq<T>)
    requires Fits(c) && x < c.len && a + c.len <= |s| == |t0| == |t| && j < c.lq && InCycle(c, a, x, j, s, t0, t)
    ensures var p := a + At(c.len, c.m, x, j + 1);
            InCycle(c, a, x, j + 1, s, t0, t[p := t[a + x]][a + x := t[p]])
  {
    hide Ratios, Class, At;
    var p := a + At(c.len, c.m, x, j + 1);
    var t' := t[p := t[a + x]][a + x := t[p]];
    AtZero(c.len, c.m, x);
    SameClass(c, x, j + 1);
    if j + 1 == c.lq {
      Return(c, x);
      assert t' == t;
    } else {
      assert Filled(c, a, x, j, s, t, j + 1);
      NoReturn(c, x, 0, j + 1);
    }
    var j' := j + 1;
    forall k | 1 <= k < c.lq ensures Filled(c, a, x, j', s, t', k) {
      assert Filled(c, a, x, j, s, t, k);
      NoReturn(c, x, 0, k);
      if k < j + 1 { NoReturn(c, x, k, j + 1); }
      if k > j + 1 { NoReturn(c, x, j + 1, k); }
    }
  }

  lemma CycleEnd<T>(c: Cycle, a: nat, x: nat, s: seq<T>, t0: seq<T>, t: seq<T>)
    requires Fits(c) && x < c.len && a + c.len <= |s| == |t0| == |t|
    requires Moved(c, a, Class(c, x), s, t0) && InCycle(c, a, x, c.lq, s, t0, t)
    ensures Moved(c, a, Class(c, x) + 1, s, t)
  {
    hide Ratios, Class, At, Hop;
    forall y: nat | y < c.len && Class(c, y) < Class(c, x) + 1 ensures t[a + Hop(c.len, c.m, y)] == s[a + y] {
      HopClass(c, y);
      if Class(c, y) == Class(c, x) { EndHere(c, a, x, s, t0, t, y); }
    }
  }

  lemma EndHere<T>(c: Cycle, a: nat, x: nat, s: seq<T>, t0: seq<T>, t: seq<T>, y: nat)
    requires Fits(c) && x < c.len && a + c.len <= |s| == |t0| == |t| && InCycle(c, a, x, c.lq, s, t0, t)
    requires y < c.len && Class(c, y) == Class(c, x)
    ensures t[a + Hop(c.len, c.m, y)] == s[a + y]
  {
    hide Ratios, Class, At, Hop;
    var k := Reached(c, x, y);
    AtNext(c.len, c.m, x, k);
    if k + 1 == c.lq { Return(c, x); } else { assert Filled(c, a, x, c.lq, s, t, k + 1); }
  }

  lemma HopClass(c: Cycle, y: nat)
    requires Fits(c) && y < c.len
    ensures Class(c, Hop(c.len, c.m, y)) == Class(c, y)
  {
    hide Ratios, Class, At, Hop;
    AtZero(c.len, c.m, y);
    AtNext(c.len, c.m, y, 0);
    SameClass(c, y, 1);
  }

  /** With all classes moved the blocks have been exchanged. */
  lemma AllMoved<T>(c: Cycle, a: nat, s: seq<T>, t: seq<T>)
    requires Fits(c) && a + c.len <= |s| == |t| && Moved(c, a, c.g, s, t)
    ensures t == Exchanged(s, a, a + c.len - c.m, a + c.len)
  {
    hide Ratios, Class;
    var e := Exchanged(s, a, a + c.len - c.m, a + c.len);
    forall p | 0 <= p < |s| ensures t[p] == e[p] {
      if a <= p < a + c.len {
        var q := p - a;
        var y: nat := if q < c.m then q + c.len - c.m else q - c.m;
        assert Class(c, y) < c.g && Hop(c.len, c.m, y) == q;
      }
    }
  }

  /** One cycle: `cyclelen` swaps with the place at `cstart`, which carries each element to its next place. */
  method RunCycle<T>(argv: array<T>, start: nat, mid: nat, end: nat, cstart: nat, cyclelen: nat, ghost c: Cycle,
                     ghost s: seq<T>)
    requires Fits(c) && start < mid < end <= argv.Length == |s| && c.len == end - start && c.m == end - mid
             && c.lq == cyclelen
    requires mid <= cstart < end && Moved(c, start, Class(c, cstart - start), s, argv[..])
    modifies argv
    ensures Moved(c, start, Class(c, cstart - start) + 1, s, argv[..])
  {
    hide Ratios, Moved, InCycle, At, Class;
    var pos := cstart;
    ghost var x := cstart - start;
    ghost var t0 := argv[..];
    CycleStart(c, start, x, Class(c, x), s, t0);
    AtZero(c.len, c.m, x);
    for j := 0 to cyclelen
      invariant pos == start + At(c.len, c.m, x, j) && InCycle(c, start, x, j, s, t0, argv[..])
    {
      AtNext(c.len, c.m, x, j);
      CycleStep(c, start, x, j, s, t0, argv[..]);
      if pos >= mid {
        pos := pos - (mid - start);
      } else {
        pos := pos + (end - mid);
      }
      ghost var t := argv[..];
      var swap := argv[pos];
      argv[pos] := argv[cstart];
      argv[cstart] := swap;
      assert argv[..] == t[pos := t[cstart]][cstart := t[pos]];
    }
    CycleEnd(c, start, x, s, t0, argv[..]);
  }

  /** Exchanges `argv[start..mid]` and `argv[mid..end]`, each in its order, and touches nothing else. */
  method PermuteArgs<T>(argv: array<T>, start: nat, mid: nat, end: nat)
    requires start < mid < end <= argv.Length
    modifies argv
    ensures argv[..] == Exchanged(old(argv[..]), start, mid, end)
  {
    hide Ratios, Moved, Class, Gcd, Exchanged;
    var ncycle := ComputeGcd(mid - start, end - mid);
    ghost var c := CycleOf(mid - start, end - mid);
    Divides(c);
    var cyclelen := (end - start) / ncycle;
    ghost var s := argv[..];
    NoneMoved(c, start, s);
    for i := 0 to ncycle
      invariant Moved(c, start, i, s, argv[..])
    {
      ClassOf(c, mid - start, i);
      RunCycle(argv, start, mid, end, mid + i, cyclelen, c, s);
    }
    AllMoved(c, start, s, argv[..]);
  }

  lemma NoneMoved<T>(c: Cycle, a: nat, s: seq<T>)
    requires Fits(c) && a + c.len <= |s|
    ensures Moved(c, a, 0, s, s)
  {}

  lemma Divides(c: Cycle)
    requires Fits(c)
    ensures c.g <= c.m && c.g > 0 && c.lq > 0
  {
    assert c.mq > 0;
    Diff(c.mq, 1, c.g);
    Positive(c.mq - 1, c.g);
  }

  lemma ClassOf(c: Cycle, n: nat, i: nat)
    requires c.g > 0 && n % c.g == 0 && i < c.g
    ensures Class(c, n + i) == i
  {
    Division(n, c.g);
    Remainder(i, n + i, c.g, n / c.g);
    assert i % c.g == i;
  }

  lemma AtZero(len: nat, m: nat, x: nat)
    requires x < len && m < len
    ensures At(len, m, x, 0) == x
  {}

  lemma AtNext(len: nat, m: nat, x: nat, k: nat)
    requires x < len && m < len
    ensures At(len, m, x, k + 1) == Hop(len, m, At(len, m, x, k))
  {}
}
