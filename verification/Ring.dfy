/** Positions on a ring of `n` bytes, as the pipe computes with them. */
module Ring {

  /** Bytes from `a` forward to `b`; 0 when they coincide. */
  function Space(n: nat, a: nat, b: nat): nat
    requires a <= n && b <= n
  {
    if a <= b then b - a else n - a + b
  }

  /** Bytes held by a message from `a` to `b`; a full ring when they coincide. */
  function Used(n: nat, a: nat, b: nat): nat
    requires a <= n && b <= n
  {
    if a == b then n else Space(n, a, b)
  }

  /** A position wrapped into the ring. */
  function Idx(n: nat, x: nat): (r: nat)
    requires n > 0
    ensures r < n
  {
    x % n
  }

  lemma IdxWrap(n: nat, x: nat)
    requires n > 0 && x < 2 * n
    ensures Idx(n, x) == if x < n then x else x - n
  {
    if n <= x {
      assert x == n + (x - n);
      assert (n + (x - n)) % n == (x - n) % n by { assert x / n == 1; }
    }
  }

  /** Stepping `k` bytes on from a position `o` bytes after `a` gives the position `o + k` bytes after `a`. */
  lemma Forward(n: nat, a: nat, x: nat, k: nat)
    requires n > 0 && a < n && x < n && Space(n, a, x) + k < n
    ensures Space(n, a, Idx(n, x + k)) == Space(n, a, x) + k
  {
    IdxWrap(n, x + k);
  }

  /** The position `k` bytes after `a`. */
  lemma SpaceIdx(n: nat, a: nat, k: nat)
    requires n > 0 && a < n && k < n
    ensures Space(n, a, Idx(n, a + k)) == k
  {
    IdxWrap(n, a + k);
  }

  lemma IdxSpace(n: nat, a: nat, x: nat)
    requires n > 0 && a < n && x < n
    ensures Idx(n, a + Space(n, a, x)) == x
  {
    IdxWrap(n, a + Space(n, a, x));
  }

  /** What is left of a message of which a part has been consumed. */
  lemma UsedRest(n: nat, a: nat, e: nat, x: nat)
    requires n > 0 && a < n && e < n && x < n && Space(n, a, x) < Used(n, a, e)
    ensures Used(n, x, e) == Used(n, a, e) - Space(n, a, x)
  {
  }

  /** The `len` bytes of `buf` that start at position `at` and wrap around. */
  ghost function Read<B>(buf: seq<B>, at: nat, len: nat): (r: seq<B>)
    requires |buf| > 0
    ensures |r| == len
  {
    seq(len, k requires 0 <= k => buf[Idx(|buf|, at + k)])
  }

  /** Quotient and remainder are unique. */
  lemma RemainderIs(n: nat, x: nat, q: nat, r: nat)
    requires n > 0 && x == n * q + r && r < n
    ensures x % n == r
  {
    var (q', r') := (x / n, x % n);
    assert n * q' + r' == n * q + r;
    if q < q' {
      assert n * (q' - q) >= n by { Mult(n, q' - q); }
    } else if q' < q {
      assert n * (q - q') >= n by { Mult(n, q - q'); }
    }
  }

  lemma Mult(n: nat, k: nat)
    requires k >= 1
    ensures n * k >= n
  {
    assert n * k == n * (k - 1) + n;
  }

  lemma IdxTwice(n: nat, a: nat, b: nat)
    requires n > 0
    ensures Idx(n, Idx(n, a) + b) == Idx(n, a + b)
  {
    var (q, k) := (a / n, (a % n + b) / n);
    var r := (a % n + b) % n;
    assert a + b == n * (q + k) + r;
    RemainderIs(n, a + b, q + k, r);
  }

  /** Reading two adjacent stretches is reading the whole stretch. */
  lemma ReadSplit<B>(buf: seq<B>, at: nat, k: nat, len: nat)
    requires |buf| > 0
    ensures Read(buf, at, k) + Read(buf, Idx(|buf|, at + k), len) == Read(buf, at, k + len)
  {
    var (r, w) := (Read(buf, at, k) + Read(buf, Idx(|buf|, at + k), len), Read(buf, at, k + len));
    forall j | 0 <= j < k + len ensures r[j] == w[j] {
      if j >= k {
        IdxTwice(|buf|, at + k, j - k);
      }
    }
  }
}
