/** The bitmap of free indices: an array of 64-bit words in which a set bit marks a free index.
    A word is the set of its set bits. */
module Bitmap {

  const BITS: nat := 64

  type Word = set<nat>

  predicate Fits(words: seq<Word>, i: nat) { i / BITS < |words| }

  function Test(words: seq<Word>, i: nat): bool
    requires Fits(words, i)
  {
    i % BITS in words[i / BITS]
  }

  /** The word-wide AND with the complement of the mask of `i`. */
  function Clear(words: seq<Word>, i: nat): (r: seq<Word>)
    requires Fits(words, i)
    ensures |r| == |words|
    ensures forall j: nat :: Fits(words, j) ==> (Test(r, j) <==> Test(words, j) && j != i)
  {
    SameBit(i);
    words[i / BITS := words[i / BITS] - {i % BITS}]
  }

  /** The word-wide OR with the mask of `i`. */
  function Set(words: seq<Word>, i: nat): (r: seq<Word>)
    requires Fits(words, i)
    ensures |r| == |words|
    ensures forall j: nat :: Fits(words, j) ==> (Test(r, j) <==> Test(words, j) || j == i)
  {
    SameBit(i);
    words[i / BITS := words[i / BITS] + {i % BITS}]
  }

  lemma SameBit(i: nat)
    ensures forall j: nat :: i / BITS == j / BITS && i % BITS == j % BITS ==> i == j
  {
    forall j: nat | i / BITS == j / BITS && i % BITS == j % BITS ensures i == j {
      assert i == BITS * (i / BITS) + i % BITS;
      assert j == BITS * (j / BITS) + j % BITS;
    }
  }

  /** `pos` is the least set bit at or above `lo`, or `size` when there is none below `size`. */
  ghost predicate IsNextBit(words: seq<Word>, size: nat, lo: nat, pos: nat)
    requires size <= BITS * |words|
  {
    && pos <= size
    && (pos < size ==> lo <= pos && Test(words, pos))
    && forall j: nat :: lo <= j < pos ==> !Test(words, j)
  }

  /** Enough words for `size` bits, each word as wide as it is; bits at and above `size` may be set. */
  ghost predicate Shaped(words: seq<Word>, size: nat) {
    |words| == (size + BITS - 1) / BITS && forall w, b :: 0 <= w < |words| && b in words[w] ==> b < BITS
  }

  /** The search starts inside a word that has no set bit from there to `size`, but has one beyond: it can
      only be the last word. */
  ghost predicate Stray(words: seq<Word>, size: nat, offset: nat)
    requires offset < size && Shaped(words, size)
  {
    var (w, offs) := (offset / BITS, offset % BITS);
    offs != 0 && (exists b :: b in words[w] && BITS * w + b > size)
    && forall b :: b in words[w] && b >= offs ==> BITS * w + b > size
  }

  /** One word of three bits in use, of which bit 5 is set nevertheless, searched from bit 1 on. */
  lemma StrayInput()
    ensures Shaped([{5}], 3) && Stray([{5}], 3, 1) && forall j: nat :: j < 3 ==> !Test([{5}], j)
  {
    var words: seq<Word> := [{5}];
    assert 5 in words[0];
  }

  /** Position of the least significant set bit, counted up from `b`. */
  function LowestBit(w: Word, b: nat): (r: nat)
    requires w != {} && forall c :: c in w ==> b <= c < BITS
    ensures r in w && forall c :: c in w ==> r <= c
    decreases BITS - b
  {
    var x :| x in w;
    if b in w then b else LowestBit(w, b + 1)
  }

  lemma TestAt(words: seq<Word>, w: nat, b: nat)
    requires w < |words| && b < BITS
    ensures Fits(words, BITS * w + b) && (Test(words, BITS * w + b) <==> b in words[w])
  {}

  /** A stretch of one word without set bits. */
  lemma NoBits(words: seq<Word>, w: nat, lo: nat, hi: nat)
    requires w < |words| && BITS * w <= lo <= hi <= BITS * w + BITS
    requires forall b :: b in words[w] && b < BITS ==> !(lo <= BITS * w + b < hi)
    ensures forall j: nat :: lo <= j < hi ==> Fits(words, j) && !Test(words, j)
  {
    forall j: nat | lo <= j < hi ensures Fits(words, j) && !Test(words, j) {
      TestAt(words, w, j - BITS * w);
    }
  }

  /** The words from `w0` on: the least set bit of the first that has one, the last word masked. */
  method FindFrom(words: seq<Word>, size: nat, w0: nat) returns (pos: nat)
    requires Shaped(words, size) && BITS * w0 <= size
    ensures IsNextBit(words, size, BITS * w0, pos)
  {
    hide Test;
    var w, bit, left := w0, BITS * w0, size - BITS * w0;
    while left >= BITS
      invariant bit == BITS * w && w0 <= w && bit <= size && left == size - bit
      invariant forall j: nat :: BITS * w0 <= j < bit ==> !Test(words, j)
    {
      if words[w] != {} {
        var low := LowestBit(words[w], 0);
        TestAt(words, w, low);
        NoBits(words, w, bit, bit + low);
        return bit + low;
      }
      NoBits(words, w, bit, bit + BITS);
      left, bit, w := left - BITS, bit + BITS, w + 1;
    }
    pos := bit;
    if left != 0 {
      var mask := set b | b in words[w] && b < left;
      assert forall b :: b in words[w] && b < left ==> b in mask;
      if mask != {} {
        var low := LowestBit(mask, 0);
        TestAt(words, w, low);
        pos := bit + low;
      } else {
        pos := bit + left;
      }
      NoBits(words, w, bit, pos);
    }
  }

  /** The word-at-a-time search for the next set bit finds the first one of the plain scan, or `size` when
      there is none, exactly when no stray bit misleads it; then it answers a position beyond `size`. */
  method FindNextBit(words: seq<Word>, size: nat, offset: nat) returns (pos: nat)
    requires Shaped(words, size)
    ensures offset >= size ==> pos == size
    ensures offset < size ==> (IsNextBit(words, size, offset, pos) <==> !Stray(words, size, offset))
    ensures offset < size && Stray(words, size, offset) ==> pos > size && Fits(words, pos) && Test(words, pos)
  {
    hide Test;
    if offset >= size {
      return size;
    }
    var w, offs := offset / BITS, offset % BITS;
    if offs != 0 {
      var mask := set b | b in words[w] && b >= offs;
      assert forall b :: b in words[w] && b >= offs ==> b in mask;
      if mask != {} {
        var low := LowestBit(mask, 0);
        TestAt(words, w, low);
        NoBits(words, w, offset, BITS * w + low);
        assert forall b :: b in words[w] && b >= offs ==> b >= low;
        return BITS * w + low;
      }
      NoBits(words, w, offset, BITS * w + BITS);
      if size - BITS * w <= BITS {
        return size;
      }
      w := w + 1;
    }
    pos := FindFrom(words, size, w);
  }

  /** On the input of `StrayInput` the search answers 5, where the plain scan finds nothing and answers 3. */
  method StrayAnswer() returns (pos: nat)
    ensures pos == 5 && IsNextBit([{5}], 3, 1, 3) && !IsNextBit([{5}], 3, 1, pos)
  {
    StrayInput();
    pos := FindNextBit([{5}], 3, 1);
  }
}
