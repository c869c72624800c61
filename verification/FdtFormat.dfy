/** The byte format of a flattened device tree, told by the numbers of sections 5.4 and 5.5 of the Devicetree
    Specification and not by the reader's own constants. */
module FdtFormat {
  import opened Basics
  import opened FdtBlock

  /** A word has its digits to the base 256, the most significant first. */
  lemma WordDigits(w: nat)
    requires w < 0x1_0000_0000
    ensures Word(w) == [w / 0x100_0000, w / 0x1_0000 % 0x100, w / 0x100 % 0x100, w % 0x100]
  {
    assert w / 0x100 / 0x100 == w / 0x1_0000 && w / 0x1_0000 / 0x100 == w / 0x100_0000;
  }

  function Sum(d0: int, d1: int, d2: int, d3: int): int { d0 * 0x100_0000 + d1 * 0x1_0000 + d2 * 0x100 + d3 }

  /** And is read as the sum of its digits. */
  lemma ValueDigits(b: Bytes)
    requires |b| == 4
    ensures Value(b) == Sum(b[0], b[1], b[2], b[3])
  {}

  // ----- one tag -----

  predicate TagBytes(b: Bytes, off: nat, tag: Byte) {
    off + 4 <= |b| && b[off] == 0 && b[off + 1] == 0 && b[off + 2] == 0 && b[off + 3] == tag
  }

  /** A name of `n` bytes with its terminator. */
  ghost predicate NameBytes(b: Bytes, off: nat, n: nat) {
    off + n < |b| && 0 !in b[off..off + n] && b[off + n] == 0
  }

  /** A length of `n`, an offset and `n` bytes. */
  ghost predicate ValueBytes(b: Bytes, off: nat, n: nat) {
    off + 8 + n <= |b| && Sum(b[off], b[off + 1], b[off + 2], b[off + 3]) == n
  }

  /** The token at `off`, less what fills its last word, ends at `e`: node begin 1 with a name, node end 2,
      property 3, NOP 4 or end 9. */
  ghost predicate TokenBytes(b: Bytes, off: nat, tag: nat, e: nat) {
    || (tag == 1 && TagBytes(b, off, 1) && e > off + 4 && NameBytes(b, off + 4, e - off - 5))
    || (tag == 2 && TagBytes(b, off, 2) && e == off + 4)
    || (tag == 3 && TagBytes(b, off, 3) && e >= off + 12 && ValueBytes(b, off + 4, e - off - 12))
    || (tag == 4 && TagBytes(b, off, 4) && e == off + 4)
    || (tag == 9 && TagBytes(b, off, 9) && e == off + 4)
  }

  lemma TagIs(b: Bytes, off: nat, tag: Byte)
    requires off + 4 <= |b|
    ensures TagBytes(b, off, tag) <==> Value(b[off..off + 4]) == tag
  {
    ValueDigits(b[off..off + 4]);
    hide Value;
  }

  /** The token at a place is the only one, and ends at one place only. */
  lemma TokenOne(b: Bytes, off: nat, tag: nat, e: nat, tag': nat, e': nat)
    requires TokenBytes(b, off, tag, e) && TokenBytes(b, off, tag', e')
    ensures tag == tag' && e == e'
  {}

  /** For all bytes and every place: the reader answers a tag exactly if a token is there, with the next
      word behind it; that the block is too short exactly if no tag fits; and else that it is broken. */
  lemma NextTagExact(b: Bytes, off: nat)
    ensures match NextTag(b, off)
            case Step(tag, next) => exists e: nat :: TokenBytes(b, off, tag, e) && e <= next < e + 4 && next % 4 == 0
            case Truncated => off + 4 > |b|
            case BadStructure => off + 4 <= |b| && forall tag: nat, e: nat :: !TokenBytes(b, off, tag, e)
  {
    if off + 4 <= |b| {
      TagIs(b, off, 1);
      TagIs(b, off, 2);
      TagIs(b, off, 3);
      TagIs(b, off, 4);
      TagIs(b, off, 9);
      hide Value;
      if TagBytes(b, off, 1) {
        NameExact(b, off);
      } else if TagBytes(b, off, 3) {
        PropExact(b, off);
      } else if TagBytes(b, off, 2) {
        assert TokenBytes(b, off, 2, off + 4);
      } else if TagBytes(b, off, 4) {
        assert TokenBytes(b, off, 4, off + 4);
      } else if TagBytes(b, off, 9) {
        assert TokenBytes(b, off, 9, off + 4);
      }
    }
  }

  lemma NameExact(b: Bytes, off: nat)
    requires TagBytes(b, off, 1)
    ensures var e := FindNul(b, off + 4) + 1;
            if e <= |b| then TokenBytes(b, off, 1, e) else forall tag: nat, e': nat :: !TokenBytes(b, off, tag, e')
  {
    var j := FindNul(b, off + 4);
    assert forall k :: off + 4 <= k < j ==> b[k] in b[off + 4..j];
  }

  lemma PropExact(b: Bytes, off: nat)
    requires TagBytes(b, off, 3)
    ensures off + 8 > |b| ==> forall tag: nat, e: nat :: !TokenBytes(b, off, tag, e)
    ensures off + 8 <= |b| ==>
              var e := off + 12 + Value(b[off + 4..off + 8]);
              if e <= |b| then TokenBytes(b, off, 3, e) else forall tag: nat, e': nat :: !TokenBytes(b, off, tag, e')
  {
    if off + 8 <= |b| { ValueDigits(b[off + 4..off + 8]); }
    hide Value;
  }

  // ----- a whole tree -----

  /** A root node with a property `xy` of two bytes; a NOP and a node `ab` in it; and their ends. */
  const ROOT: Bytes := [0, 0, 0, 1, 0, 0, 0, 0]
  const PROPERTY: Bytes := [0, 0, 0, 3, 0, 0, 0, 2, 0, 0, 0, 2, 5, 6, 0, 0]
  const INNER: Bytes := [0, 0, 0, 4, 0, 0, 0, 1, 97, 98, 0, 0]
  const ENDS: Bytes := [0, 0, 0, 2, 0, 0, 0, 2, 0, 0, 0, 9]

  const BLOCK: Bytes := ROOT + PROPERTY + INNER + ENDS

  const STRINGS: Bytes := [97, 0, 120, 121, 0]

  lemma TagAt(b: Bytes, off: nat, tag: nat, e: nat, next: nat)
    requires TokenBytes(b, off, tag, e) && e <= next < e + 4 && next % 4 == 0
    ensures NextTag(b, off) == FdtBlock.Step(tag, next)
  {
    hide NextTag, TokenBytes;
    NextTagExact(b, off);
    assert NextTag(b, off).Truncated? ==> off + 4 > |b|;
    TokenFits(b, off, tag, e);
    var s := NextTag(b, off);
    var e': nat :| TokenBytes(b, off, s.tag, e') && e' <= s.next < e' + 4 && s.next % 4 == 0;
    TokenOne(b, off, tag, e, s.tag, e');
  }

  lemma TokenFits(b: Bytes, off: nat, tag: nat, e: nat)
    requires TokenBytes(b, off, tag, e)
    ensures off + 4 <= |b|
  {}

  /** What the token at a place says. */
  lemma EventBytes(b: Bytes, strs: Bytes, off: nat, tag: nat, e: nat, next: nat)
    requires TokenBytes(b, off, tag, e) && e <= next < e + 4 && next % 4 == 0
    ensures NextTag(b, off) == FdtBlock.Step(tag, next)
    ensures tag == 1 ==> off + 4 < e <= |b| && EventAt(b, strs, off, tag) == Some([Node(b[off + 4..e - 1])])
    ensures tag == 2 ==> EventAt(b, strs, off, tag) == Some([Close])
    ensures tag == 4 ==> EventAt(b, strs, off, tag) == Some([])
    ensures tag == 3 ==>
              && off + 12 <= e <= |b|
              && var name := GetString(strs, Sum(b[off + 8], b[off + 9], b[off + 10], b[off + 11]));
                 name.Some? ==> EventAt(b, strs, off, tag) == Some([Property(name.v, b[off + 12..e])])
  {
    hide NextTag, GetString, Value;
    TagAt(b, off, tag, e, next);
    if tag == 1 {
      NulAt(b, off + 4, e - 1);
    } else if tag == 3 {
      ValueDigits(b[off + 4..off + 8]);
      ValueDigits(b[off + 8..off + 12]);
    }
  }

  /** It comes before what the rest says. */
  lemma WalkOne(b: Bytes, strs: Bytes, off: nat, tag: nat, next: nat, here: seq<Event>, rest: seq<Event>)
    requires NextTag(b, off) == FdtBlock.Step(tag, next) && tag != 9 && EventAt(b, strs, off, tag) == Some(here)
    requires Walk(b, strs, next) == Some(rest)
    ensures Walk(b, strs, off) == Some(here + rest)
  {
    hide NextTag, EventAt;
  }

  /** The tokens of the block, and what they hold. */
  ghost predicate Laid(b: Bytes, strs: Bytes) {
    && TokenBytes(b, 0, 1, 5) && TokenBytes(b, 8, 3, 22) && TokenBytes(b, 24, 4, 28) && TokenBytes(b, 28, 1, 35)
    && TokenBytes(b, 36, 2, 40) && TokenBytes(b, 40, 2, 44) && TokenBytes(b, 44, 9, 48) && |b| == 48
    && b[32..34] == [97, 98] && b[20..22] == [5, 6] && Sum(b[16], b[17], b[18], b[19]) == 2
    && StringAt(strs, 2, [120, 121])
  }

  /** Two bytes, one after the other. */
  lemma Pair(b: Bytes, off: nat)
    requires off + 2 <= |b|
    ensures b[off..off + 2] == [b[off], b[off + 1]]
  {}

  lemma ShortName(b: Bytes, off: nat)
    requires TagBytes(b, off, 1) && off + 7 <= |b| && b[off + 4] != 0 && b[off + 5] != 0 && b[off + 6] == 0
    ensures TokenBytes(b, off, 1, off + 7)
  {
    Pair(b, off + 4);
  }

  lemma BlockBytes()
    ensures var b := BLOCK;
            && |b| == 48 && TagBytes(b, 0, 1) && TagBytes(b, 8, 3) && TagBytes(b, 24, 4) && TagBytes(b, 28, 1)
            && TagBytes(b, 36, 2) && TagBytes(b, 40, 2) && TagBytes(b, 44, 9)
            && b[4] == 0 && b[12] == b[13] == b[14] == 0 && b[15] == 2 && b[16] == b[17] == b[18] == 0 && b[19] == 2
            && b[20] == 5 && b[21] == 6 && b[32] == 97 && b[33] == 98 && b[34] == 0
  {}

  lemma BlockLaid()
    ensures Laid(BLOCK, STRINGS)
  {
    var b := BLOCK;
    BlockBytes();
    hide BLOCK, TagBytes;
    ShortName(b, 28);
    Pair(b, 32);
    Pair(b, 20);
    assert b[4..4] == [];
  }

  lemma WalkLaid(b: Bytes, strs: Bytes)
    requires Laid(b, strs)
    ensures Walk(b, strs, 0) == Some([Node([]), Property([120, 121], [5, 6]), Node([97, 98]), Close, Close])
  {
    hide Walk, GetString, TokenBytes, Sum, NextTag, EventAt;
    EventBytes(b, strs, 40, 2, 44, 44);
    EventBytes(b, strs, 36, 2, 40, 40);
    EventBytes(b, strs, 28, 1, 35, 36);
    EventBytes(b, strs, 24, 4, 28, 28);
    StringIs(strs, 2, [120, 121]);
    EventBytes(b, strs, 8, 3, 22, 24);
    EventBytes(b, strs, 0, 1, 5, 8);
    assert b[4..4] == [];
    var (node, prop, close) := ([Node([97, 98])], [Property([120, 121], [5, 6])], [Close]);
    WalkEnd(b, strs, 44);
    WalkOne(b, strs, 40, 2, 44, close, []);
    WalkOne(b, strs, 36, 2, 40, close, close + []);
    WalkOne(b, strs, 28, 1, 36, node, close + (close + []));
    WalkOne(b, strs, 24, 4, 28, [], node + (close + (close + [])));
    WalkOne(b, strs, 8, 3, 24, prop, [] + (node + (close + (close + []))));
    var rest := prop + ([] + (node + (close + (close + []))));
    WalkOne(b, strs, 0, 1, 8, [Node([])], rest);
    assert [Node([])] + rest == [Node([]), Property([120, 121], [5, 6]), Node([97, 98]), Close, Close];
  }

  /** Walking it tells what it says. */
  lemma WalkBlock()
    ensures Walk(BLOCK, STRINGS, 0)
            == Some([Node([]), Property([120, 121], [5, 6]), Node([97, 98]), Close, Close])
  {
    hide Laid, Walk;
    BlockLaid();
    WalkLaid(BLOCK, STRINGS);
  }

  lemma WalkEnd(b: Bytes, strs: Bytes, off: nat)
    requires TokenBytes(b, off, 9, off + 4) && off % 4 == 0
    ensures Walk(b, strs, off) == Some([])
  {
    hide NextTag;
    TagAt(b, off, 9, off + 4, off + 4);
  }
}
