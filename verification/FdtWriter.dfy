/** Writing a flattened device tree from front to back: the structure block grows upwards, the strings
    block downwards from the end of the buffer, and names are offsets back from that end until the
    tree is finished. */
module FdtWriter {
  import opened Basics
  import opened FdtBlock

  /** An offset back from the end of a strings block of `n` bytes, as an offset from its start: a sum of 32-bit
      words. */
  function Rebased(off: nat, n: nat): nat
    requires off < MAX && n < MAX
  {
    if off + n < MAX then off + n else off + n - MAX
  }

  predicate Small(ts: seq<Token>) { forall k :: 0 <= k < |ts| && ts[k].Prop? ==> ts[k].off < MAX }

  function Relocated(ts: seq<Token>, n: nat): (r: seq<Token>)
    requires n < MAX && Small(ts)
    ensures |r| == |ts|
  {
    seq(|ts|, k requires 0 <= k < |ts| => if ts[k].Prop? then Prop(Rebased(ts[k].off, n), ts[k].value) else ts[k])
  }

  /** Every name lies in a strings block of `n` bytes. */
  ghost predicate Back(ts: seq<Token>, n: nat) {
    forall k :: 0 <= k < |ts| && ts[k].Prop? ==> MAX - n <= ts[k].off < MAX
  }

  /** The events the tokens will stand for once the strings block `strs` is in place. */
  ghost function Pending(ts: seq<Token>, strs: Bytes): Option<seq<Event>>
    requires |strs| < MAX && Small(ts)
  {
    EventsOf(Relocated(ts, |strs|), strs)
  }

  /** Strings put in front of the others leave the names of earlier properties as they are. */
  lemma {:induction false} PendingKept(ts: seq<Token>, strs: Bytes, pre: Bytes)
    requires |pre| + |strs| < MAX && Back(ts, |strs|) && Small(ts) && Pending(ts, strs).Some?
    ensures Pending(ts, pre + strs) == Pending(ts, strs)
  {
    if ts != [] {
      var (r, r') := (Relocated(ts, |strs|), Relocated(ts, |pre + strs|));
      assert r[1..] == Relocated(ts[1..], |strs|) && r'[1..] == Relocated(ts[1..], |pre + strs|);
      PendingKept(ts[1..], strs, pre);
      if ts[0].Prop? {
        assert pre + strs + [] == pre + strs;
        StringShift(pre, strs, [], r[0].off);
      }
      hide GetString;
    }
  }

  lemma PendingAppend(ts: seq<Token>, t: Token, strs: Bytes)
    requires |strs| < MAX && Small(ts) && Small([t])
    ensures Small(ts + [t])
            && Pending(ts + [t], strs) == Joined(Pending(ts, strs), EventsOf(Relocated([t], |strs|), strs))
  {
    assert Relocated(ts + [t], |strs|) == Relocated(ts, |strs|) + Relocated([t], |strs|);
    EventsConcat(Relocated(ts, |strs|), Relocated([t], |strs|), strs);
    hide EventsOf;
  }

  lemma EventsOne(t: Token, strs: Bytes)
    ensures EventsOf([t], strs) == EventOf(t, strs)
  {
    assert [t][1..] == [];
    var e := EventOf(t, strs);
    if e.Some? { assert e.v + [] == e.v; }
    hide EventOf;
  }

  // ----- the bytes of new tokens -----

  lemma BeginBytes(b: Bytes, name: Bytes)
    requires 0 !in name && |b| == Size(Begin(name)) && b[..4 + |name| + 1] == Word(BEGIN_NODE) + name + [0]
    ensures IsToken(b, Begin(name))
  {
    var (w, n) := (Word(BEGIN_NODE) + name + [0], |name|);
    assert b[..4] == b[..4 + n + 1][..4] == w[..4] == Word(BEGIN_NODE);
    assert b[4..4 + n] == b[..4 + n + 1][4..4 + n] == w[4..4 + n] == name;
    assert b[4 + n] == b[..4 + n + 1][4 + n] == w[4 + n] == 0;
    hide Word, Size;
  }

  /** Three words and some bytes, one behind the other at the start of `b`. */
  lemma Fields(b: Bytes, x: Bytes, y: Bytes, z: Bytes, v: Bytes)
    requires |x| == |y| == |z| == 4 && 12 + |v| <= |b| && b[..12 + |v|] == x + y + z + v
    ensures b[..4] == x && b[4..8] == y && b[8..12] == z && b[12..12 + |v|] == v
  {
    var w := x + y + z + v;
    assert forall i :: 0 <= i < |w| ==> b[i] == w[i];
  }

  lemma PropBytes(b: Bytes, off: nat, value: Bytes)
    requires off < MAX && |value| < MAX && |b| == Size(Prop(off, value))
    requires b[..12 + |value|] == Word(PROP) + Word(|value|) + Word(off) + value
    ensures IsToken(b, Prop(off, value))
  {
    hide Word;
    Fields(b, Word(PROP), Word(|value|), Word(off), value);
  }

  /** A property whose name offset is overwritten. */
  lemma RenameBytes(b: Bytes, t: Token, off: nat)
    requires t.Prop? && IsToken(b, t) && off < MAX
    ensures IsToken(Put(b, 8, Word(off)), Prop(off, t.value))
  {
    var (r, n) := (Put(b, 8, Word(off)), |t.value|);
    assert r[..4] == b[..4] && r[4..8] == b[4..8] && r[8..12] == Word(off) && r[12..12 + n] == b[12..12 + n];
    hide Word;
  }

  // ----- the unfinished tree in its buffer -----

  ghost predicate Fits(b: Bytes, off: nat, st: nat, ss: nat) { off + st + ss <= |b| < MAX }

  /** Structure block of `st` bytes at `off`, strings block of `ss` bytes at the end of the buffer. */
  ghost predicate Written(b: Bytes, off: nat, st: nat, ss: nat, toks: seq<Token>, events: seq<Event>) {
    && Fits(b, off, st, ss) && Encodes(b[off..off + st], toks) && Fin !in toks && Small(toks) && Back(toks, ss)
    && Pending(toks, b[|b| - ss..]) == Some(events)
  }

  lemma AddedBytes(b: Bytes, off: nat, st: nat, ss: nat, toks: seq<Token>, d: Bytes, t: Token)
    requires Fits(b, off, st, ss) && Encodes(b[off..off + st], toks) && |d| <= Size(t) && off + st + Size(t) + ss <= |b|
    requires IsToken(Put(b, off + st, d)[off + st..off + st + Size(t)], t)
    ensures var b' := Put(b, off + st, d);
            Encodes(b'[off..off + (st + Size(t))], toks + [t]) && b'[|b| - ss..] == b[|b| - ss..]
  {
    hide Size, IsToken, Encodes;
    var (b', at) := (Put(b, off + st, d), off + st);
    PutBelow(b, at, d, off, at);
    PutAbove(b, at, d, |b| - ss, |b|);
    EncodesOne(b'[at..at + Size(t)], t);
    EncodesConcat(b'[off..at], toks, b'[at..at + Size(t)], [t]);
    hide Put;
    assert b'[off..at] + b'[at..at + Size(t)] == b'[off..off + (st + Size(t))];
  }

  /** A token written behind the others, in room for `Size(t)` bytes. */
  lemma AddedToken(b: Bytes, off: nat, st: nat, ss: nat, toks: seq<Token>, events: seq<Event>, d: Bytes, t: Token,
                   e: seq<Event>)
    requires Written(b, off, st, ss, toks, events) && |d| <= Size(t) && off + st + Size(t) + ss <= |b|
    requires IsToken(Put(b, off + st, d)[off + st..off + st + Size(t)], t) && !t.Fin? && Small([t]) && Back([t], ss)
    requires EventsOf(Relocated([t], ss), b[|b| - ss..]) == Some(e)
    ensures Written(Put(b, off + st, d), off, st + Size(t), ss, toks + [t], events + e)
  {
    hide Size, IsToken, EventsOf, Encodes, Relocated, Pending;
    AddedBytes(b, off, st, ss, toks, d, t);
    PendingAppend(toks, t, b[|b| - ss..]);
  }

  lemma AddedString(b: Bytes, off: nat, st: nat, ss: nat, toks: seq<Token>, events: seq<Event>, s: Bytes)
    requires Written(b, off, st, ss, toks, events) && off + st + ss + |s| + 1 <= |b|
    ensures var b' := Put(b, |b| - ss - |s| - 1, s + [0]);
            && Written(b', off, st, ss + |s| + 1, toks, events) && StringAt(b'[|b| - ss - |s| - 1..], 0, s)
            && Written(b', off, st, ss, toks, events)
  {
    hide Encodes, EventsOf;
    var (at, d) := (|b| - ss - |s| - 1, s + [0]);
    var b' := Put(b, at, d);
    PutBelow(b, at, d, off, off + st);
    PutAbove(b, at, d, |b| - ss, |b|);
    PutHere(b, at, d);
    assert b'[at..] == d + b'[|b| - ss..];
    PendingKept(toks, b[|b| - ss..], d);
    assert b'[at..][..|s| + 1] == b'[at..at + |d|];
    hide Put, Pending;
  }

  // ----- finishing -----

  /** The block when the names of the first `k` tokens have been relocated. */
  ghost predicate Halfway(block: Bytes, toks: seq<Token>, k: nat, ss: nat)
    requires k <= |toks| && ss < MAX && Small(toks)
  {
    Encodes(block, Relocated(toks[..k], ss) + (toks[k..] + [Fin]))
  }

  lemma {:induction false} RelocatedTotal(ts: seq<Token>, n: nat)
    requires n < MAX && Small(ts)
    ensures Total(Relocated(ts, n)) == Total(ts)
  {
    if ts != [] {
      assert Relocated(ts, n)[1..] == Relocated(ts[1..], n);
      RelocatedTotal(ts[1..], n);
    }
  }

  lemma TotalNext(ts: seq<Token>, k: nat)
    requires k < |ts|
    ensures Total(ts[..k + 1]) == Total(ts[..k]) + Size(ts[k])
  {
    hide Size;
    assert ts[..k + 1] == ts[..k] + [ts[k]];
    TotalConcat(ts[..k], [ts[k]]);
    assert [ts[k]][1..] == [];
  }

  lemma HalfwayCut(block: Bytes, toks: seq<Token>, k: nat, ss: nat)
    requires k < |toks| && ss < MAX && Small(toks) && Halfway(block, toks, k, ss)
    ensures var (o, t) := (Total(toks[..k]), toks[k]);
            && o + Size(t) <= |block| && Encodes(block[..o], Relocated(toks[..k], ss))
            && IsToken(block[o..o + Size(t)], t)
            && Encodes(block[o + Size(t)..], toks[k + 1..] + [Fin])
  {
    hide IsToken, Encodes, Size;
    RelocatedTotal(toks[..k], ss);
    assert toks[k..] + [Fin] == [toks[k]] + (toks[k + 1..] + [Fin]);
    Cut(block, Relocated(toks[..k], ss), toks[k], toks[k + 1..] + [Fin]);
  }

  lemma HalfwayGlue(a: Bytes, b: Bytes, c: Bytes, toks: seq<Token>, k: nat, ss: nat)
    requires k < |toks| && ss < MAX && Small(toks) && Encodes(a, Relocated(toks[..k], ss))
             && Encodes(c, toks[k + 1..] + [Fin])
    requires var t := toks[k]; IsToken(b, if t.Prop? then Prop(Rebased(t.off, ss), t.value) else t)
    ensures Halfway(a + b + c, toks, k + 1, ss)
  {
    hide IsToken, Encodes, Size;
    var (s, u) := (Relocated(toks[..k], ss), toks[k + 1..] + [Fin]);
    var t' := if toks[k].Prop? then Prop(Rebased(toks[k].off, ss), toks[k].value) else toks[k];
    Glue(a, s, b, t', c, u);
    assert Relocated(toks[..k + 1], ss) == s + [t'];
    assert s + ([t'] + u) == (s + [t']) + u;
  }

  /** One step of the relocation: what the walk finds and what the overwritten block holds. */
  lemma HalfwayStep(block: Bytes, toks: seq<Token>, k: nat, ss: nat)
    requires k < |toks| && ss < MAX && Small(toks) && Halfway(block, toks, k, ss)
    ensures var (o, t) := (Total(toks[..k]), toks[k]);
            && o + Size(t) <= |block| && IsToken(block[o..o + Size(t)], t) && o + Size(t) == Total(toks[..k + 1])
            && (!t.Prop? ==> Halfway(block, toks, k + 1, ss))
            && (t.Prop? ==> o + 12 <= |block| && Halfway(Put(block, o + 8, Word(Rebased(t.off, ss))), toks, k + 1, ss))
  {
    hide IsToken, Encodes, Word, Halfway, Relocated;
    var (o, t) := (Total(toks[..k]), toks[k]);
    TotalNext(toks, k);
    HalfwayCut(block, toks, k, ss);
    var (a, b, c) := (block[..o], block[o..o + Size(t)], block[o + Size(t)..]);
    if t.Prop? {
      var w := Word(Rebased(t.off, ss));
      RenameBytes(b, t, Rebased(t.off, ss));
      HalfwayGlue(a, Put(b, 8, w), c, toks, k, ss);
      assert a + Put(b, 8, w) + c == Put(block, o + 8, w);
    } else {
      HalfwayGlue(a, b, c, toks, k, ss);
      assert a + b + c == block;
    }
  }

  /** The end tag behind all tokens starts the relocation. */
  lemma HalfwayStart(b: Bytes, off: nat, st: nat, ss: nat, toks: seq<Token>, events: seq<Event>)
    requires Written(b, off, st, ss, toks, events) && off + st + 4 + ss <= |b|
    ensures var (b', strs) := (Put(b, off + st, Word(END)), b[|b| - ss..]);
            && b'[|b| - ss..] == strs && off + st + 4 + |strs| <= |b'|
            && Halfway(Put(b', off + st + 4, strs)[off..off + st + 4], toks, 0, ss)
  {
    hide IsToken, Encodes, Word, Put, Pending;
    var (at, d, strs) := (off + st, Word(END), b[|b| - ss..]);
    var b' := Put(b, at, d);
    PutHere(b, at, d);
    PlainBytes(d, Fin);
    AddedBytes(b, off, st, ss, toks, d, Fin);
    PutBelow(b', at + 4, strs, off, at + 4);
    assert toks[..0] == [] && toks[0..] == toks;
    assert Relocated([], ss) + (toks + [Fin]) == toks + [Fin];
  }

  lemma HalfwayFin(block: Bytes, toks: seq<Token>, ss: nat)
    requires ss < MAX && Small(toks) && Halfway(block, toks, |toks|, ss)
    ensures Encodes(block, Relocated(toks, ss) + [Fin])
    ensures var o := Total(toks); o + 4 <= |block| && IsToken(block[o..o + 4], Fin) && o % 4 == 0
  {
    hide IsToken, Encodes, Total;
    assert toks[..|toks|] == toks && toks[|toks|..] + [Fin] == [Fin] + [] == [Fin];
    RelocatedTotal(toks, ss);
    TotalAligned(toks);
    Cut(block, Relocated(toks, ss), Fin, []);
  }

  /** With all names relocated the walk tells what was written. */
  lemma HalfwayEnd(block: Bytes, strs: Bytes, toks: seq<Token>)
    requires |strs| < MAX && Small(toks) && Halfway(block, toks, |toks|, |strs|) && Fin !in toks
    ensures Pending(toks, strs).Some? ==> Tree(block, strs, Relocated(toks, |strs|), Pending(toks, strs).v)
  {
    hide IsToken, Encodes, EventsOf, Total, Halfway;
    HalfwayFin(block, toks, |strs|);
  }

  /** What the correcting walk reads at each step. */
  lemma HalfwayRead(block: Bytes, toks: seq<Token>, k: nat, ss: nat)
    requires k < |toks| && ss < MAX && Small(toks) && Halfway(block, toks, k, ss)
    ensures var (o, t) := (Total(toks[..k]), toks[k]);
            && NextTag(block, o) == Step(TagOf(t), Total(toks[..k + 1]))
            && (t.Prop? ==> o + 12 <= |block| && Value(block[o + 8..o + 12]) == t.off)
  {
    hide IsToken, Encodes, Word, Halfway, Relocated, NextTag, Value, Put;
    var (o, t) := (Total(toks[..k]), toks[k]);
    HalfwayStep(block, toks, k, ss);
    TotalAligned(toks[..k]);
    NextAt(block, o, t);
    if t.Prop? {
      NextProp(block, o, t);
      ValueWord(t.off);
    }
  }

  /** Correcting the name offset of the property at `o`. */
  method RelocateOne(buf: array<Byte>, off: nat, end: nat, ss: nat, o: nat)
    requires off <= end <= buf.Length && ss < MAX && o + 12 <= end - off
    modifies buf
    ensures var b := old(buf[off..end]); buf[off..end] == Put(b, o + 8, Word(Rebased(Value(b[o + 8..o + 12]), ss)))
    ensures buf[end..] == old(buf[end..])
  {
    hide Word, Value, Put;
    var at := off + o + 8;
    var w := Word(Rebased(Value(buf[at..at + 4]), ss));
    Slice(buf[..], off, end - off, o + 8, o + 12);
    PutInside(buf[..], off, end - off, o + 8, w);
    PutAbove(buf[..], at, w, end, buf.Length);
    Store(buf, at, w);
  }

  /** The walk that corrects the name offsets. */
  method RelocateNames(buf: array<Byte>, off: nat, end: nat, ss: nat, ghost toks: seq<Token>)
    requires off <= end <= buf.Length && ss < MAX && Small(toks) && Fin !in toks && Halfway(buf[off..end], toks, 0, ss)
    modifies buf
    ensures Halfway(buf[off..end], toks, |toks|, ss) && buf[end..] == old(buf[end..])
  {
    hide Halfway, NextTag, Word, Value, IsToken, Put, Small;
    ghost var k := 0;
    var o := 0;
    while true
      invariant k <= |toks| && o == Total(toks[..k]) && Halfway(buf[off..end], toks, k, ss)
                && buf[end..] == old(buf[end..])
      decreases |toks| - k
    {
      if k == |toks| { EndRead(buf[off..end], toks, ss); } else { HalfwayRead(buf[off..end], toks, k, ss); }
      var s := ReadTag(buf[off..end], o);
      if !s.Step? || s.tag == END { break; }
      HalfwayStep(buf[off..end], toks, k, ss);
      if s.tag == PROP { RelocateOne(buf, off, end, ss, o); }
      o := s.next;
      k := k + 1;
    }
  }

  lemma EndRead(block: Bytes, toks: seq<Token>, ss: nat)
    requires ss < MAX && Small(toks) && Halfway(block, toks, |toks|, ss)
    ensures NextTag(block, Total(toks[..|toks|])) == Step(END, Total(toks) + 4)
  {
    hide IsToken, Encodes, Total, NextTag, Halfway, Relocated;
    assert toks[..|toks|] == toks;
    HalfwayFin(block, toks, ss);
    NextAt(block, Total(toks), Fin);
  }

  lemma PutInside(b: Bytes, off: nat, n: nat, at: nat, d: Bytes)
    requires off + n <= |b| && at + |d| <= n
    ensures Put(b, off + at, d)[off..off + n] == Put(b[off..off + n], at, d)
  {}

  // ----- the room test for a name -----

  /** A 32-bit unsigned result. */
  function Wrap(x: int): (r: nat)
    ensures r < MAX
  {
    x % MAX
  }

  /** The test for room for `len` more bytes of strings: a difference of unsigned words, against the end
      of the structure. */
  predicate PassesTest(total: nat, ss: nat, len: nat, top: nat) { Wrap(total - Wrap(ss + len)) >= top }

  /** All strings together, `all` bytes, are more than the buffer, and the difference wraps around to
      something large. */
  predicate Overrun(total: nat, all: nat, top: nat) {
    all > total && var m := (all - total) % MAX; if m == 0 then top == 0 else m + top <= MAX
  }

  /** The test tells whether there is room exactly when it is not overrun; then it lets the name through,
      to be stored in front of the buffer. It is right whenever all strings together fit the buffer. */
  lemma TestExact(total: nat, ss: nat, len: nat, top: nat)
    requires top <= total < MAX && ss <= total
    ensures (PassesTest(total, ss, len, top) <==> ss + len + top <= total) <==> !Overrun(total, ss + len, top)
    ensures Overrun(total, ss + len, top) ==> PassesTest(total, ss, len, top)
  {
    var all := ss + len;
    if all <= total {
      assert Wrap(all) == all;
    } else {
      Wrapped(total, all);
    }
  }

  lemma Wrapped(total: nat, all: nat)
    requires total < MAX && all > total
    ensures var m := (all - total) % MAX; Wrap(total - Wrap(all)) == if m == 0 then 0 else MAX - m
  {}

  lemma FitsTest(total: nat, all: nat, top: nat)
    requires all <= total
    ensures !Overrun(total, all, top)
  {}

  /** A buffer of 64 bytes, which header and empty reserve map fill, and a name of 80. */
  lemma OverrunInput()
    ensures Front(0) == 64 && PassesTest(64, 0, 81, Front(0)) && 0 + 81 + Front(0) > 64 && Overrun(64, 81, Front(0))
  {}

  /** Where a name lies, back from the end of the buffer; that there is no room; or that the source goes on
      to store it in front of the buffer, where the model stops. */
  datatype Place = At(back: nat) | NoRoom | InFront

  datatype Answer = Done | NoSpace | Outside

  class Writer {
    const buf: array<Byte>
    const dedup: bool
    const offStruct: nat
    var sizeStruct: nat
    var sizeStrings: nat
    ghost var toks: seq<Token>
    ghost var events: seq<Event>

    ghost predicate Valid()
      reads this, buf
    {
      Written(buf[..], offStruct, sizeStruct, sizeStrings, toks, events)
    }

    /** A buffer whose header and reserve map end at `off`. */
    constructor (size: nat, off: nat, dedup: bool)
      requires off <= size < MAX
      ensures Valid() && fresh(buf) && events == [] && buf.Length == size && offStruct == off && this.dedup == dedup
      ensures sizeStruct == 0 && sizeStrings == 0
    {
      buf := new Byte[size](_ => 0);
      this.dedup, offStruct, sizeStruct, sizeStrings := dedup, off, 0, 0;
      toks, events := [], [];
    }

    /** Room for `len` more bytes of structure. */
    predicate Room(len: nat)
      reads this
    {
      sizeStruct + len <= buf.Length - offStruct - sizeStrings
    }

    method BeginNode(name: Bytes) returns (ok: bool)
      requires Valid() && 0 !in name
      modifies this, buf
      ensures Valid() && events == old(events) + (if ok then [Node(name)] else [])
      ensures ok <==> old(offStruct + sizeStruct) + 4 + Align(|name| + 1) + old(sizeStrings) <= buf.Length
      ensures !ok ==> buf[..] == old(buf[..]) && sizeStruct == old(sizeStruct)
      ensures sizeStrings == old(sizeStrings)
    {
      hide Written, IsToken, Word, Put;
      InBuffer(buf[..], offStruct, sizeStruct, sizeStrings, toks, events);
      var len := 4 + Align(|name| + 1);
      ok := Room(len);
      if ok {
        var (at, d) := (offStruct + sizeStruct, Word(BEGIN_NODE) + name + [0]);
        PutHere(buf[..], at, d);
        Slice(Put(buf[..], at, d), at, len, 0, |d|);
        BeginBytes(Put(buf[..], at, d)[at..at + len], name);
        EventsOne(Begin(name), buf[buf.Length - sizeStrings..]);
        assert Relocated([Begin(name)], sizeStrings) == [Begin(name)];
        AddedToken(buf[..], offStruct, sizeStruct, sizeStrings, toks, events, d, Begin(name), [Node(name)]);
        Store(buf, at, d);
        sizeStruct := sizeStruct + len;
        toks, events := toks + [Begin(name)], events + [Node(name)];
      }
    }

    method EndTheNode() returns (ok: bool)
      requires Valid()
      modifies this, buf
      ensures Valid() && events == old(events) + (if ok then [Close] else [])
      ensures ok <==> old(offStruct + sizeStruct) + 4 + old(sizeStrings) <= buf.Length
      ensures !ok ==> buf[..] == old(buf[..]) && sizeStruct == old(sizeStruct)
      ensures sizeStrings == old(sizeStrings)
    {
      hide Written, IsToken, Word, Put;
      InBuffer(buf[..], offStruct, sizeStruct, sizeStrings, toks, events);
      ok := Room(4);
      if ok {
        var (at, d) := (offStruct + sizeStruct, Word(END_NODE));
        PutHere(buf[..], at, d);
        PlainBytes(d, EndNode);
        EventsOne(EndNode, buf[buf.Length - sizeStrings..]);
        assert Relocated([EndNode], sizeStrings) == [EndNode];
        AddedToken(buf[..], offStruct, sizeStruct, sizeStrings, toks, events, d, EndNode, [Close]);
        Store(buf, at, d);
        sizeStruct := sizeStruct + 4;
        toks, events := toks + [EndNode], events + [Close];
      }
    }

    /** The name is to be shared and there already. */
    ghost predicate Known(name: Bytes)
      requires sizeStrings <= buf.Length
      reads this, buf
    {
      dedup && var strs := buf[buf.Length - sizeStrings..]; exists p: nat :: StringAt(strs, p, name)
    }

    /** The name is new and the test for room lets it through although it does not fit the buffer. */
    ghost predicate Overruns(name: Bytes)
      requires sizeStrings <= buf.Length
      reads this, buf
    {
      !Known(name) && Overrun(buf.Length, sizeStrings + |name| + 1, offStruct + sizeStruct)
    }

    /** The offset of `name` back from the end of the buffer, found among the names there or added in
        front of them. */
    method NameOffset(name: Bytes) returns (r: Place, added: bool)
      requires Valid() && 0 !in name && sizeStrings <= buf.Length
      modifies this, buf
      ensures Valid() && events == old(events) && toks == old(toks) && sizeStruct == old(sizeStruct)
      ensures r.At? ==> && 0 < r.back <= sizeStrings
                        && GetString(buf[buf.Length - sizeStrings..], sizeStrings - r.back) == Some(name)
      ensures sizeStrings == old(sizeStrings) + (if added && r.At? then |name| + 1 else 0)
      ensures added && r.At? ==> Written(buf[..], offStruct, sizeStruct, old(sizeStrings), toks, events)
      ensures !r.At? ==> buf[..] == old(buf[..])
      ensures r.At? <==> old(Known(name)) || old(offStruct + sizeStruct + sizeStrings) + |name| + 1 <= buf.Length
      ensures r.InFront? <==> old(Overruns(name))
      ensures added == !old(Known(name))
    {
      hide Written, Put, GetString, PassesTest, Overrun;
      InBuffer(buf[..], offStruct, sizeStruct, sizeStrings, toks, events);
      if dedup {
        var strs := buf[buf.Length - sizeStrings..];
        var p := FindString(strs, name);
        if p.Some? {
          StringIs(strs, p.v, name);
          return At(sizeStrings - p.v), false;
        }
      }
      added := true;
      var len := |name| + 1;
      TestExact(buf.Length, sizeStrings, len, offStruct + sizeStruct);
      if !PassesTest(buf.Length, sizeStrings, len, offStruct + sizeStruct) { return NoRoom, true; }
      if sizeStrings + len > buf.Length { return InFront, true; }
      FitsTest(buf.Length, sizeStrings + len, offStruct + sizeStruct);
      AddedString(buf[..], offStruct, sizeStruct, sizeStrings, toks, events, name);
      Store(buf, buf.Length - sizeStrings - len, name + [0]);
      sizeStrings := sizeStrings + len;
      StringIs(buf[buf.Length - sizeStrings..], 0, name);
      r := At(sizeStrings);
    }

    /** A property; without room for it a name just added is taken back. */
    method AddProperty(name: Bytes, value: Bytes) returns (r: Answer)
      requires Valid() && 0 !in name && |value| < MAX && sizeStrings <= buf.Length
      modifies this, buf
      ensures Valid() && events == old(events) + (if r == Done then [Property(name, value)] else [])
      ensures var more := if old(Known(name)) then 0 else |name| + 1;
              r == if old(Overruns(name)) then Outside
                   else if old(offStruct + sizeStruct + sizeStrings) + 12 + Align(|value|) + more <= buf.Length
                   then Done else NoSpace
      ensures r != Done ==> sizeStruct == old(sizeStruct) && sizeStrings == old(sizeStrings)
    {
      hide Written, IsToken, Word, Put, GetString, StringAt, Overrun;
      var place, added := NameOffset(name);
      if place.InFront? { return Outside; }
      if place.NoRoom? { return NoSpace; }
      InBuffer(buf[..], offStruct, sizeStruct, sizeStrings, toks, events);
      var len := 12 + Align(|value|);
      if !Room(len) {
        if added { sizeStrings := sizeStrings - (|name| + 1); }
        return NoSpace;
      }
      r := Done;
      var off := MAX - place.back;
      var (at, d) := (offStruct + sizeStruct, Word(PROP) + Word(|value|) + Word(off) + value);
      PutHere(buf[..], at, d);
      Slice(Put(buf[..], at, d), at, len, 0, |d|);
      PropBytes(Put(buf[..], at, d)[at..at + len], off, value);
      assert Relocated([Prop(off, value)], sizeStrings) == [Prop(sizeStrings - place.back, value)];
      EventsOne(Prop(sizeStrings - place.back, value), buf[buf.Length - sizeStrings..]);
      AddedToken(buf[..], offStruct, sizeStruct, sizeStrings, toks, events, d, Prop(off, value),
          [Property(name, value)]);
      Store(buf, at, d);
      sizeStruct := sizeStruct + len;
      toks, events := toks + [Prop(off, value)], events + [Property(name, value)];
    }

    /** The end tag, the strings moved up to it, and every name offset corrected: walking the result
        tells exactly the nodes, properties and values written. */
    method Finish() returns (ok: bool, offStrings: nat, ghost ts: seq<Token>)
      requires Valid()
      modifies this, buf
      ensures ok <==> old(offStruct + sizeStruct + sizeStrings) + 4 <= buf.Length
      ensures ok ==>
                && offStrings == offStruct + sizeStruct && offStrings + sizeStrings <= buf.Length
                && Walk(buf[offStruct..offStrings], buf[offStrings..offStrings + sizeStrings], 0) == Some(old(events))
                && Tree(buf[offStruct..offStrings], buf[offStrings..offStrings + sizeStrings], ts, old(events))
    {
      hide Written, IsToken, Word, Put, Halfway, Walk, Pending, NextTag, Tree;
      InBuffer(buf[..], offStruct, sizeStruct, sizeStrings, toks, events);
      ok, offStrings, ts := Room(4), 0, Relocated([], 0);
      if !ok { return; }
      HalfwayStart(buf[..], offStruct, sizeStruct, sizeStrings, toks, events);
      ToksOk(buf[..], offStruct, sizeStruct, sizeStrings, toks, events);
      Store(buf, offStruct + sizeStruct, Word(END));
      sizeStruct := sizeStruct + 4;
      offStrings := offStruct + sizeStruct;
      var strs := buf[buf.Length - sizeStrings..];
      PutHere(buf[..], offStrings, strs);
      Store(buf, offStrings, strs);
      assert buf[offStrings..][..sizeStrings] == buf[..][offStrings..offStrings + |strs|] == strs;
      RelocateNames(buf, offStruct, offStrings, sizeStrings, toks);
      assert buf[offStrings..offStrings + sizeStrings] == buf[offStrings..][..sizeStrings] == strs;
      HalfwayEnd(buf[offStruct..offStrings], strs, toks);
      ts := Relocated(toks, sizeStrings);
      TreeWalk(buf[offStruct..offStrings], strs, ts, events);
    }
  }

  /** The same input as calls: the tree is begun, and its first property goes astray. */
  method OverrunRun(name: Bytes, value: Bytes) returns (r: Answer)
    requires |name| == 80 && 0 !in name && |value| < MAX
    ensures r == Outside
  {
    hide Overrun;
    OverrunInput();
    var c := Create(64, 0, 0);
    r := c.w.AddProperty(name, value);
  }

  /** A writer, or why there is none. */
  datatype Created = Made(w: Writer) | TooSmall | BadFlags

  /** Header and reserve map with its end entry: 40 bytes rounded up to the size of an entry, which is 16. */
  function Front(reserved: nat): nat { 48 + 16 * (reserved + 1) }

  /** A tree begun in a buffer of `size` bytes, with `reserved` memory reservations; flag 1 keeps equal names apart. */
  method Create(size: nat, flags: nat, reserved: nat) returns (r: Created)
    requires size < MAX
    ensures match r
            case TooSmall => size < 48 || (flags <= 1 && size < Front(reserved))
            case BadFlags => size >= 48 && flags > 1
            case Made(w) => && flags <= 1 && w.Valid() && fresh(w) && fresh(w.buf)
                            && w.events == [] && w.buf.Length == size
                            && w.offStruct == Front(reserved) <= size && (w.dedup <==> flags == 0)
                            && w.sizeStruct == 0 && w.sizeStrings == 0
  {
    if size < 48 { return TooSmall; }
    if flags > 1 { return BadFlags; }
    var (off, k) := (48, 0);
    while k <= reserved
      invariant k <= reserved + 1 && off == 48 + 16 * k <= size
    {
      if off + 16 > size { return TooSmall; }
      off, k := off + 16, k + 1;
    }
    var w := new Writer(size, off, flags == 0);
    r := Made(w);
  }

  lemma InBuffer(b: Bytes, off: nat, st: nat, ss: nat, toks: seq<Token>, events: seq<Event>)
    requires Written(b, off, st, ss, toks, events)
    ensures Fits(b, off, st, ss)
  {}

  lemma ToksOk(b: Bytes, off: nat, st: nat, ss: nat, toks: seq<Token>, events: seq<Event>)
    requires Written(b, off, st, ss, toks, events)
    ensures Small(toks) && Fin !in toks && Pending(toks, b[|b| - ss..]) == Some(events)
  {}

  lemma PlainBytes(b: Bytes, t: Token)
    requires (t.EndNode? || t.Nop? || t.Fin?) && b == Word(TagOf(t))
    ensures IsToken(b, t)
  {}
}
